/**
  What a CRC is: the remainder of the message, multiplied by x^w, on division by the
  polynomial x^w + p over the integers modulo 2.  Both routines are compared with it.
 */
module CrcDivision {
  import opened CrcModel

  /** Coefficients modulo 2, the highest first. */
  type Poly = seq<bool>

  function Nulls(n: nat): (p: Poly)
    ensures |p| == n
  {
    seq(n, _ => false)
  }

  function Sum(a: Poly, b: Poly): (r: Poly)
    requires |a| == |b|
    ensures |r| == |a|
  {
    seq(|a|, i requires 0 <= i < |a| => a[i] != b[i])
  }

  /** The product with x^w + p, by shifting and adding for one bit of the quotient after the other. */
  function Product(q: Poly, p: Poly): (r: Poly)
    ensures |r| == |q| + |p|
  {
    if q == [] then Nulls(|p|) else
    var n := |q| - 1;
    Sum(Product(q[..n], p) + [false], Nulls(n) + if q[n] then [true] + p else Nulls(|p| + 1))
  }

  /** r is what remains of m * x^w + init * x^|m| on division by x^w + p. */
  ghost predicate IsRemainder(m: Poly, init: Poly, p: Poly, r: Poly)
    requires |init| == |r| == |p|
  {
    exists q: Poly :: |q| == |m|
      && Sum(m + Nulls(|p|), init + Nulls(|m|)) == Sum(Product(q, p), Nulls(|m|) + r)
  }

  // ---------------------------------------------------------- the register

  /** One message bit into a feedback register. */
  function Step(r: Poly, bit: bool, p: Poly): (next: Poly)
    requires |r| == |p| > 0
    ensures |next| == |p|
  {
    var shifted := r[1..] + [false];
    if r[0] != bit then Sum(shifted, p) else shifted
  }

  function Register(m: Poly, init: Poly, p: Poly): (r: Poly)
    requires |init| == |p| > 0
    ensures |r| == |p|
  {
    if m == [] then init else Step(Register(m[..|m| - 1], init, p), m[|m| - 1], p)
  }

  /** The bits that were fed back. */
  function Quotient(m: Poly, init: Poly, p: Poly): (q: Poly)
    requires |init| == |p| > 0
    ensures |q| == |m|
  {
    if m == [] then [] else
    var before := m[..|m| - 1];
    Quotient(before, init, p) + [Register(before, init, p)[0] != m[|m| - 1]]
  }

  /** Division by feedback: quotient and remainder. */
  lemma {:induction false} Division(m: Poly, init: Poly, p: Poly)
    requires |init| == |p| > 0
    ensures Sum(m + Nulls(|p|), init + Nulls(|m|))
      == Sum(Product(Quotient(m, init, p), p), Nulls(|m|) + Register(m, init, p))
    decreases |m|
  {
    hide Sum, Nulls, Step, Register, Quotient, Product;
    if m == [] {
      EmptyDivision(init, p);
    } else {
      var before, bit := m[..|m| - 1], m[|m| - 1];
      var q, r := Quotient(before, init, p), Register(before, init, p);
      Division(before, init, p);
      DivisionStep(before, bit, init, p, Product(q, p), r);
      assert m == before + [bit];
      ProductStep(q, r[0] != bit, p);
      OneMore(before, bit, init, p);
    }
  }

  lemma EmptyDivision(init: Poly, p: Poly)
    requires |init| == |p| > 0
    ensures Sum([] + Nulls(|p|), init + Nulls(0)) == init == Register([], init, p)
    ensures Sum(Product(Quotient([], init, p), p), Nulls(0) + init) == init
  {
  }

  lemma OneMore(m: Poly, bit: bool, init: Poly, p: Poly)
    requires |init| == |p| > 0
    ensures var r := Register(m, init, p);
      Quotient(m + [bit], init, p) == Quotient(m, init, p) + [r[0] != bit]
      && Register(m + [bit], init, p) == Step(r, bit, p)
  {
    hide Step;
    assert (m + [bit])[..|m|] == m;
  }

  lemma ProductStep(q: Poly, bit: bool, p: Poly)
    ensures Product(q + [bit], p)
      == Sum(Product(q, p) + [false], Nulls(|q|) + if bit then [true] + p else Nulls(|p| + 1))
  {
    assert (q + [bit])[..|q|] == q;
  }

  /** One more message bit: everything moves up by one, and the top of the register with the bit is divided. */
  lemma DivisionStep(m: Poly, bit: bool, init: Poly, p: Poly, product: Poly, r: Poly)
    requires |init| == |p| == |r| > 0 && |product| == |m| + |p|
    requires Sum(m + Nulls(|p|), init + Nulls(|m|)) == Sum(product, Nulls(|m|) + r)
    ensures Sum(m + [bit] + Nulls(|p|), init + Nulls(|m| + 1))
      == Sum(Sum(product + [false], Nulls(|m|) + if r[0] != bit then [true] + p else Nulls(|p| + 1)),
             Nulls(|m| + 1) + Step(r, bit, p))
  {
    var n, w := |m|, |p|;
    var left := Sum(m + [bit] + Nulls(w), init + Nulls(n + 1));
    var right := Sum(Sum(product + [false], Nulls(n) + if r[0] != bit then [true] + p else Nulls(w + 1)),
                     Nulls(n + 1) + Step(r, bit, p));
    var a, b := Sum(m + Nulls(w), init + Nulls(n)), Sum(product, Nulls(n) + r);
    forall i | 0 <= i < n + w + 1 ensures left[i] == right[i] {
      if i < n + w {
        assert a[i] == b[i];
      }
    }
  }

  /** The upper part of a product determines the quotient. */
  lemma {:induction false} HighDetermines(q: Poly, q': Poly, p: Poly)
    requires |q| == |q'| && |p| > 0
    requires Product(q, p)[..|q|] == Product(q', p)[..|q|]
    ensures q == q'
    decreases |q|
  {
    hide Product;
    if q != [] {
      var n := |q| - 1;
      var a, b := q[..n], q'[..n];
      assert q == a + [q[n]] && q' == b + [q'[n]];
      forall i | 0 <= i < n ensures Product(a, p)[i] == Product(b, p)[i] {
        HighBits(a, q[n], p, i);
        HighBits(b, q'[n], p, i);
        assert Product(q, p)[..|q|][i] == Product(q', p)[..|q|][i];
      }
      assert Product(a, p)[..n] == Product(b, p)[..n];
      HighDetermines(a, b, p);
      HighBits(a, q[n], p, n);
      HighBits(b, q'[n], p, n);
      assert Product(q, p)[..|q|][n] == Product(q', p)[..|q|][n];
    }
  }

  lemma HighBits(q: Poly, bit: bool, p: Poly, i: nat)
    requires i <= |q| && |p| > 0
    ensures i < |q| ==> Product(q + [bit], p)[i] == Product(q, p)[i]
    ensures i == |q| ==> Product(q + [bit], p)[i] == (Product(q, p)[i] != bit)
  {
    hide Product;
    ProductStep(q, bit, p);
  }

  /** There is one remainder, and the register holds it. */
  lemma RemainderIff(m: Poly, init: Poly, p: Poly, r: Poly)
    requires |init| == |p| == |r| > 0
    ensures IsRemainder(m, init, p, r) <==> r == Register(m, init, p)
  {
    Division(m, init, p);
    if IsRemainder(m, init, p, r) {
      var q: Poly :| |q| == |m| && Sum(m + Nulls(|p|), init + Nulls(|m|)) == Sum(Product(q, p), Nulls(|m|) + r);
      SameRemainder(q, r, Quotient(m, init, p), Register(m, init, p), p);
    }
  }

  lemma SameRemainder(q: Poly, r: Poly, q': Poly, r': Poly, p: Poly)
    requires |q| == |q'| && |r| == |r'| == |p| > 0
    requires Sum(Product(q, p), Nulls(|q|) + r) == Sum(Product(q', p), Nulls(|q|) + r')
    ensures q == q' && r == r'
  {
    hide Product, Sum, Nulls;
    SameHigh(Product(q, p), r, Product(q', p), r', |q|);
    HighDetermines(q, q', p);
    SameLow(Product(q, p), r, r', |q|);
  }

  lemma SameHigh(a: Poly, r: Poly, b: Poly, r': Poly, n: nat)
    requires |a| == |b| == n + |r| && |r| == |r'|
    requires Sum(a, Nulls(n) + r) == Sum(b, Nulls(n) + r')
    ensures a[..n] == b[..n]
  {
    var x, y := Sum(a, Nulls(n) + r), Sum(b, Nulls(n) + r');
    forall i | 0 <= i < n ensures a[i] == b[i] {
      assert x[i] == y[i];
    }
  }

  lemma SameLow(a: Poly, r: Poly, r': Poly, n: nat)
    requires |a| == n + |r| && |r| == |r'|
    requires Sum(a, Nulls(n) + r) == Sum(a, Nulls(n) + r')
    ensures r == r'
  {
    var x, y := Sum(a, Nulls(n) + r), Sum(a, Nulls(n) + r');
    forall i | 0 <= i < |r| ensures r[i] == r'[i] {
      assert x[n + i] == y[n + i];
    }
  }

  lemma {:induction false} RegisterConcat(a: Poly, b: Poly, init: Poly, p: Poly)
    requires |init| == |p| > 0
    ensures Register(a + b, init, p) == Register(b, Register(a, init, p), p)
    decreases |b|
  {
    if b == [] {
      assert a + b == a;
    } else {
      var n := |b| - 1;
      assert (a + b)[..|a + b| - 1] == a + b[..n];
      RegisterConcat(a, b[..n], init, p);
    }
  }

  /** Message bits may as well be added to the top of the register first. */
  lemma {:induction false} FromTop(b: Poly, r: Poly, p: Poly)
    requires |b| <= |r| == |p| && |p| > 0
    ensures Register(b, r, p) == Register(Nulls(|b|), Sum(r, b + Nulls(|p| - |b|)), p)
    decreases |b|
  {
    var w := |p|;
    if b == [] {
      assert Sum(r, [] + Nulls(w)) == r;
    } else {
      hide Step, Register, Sum;
      var rest, next := b[1..], Step(r, b[0], p);
      var mixed := Sum(r, b + Nulls(w - |b|));
      assert b == [b[0]] + rest && Nulls(|b|) == [false] + Nulls(|rest|);
      RegisterConcat([b[0]], rest, r, p);
      RegisterConcat([false], Nulls(|rest|), mixed, p);
      OneBit(b[0], r, p);
      OneBit(false, mixed, p);
      FromTop(rest, next, p);
      MixedStep(b, r, p);
    }
  }

  lemma MixedStep(b: Poly, r: Poly, p: Poly)
    requires 0 < |b| <= |r| == |p|
    ensures var w, rest := |p|, b[1..];
      Step(Sum(r, b + Nulls(w - |b|)), false, p) == Sum(Step(r, b[0], p), rest + Nulls(w - |rest|))
  {
    var w, rest := |p|, b[1..];
    var mixed := Sum(r, b + Nulls(w - |b|));
    var x, y := Step(mixed, false, p), Sum(Step(r, b[0], p), rest + Nulls(w - |rest|));
    assert mixed[0] == (r[0] != b[0]);
    forall i | 0 <= i < w ensures x[i] == y[i] {
      if i < w - 1 {
        assert mixed[i + 1] == (r[i + 1] != (b + Nulls(w - |b|))[i + 1]);
      }
    }
  }

  lemma OneBit(bit: bool, r: Poly, p: Poly)
    requires |r| == |p| > 0
    ensures Register([bit], r, p) == Step(r, bit, p)
  {
    assert [bit][..0] == [];
    assert Register([], r, p) == r;
  }

  // -------------------------------------------------------- machine words

  function And16(c: bv16, mask: bv16): bv16 { c & mask }

  predicate Has16(c: bv16, mask: bv16) { And16(c, mask) != 0 }

  function Half16(mask: bv16): bv16 { mask >> 1 }

  function Mask16(i: nat): bv16 { if i == 0 then 0x8000 else Half16(Mask16(i - 1)) }

  /** The bits of a word, the highest first. */
  function Word16(c: bv16): (r: Poly)
    ensures |r| == 16
  {
    seq(16, i requires 0 <= i < 16 => Has16(c, Mask16(i)))
  }

  predicate Single16(mask: bv16) { mask & (mask - 1) == 0 }

  lemma HalfSingle16(mask: bv16)
    requires Single16(mask)
    ensures Single16(Half16(mask))
  {
  }

  lemma {:induction false} MaskSingle16(i: nat)
    ensures Single16(Mask16(i))
  {
    if i > 0 {
      hide Single16, Half16;
      MaskSingle16(i - 1);
      HalfSingle16(Mask16(i - 1));
    }
  }

  lemma Has16Xor(a: bv16, b: bv16, mask: bv16)
    requires Single16(mask)
    ensures Has16(Xor16(a, b), mask) == (Has16(a, mask) != Has16(b, mask))
  {
    hide Xor16, And16, Single16;
    Masked16Xor(a, b, mask);
    AllOrNone16(a, mask);
    AllOrNone16(b, mask);
    Laws16(mask, 0, 0);
    Laws16(0, 0, 0);
  }

  lemma Masked16Xor(a: bv16, b: bv16, mask: bv16)
    ensures And16(Xor16(a, b), mask) == Xor16(And16(a, mask), And16(b, mask))
  {
  }

  lemma AllOrNone16(a: bv16, mask: bv16)
    requires Single16(mask)
    ensures And16(a, mask) == 0 || And16(a, mask) == mask
  {
  }

  lemma Has16Left(c: bv16, mask: bv16)
    ensures Has16(Left16(c), mask) == Has16(c, Half16(mask))
    ensures Has16(c, 0x8000) == Top16(c) && !Has16(c, 0)
  {
    hide Left16, Half16, And16;
    MaskedLeft16(c, mask);
    TopMask16(c);
    LowZero16(c, mask);
  }

  lemma TopMask16(c: bv16)
    ensures And16(c, 0x8000) != 0 <==> Top16(c)
    ensures And16(c, 0) == 0
  {
  }

  lemma MaskedLeft16(c: bv16, mask: bv16)
    ensures And16(Left16(c), mask) == Left16(And16(c, Half16(mask)))
  {
  }

  lemma LowZero16(c: bv16, mask: bv16)
    ensures Left16(And16(c, Half16(mask))) == 0 <==> And16(c, Half16(mask)) == 0
  {
  }

  lemma Mask16Values()
    ensures Mask16(0) == 0x8000 && Mask16(1) == 0x4000 && Mask16(2) == 0x2000 && Mask16(3) == 0x1000
    ensures Mask16(4) == 0x0800 && Mask16(5) == 0x0400 && Mask16(6) == 0x0200 && Mask16(7) == 0x0100
    ensures Mask16(8) == 0x0080 && Mask16(9) == 0x0040 && Mask16(10) == 0x0020 && Mask16(11) == 0x0010
    ensures Mask16(12) == 0x0008 && Mask16(13) == 0x0004 && Mask16(14) == 0x0002 && Mask16(15) == 0x0001
  {
    assert Mask16(1) == 0x4000;
    assert Mask16(2) == 0x2000;
    assert Mask16(3) == 0x1000;
    assert Mask16(4) == 0x0800;
    assert Mask16(5) == 0x0400;
    assert Mask16(6) == 0x0200;
    assert Mask16(7) == 0x0100;
    assert Mask16(8) == 0x0080;
    assert Mask16(9) == 0x0040;
    assert Mask16(10) == 0x0020;
    assert Mask16(11) == 0x0010;
    assert Mask16(12) == 0x0008;
    assert Mask16(13) == 0x0004;
    assert Mask16(14) == 0x0002;
  }

  lemma Word16Sum(a: bv16, b: bv16)
    ensures Word16(Xor16(a, b)) == Sum(Word16(a), Word16(b))
  {
    hide Has16, Xor16, Mask16, Single16;
    forall i: nat | i < 16 ensures Word16(Xor16(a, b))[i] == Sum(Word16(a), Word16(b))[i] {
      MaskSingle16(i);
      Has16Xor(a, b, Mask16(i));
    }
  }

  lemma Word16Shift(c: bv16)
    ensures Word16(Left16(c)) == Word16(c)[1..] + [false] && Top16(c) == Word16(c)[0]
  {
    hide Has16, Left16, Half16, Top16;
    Mask16Ends();
    Has16Left(c, 0);
    forall i: nat | i < 16 ensures Word16(Left16(c))[i] == (Word16(c)[1..] + [false])[i] {
      Has16Left(c, Mask16(i));
      assert Mask16(i + 1) == Half16(Mask16(i));
    }
  }

  lemma Mask16Ends()
    ensures Mask16(16) == 0
  {
    Mask16Values();
    assert Mask16(16) == Half16(Mask16(15));
  }

  lemma Word16Injective(a: bv16, b: bv16)
    requires Word16(a) == Word16(b)
    ensures a == b
  {
    forall i: nat | i < 16 ensures Has16(a, Mask16(i)) == Has16(b, Mask16(i)) {
      assert Word16(a)[i] == Word16(b)[i];
    }
    Mask16Values();
    SameBits16(a, b);
  }

  lemma SameBits16(a: bv16, b: bv16)
    requires Has16(a, 0x8000) == Has16(b, 0x8000) && Has16(a, 0x4000) == Has16(b, 0x4000)
    requires Has16(a, 0x2000) == Has16(b, 0x2000) && Has16(a, 0x1000) == Has16(b, 0x1000)
    requires Has16(a, 0x0800) == Has16(b, 0x0800) && Has16(a, 0x0400) == Has16(b, 0x0400)
    requires Has16(a, 0x0200) == Has16(b, 0x0200) && Has16(a, 0x0100) == Has16(b, 0x0100)
    requires Has16(a, 0x0080) == Has16(b, 0x0080) && Has16(a, 0x0040) == Has16(b, 0x0040)
    requires Has16(a, 0x0020) == Has16(b, 0x0020) && Has16(a, 0x0010) == Has16(b, 0x0010)
    requires Has16(a, 0x0008) == Has16(b, 0x0008) && Has16(a, 0x0004) == Has16(b, 0x0004)
    requires Has16(a, 0x0002) == Has16(b, 0x0002) && Has16(a, 0x0001) == Has16(b, 0x0001)
    ensures a == b
  {
  }

  function And8(c: bv8, mask: bv8): bv8 { c & mask }

  predicate Has8(c: bv8, mask: bv8) { And8(c, mask) != 0 }

  function Half8(mask: bv8): bv8 { mask >> 1 }

  function Mask8(i: nat): bv8 { if i == 0 then 0x80 else Half8(Mask8(i - 1)) }

  /** The bits of a word, the highest first. */
  function Word8(c: bv8): (r: Poly)
    ensures |r| == 8
  {
    seq(8, i requires 0 <= i < 8 => Has8(c, Mask8(i)))
  }

  predicate Single8(mask: bv8) { mask & (mask - 1) == 0 }

  lemma HalfSingle8(mask: bv8)
    requires Single8(mask)
    ensures Single8(Half8(mask))
  {
  }

  lemma {:induction false} MaskSingle8(i: nat)
    ensures Single8(Mask8(i))
  {
    if i > 0 {
      hide Single8, Half8;
      MaskSingle8(i - 1);
      HalfSingle8(Mask8(i - 1));
    }
  }

  lemma Has8Xor(a: bv8, b: bv8, mask: bv8)
    requires Single8(mask)
    ensures Has8(Xor8(a, b), mask) == (Has8(a, mask) != Has8(b, mask))
  {
    hide Xor8, And8, Single8;
    Masked8Xor(a, b, mask);
    AllOrNone8(a, mask);
    AllOrNone8(b, mask);
    Laws8(mask);
    Laws8(0);
    Comm8(0, mask);
  }

  lemma Masked8Xor(a: bv8, b: bv8, mask: bv8)
    ensures And8(Xor8(a, b), mask) == Xor8(And8(a, mask), And8(b, mask))
  {
  }

  lemma AllOrNone8(a: bv8, mask: bv8)
    requires Single8(mask)
    ensures And8(a, mask) == 0 || And8(a, mask) == mask
  {
  }

  lemma Has8Left(c: bv8, mask: bv8)
    ensures Has8(Left8(c), mask) == Has8(c, Half8(mask))
    ensures Has8(c, 0x80) == Top8(c) && !Has8(c, 0)
  {
    hide Left8, Half8, And8;
    MaskedLeft8(c, mask);
    TopMask8(c);
    LowZero8(c, mask);
  }

  lemma TopMask8(c: bv8)
    ensures And8(c, 0x80) != 0 <==> Top8(c)
    ensures And8(c, 0) == 0
  {
  }

  lemma MaskedLeft8(c: bv8, mask: bv8)
    ensures And8(Left8(c), mask) == Left8(And8(c, Half8(mask)))
  {
  }

  lemma LowZero8(c: bv8, mask: bv8)
    ensures Left8(And8(c, Half8(mask))) == 0 <==> And8(c, Half8(mask)) == 0
  {
  }

  lemma Mask8Values()
    ensures Mask8(0) == 0x80 && Mask8(1) == 0x40 && Mask8(2) == 0x20 && Mask8(3) == 0x10
    ensures Mask8(4) == 0x08 && Mask8(5) == 0x04 && Mask8(6) == 0x02 && Mask8(7) == 0x01
  {
    assert Mask8(1) == 0x40;
    assert Mask8(2) == 0x20;
    assert Mask8(3) == 0x10;
    assert Mask8(4) == 0x08;
    assert Mask8(5) == 0x04;
    assert Mask8(6) == 0x02;
  }

  lemma Word8Sum(a: bv8, b: bv8)
    ensures Word8(Xor8(a, b)) == Sum(Word8(a), Word8(b))
  {
    hide Has8, Xor8, Mask8, Single8;
    forall i: nat | i < 8 ensures Word8(Xor8(a, b))[i] == Sum(Word8(a), Word8(b))[i] {
      MaskSingle8(i);
      Has8Xor(a, b, Mask8(i));
    }
  }

  lemma Word8Shift(c: bv8)
    ensures Word8(Left8(c)) == Word8(c)[1..] + [false] && Top8(c) == Word8(c)[0]
  {
    hide Has8, Left8, Half8, Top8;
    Mask8Ends();
    Has8Left(c, 0);
    forall i: nat | i < 8 ensures Word8(Left8(c))[i] == (Word8(c)[1..] + [false])[i] {
      Has8Left(c, Mask8(i));
      assert Mask8(i + 1) == Half8(Mask8(i));
    }
  }

  lemma Mask8Ends()
    ensures Mask8(8) == 0
  {
    Mask8Values();
    assert Mask8(8) == Half8(Mask8(7));
  }

  lemma Word8Injective(a: bv8, b: bv8)
    requires Word8(a) == Word8(b)
    ensures a == b
  {
    forall i: nat | i < 8 ensures Has8(a, Mask8(i)) == Has8(b, Mask8(i)) {
      assert Word8(a)[i] == Word8(b)[i];
    }
    Mask8Values();
    SameBits8(a, b);
  }

  lemma SameBits8(a: bv8, b: bv8)
    requires Has8(a, 0x80) == Has8(b, 0x80) && Has8(a, 0x40) == Has8(b, 0x40)
    requires Has8(a, 0x20) == Has8(b, 0x20) && Has8(a, 0x10) == Has8(b, 0x10)
    requires Has8(a, 0x08) == Has8(b, 0x08) && Has8(a, 0x04) == Has8(b, 0x04)
    requires Has8(a, 0x02) == Has8(b, 0x02) && Has8(a, 0x01) == Has8(b, 0x01)
    ensures a == b
  {
  }

  /** The fast reversals put every bit at its mirrored place. */
  lemma Reverse8Mirrors(b: bv8, i: nat)
    requires i < 8
    ensures Word8(Reverse8Fast(b))[i] == Word8(b)[7 - i]
  {
    Mask8Values();
    hide Mask8;
    if i == 0 {} else if i == 1 {} else if i == 2 {} else if i == 3 {}
    else if i == 4 {} else if i == 5 {} else if i == 6 {} else {}
  }

  lemma Reverse16Mirrors(c: bv16, i: nat)
    requires i < 16
    ensures Word16(Reverse16Fast(c))[i] == Word16(c)[15 - i]
  {
    hide Word16, Reverse16Fast, Reverse8Fast, ReflectByte;
    if i < 8 {
      HighMirrors(c, i);
    } else {
      HighMirrors(Reverse16Fast(c), 15 - i);
      ReversalsAgree(0, c);
    }
  }

  lemma HighMirrors(c: bv16, i: nat)
    requires i < 8
    ensures Word16(Reverse16Fast(c))[i] == Word16(c)[15 - i]
  {
    Mask16Values();
    hide Mask16;
    if i == 0 {} else if i == 1 {} else if i == 2 {} else if i == 3 {}
    else if i == 4 {} else if i == 5 {} else if i == 6 {} else {}
  }

  /** The bits in the opposite order, when asked for. */
  function Mirror(p: Poly, reflect: bool): (r: Poly)
    ensures |r| == |p|
  {
    if reflect then seq(|p|, i requires 0 <= i < |p| => p[|p| - 1 - i]) else p
  }

  lemma Mirrored8(b: bv8, reflect: bool)
    ensures Word8(Reflected(b, reflect)) == Mirror(Word8(b), reflect)
  {
    hide Word8, Reverse8Fast, ReflectByte;
    ReversalsAgree(b, 0);
    forall i | 0 <= i < 8 ensures Word8(Reverse8Fast(b))[i] == Mirror(Word8(b), true)[i] {
      Reverse8Mirrors(b, i);
    }
  }

  lemma Mirrored16(c: bv16, reflect: bool)
    ensures Word16(if reflect then Reverse16Fast(c) else c) == Mirror(Word16(c), reflect)
  {
    hide Word16, Reverse16Fast;
    forall i | 0 <= i < 16 ensures Word16(Reverse16Fast(c))[i] == Mirror(Word16(c), true)[i] {
      Reverse16Mirrors(c, i);
    }
  }

  /** The bits of the message in the order they enter. */
  function Message(data: seq<bv8>, refIn: bool): Poly {
    if data == [] then [] else Mirror(Word8(data[0]), refIn) + Message(data[1..], refIn)
  }

  lemma Step16IsStep(crc: bv16, bit: bool, polynom: bv16)
    ensures Word16(Step16(crc, bit, polynom)) == Step(Word16(crc), bit, Word16(polynom))
  {
    hide Word16, Left16, Xor16, Top16;
    Word16Shift(crc);
    Word16Sum(Left16(crc), polynom);
  }

  lemma {:induction false} BitOfIs(byte: bv8, j: nat)
    requires j < 8
    ensures BitOf(byte, j) == Word8(byte)[j]
    decreases j
  {
    hide Word8, Left8, Top8;
    Word8Shift(byte);
    if j > 0 {
      BitOfIs(Left8(byte), j - 1);
      LeftByFront(byte, j - 1);
    }
  }

  lemma {:induction false} LeftByFront(byte: bv8, j: nat)
    ensures LeftBy(byte, j + 1) == LeftBy(Left8(byte), j)
  {
    hide Left8;
    if j > 0 { LeftByFront(byte, j - 1); }
  }

  lemma {:induction false} Bits16IsRegister(crc: bv16, byte: bv8, polynom: bv16, j: nat)
    requires j <= 8
    ensures Word16(Bits16(crc, byte, polynom, j)) == Register(Word8(byte)[..j], Word16(crc), Word16(polynom))
    decreases j
  {
    hide Word8, Word16, Step16, Step, BitOf;
    if j > 0 {
      Bits16IsRegister(crc, byte, polynom, j - 1);
      Step16IsStep(Bits16(crc, byte, polynom, j - 1), BitOf(byte, j - 1), polynom);
      BitOfIs(byte, j - 1);
      assert Word8(byte)[..j][..j - 1] == Word8(byte)[..j - 1];
    }
  }

  lemma {:induction false} Fold16IsRegister(data: seq<bv8>, polynom: bv16, crc: bv16, refIn: bool)
    ensures Word16(Fold16(data, polynom, crc, refIn))
      == Register(Message(data, refIn), Word16(crc), Word16(polynom))
    decreases |data|
  {
    hide Word8, Word16, Bits16, Reflected, Register, Mirror;
    if data == [] {
      Empty(Word16(crc), Word16(polynom));
    } else {
      var byte := Reflected(data[0], refIn);
      Mirrored8(data[0], refIn);
      var next := Bits16(crc, byte, polynom, 8);
      Bits16IsRegister(crc, byte, polynom, 8);
      assert Word8(byte)[..8] == Word8(byte);
      Fold16IsRegister(data[1..], polynom, next, refIn);
      RegisterConcat(Word8(byte), Message(data[1..], refIn), Word16(crc), Word16(polynom));
    }
  }

  lemma Empty(r: Poly, p: Poly)
    requires |r| == |p| > 0
    ensures Register([], r, p) == r
  {
  }

  lemma {:induction false} Shift8IsRegister(crc: bv8, polynom: bv8, j: nat)
    ensures Word8(Shift8(crc, polynom, j)) == Register(Nulls(j), Word8(crc), Word8(polynom))
  {
    hide Word8, Left8, Xor8, Top8;
    if j > 0 {
      var before := Shift8(crc, polynom, j - 1);
      Shift8IsRegister(crc, polynom, j - 1);
      Word8Shift(before);
      Word8Sum(Left8(before), polynom);
      assert Nulls(j)[..j - 1] == Nulls(j - 1);
    }
  }

  lemma Byte8IsRegister(crc: bv8, byte: bv8, polynom: bv8)
    ensures Word8(Shift8(Xor8(crc, byte), polynom, 8)) == Register(Word8(byte), Word8(crc), Word8(polynom))
  {
    hide Word8, Shift8, Xor8, Register;
    Shift8IsRegister(Xor8(crc, byte), polynom, 8);
    Word8Sum(crc, byte);
    FromTop(Word8(byte), Word8(crc), Word8(polynom));
    assert Word8(byte) + Nulls(0) == Word8(byte);
  }

  lemma {:induction false} Fold8IsRegister(data: seq<bv8>, polynom: bv8, crc: bv8, refIn: bool)
    ensures Word8(Fold8(data, polynom, crc, refIn)) == Register(Message(data, refIn), Word8(crc), Word8(polynom))
    decreases |data|
  {
    hide Word8, Shift8, Xor8, Reflected, Register, Mirror;
    if data == [] {
      Empty(Word8(crc), Word8(polynom));
    } else {
      var byte := Reflected(data[0], refIn);
      Mirrored8(data[0], refIn);
      Byte8IsRegister(crc, byte, polynom);
      Fold8IsRegister(data[1..], polynom, Shift8(Xor8(crc, byte), polynom, 8), refIn);
      RegisterConcat(Word8(byte), Message(data[1..], refIn), Word8(crc), Word8(polynom));
    }
  }

  // -------------------------------------------------------- the two routines

  /**
    A word is the 16-bit CRC exactly when, without the final mask and reflection, it is the remainder
    of the message on division by the polynomial.
   */
  lemma Crc16IsRemainder(data: seq<bv8>, polynom: bv16, init: bv16, refIn: bool, refOut: bool, xorOut: bv16, r: bv16)
    ensures r == Crc16(data, polynom, init, refIn, refOut, xorOut)
      <==> IsRemainder(Message(data, refIn), Word16(init), Word16(polynom),
                       Mirror(Sum(Word16(r), Word16(xorOut)), refOut))
  {
    hide Word16, Fold16, Register, Xor16, Mirror, Sum, IsRemainder, Reverse16Fast;
    var crc := Fold16(data, polynom, init, refIn);
    var plain := Xor16(r, xorOut);
    var found := if refOut then Reverse16Fast(plain) else plain;
    Word16Sum(r, xorOut);
    Mirrored16(plain, refOut);
    Fold16IsRegister(data, polynom, init, refIn);
    RemainderIff(Message(data, refIn), Word16(init), Word16(polynom), Word16(found));
    if Word16(found) == Word16(crc) { Word16Injective(found, crc); }
    Unfinished16(r, crc, refOut, xorOut);
  }

  lemma Unfinished16(r: bv16, crc: bv16, refOut: bool, xorOut: bv16)
    ensures r == Finish16(crc, refOut, xorOut)
      <==> (if refOut then Reverse16Fast(Xor16(r, xorOut)) else Xor16(r, xorOut)) == crc
  {
    hide Xor16, Reverse16Fast, Reverse8Fast, ReflectByte;
    var last := if refOut then Reverse16Fast(crc) else crc;
    ReversalsAgree(0, crc);
    ReversalsAgree(0, Xor16(r, xorOut));
    Comm16(r, xorOut);
    Comm16(last, xorOut);
    Laws16(xorOut, r, 0);
    Laws16(xorOut, last, 0);
  }

  /** The same for the 8-bit CRC. */
  lemma Crc8IsRemainder(data: seq<bv8>, polynom: bv8, init: bv8, refIn: bool, refOut: bool, xorOut: bv8, r: bv8)
    ensures r == Crc8(data, polynom, init, refIn, refOut, xorOut)
      <==> IsRemainder(Message(data, refIn), Word8(init), Word8(polynom),
                       Mirror(Sum(Word8(r), Word8(xorOut)), refOut))
  {
    hide Word8, Fold8, Register, Xor8, Mirror, Sum, IsRemainder, Reflected;
    var crc := Fold8(data, polynom, init, refIn);
    var plain := Xor8(r, xorOut);
    var found := Reflected(plain, refOut);
    Word8Sum(r, xorOut);
    Mirrored8(plain, refOut);
    Fold8IsRegister(data, polynom, init, refIn);
    RemainderIff(Message(data, refIn), Word8(init), Word8(polynom), Word8(found));
    if Word8(found) == Word8(crc) { Word8Injective(found, crc); }
    ReflectTwice(plain, refOut);
    ReflectTwice(crc, refOut);
    Undo8(r, xorOut);
    Undo8(Reflected(crc, refOut), xorOut);
  }

  /** The message of a single one bit: the polynomial itself. */
  lemma OneIsPolynomial(polynom8: bv8, polynom16: bv16)
    ensures Crc8([1], polynom8, 0, false, false, 0) == polynom8
    ensures Crc16([1], polynom16, 0, false, false, 0) == polynom16
  {
    assert [1 as bv8][1..] == [];
    One8(polynom8);
    One16(polynom16);
    Laws8(polynom8);
    Laws16(polynom16, 0, 0);
  }

  lemma One8(polynom: bv8)
    ensures Shift8(Xor8(0, 1), polynom, 8) == polynom
  {
    assert Shift8(1, polynom, 0) == 1;
    assert Shift8(1, polynom, 1) == 2;
    assert Shift8(1, polynom, 2) == 4;
    assert Shift8(1, polynom, 3) == 8;
    assert Shift8(1, polynom, 4) == 16;
    assert Shift8(1, polynom, 5) == 32;
    assert Shift8(1, polynom, 6) == 64;
    assert Shift8(1, polynom, 7) == 128;
  }

  lemma One16(polynom: bv16)
    ensures Bits16(0, 1, polynom, 8) == polynom
  {
    hide Step16, BitOf;
    OneBits(polynom, 7);
    LastBit(polynom);
  }

  lemma LastBit(polynom: bv16)
    ensures Step16(0, BitOf(1, 7), polynom) == polynom
  {
    hide LeftBy;
    LeftOne();
  }

  lemma LeftOne()
    ensures LeftBy(1, 1) == 2 && LeftBy(1, 2) == 4 && LeftBy(1, 3) == 8 && LeftBy(1, 4) == 16
    ensures LeftBy(1, 5) == 32 && LeftBy(1, 6) == 64 && LeftBy(1, 7) == 128
  {
    assert LeftBy(1, 1) == 2;
    assert LeftBy(1, 2) == 4;
    assert LeftBy(1, 3) == 8;
    assert LeftBy(1, 4) == 16;
    assert LeftBy(1, 5) == 32;
    assert LeftBy(1, 6) == 64;
  }

  /** The seven zeros in front of it do nothing. */
  lemma {:induction false} OneBits(polynom: bv16, j: nat)
    requires j <= 7
    ensures Bits16(0, 1, polynom, j) == 0
  {
    LeftOne();
    if j > 0 { OneBits(polynom, j - 1); }
  }
}
