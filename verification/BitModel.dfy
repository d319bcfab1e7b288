/**
  Numbers and their bits.  Bit operations of C on unsigned operands are defined on
  natural numbers, bit by bit; a run of bits is a sequence, most significant first.
 */
module BitModel {

  function Pow2(n: nat): (p: nat)
    ensures p > 0
  {
    if n == 0 then 1 else 2 * Pow2(n - 1)
  }

  function Shl(x: nat, n: nat): nat { x * Pow2(n) }

  function Shr(x: nat, n: nat): nat {
    DivNat(x, Pow2(n));
    x / Pow2(n)
  }

  lemma DivNat(x: nat, d: nat)
    requires d > 0
    ensures x / d >= 0
  {
    var q := x / d;
    assert q * d + x % d == x;
    if q < 0 { MulMono(q, -1, d); }
  }

  lemma MulMono(a: int, b: int, d: nat)
    requires a <= b
    ensures a * d <= b * d
  {
  }

  function Or(x: nat, y: nat): nat
    decreases x
  {
    if x == 0 then y else 2 * Or(x / 2, y / 2) + if x % 2 == 1 || y % 2 == 1 then 1 else 0
  }

  function And(x: nat, y: nat): nat
    decreases x
  {
    if x == 0 then 0 else 2 * And(x / 2, y / 2) + if x % 2 == 1 && y % 2 == 1 then 1 else 0
  }

  /** Complement of a 32-bit word. */
  function Not32(x: nat): nat
    requires x < Pow2(32)
  {
    Pow2(32) - 1 - x
  }

  /** Bit k from the bottom. */
  predicate Bit(x: nat, k: nat) {
    if k == 0 then x % 2 == 1 else Bit(x / 2, k - 1)
  }

  /** The number of ones, __builtin_popcount. */
  function PopCount(x: nat): nat {
    if x == 0 then 0 else x % 2 + PopCount(x / 2)
  }

  /** The value of a run of bits: `value = (value << 1) | bit`, left to right. */
  function Num(bits: seq<bool>): nat {
    if bits == [] then 0 else 2 * Num(bits[..|bits| - 1]) + if bits[|bits| - 1] then 1 else 0
  }

  /** The low n bits of a number. */
  function LowBits(x: nat, n: nat): (bits: seq<bool>)
    ensures |bits| == n
    decreases n
  {
    if n == 0 then [] else LowBits(x / 2, n - 1) + [x % 2 == 1]
  }

  function Weight(bits: seq<bool>): nat {
    if bits == [] then 0 else Weight(bits[..|bits| - 1]) + if bits[|bits| - 1] then 1 else 0
  }

  // ------------------------------------------------------------ bit by bit

  lemma {:induction false} PowSum(m: nat, n: nat)
    ensures Pow2(m + n) == Pow2(m) * Pow2(n)
    decreases n
  {
    if n > 0 {
      PowSum(m, n - 1);
      assert Pow2(m) * (2 * Pow2(n - 1)) == 2 * (Pow2(m) * Pow2(n - 1));
    }
  }

  lemma {:induction false} OrBit(x: nat, y: nat, k: nat)
    ensures Bit(Or(x, y), k) == (Bit(x, k) || Bit(y, k))
    decreases k
  {
    if x == 0 {
      ZeroBits(k);
    } else if k > 0 {
      OrBit(x / 2, y / 2, k - 1);
    }
  }

  lemma {:induction false} AndBit(x: nat, y: nat, k: nat)
    ensures Bit(And(x, y), k) == (Bit(x, k) && Bit(y, k))
    decreases k
  {
    if x == 0 {
      ZeroBits(k);
    } else if k > 0 {
      AndBit(x / 2, y / 2, k - 1);
    }
  }

  lemma {:induction false} ZeroBits(k: nat)
    ensures !Bit(0, k)
  {
    if k > 0 { ZeroBits(k - 1); }
  }

  lemma {:induction false} PowBit(j: nat, k: nat)
    ensures Bit(Pow2(j), k) == (j == k)
    decreases j
  {
    if j == 0 {
      if k > 0 { ZeroBits(k - 1); }
    } else if k > 0 {
      PowBit(j - 1, k - 1);
    }
  }

  lemma {:induction false} ComplementBit(x: nat, n: nat, k: nat)
    requires x < Pow2(n)
    ensures Bit(Pow2(n) - 1 - x, k) == (k < n && !Bit(x, k))
    decreases n
  {
    if n == 0 {
      ZeroBits(k);
    } else if k > 0 {
      assert (Pow2(n) - 1 - x) / 2 == Pow2(n - 1) - 1 - x / 2;
      ComplementBit(x / 2, n - 1, k - 1);
    }
  }

  /** The bit as C reads it: `(x >> k) & 1`. */
  lemma {:induction false} BitIsShift(x: nat, k: nat)
    ensures Bit(x, k) <==> Shr(x, k) % 2 == 1
    decreases k
  {
    if k > 0 {
      BitIsShift(x / 2, k - 1);
      DivTwice(x, Pow2(k - 1));
    }
  }

  lemma DivTwice(x: nat, d: nat)
    requires d > 0
    ensures x / 2 / d == x / (2 * d)
  {
    var q := x / 2 / d;
    var r := x / 2 % d;
    assert x / 2 == q * d + r;
    assert x == q * (2 * d) + (2 * r + x % 2);
    QuotientUnique(x, 2 * d, q, 2 * r + x % 2);
  }

  lemma QuotientUnique(x: nat, d: nat, q: nat, r: nat)
    requires d > 0 && r < d && x == q * d + r
    ensures x / d == q && x % d == r
  {
    var p := x / d;
    assert p * d + x % d == x;
    if p < q { assert (p + 1) * d <= q * d by { MulMono(p + 1, q, d); } }
    if p > q { assert (q + 1) * d <= p * d by { MulMono(q + 1, p, d); } }
  }

  lemma {:induction false} OrZero(x: nat)
    ensures Or(x, 0) == x
  {
    if x > 0 { OrZero(x / 2); }
  }

  /** Filling the zeros of a shifted number is adding. */
  lemma {:induction false} OrIsSum(x: nat, n: nat, y: nat)
    requires y < Pow2(n)
    ensures Or(Shl(x, n), y) == Shl(x, n) + y
    decreases n
  {
    if n == 0 {
      OrZero(x);
    } else if x > 0 {
      var s := Shl(x, n);
      HalfShift(x, n);
      OrIsSum(x, n - 1, y / 2);
    }
  }

  lemma HalfShift(x: nat, n: nat)
    requires n > 0
    ensures Shl(x, n) == 2 * Shl(x, n - 1)
    ensures x > 0 ==> Shl(x, n) > 0
  {
    assert x * (2 * Pow2(n - 1)) == 2 * (x * Pow2(n - 1));
    if x > 0 { MulMono(1, x, Pow2(n)); }
  }

  // --------------------------------------------------------- runs of bits

  lemma {:induction false} NumBound(bits: seq<bool>)
    ensures Num(bits) < Pow2(|bits|)
  {
    if bits != [] { NumBound(bits[..|bits| - 1]); }
  }

  lemma NumPush(bits: seq<bool>, b: bool)
    ensures Num(bits + [b]) == 2 * Num(bits) + if b then 1 else 0
  {
    assert (bits + [b])[..|bits|] == bits;
  }

  lemma {:induction false} NumConcat(a: seq<bool>, b: seq<bool>)
    ensures Num(a + b) == Shl(Num(a), |b|) + Num(b)
    decreases |b|
  {
    if b == [] {
      assert a + b == a;
    } else {
      var c := b[..|b| - 1];
      assert a + b == (a + c) + [b[|b| - 1]];
      NumConcat(a, c);
      NumPush(a + c, b[|b| - 1]);
      HalfShift(Num(a), |b|);
    }
  }

  lemma {:induction false} NumOfLow(x: nat, n: nat)
    ensures Num(LowBits(x, n)) == x % Pow2(n)
    decreases n
  {
    if n > 0 {
      NumOfLow(x / 2, n - 1);
      NumPush(LowBits(x / 2, n - 1), x % 2 == 1);
      LowHalf(x, Pow2(n - 1));
    }
  }

  lemma LowHalf(x: nat, d: nat)
    requires d > 0
    ensures x % (2 * d) == 2 * (x / 2 % d) + x % 2
  {
    var q := x / 2 / d;
    var r := x / 2 % d;
    assert x / 2 == q * d + r;
    assert x == q * (2 * d) + (2 * r + x % 2);
    QuotientUnique(x, 2 * d, q, 2 * r + x % 2);
  }

  lemma {:induction false} LowOfNum(bits: seq<bool>)
    ensures LowBits(Num(bits), |bits|) == bits
  {
    if bits != [] {
      LowOfNum(bits[..|bits| - 1]);
      assert bits == bits[..|bits| - 1] + [bits[|bits| - 1]];
    }
  }

  lemma {:induction false} LowBitsAt(x: nat, n: nat, i: nat)
    requires i < n
    ensures LowBits(x, n)[i] == Bit(x, n - 1 - i)
    decreases n
  {
    if i < n - 1 { LowBitsAt(x / 2, n - 1, i); }
  }

  lemma {:induction false} PopCountNum(bits: seq<bool>)
    ensures PopCount(Num(bits)) == Weight(bits)
  {
    if bits != [] {
      PopCountNum(bits[..|bits| - 1]);
    }
  }

  lemma WeightPush(bits: seq<bool>, b: bool)
    ensures Weight(bits + [b]) == Weight(bits) + if b then 1 else 0
  {
    assert (bits + [b])[..|bits|] == bits;
  }

  /** Dropping the last n bits is shifting right, keeping them is a remainder. */
  lemma NumSplit(a: seq<bool>, b: seq<bool>)
    ensures Shr(Num(a + b), |b|) == Num(a) && Num(a + b) % Pow2(|b|) == Num(b)
  {
    NumConcat(a, b);
    NumBound(b);
    QuotientUnique(Num(a + b), Pow2(|b|), Num(a), Num(b));
  }
}
