/**
  bit_lib: bits of a byte buffer, addressed most significant first.  Reading is by
  functions; the sequence `Bits` of single bits is the reference they are compared with.
 */
module BitReading {
  import opened MachineTypes
  import opened BitModel

  /** bit_lib_get_bit. */
  predicate GetBit(data: seq<uint8>, position: nat)
    requires position < 8 * |data|
  {
    Shr(data[position / 8], 7 - position % 8) % 2 == 1
  }

  function Bits(data: seq<uint8>, position: nat, length: nat): (bits: seq<bool>)
    requires position + length <= 8 * |data|
    ensures |bits| == length
  {
    seq(length, i requires 0 <= i < length => GetBit(data, position + i))
  }

  /** The bytes the multi-byte readers touch: an unaligned read always takes the following byte too. */
  predicate Readable(data: seq<uint8>, position: nat, length: nat) {
    var last := position + if length == 0 then 0 else (length - 1) / 8 * 8;
    last / 8 < |data| && (position % 8 != 0 ==> last / 8 + 1 < |data|)
  }

  /** bit_lib_get_bits; the left shift is cut to uint8_t. */
  function GetBits(data: seq<uint8>, position: nat, length: nat): nat
    requires length <= 8 && Readable(data, position, length)
  {
    var shift := position % 8;
    if shift == 0 then
      Shr(data[position / 8], 8 - length)
    else
      var value := Low8(Shl(data[position / 8], shift));
      Shr(Or(value, Shr(data[position / 8 + 1], 8 - shift)), 8 - length)
  }

  function Low8(x: nat): uint8 {
    x % 0x100
  }

  /** Byte k of a wider read: eight bits, or what is left of the length. */
  function Part(data: seq<uint8>, position: nat, length: nat, k: nat): nat
    requires Readable(data, position, length) && 8 * k < length
  {
    PartReadable(data, position, length, k);
    GetBits(data, position + 8 * k, if length - 8 * k < 8 then length - 8 * k else 8)
  }

  lemma PartReadable(data: seq<uint8>, position: nat, length: nat, k: nat)
    requires Readable(data, position, length) && 8 * k < length
    ensures Readable(data, position + 8 * k, if length - 8 * k < 8 then length - 8 * k else 8)
  {
    assert (position + 8 * k) % 8 == position % 8;
    assert (position + 8 * k) / 8 == position / 8 + k;
  }

  lemma ReadableBits(data: seq<uint8>, position: nat, length: nat)
    requires Readable(data, position, length)
    ensures position + length <= 8 * |data|
  {
  }

  function GetBits16(data: seq<uint8>, position: nat, length: nat): nat
    requires length <= 16 && Readable(data, position, length)
  {
    if length <= 8 then
      GetBits(data, position, length)
    else
      var value := Shl(Part(data, position, length, 0), length - 8);
      Or(value, Part(data, position, length, 1))
  }

  function GetBits32(data: seq<uint8>, position: nat, length: nat): nat
    requires length <= 32 && Readable(data, position, length)
  {
    if length <= 8 then
      GetBits(data, position, length)
    else if length <= 16 then
      var v1 := Shl(Part(data, position, length, 0), length - 8);
      Or(v1, Part(data, position, length, 1))
    else if length <= 24 then
      var v1 := Shl(Part(data, position, length, 0), length - 8);
      var v2 := Or(v1, Shl(Part(data, position, length, 1), length - 16));
      Or(v2, Part(data, position, length, 2))
    else
      var v1 := Shl(Part(data, position, length, 0), length - 8);
      var v2 := Or(v1, Shl(Part(data, position, length, 1), length - 16));
      var v3 := Or(v2, Shl(Part(data, position, length, 2), length - 24));
      Or(v3, Part(data, position, length, 3))
  }

  function GetBits64(data: seq<uint8>, position: nat, length: nat): nat
    requires length <= 64 && Readable(data, position, length)
  {
    if length <= 8 then
      GetBits(data, position, length)
    else if length <= 16 then
      var v1 := Shl(Part(data, position, length, 0), length - 8);
      Or(v1, Part(data, position, length, 1))
    else if length <= 24 then
      var v1 := Shl(Part(data, position, length, 0), length - 8);
      var v2 := Or(v1, Shl(Part(data, position, length, 1), length - 16));
      Or(v2, Part(data, position, length, 2))
    else if length <= 32 then
      var v1 := Shl(Part(data, position, length, 0), length - 8);
      var v2 := Or(v1, Shl(Part(data, position, length, 1), length - 16));
      var v3 := Or(v2, Shl(Part(data, position, length, 2), length - 24));
      Or(v3, Part(data, position, length, 3))
    else if length <= 40 then
      var v1 := Shl(Part(data, position, length, 0), length - 8);
      var v2 := Or(v1, Shl(Part(data, position, length, 1), length - 16));
      var v3 := Or(v2, Shl(Part(data, position, length, 2), length - 24));
      var v4 := Or(v3, Shl(Part(data, position, length, 3), length - 32));
      Or(v4, Part(data, position, length, 4))
    else if length <= 48 then
      var v1 := Shl(Part(data, position, length, 0), length - 8);
      var v2 := Or(v1, Shl(Part(data, position, length, 1), length - 16));
      var v3 := Or(v2, Shl(Part(data, position, length, 2), length - 24));
      var v4 := Or(v3, Shl(Part(data, position, length, 3), length - 32));
      var v5 := Or(v4, Shl(Part(data, position, length, 4), length - 40));
      Or(v5, Part(data, position, length, 5))
    else if length <= 56 then
      var v1 := Shl(Part(data, position, length, 0), length - 8);
      var v2 := Or(v1, Shl(Part(data, position, length, 1), length - 16));
      var v3 := Or(v2, Shl(Part(data, position, length, 2), length - 24));
      var v4 := Or(v3, Shl(Part(data, position, length, 3), length - 32));
      var v5 := Or(v4, Shl(Part(data, position, length, 4), length - 40));
      var v6 := Or(v5, Shl(Part(data, position, length, 5), length - 48));
      Or(v6, Part(data, position, length, 6))
    else
      var v1 := Shl(Part(data, position, length, 0), length - 8);
      var v2 := Or(v1, Shl(Part(data, position, length, 1), length - 16));
      var v3 := Or(v2, Shl(Part(data, position, length, 2), length - 24));
      var v4 := Or(v3, Shl(Part(data, position, length, 3), length - 32));
      var v5 := Or(v4, Shl(Part(data, position, length, 4), length - 40));
      var v6 := Or(v5, Shl(Part(data, position, length, 5), length - 48));
      var v7 := Or(v6, Shl(Part(data, position, length, 6), length - 56));
      Or(v7, Part(data, position, length, 7))
  }

  // ---------------------------------------------------------- bytes touched

  /** The bytes a reader loads: for every part one byte, and the following one if it is unaligned. */
  function Touched(position: nat, length: nat): set<nat>
    decreases length
  {
    var own := {position / 8} + if position % 8 != 0 then {position / 8 + 1} else {};
    if length <= 8 then own else own + Touched(position + 8, length - 8)
  }

  predicate Inside(data: seq<uint8>, position: nat, length: nat) {
    forall k :: k in Touched(position, length) ==> k < |data|
  }

  /** The bytes that hold the wanted bits. */
  function Holding(position: nat, length: nat): set<nat> {
    set q | position <= q < position + length :: q / 8
  }

  lemma {:induction false} TouchedAre(position: nat, length: nat, k: nat)
    requires length > 0
    ensures k in Touched(position, length) <==>
      position / 8 <= k <= position / 8 + (length - 1) / 8 + if position % 8 != 0 then 1 else 0
    decreases length
  {
    if length > 8 {
      TouchedAre(position + 8, length - 8, k);
      assert (position + 8) / 8 == position / 8 + 1 && (length - 8 - 1) / 8 == (length - 1) / 8 - 1;
    }
  }

  lemma HoldingAre(position: nat, length: nat, k: nat)
    requires length > 0
    ensures k in Holding(position, length) <==> position / 8 <= k <= (position + length - 1) / 8
  {
    if position / 8 <= k <= (position + length - 1) / 8 {
      var q := if k == position / 8 then position else 8 * k;
      assert position <= q < position + length && q / 8 == k;
    }
  }

  /**
    A reader stays inside the buffer exactly when the position is aligned or the byte behind its
    last full step exists; that is the precondition of the readers.
   */
  lemma ReaderInsideIff(data: seq<uint8>, position: nat, length: nat)
    requires 0 < length && position + length <= 8 * |data|
    ensures Inside(data, position, length)
      <==> position % 8 == 0 || position / 8 + (length - 1) / 8 + 1 < |data|
    ensures Readable(data, position, length) <==> Inside(data, position, length)
  {
    hide Inside;
    var last := position / 8 + (length - 1) / 8 + if position % 8 != 0 then 1 else 0;
    LastTouched(data, position, length);
    assert (position + (length - 1) / 8 * 8) / 8 == position / 8 + (length - 1) / 8;
    if position % 8 == 0 {
      SameQuotient(position, length - 1);
      assert (position + (length - 1)) / 8 == last;
      assert last < |data|;
    } else {
      assert last == position / 8 + (length - 1) / 8 + 1;
    }
  }

  lemma LastTouched(data: seq<uint8>, position: nat, length: nat)
    requires 0 < length
    ensures Inside(data, position, length)
      <==> position / 8 + (length - 1) / 8 + (if position % 8 != 0 then 1 else 0) < |data|
  {
    var last := position / 8 + (length - 1) / 8 + if position % 8 != 0 then 1 else 0;
    forall k: nat ensures k in Touched(position, length) <==> position / 8 <= k <= last {
      TouchedAre(position, length, k);
    }
    assert last in Touched(position, length);
  }

  lemma SameQuotient(p: nat, m: nat)
    ensures (p + m) / 8 == p / 8 + m / 8 + (p % 8 + m % 8) / 8
  {
  }

  /**
    A reader touches a byte that holds none of the wanted bits exactly when the position is
    unaligned and the last part fits into one byte; it is the byte behind the last wanted bit.
   */
  lemma OverreadIff(position: nat, length: nat)
    requires length > 0
    ensures Holding(position, length) <= Touched(position, length)
    ensures Touched(position, length) == Holding(position, length)
      <==> position % 8 == 0 || position % 8 + (length - 1) % 8 >= 8
    ensures Touched(position, length) <= Holding(position, length) + {(position + length - 1) / 8 + 1}
  {
    hide Touched, Holding;
    var first, wanted := position / 8, (position + (length - 1)) / 8;
    var last := first + (length - 1) / 8 + if position % 8 != 0 then 1 else 0;
    forall k: nat
      ensures k in Touched(position, length) <==> first <= k <= last
      ensures k in Holding(position, length) <==> first <= k <= wanted
    {
      TouchedAre(position, length, k);
      HoldingAre(position, length, k);
    }
    SameQuotient(position, length - 1);
    assert last in Touched(position, length);
    assert wanted <= last <= wanted + 1;
  }

  /** One bit of a one-byte buffer, not the first: the reader loads the byte behind the buffer. */
  lemma OneByteOverread(b: uint8)
    ensures 1 + 1 <= 8 * |[b]| && Holding(1, 1) == {0} && Touched(1, 1) == {0, 1} && !Readable([b], 1, 1)
  {
    forall k: nat ensures k in Holding(1, 1) <==> k == 0 {
      HoldingAre(1, 1, k);
    }
  }

  // ------------------------------------------------------------ byte by byte

  lemma ByteBit(data: seq<uint8>, k: nat, i: nat)
    requires k < |data| && i < 8
    ensures GetBit(data, 8 * k + i) == LowBits(data[k], 8)[i]
  {
    hide Shr, LowBits, Bit;
    assert (8 * k + i) / 8 == k && (8 * k + i) % 8 == i;
    LowBitsAt(data[k], 8, i);
    BitIsShift(data[k], 7 - i);
  }

  lemma ByteBits(data: seq<uint8>, k: nat)
    requires k < |data|
    ensures Bits(data, 8 * k, 8) == LowBits(data[k], 8)
    ensures Num(Bits(data, 8 * k, 8)) == data[k]
  {
    hide GetBit, LowBits, Num;
    forall i | 0 <= i < 8 ensures Bits(data, 8 * k, 8)[i] == LowBits(data[k], 8)[i] {
      ByteBit(data, k, i);
    }
    NumOfLow(data[k], 8);
    assert Pow2(8) == 256;
  }

  lemma BitsConcat(data: seq<uint8>, position: nat, m: nat, n: nat)
    requires position + m + n <= 8 * |data|
    ensures Bits(data, position, m + n) == Bits(data, position, m) + Bits(data, position + m, n)
  {
  }

  /** The left shift of an unaligned read drops the bits in front of the position. */
  lemma ShiftedOut(a: seq<bool>, u: seq<bool>)
    requires |a| + |u| == 8
    ensures Low8(Shl(Num(a + u), |a|)) == Shl(Num(u), |a|)
  {
    hide Num, Pow2;
    NumConcat(a, u);
    NumBound(u);
    PowSum(|a|, |u|);
    EightBits();
    DropHigh(Num(a), Num(u), Pow2(|a|), Pow2(|u|));
  }

  lemma EightBits()
    ensures Pow2(8) == 256
  {
  }

  lemma DropHigh(x: nat, y: nat, p: nat, q: nat)
    requires p * q == 256 && y < q && p > 0
    ensures (x * q + y) * p % 256 == y * p
  {
    Expand(x, q, y, p);
    ScaleBound(y, q, p);
    QuotientUnique((x * q + y) * p, 256, x, y * p);
  }

  lemma Expand(x: nat, q: nat, y: nat, p: nat)
    ensures (x * q + y) * p == x * (p * q) + y * p
  {
    assert x * q * p == x * (p * q);
  }

  lemma ScaleBound(x: nat, q: nat, p: nat)
    requires x < q && p > 0
    ensures x * p < p * q
  {
    MulMono(x + 1, q, p);
  }

  /** The low part of one byte in front of the high part of the next. */
  lemma JoinHalves(a: seq<bool>, u: seq<bool>, v: seq<bool>, w: seq<bool>)
    requires |a| + |u| == 8 && |v| == |a| && |w| == |u|
    ensures Or(Low8(Shl(Num(a + u), |a|)), Shr(Num(v + w), |u|)) == Num(u + v)
  {
    hide Or, Shl, Shr, Num, Low8, Pow2;
    ShiftedOut(a, u);
    NumSplit(v, w);
    NumBound(v);
    OrIsSum(Num(u), |a|, Num(v));
    NumConcat(u, v);
  }

  /** A byte is its first and its last bits. */
  lemma ByteHalves(data: seq<uint8>, k: nat, s: nat)
    requires k < |data| && s <= 8
    ensures data[k] == Num(Bits(data, 8 * k, s) + Bits(data, 8 * k + s, 8 - s))
  {
    hide Num, Bits;
    ByteBits(data, k);
    BitsConcat(data, 8 * k, s, 8 - s);
  }

  /** The eight bits from an unaligned position, out of two bytes. */
  lemma TwoByteRead(data: seq<uint8>, k: nat, s: nat)
    requires 0 < s < 8 && k + 1 < |data|
    ensures Or(Low8(Shl(data[k], s)), Shr(data[k + 1], 8 - s)) == Num(Bits(data, 8 * k + s, 8))
  {
    hide Or, Shl, Shr, Num, Bits, Low8, Pow2;
    var next := 8 * (k + 1);
    ByteHalves(data, k, s);
    ByteHalves(data, k + 1, s);
    BitsConcat(data, 8 * k + s, 8 - s, s);
    JoinHalves(Bits(data, 8 * k, s), Bits(data, 8 * k + s, 8 - s), Bits(data, next, s), Bits(data, next + s, 8 - s));
  }

  /** bit_lib_get_bits is the big-endian fold of the single bits. */
  lemma GetBitsIsFold(data: seq<uint8>, position: nat, length: nat)
    requires length <= 8 && Readable(data, position, length)
    ensures position + length <= 8 * |data|
    ensures GetBits(data, position, length) == Num(Bits(data, position, length))
  {
    hide Or, Shl, Shr, Num, Bits, Low8;
    BitsConcat(data, position, length, 8 - length);
    NumSplit(Bits(data, position, length), Bits(data, position + length, 8 - length));
    if position % 8 == 0 {
      ByteBits(data, position / 8);
    } else {
      TwoByteRead(data, position / 8, position % 8);
    }
  }

  // ------------------------------------------------------------ the ladders

  lemma {:induction false} OrShl(x: nat, y: nat, n: nat)
    ensures Or(Shl(x, n), Shl(y, n)) == Shl(Or(x, y), n)
    decreases n
  {
    if n > 0 {
      HalfShift(x, n);
      HalfShift(y, n);
      HalfShift(Or(x, y), n);
      OrShl(x, y, n - 1);
      OrDouble(Shl(x, n - 1), Shl(y, n - 1));
    }
  }

  lemma OrDouble(x: nat, y: nat)
    ensures Or(2 * x, 2 * y) == 2 * Or(x, y)
  {
  }

  lemma ShlShl(x: nat, m: nat, n: nat)
    ensures Shl(Shl(x, m), n) == Shl(x, m + n)
  {
    PowSum(m, n);
  }

  /** One more full byte of the ladder. */
  lemma AddChunk(data: seq<uint8>, position: nat, length: nat, k: nat)
    requires Readable(data, position, length) && 0 < k && 8 * k + 8 < length
    ensures position + length <= 8 * |data|
    ensures Or(Shl(Num(Bits(data, position, 8 * k)), length - 8 * k),
               Shl(Part(data, position, length, k), length - 8 * k - 8))
      == Shl(Num(Bits(data, position, 8 * k + 8)), length - 8 * k - 8)
  {
    hide Or, Shl, Num, Bits, GetBits;
    ReadableBits(data, position, length);
    PartReadable(data, position, length, k);
    var x, c := Num(Bits(data, position, 8 * k)), Bits(data, position + 8 * k, 8);
    var m := length - 8 * k - 8;
    hide Readable;
    GetBitsIsFold(data, position + 8 * k, 8);
    ShlShl(x, 8, m);
    OrShl(Shl(x, 8), Num(c), m);
    NumBound(c);
    OrIsSum(x, 8, Num(c));
    BitsConcat(data, position, 8 * k, 8);
    NumConcat(Bits(data, position, 8 * k), c);
  }

  /** The last, possibly partial, byte of the ladder. */
  lemma AddRest(data: seq<uint8>, position: nat, length: nat, k: nat)
    requires Readable(data, position, length) && 0 < k && 8 * k < length <= 8 * k + 8
    ensures position + length <= 8 * |data|
    ensures Or(Shl(Num(Bits(data, position, 8 * k)), length - 8 * k), Part(data, position, length, k))
      == Num(Bits(data, position, length))
  {
    hide Or, Shl, Num, Bits, GetBits;
    ReadableBits(data, position, length);
    PartReadable(data, position, length, k);
    var r := length - 8 * k;
    var c := Bits(data, position + 8 * k, r);
    hide Readable;
    GetBitsIsFold(data, position + 8 * k, r);
    NumBound(c);
    OrIsSum(Num(Bits(data, position, 8 * k)), r, Num(c));
    BitsConcat(data, position, 8 * k, r);
    NumConcat(Bits(data, position, 8 * k), c);
  }

  lemma FirstPart(data: seq<uint8>, position: nat, length: nat)
    requires Readable(data, position, length) && 8 < length
    ensures position + length <= 8 * |data|
    ensures Part(data, position, length, 0) == Num(Bits(data, position, 8))
  {
    hide Num, Bits, GetBits;
    ReadableBits(data, position, length);
    PartReadable(data, position, length, 0);
    GetBitsIsFold(data, position, 8);
  }

  /** The readers of every width are the same fold. */
  lemma GetBits64IsFold(data: seq<uint8>, position: nat, length: nat)
    requires length <= 64 && Readable(data, position, length)
    ensures position + length <= 8 * |data|
    ensures GetBits64(data, position, length) == Num(Bits(data, position, length))
  {
    hide Or, Shl, Num, Bits, GetBits, Part, Readable;
    ReadableBits(data, position, length);
    if length <= 8 {
      GetBitsIsFold(data, position, length);
    } else {
      FirstPart(data, position, length);
      var n := (length - 1) / 8;
      if 2 <= n { AddChunk(data, position, length, 1); }
      if 3 <= n { AddChunk(data, position, length, 2); }
      if 4 <= n { AddChunk(data, position, length, 3); }
      if 5 <= n { AddChunk(data, position, length, 4); }
      if 6 <= n { AddChunk(data, position, length, 5); }
      if 7 <= n { AddChunk(data, position, length, 6); }
      AddRest(data, position, length, n);
    }
  }

  lemma GetBits32IsFold(data: seq<uint8>, position: nat, length: nat)
    requires length <= 32 && Readable(data, position, length)
    ensures position + length <= 8 * |data|
    ensures GetBits32(data, position, length) == Num(Bits(data, position, length))
  {
    hide Or, Shl, Num, Bits, GetBits, Part, Readable;
    ReadableBits(data, position, length);
    if length <= 8 {
      GetBitsIsFold(data, position, length);
    } else {
      FirstPart(data, position, length);
      var n := (length - 1) / 8;
      if 2 <= n { AddChunk(data, position, length, 1); }
      if 3 <= n { AddChunk(data, position, length, 2); }
      AddRest(data, position, length, n);
    }
  }

  lemma GetBits16IsFold(data: seq<uint8>, position: nat, length: nat)
    requires length <= 16 && Readable(data, position, length)
    ensures position + length <= 8 * |data|
    ensures GetBits16(data, position, length) == Num(Bits(data, position, length))
  {
    hide Or, Shl, Num, Bits, GetBits, Part, Readable;
    ReadableBits(data, position, length);
    if length <= 8 {
      GetBitsIsFold(data, position, length);
    } else {
      FirstPart(data, position, length);
      AddRest(data, position, length, 1);
    }
  }

  /** On a shared length all four readers agree, and the value fits that many bits. */
  lemma ReadersAgree(data: seq<uint8>, position: nat, length: nat)
    requires length <= 64 && Readable(data, position, length)
    ensures length <= 8 ==> GetBits(data, position, length) == GetBits64(data, position, length)
    ensures length <= 16 ==> GetBits16(data, position, length) == GetBits64(data, position, length)
    ensures length <= 32 ==> GetBits32(data, position, length) == GetBits64(data, position, length)
    ensures GetBits64(data, position, length) < Pow2(length)
  {
    hide GetBits, GetBits16, GetBits32, GetBits64, Num, Bits;
    GetBits64IsFold(data, position, length);
    if length <= 32 { GetBits32IsFold(data, position, length); }
    if length <= 16 { GetBits16IsFold(data, position, length); }
    if length <= 8 { GetBitsIsFold(data, position, length); }
    NumBound(Bits(data, position, length));
  }
}
