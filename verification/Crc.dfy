/**
  The two CRC routines, on machine words.  Polynomials, initial values and final
  masks are arbitrary; reflection of input bytes and of the result is optional.
 */
module CrcModel {

  // ------------------------------------------------------------- reflection

  /** bit_lib_reverse_16_fast. */
  function Reverse16Fast(data: bv16): bv16 {
    ((data & 0x8000) >> 15) | ((data & 0x4000) >> 13) | ((data & 0x2000) >> 11) | ((data & 0x1000) >> 9)
    | ((data & 0x0800) >> 7) | ((data & 0x0400) >> 5) | ((data & 0x0200) >> 3) | ((data & 0x0100) >> 1)
    | ((data & 0x0080) << 1) | ((data & 0x0040) << 3) | ((data & 0x0020) << 5) | ((data & 0x0010) << 7)
    | ((data & 0x0008) << 9) | ((data & 0x0004) << 11) | ((data & 0x0002) << 13) | ((data & 0x0001) << 15)
  }

  /** bit_lib_reverse_8_fast. */
  function Reverse8Fast(byte: bv8): bv8 {
    var b := ((byte & 0xF0) >> 4) | ((byte & 0x0F) << 4);
    var c := ((b & 0xCC) >> 2) | ((b & 0x33) << 2);
    ((c & 0xAA) >> 1) | ((c & 0x55) << 1)
  }

  /** What crc16 does to a reflected input byte. */
  function ReflectByte(byte: bv8): bv8 {
    (Reverse16Fast(byte as bv16) >> 8) as bv8
  }

  /** The two fast reversals agree on bytes, and reversing twice is the identity. */
  lemma ReversalsAgree(byte: bv8, word: bv16)
    ensures ReflectByte(byte) == Reverse8Fast(byte)
    ensures Reverse8Fast(Reverse8Fast(byte)) == byte
    ensures Reverse16Fast(Reverse16Fast(word)) == word
  {
  }

  // The word operations are named so that the inductive proofs can leave them closed.

  function Xor16(a: bv16, b: bv16): bv16 { a ^ b }

  function Xor8(a: bv8, b: bv8): bv8 { a ^ b }

  function Left16(a: bv16): bv16 { a << 1 }

  function Left8(a: bv8): bv8 { a << 1 }

  // ------------------------------------------------------------------- crc16

  /** The bit that the next shift pushes out. */
  predicate Top16(crc: bv16) {
    (crc >> 15) & 1 == 1
  }

  /** A shift, and the polynomial when asked for. */
  function Shifted16(crc: bv16, add: bool, polynom: bv16): bv16 {
    if add then Xor16(Left16(crc), polynom) else Left16(crc)
  }

  /** One message bit: the polynomial is added when the bit leaving differs from it. */
  function Step16(crc: bv16, bit: bool, polynom: bv16): bv16 {
    Shifted16(crc, Top16(crc) != bit, polynom)
  }

  function LeftBy(byte: bv8, j: nat): bv8 {
    if j == 0 then byte else Left8(LeftBy(byte, j - 1))
  }

  /** Bit j of a byte, from the top. */
  predicate BitOf(byte: bv8, j: nat) {
    Top8(LeftBy(byte, j))
  }

  /** The same bit as the loop reads it. */
  predicate BitAt(byte: bv8, j: nat)
    requires j < 8
  {
    (byte >> (7 - j)) & 1 == 1
  }

  lemma BitAtIsBitOf(byte: bv8, j: nat)
    requires j < 8
    ensures BitAt(byte, j) == BitOf(byte, j)
  {
    assert LeftBy(byte, 1) == byte << 1;
    assert LeftBy(byte, 2) == byte << 2;
    assert LeftBy(byte, 3) == byte << 3;
    assert LeftBy(byte, 4) == byte << 4;
    assert LeftBy(byte, 5) == byte << 5;
    assert LeftBy(byte, 6) == byte << 6;
    assert LeftBy(byte, 7) == byte << 7;
    hide LeftBy;
    if j == 0 {} else if j == 1 {} else if j == 2 {} else if j == 3 {}
    else if j == 4 {} else if j == 5 {} else if j == 6 {} else {}
  }

  /** The first j bits of a byte. */
  function Bits16(crc: bv16, byte: bv8, polynom: bv16, j: nat): bv16
    requires j <= 8
  {
    if j == 0 then crc else Step16(Bits16(crc, byte, polynom, j - 1), BitOf(byte, j - 1), polynom)
  }

  function Reflected(byte: bv8, reflect: bool): bv8 {
    if reflect then ReflectByte(byte) else byte
  }

  function Fold16(data: seq<bv8>, polynom: bv16, crc: bv16, refIn: bool): bv16
    decreases |data|
  {
    if data == [] then crc else
    Fold16(data[1..], polynom, Bits16(crc, Reflected(data[0], refIn), polynom, 8), refIn)
  }

  function Finish16(crc: bv16, refOut: bool, xorOut: bv16): bv16 {
    Xor16(if refOut then Reverse16Fast(crc) else crc, xorOut)
  }

  function Crc16(data: seq<bv8>, polynom: bv16, init: bv16, refIn: bool, refOut: bool, xorOut: bv16): bv16 {
    Finish16(Fold16(data, polynom, init, refIn), refOut, xorOut)
  }

  // -------------------------------------------------------------------- crc8

  predicate Top8(crc: bv8) {
    crc & 0x80 != 0
  }

  function Shifted8(crc: bv8, add: bool, polynom: bv8): bv8 {
    if add then Xor8(Left8(crc), polynom) else Left8(crc)
  }

  function Shift8(crc: bv8, polynom: bv8, j: nat): bv8 {
    if j == 0 then crc else
    var before := Shift8(crc, polynom, j - 1);
    Shifted8(before, Top8(before), polynom)
  }

  function Fold8(data: seq<bv8>, polynom: bv8, crc: bv8, refIn: bool): bv8
    decreases |data|
  {
    if data == [] then crc else
    Fold8(data[1..], polynom, Shift8(Xor8(crc, Reflected(data[0], refIn)), polynom, 8), refIn)
  }

  function Crc8(data: seq<bv8>, polynom: bv8, init: bv8, refIn: bool, refOut: bool, xorOut: bv8): bv8 {
    Xor8(Reflected(Fold8(data, polynom, init, refIn), refOut), xorOut)
  }

  // ------------------------------------------------------------- word lemmas

  lemma Assoc16(a: bv16, b: bv16, c: bv16)
    ensures Xor16(Xor16(a, b), c) == Xor16(a, Xor16(b, c))
  {
  }

  lemma Comm16(a: bv16, b: bv16)
    ensures Xor16(a, b) == Xor16(b, a)
  {
  }

  lemma Assoc8(a: bv8, b: bv8, c: bv8)
    ensures Xor8(Xor8(a, b), c) == Xor8(a, Xor8(b, c))
  {
  }

  lemma Comm8(a: bv8, b: bv8)
    ensures Xor8(a, b) == Xor8(b, a)
  {
  }

  lemma Swap16(a: bv16, b: bv16, c: bv16, d: bv16)
    ensures Xor16(Xor16(a, b), Xor16(c, d)) == Xor16(Xor16(a, c), Xor16(b, d))
  {
    hide Xor16;
    Assoc16(a, b, Xor16(c, d));
    Assoc16(b, c, d);
    Comm16(b, c);
    Assoc16(c, b, d);
    Assoc16(a, c, Xor16(b, d));
  }

  lemma Swap8(a: bv8, b: bv8, c: bv8, d: bv8)
    ensures Xor8(Xor8(a, b), Xor8(c, d)) == Xor8(Xor8(a, c), Xor8(b, d))
  {
    hide Xor8;
    Assoc8(a, b, Xor8(c, d));
    Assoc8(b, c, d);
    Comm8(b, c);
    Assoc8(c, b, d);
    Assoc8(a, c, Xor8(b, d));
  }

  lemma Laws16(a: bv16, b: bv16, c: bv16)
    ensures Xor16(a, 0) == a && Xor16(0, a) == a && Xor16(a, a) == 0
    ensures Xor16(Xor16(a, b), c) == Xor16(a, Xor16(b, c))
    ensures Xor16(a, Xor16(a, b)) == b
  {
  }

  lemma Laws8(a: bv8)
    ensures Xor8(a, 0) == a && Xor8(a, a) == 0
  {
  }

  lemma Top16Xor(a: bv16, b: bv16)
    ensures Top16(Xor16(a, b)) == (Top16(a) != Top16(b))
  {
  }

  lemma Top8Xor(a: bv8, b: bv8)
    ensures Top8(Xor8(a, b)) == (Top8(a) != Top8(b))
  {
  }

  lemma Left16Xor(a: bv16, b: bv16)
    ensures Left16(Xor16(a, b)) == Xor16(Left16(a), Left16(b))
  {
  }

  lemma Left8Xor(a: bv8, b: bv8)
    ensures Left8(Xor8(a, b)) == Xor8(Left8(a), Left8(b))
  {
  }

  lemma Shift16Xor(a: bv16, b: bv16, x: bool, y: bool, p: bv16)
    ensures Shifted16(Xor16(a, b), x != y, p) == Xor16(Shifted16(a, x, p), Shifted16(b, y, p))
  {
    hide Xor16, Left16;
    var c, d := Left16(a), Left16(b);
    Left16Xor(a, b);
    if x && y {
      Swap16(c, p, d, p);
      Laws16(p, 0, 0);
      Laws16(Xor16(c, d), 0, 0);
    } else if x {
      Assoc16(c, p, d);
      Comm16(p, d);
      Assoc16(c, d, p);
    } else if y {
      Assoc16(c, d, p);
    }
  }

  lemma Shift8Xor(a: bv8, b: bv8, x: bool, y: bool, p: bv8)
    ensures Shifted8(Xor8(a, b), x != y, p) == Xor8(Shifted8(a, x, p), Shifted8(b, y, p))
  {
    hide Xor8, Left8;
    var c, d := Left8(a), Left8(b);
    Left8Xor(a, b);
    if x && y {
      Swap8(c, p, d, p);
      Laws8(p);
      Laws8(Xor8(c, d));
    } else if x {
      Assoc8(c, p, d);
      Comm8(p, d);
      Assoc8(c, d, p);
    } else if y {
      Assoc8(c, d, p);
    }
  }

  lemma {:induction false} LeftByXor(x: bv8, y: bv8, j: nat)
    ensures LeftBy(Xor8(x, y), j) == Xor8(LeftBy(x, j), LeftBy(y, j))
  {
    hide Xor8, Left8;
    if j > 0 {
      LeftByXor(x, y, j - 1);
      Left8Xor(LeftBy(x, j - 1), LeftBy(y, j - 1));
    }
  }

  lemma BitXor(x: bv8, y: bv8, j: nat)
    ensures BitOf(Xor8(x, y), j) == (BitOf(x, j) != BitOf(y, j))
  {
    hide Xor8, Top8, LeftBy;
    LeftByXor(x, y, j);
    Top8Xor(LeftBy(x, j), LeftBy(y, j));
  }

  lemma {:induction false} ZeroLeft(j: nat)
    ensures LeftBy(0, j) == 0
  {
    if j > 0 { ZeroLeft(j - 1); }
  }

  lemma ZeroBit(j: nat)
    ensures !BitOf(0, j)
  {
    hide LeftBy;
    ZeroLeft(j);
  }

  lemma ReflectXor(x: bv8, y: bv8, reflect: bool)
    ensures Reflected(Xor8(x, y), reflect) == Xor8(Reflected(x, reflect), Reflected(y, reflect))
  {
  }

  lemma Reverse16Xor(x: bv16, y: bv16)
    ensures Reverse16Fast(Xor16(x, y)) == Xor16(Reverse16Fast(x), Reverse16Fast(y))
  {
  }

  // --------------------------------------------------------------- linearity

  function XorAll(a: seq<bv8>, b: seq<bv8>): (r: seq<bv8>)
    requires |a| == |b|
    ensures |r| == |a|
    decreases |a|
  {
    if a == [] then [] else [Xor8(a[0], b[0])] + XorAll(a[1..], b[1..])
  }

  lemma StepXor(c: bv16, d: bv16, x: bool, y: bool, polynom: bv16)
    ensures Step16(Xor16(c, d), x != y, polynom) == Xor16(Step16(c, x, polynom), Step16(d, y, polynom))
  {
    hide Xor16, Top16, Shifted16, Left16;
    Top16Xor(c, d);
    Shift16Xor(c, d, Top16(c) != x, Top16(d) != y, polynom);
  }

  lemma {:induction false} BitsXor(c: bv16, d: bv16, x: bv8, y: bv8, polynom: bv16, j: nat)
    requires j <= 8
    ensures Bits16(Xor16(c, d), Xor8(x, y), polynom, j) == Xor16(Bits16(c, x, polynom, j), Bits16(d, y, polynom, j))
    decreases j
  {
    hide Xor16, Xor8, Step16, BitOf;
    if j > 0 {
      BitsXor(c, d, x, y, polynom, j - 1);
      BitXor(x, y, j - 1);
      StepXor(Bits16(c, x, polynom, j - 1), Bits16(d, y, polynom, j - 1), BitOf(x, j - 1), BitOf(y, j - 1), polynom);
    }
  }

  lemma {:induction false} Fold16Xor(a: seq<bv8>, b: seq<bv8>, polynom: bv16, c: bv16, d: bv16, refIn: bool)
    requires |a| == |b|
    ensures Fold16(XorAll(a, b), polynom, Xor16(c, d), refIn)
      == Xor16(Fold16(a, polynom, c, refIn), Fold16(b, polynom, d, refIn))
    decreases |a|
  {
    hide Xor16, Xor8, Bits16, Reflected;
    if a != [] {
      var x, y := Reflected(a[0], refIn), Reflected(b[0], refIn);
      ReflectXor(a[0], b[0], refIn);
      BitsXor(c, d, x, y, polynom, 8);
      assert XorAll(a, b)[0] == Xor8(a[0], b[0]) && XorAll(a, b)[1..] == XorAll(a[1..], b[1..]);
      Fold16Xor(a[1..], b[1..], polynom, Bits16(c, x, polynom, 8), Bits16(d, y, polynom, 8), refIn);
    }
  }

  lemma Finish16Xor(c: bv16, d: bv16, refOut: bool, x: bv16, y: bv16)
    ensures Finish16(Xor16(c, d), refOut, Xor16(x, y)) == Xor16(Finish16(c, refOut, x), Finish16(d, refOut, y))
  {
    hide Xor16, Reverse16Fast;
    Reverse16Xor(c, d);
    Swap16(c, d, x, y);
    Swap16(Reverse16Fast(c), Reverse16Fast(d), x, y);
  }

  /** crc16 is linear in message, initial value and final mask together. */
  lemma Crc16Linear(a: seq<bv8>, b: seq<bv8>, polynom: bv16, c: bv16, d: bv16, refIn: bool, refOut: bool,
                    x: bv16, y: bv16)
    requires |a| == |b|
    ensures Crc16(XorAll(a, b), polynom, Xor16(c, d), refIn, refOut, Xor16(x, y))
      == Xor16(Crc16(a, polynom, c, refIn, refOut, x), Crc16(b, polynom, d, refIn, refOut, y))
  {
    hide Fold16, Finish16, Xor16;
    Fold16Xor(a, b, polynom, c, d, refIn);
    Finish16Xor(Fold16(a, polynom, c, refIn), Fold16(b, polynom, d, refIn), refOut, x, y);
  }

  lemma {:induction false} Shift8Linear(c: bv8, d: bv8, polynom: bv8, j: nat)
    ensures Shift8(Xor8(c, d), polynom, j) == Xor8(Shift8(c, polynom, j), Shift8(d, polynom, j))
  {
    hide Xor8, Top8, Shifted8, Left8;
    if j > 0 {
      Shift8Linear(c, d, polynom, j - 1);
      var p, q := Shift8(c, polynom, j - 1), Shift8(d, polynom, j - 1);
      Top8Xor(p, q);
      Shift8Xor(p, q, Top8(p), Top8(q), polynom);
    }
  }

  lemma {:induction false} Fold8Xor(a: seq<bv8>, b: seq<bv8>, polynom: bv8, c: bv8, d: bv8, refIn: bool)
    requires |a| == |b|
    ensures Fold8(XorAll(a, b), polynom, Xor8(c, d), refIn)
      == Xor8(Fold8(a, polynom, c, refIn), Fold8(b, polynom, d, refIn))
    decreases |a|
  {
    hide Xor8, Shift8, Reflected;
    if a != [] {
      var x, y := Reflected(a[0], refIn), Reflected(b[0], refIn);
      ReflectXor(a[0], b[0], refIn);
      Swap8(c, d, x, y);
      Shift8Linear(Xor8(c, x), Xor8(d, y), polynom, 8);
      assert XorAll(a, b)[0] == Xor8(a[0], b[0]) && XorAll(a, b)[1..] == XorAll(a[1..], b[1..]);
      Fold8Xor(a[1..], b[1..], polynom, Shift8(Xor8(c, x), polynom, 8), Shift8(Xor8(d, y), polynom, 8), refIn);
    }
  }

  /** crc8 is linear in message, initial value and final mask together. */
  lemma Crc8Linear(a: seq<bv8>, b: seq<bv8>, polynom: bv8, c: bv8, d: bv8, refIn: bool, refOut: bool, x: bv8, y: bv8)
    requires |a| == |b|
    ensures Crc8(XorAll(a, b), polynom, Xor8(c, d), refIn, refOut, Xor8(x, y))
      == Xor8(Crc8(a, polynom, c, refIn, refOut, x), Crc8(b, polynom, d, refIn, refOut, y))
  {
    hide Reflected, Fold8, Xor8;
    var p, q := Fold8(a, polynom, c, refIn), Fold8(b, polynom, d, refIn);
    Fold8Xor(a, b, polynom, c, d, refIn);
    ReflectXor(p, q, refOut);
    Swap8(Reflected(p, refOut), Reflected(q, refOut), x, y);
  }

  // ----------------------------------------------------------------- residue

  lemma {:induction false} Fold16Concat(a: seq<bv8>, b: seq<bv8>, polynom: bv16, crc: bv16, refIn: bool)
    ensures Fold16(a + b, polynom, crc, refIn) == Fold16(b, polynom, Fold16(a, polynom, crc, refIn), refIn)
    decreases |a|
  {
    hide Bits16, Reflected;
    if a == [] {
      assert a + b == b;
    } else {
      assert (a + b)[0] == a[0] && (a + b)[1..] == a[1..] + b;
      Fold16Concat(a[1..], b, polynom, Bits16(crc, Reflected(a[0], refIn), polynom, 8), refIn);
    }
  }

  /** A byte at the top of the register. */
  function High(byte: bv8): bv16 {
    (byte as bv16) << 8
  }

  /** ... after j shifts. */
  function Pending(byte: bv8, j: nat): bv16 {
    High(LeftBy(byte, j))
  }

  lemma HighStep(byte: bv8)
    ensures Top16(High(byte)) == Top8(byte)
    ensures Left16(High(byte)) == High(Left8(byte))
  {
  }

  lemma PendingStep(byte: bv8, j: nat)
    ensures Top16(Pending(byte, j)) == BitOf(byte, j)
    ensures Shifted16(Pending(byte, j), false, 0) == Pending(byte, j + 1)
  {
    hide High, Top16, Top8, Left16, Left8;
    HighStep(LeftBy(byte, j));
  }

  lemma PendingEnds(byte: bv8)
    ensures Pending(byte, 0) == High(byte) && Pending(byte, 8) == 0
  {
    assert LeftBy(byte, 1) == byte << 1;
    assert LeftBy(byte, 2) == byte << 2;
    assert LeftBy(byte, 3) == byte << 3;
    assert LeftBy(byte, 4) == byte << 4;
    assert LeftBy(byte, 5) == byte << 5;
    assert LeftBy(byte, 6) == byte << 6;
    assert LeftBy(byte, 7) == byte << 7;
  }

  /** Feeding a bit is adding it at the top and feeding a zero. */
  lemma StepFromTop(crc: bv16, x: bv16, polynom: bv16)
    ensures Xor16(Step16(crc, Top16(x), polynom), Shifted16(x, false, 0)) == Step16(Xor16(crc, x), false, polynom)
  {
    hide Xor16, Top16, Shifted16, Left16;
    Top16Xor(crc, x);
    Shift16Xor(crc, x, Top16(crc) != Top16(x), false, polynom);
    NoAdd(x, polynom);
  }

  lemma NoAdd(x: bv16, polynom: bv16)
    ensures Shifted16(x, false, polynom) == Shifted16(x, false, 0)
  {
  }

  lemma {:induction false} BitsFromTop(crc: bv16, byte: bv8, polynom: bv16, j: nat)
    requires j <= 8
    ensures Xor16(Bits16(crc, byte, polynom, j), Pending(byte, j))
      == Bits16(Xor16(crc, Pending(byte, 0)), 0, polynom, j)
    decreases j
  {
    hide Xor16, Top16, Shifted16, Step16, BitOf, Pending;
    if j > 0 {
      BitsFromTop(crc, byte, polynom, j - 1);
      PendingStep(byte, j - 1);
      ZeroBit(j - 1);
      StepFromTop(Bits16(crc, byte, polynom, j - 1), Pending(byte, j - 1), polynom);
    }
  }

  /** A byte acts by its sum with the high half of the register. */
  lemma ByteFromTop(crc: bv16, byte: bv8, polynom: bv16)
    ensures Bits16(crc, byte, polynom, 8) == Bits16(Xor16(crc, High(byte)), 0, polynom, 8)
  {
    hide Bits16, Xor16;
    hide Pending;
    BitsFromTop(crc, byte, polynom, 8);
    PendingEnds(byte);
    Laws16(Bits16(crc, byte, polynom, 8), 0, 0);
  }

  /** A byte in the low half of the register is only moved by a zero byte. */
  lemma LowByteMoves(low: bv8, polynom: bv16)
    ensures Bits16(low as bv16, 0, polynom, 8) == High(low)
  {
    hide Step16, BitOf, High;
    Moves(low, polynom, 8);
    MovedEnds(low);
  }

  /** The low byte after j zero bits. */
  function Moved(low: bv8, j: nat): bv16
    requires j <= 8
  {
    match j
    case 0 => low as bv16
    case 1 => (low as bv16) << 1
    case 2 => (low as bv16) << 2
    case 3 => (low as bv16) << 3
    case 4 => (low as bv16) << 4
    case 5 => (low as bv16) << 5
    case 6 => (low as bv16) << 6
    case 7 => (low as bv16) << 7
    case 8 => (low as bv16) << 8
  }

  lemma MovedStep(low: bv8, j: nat)
    requires j < 8
    ensures !Top16(Moved(low, j)) && Left16(Moved(low, j)) == Moved(low, j + 1)
  {
  }

  lemma MovedEnds(low: bv8)
    ensures Moved(low, 0) == low as bv16 && Moved(low, 8) == High(low)
  {
  }

  lemma {:induction false} Moves(low: bv8, polynom: bv16, j: nat)
    requires j <= 8
    ensures Bits16(low as bv16, 0, polynom, j) == Moved(low, j)
  {
    hide Left16, Top16, BitOf, Moved;
    MovedEnds(low);
    if j > 0 {
      Moves(low, polynom, j - 1);
      ZeroBit(j - 1);
      MovedStep(low, j - 1);
    }
  }

  function HighByte(crc: bv16): bv8 {
    (crc >> 8) as bv8
  }

  function LowByte(crc: bv16): bv8 {
    (crc & 0xFF) as bv8
  }

  lemma OwnBytes(crc: bv16)
    ensures Xor16(High(HighByte(crc)), LowByte(crc) as bv16) == crc
  {
  }

  function Zeros(crc: bv16, polynom: bv16): bv16 {
    Bits16(Bits16(crc, 0, polynom, 8), 0, polynom, 8)
  }

  /** The two bytes of a word act by the word's sum with the register. */
  lemma TwoBytes(crc: bv16, w: bv16, polynom: bv16)
    ensures Bits16(Bits16(crc, HighByte(w), polynom, 8), LowByte(w), polynom, 8) == Zeros(Xor16(crc, w), polynom)
  {
    hide Bits16, Xor16, High, HighByte, LowByte, Xor8;
    var hi, lo := High(HighByte(w)), LowByte(w);
    var h := Xor16(crc, hi);
    ByteFromTop(crc, HighByte(w), polynom);
    ByteFromTop(Bits16(h, 0, polynom, 8), lo, polynom);
    LowByteMoves(lo, polynom);
    BitsXor(h, lo as bv16, 0, 0, polynom, 8);
    Laws8(0);
    OwnBytes(w);
    Laws16(crc, hi, lo as bv16);
  }

  lemma {:induction false} ZeroStays16(polynom: bv16, j: nat)
    requires j <= 8
    ensures Bits16(0, 0, polynom, j) == 0
  {
    hide BitOf;
    if j > 0 {
      ZeroStays16(polynom, j - 1);
      ZeroBit(j - 1);
      ZeroStep(polynom);
    }
  }

  lemma ZeroStep(polynom: bv16)
    ensures Step16(0, false, polynom) == 0
  {
  }

  lemma FoldTwo(x: bv8, y: bv8, after: seq<bv8>, polynom: bv16, crc: bv16)
    ensures Fold16([x, y] + after, polynom, crc, false)
      == Fold16(after, polynom, Bits16(Bits16(crc, x, polynom, 8), y, polynom, 8), false)
  {
    hide Bits16;
    var d := [x, y] + after;
    assert d[0] == x && d[1..] == [y] + after && d[1..][0] == y && d[1..][1..] == after;
  }

  /** A message followed by its own CRC, high byte first, has CRC 0. */
  lemma Crc16Residue(data: seq<bv8>, polynom: bv16, init: bv16)
    ensures var crc := Crc16(data, polynom, init, false, false, 0);
      Crc16(data + [HighByte(crc), LowByte(crc)], polynom, init, false, false, 0) == 0
  {
    hide Bits16, HighByte, LowByte, Xor16, Fold16;
    var crc := Fold16(data, polynom, init, false);
    Laws16(crc, 0, 0);
    var hi, lo := HighByte(crc), LowByte(crc);
    Fold16Concat(data, [hi, lo], polynom, init, false);
    FoldTwo(hi, lo, [], polynom, crc);
    assert [hi, lo] + [] == [hi, lo];
    TwoBytes(crc, crc, polynom);
    ZeroStays16(polynom, 8);
    FoldNone(Zeros(0, polynom), polynom);
    Laws16(0, 0, 0);
  }

  lemma FoldNone(crc: bv16, polynom: bv16)
    ensures Fold16([], polynom, crc, false) == crc
  {
  }

  lemma {:induction false} Fold8Concat(a: seq<bv8>, b: seq<bv8>, polynom: bv8, crc: bv8, refIn: bool)
    ensures Fold8(a + b, polynom, crc, refIn) == Fold8(b, polynom, Fold8(a, polynom, crc, refIn), refIn)
    decreases |a|
  {
    hide Shift8, Xor8, Reflected;
    if a == [] {
      assert a + b == b;
    } else {
      assert (a + b)[0] == a[0] && (a + b)[1..] == a[1..] + b;
      Fold8Concat(a[1..], b, polynom, Shift8(Xor8(crc, Reflected(a[0], refIn)), polynom, 8), refIn);
    }
  }

  lemma {:induction false} ZeroStays8(polynom: bv8, j: nat)
    ensures Shift8(0, polynom, j) == 0
  {
    if j > 0 { ZeroStays8(polynom, j - 1); }
  }

  lemma Crc8Residue(data: seq<bv8>, polynom: bv8, init: bv8)
    ensures var crc := Crc8(data, polynom, init, false, false, 0);
      Crc8(data + [crc], polynom, init, false, false, 0) == 0
  {
    hide Shift8, Xor8;
    var crc := Fold8(data, polynom, init, false);
    Laws8(crc);
    Laws8(0);
    Fold8Concat(data, [crc], polynom, init, false);
    ZeroStays8(polynom, 8);
  }

  // --------------------------------------------------------- burst detection

  predicate Odd(a: bv16) {
    a & 1 == 1
  }

  lemma OddXor(a: bv16, b: bv16)
    ensures Odd(Xor16(a, b)) == (Odd(a) != Odd(b))
  {
  }

  lemma LeftEven(a: bv16)
    ensures !Odd(Left16(a))
  {
  }

  /** With an odd polynomial the lowest bit tells whether it was added. */
  lemma ShiftedInjective(c: bv16, d: bv16, x: bool, y: bool, polynom: bv16)
    requires Odd(polynom) && Shifted16(c, x, polynom) == Shifted16(d, y, polynom)
    ensures x == y && Left16(c) == Left16(d)
  {
    hide Odd, Xor16, Left16;
    var p, q := Left16(c), Left16(d);
    LeftEven(c);
    LeftEven(d);
    OddXor(p, polynom);
    OddXor(q, polynom);
    Comm16(p, polynom);
    Comm16(q, polynom);
    Laws16(polynom, p, 0);
    Laws16(polynom, q, 0);
  }

  lemma TopAndRest(c: bv16, d: bv16)
    requires Top16(c) == Top16(d) && Left16(c) == Left16(d)
    ensures c == d
  {
  }

  lemma {:induction false} BitsInjective(c: bv16, d: bv16, byte: bv8, polynom: bv16, j: nat)
    requires j <= 8 && Odd(polynom) && Bits16(c, byte, polynom, j) == Bits16(d, byte, polynom, j)
    ensures c == d
    decreases j
  {
    hide Shifted16, Top16, BitOf, Left16, Odd;
    if j > 0 {
      var p, q := Bits16(c, byte, polynom, j - 1), Bits16(d, byte, polynom, j - 1);
      var bit := BitOf(byte, j - 1);
      ShiftedInjective(p, q, Top16(p) != bit, Top16(q) != bit, polynom);
      TopAndRest(p, q);
      BitsInjective(c, d, byte, polynom, j - 1);
    }
  }

  lemma {:induction false} FoldInjective(data: seq<bv8>, polynom: bv16, c: bv16, d: bv16)
    requires Odd(polynom) && Fold16(data, polynom, c, false) == Fold16(data, polynom, d, false)
    ensures c == d
    decreases |data|
  {
    hide Bits16;
    if data != [] {
      FoldInjective(data[1..], polynom, Bits16(c, data[0], polynom, 8), Bits16(d, data[0], polynom, 8));
      BitsInjective(c, d, data[0], polynom, 8);
    }
  }

  /** A message with the word at two adjacent bytes. */
  function Framed(before: seq<bv8>, window: bv16, after: seq<bv8>): seq<bv8> {
    before + ([HighByte(window), LowByte(window)] + after)
  }

  lemma FramedFold(before: seq<bv8>, window: bv16, after: seq<bv8>, polynom: bv16, init: bv16)
    ensures Fold16(Framed(before, window, after), polynom, init, false)
      == Fold16(after, polynom, Zeros(Xor16(Fold16(before, polynom, init, false), window), polynom), false)
  {
    hide Bits16, HighByte, LowByte, Xor16, Fold16, Zeros;
    var crc := Fold16(before, polynom, init, false);
    Fold16Concat(before, [HighByte(window), LowByte(window)] + after, polynom, init, false);
    FoldTwo(HighByte(window), LowByte(window), after, polynom, crc);
    TwoBytes(crc, window, polynom);
  }

  lemma WindowDetected(before: seq<bv8>, v: bv16, w: bv16, after: seq<bv8>, polynom: bv16, init: bv16)
    requires Odd(polynom)
    requires Fold16(Framed(before, v, after), polynom, init, false)
      == Fold16(Framed(before, w, after), polynom, init, false)
    ensures v == w
  {
    hide Bits16, Fold16, Framed, Xor16;
    FramedFold(before, v, after, polynom, init);
    FramedFold(before, w, after, polynom, init);
    var crc := Fold16(before, polynom, init, false);
    var x, y := Xor16(crc, v), Xor16(crc, w);
    FoldInjective(after, polynom, Zeros(x, polynom), Zeros(y, polynom));
    BitsInjective(Bits16(x, 0, polynom, 8), Bits16(y, 0, polynom, 8), 0, polynom, 8);
    BitsInjective(x, y, 0, polynom, 8);
    Laws16(crc, v, 0);
    Laws16(crc, w, 0);
  }

  /** For an even polynomial this register value is shifted out without a trace. */
  function Invisible(polynom: bv16): bv16 {
    0x8000 | (polynom >> 1)
  }

  lemma InvisibleStep(polynom: bv16)
    requires !Odd(polynom)
    ensures Invisible(polynom) != 0 && Top16(Invisible(polynom))
    ensures Shifted16(Invisible(polynom), true, polynom) == 0
  {
  }

  lemma {:induction false} InvisibleVanishes(polynom: bv16, j: nat)
    requires !Odd(polynom) && 1 <= j <= 8
    ensures Bits16(Invisible(polynom), 0, polynom, j) == 0
  {
    hide BitOf, Invisible, Shifted16, Top16;
    ZeroBit(j - 1);
    if j == 1 {
      InvisibleStep(polynom);
    } else {
      InvisibleVanishes(polynom, j - 1);
      ZeroStep(polynom);
    }
  }

  lemma WindowMissed(polynom: bv16, init: bv16)
    requires !Odd(polynom)
    ensures var k := Xor16(init, Invisible(polynom));
      k != init && Fold16(Framed([], init, []), polynom, init, false) == Fold16(Framed([], k, []), polynom, init, false)
  {
    hide Bits16, Invisible, Framed, Xor16, Shifted16, Top16;
    var k := Invisible(polynom);
    InvisibleStep(polynom);
    InvisibleVanishes(polynom, 8);
    ZeroStays16(polynom, 8);
    FramedFold([], init, [], polynom, init);
    FramedFold([], Xor16(init, k), [], polynom, init);
    FoldNone(init, polynom);
    Laws16(init, k, 0);
  }

  // ------------------------------------------- reflection and the final mask

  function ReflectAll(data: seq<bv8>, reflect: bool): (r: seq<bv8>)
    ensures |r| == |data|
  {
    seq(|data|, i requires 0 <= i < |data| => Reflected(data[i], reflect))
  }

  /** Reflecting the input is folding the reflected bytes. */
  lemma {:induction false} ReflectedFold(data: seq<bv8>, polynom: bv16, crc: bv16, refIn: bool)
    ensures Fold16(data, polynom, crc, refIn) == Fold16(ReflectAll(data, refIn), polynom, crc, false)
    decreases |data|
  {
    hide Bits16, ReflectByte;
    if data != [] {
      ReflectedFold(data[1..], polynom, Bits16(crc, Reflected(data[0], refIn), polynom, 8), refIn);
      assert ReflectAll(data, refIn)[1..] == ReflectAll(data[1..], refIn);
    }
  }

  function Join(high: bv8, low: bv8): bv16 {
    Xor16(High(high), low as bv16)
  }

  /** Both bytes of a word reflected in place. */
  function ReflectWord(w: bv16, reflect: bool): bv16 {
    Join(Reflected(HighByte(w), reflect), Reflected(LowByte(w), reflect))
  }

  lemma JoinedBytes(high: bv8, low: bv8)
    ensures HighByte(Join(high, low)) == high && LowByte(Join(high, low)) == low
  {
  }

  lemma JoinOwn(w: bv16)
    ensures Join(HighByte(w), LowByte(w)) == w
  {
    hide High, HighByte, LowByte, Xor16;
    OwnBytes(w);
  }

  lemma ReflectTwice(byte: bv8, reflect: bool)
    ensures Reflected(Reflected(byte, reflect), reflect) == byte
  {
    hide ReflectByte, Reverse8Fast;
    ReversalsAgree(byte, 0);
    ReversalsAgree(Reverse8Fast(byte), 0);
  }

  lemma ReflectWordTwice(w: bv16, reflect: bool)
    ensures ReflectWord(ReflectWord(w, reflect), reflect) == w
  {
    hide ReflectByte, Reflected, Join, HighByte, LowByte;
    var high, low := Reflected(HighByte(w), reflect), Reflected(LowByte(w), reflect);
    JoinedBytes(high, low);
    ReflectTwice(HighByte(w), reflect);
    ReflectTwice(LowByte(w), reflect);
    JoinOwn(w);
  }

  lemma ReflectFramed(before: seq<bv8>, w: bv16, after: seq<bv8>, refIn: bool)
    ensures ReflectAll(Framed(before, w, after), refIn)
      == Framed(ReflectAll(before, refIn), ReflectWord(w, refIn), ReflectAll(after, refIn))
  {
    hide ReflectByte, Reflected, Join, HighByte, LowByte;
    JoinedBytes(Reflected(HighByte(w), refIn), Reflected(LowByte(w), refIn));
  }

  lemma FinishInjective(c: bv16, d: bv16, refOut: bool, xorOut: bv16)
    ensures Finish16(c, refOut, xorOut) == Finish16(d, refOut, xorOut) <==> c == d
  {
    hide Reverse16Fast, Xor16, Reverse8Fast, ReflectByte;
    var x, y := if refOut then Reverse16Fast(c) else c, if refOut then Reverse16Fast(d) else d;
    ReversalsAgree(0, c);
    ReversalsAgree(0, d);
    Comm16(x, xorOut);
    Comm16(y, xorOut);
    Laws16(xorOut, x, 0);
    Laws16(xorOut, y, 0);
  }

  /** The CRC of a framed word is decided by the register after the reflected frame. */
  lemma FramedCrc(before: seq<bv8>, v: bv16, w: bv16, after: seq<bv8>, polynom: bv16, init: bv16,
                  refIn: bool, refOut: bool, xorOut: bv16)
    ensures Crc16(Framed(before, v, after), polynom, init, refIn, refOut, xorOut)
        == Crc16(Framed(before, w, after), polynom, init, refIn, refOut, xorOut)
      <==> var b, a := ReflectAll(before, refIn), ReflectAll(after, refIn);
        Fold16(Framed(b, ReflectWord(v, refIn), a), polynom, init, false)
          == Fold16(Framed(b, ReflectWord(w, refIn), a), polynom, init, false)
  {
    hide Fold16, Framed, Finish16, ReflectAll, ReflectWord;
    ReflectedFold(Framed(before, v, after), polynom, init, refIn);
    ReflectedFold(Framed(before, w, after), polynom, init, refIn);
    ReflectFramed(before, v, after, refIn);
    ReflectFramed(before, w, after, refIn);
    FinishInjective(Fold16(Framed(before, v, after), polynom, init, refIn),
                    Fold16(Framed(before, w, after), polynom, init, refIn), refOut, xorOut);
  }

  /** Every change confined to two adjacent bytes changes the CRC. */
  ghost predicate DetectsWindows(polynom: bv16, init: bv16, refIn: bool, refOut: bool, xorOut: bv16) {
    forall before: seq<bv8>, v: bv16, w: bv16, after: seq<bv8>
        {:trigger Framed(before, v, after), Framed(before, w, after)} ::
      v != w ==>
      Crc16(Framed(before, v, after), polynom, init, refIn, refOut, xorOut)
        != Crc16(Framed(before, w, after), polynom, init, refIn, refOut, xorOut)
  }

  /** The changes within two adjacent bytes are all detected exactly when the polynomial is odd. */
  lemma DetectsWindowsIff(polynom: bv16, init: bv16, refIn: bool, refOut: bool, xorOut: bv16)
    ensures DetectsWindows(polynom, init, refIn, refOut, xorOut) <==> Odd(polynom)
  {
    hide Crc16, Framed, Odd, ReflectWord, Invisible, Xor16, ReflectAll;
    if Odd(polynom) {
      forall before: seq<bv8>, v: bv16, w: bv16, after: seq<bv8> | v != w
        ensures Crc16(Framed(before, v, after), polynom, init, refIn, refOut, xorOut)
          != Crc16(Framed(before, w, after), polynom, init, refIn, refOut, xorOut)
      {
        AnyWindowDetected(before, v, w, after, polynom, init, refIn, refOut, xorOut);
      }
    } else {
      var v, w := ReflectWord(init, refIn), ReflectWord(Xor16(init, Invisible(polynom)), refIn);
      AnyWindowMissed(polynom, init, refIn, refOut, xorOut);
      assert Crc16(Framed([], v, []), polynom, init, refIn, refOut, xorOut)
        == Crc16(Framed([], w, []), polynom, init, refIn, refOut, xorOut);
    }
  }

  lemma AnyWindowDetected(before: seq<bv8>, v: bv16, w: bv16, after: seq<bv8>, polynom: bv16, init: bv16,
                          refIn: bool, refOut: bool, xorOut: bv16)
    requires Odd(polynom) && v != w
    ensures Crc16(Framed(before, v, after), polynom, init, refIn, refOut, xorOut)
      != Crc16(Framed(before, w, after), polynom, init, refIn, refOut, xorOut)
  {
    hide Crc16, Fold16, Framed, ReflectWord, Odd;
    FramedCrc(before, v, w, after, polynom, init, refIn, refOut, xorOut);
    var x, y := ReflectWord(v, refIn), ReflectWord(w, refIn);
    var b, a := ReflectAll(before, refIn), ReflectAll(after, refIn);
    if Fold16(Framed(b, x, a), polynom, init, false) == Fold16(Framed(b, y, a), polynom, init, false) {
      WindowDetected(b, x, y, a, polynom, init);
      ReflectWordTwice(v, refIn);
      ReflectWordTwice(w, refIn);
    }
  }

  lemma AnyWindowMissed(polynom: bv16, init: bv16, refIn: bool, refOut: bool, xorOut: bv16)
    requires !Odd(polynom)
    ensures var v, w := ReflectWord(init, refIn), ReflectWord(Xor16(init, Invisible(polynom)), refIn);
      v != w && Crc16(Framed([], v, []), polynom, init, refIn, refOut, xorOut)
        == Crc16(Framed([], w, []), polynom, init, refIn, refOut, xorOut)
  {
    hide Crc16, Fold16, Framed, ReflectWord, Odd, Xor16, Invisible;
    var k := Xor16(init, Invisible(polynom));
    WindowMissed(polynom, init);
    ReflectWordTwice(init, refIn);
    ReflectWordTwice(k, refIn);
    FramedCrc([], ReflectWord(init, refIn), ReflectWord(k, refIn), [], polynom, init, refIn, refOut, xorOut);
    assert ReflectAll([], refIn) == [];
  }

  // ------------------------------------------------ changed bytes, 8-bit CRC

  predicate Odd8(a: bv8) {
    a & 1 == 1
  }

  lemma Odd8Xor(a: bv8, b: bv8)
    ensures Odd8(Xor8(a, b)) == (Odd8(a) != Odd8(b)) && !Odd8(Left8(a))
  {
  }

  lemma Undo8(a: bv8, b: bv8)
    ensures Xor8(Xor8(a, b), b) == a && Xor8(b, Xor8(b, a)) == a
  {
  }

  lemma TopAndRest8(c: bv8, d: bv8)
    requires Top8(c) == Top8(d) && Left8(c) == Left8(d)
    ensures c == d
  {
  }

  /** With an odd polynomial the lowest bit tells whether it was added. */
  lemma Shifted8Injective(c: bv8, d: bv8, polynom: bv8)
    requires Odd8(polynom) && Shifted8(c, Top8(c), polynom) == Shifted8(d, Top8(d), polynom)
    ensures c == d
  {
    hide Odd8, Xor8, Left8, Top8;
    Odd8Xor(Left8(c), polynom);
    Odd8Xor(c, polynom);
    Odd8Xor(Left8(d), polynom);
    Odd8Xor(d, polynom);
    Undo8(Left8(c), polynom);
    Undo8(Left8(d), polynom);
    TopAndRest8(c, d);
  }

  lemma {:induction false} Shift8Injective(c: bv8, d: bv8, polynom: bv8, j: nat)
    requires Odd8(polynom) && Shift8(c, polynom, j) == Shift8(d, polynom, j)
    ensures c == d
  {
    hide Odd8, Shifted8, Top8;
    if j > 0 {
      Shifted8Injective(Shift8(c, polynom, j - 1), Shift8(d, polynom, j - 1), polynom);
      Shift8Injective(c, d, polynom, j - 1);
    }
  }

  lemma {:induction false} Fold8Injective(data: seq<bv8>, polynom: bv8, c: bv8, d: bv8, refIn: bool)
    requires Odd8(polynom) && Fold8(data, polynom, c, refIn) == Fold8(data, polynom, d, refIn)
    ensures c == d
    decreases |data|
  {
    hide Odd8, Shift8, Xor8, Reflected;
    if data != [] {
      var byte := Reflected(data[0], refIn);
      var x, y := Xor8(c, byte), Xor8(d, byte);
      Fold8Injective(data[1..], polynom, Shift8(x, polynom, 8), Shift8(y, polynom, 8), refIn);
      Shift8Injective(x, y, polynom, 8);
      Undo8(c, byte);
      Undo8(d, byte);
    }
  }

  /** A message with the byte at some place. */
  function WithByte(before: seq<bv8>, byte: bv8, after: seq<bv8>): seq<bv8> {
    before + ([byte] + after)
  }

  lemma WithByteFold(before: seq<bv8>, byte: bv8, after: seq<bv8>, polynom: bv8, init: bv8, refIn: bool)
    ensures var crc := Fold8(before, polynom, init, refIn);
      Fold8(WithByte(before, byte, after), polynom, init, refIn)
        == Fold8(after, polynom, Shift8(Xor8(crc, Reflected(byte, refIn)), polynom, 8), refIn)
  {
    hide Shift8, Xor8, Reflected;
    Fold8Concat(before, [byte] + after, polynom, init, refIn);
    assert ([byte] + after)[0] == byte && ([byte] + after)[1..] == after;
  }

  lemma Finish8Injective(c: bv8, d: bv8, refOut: bool, xorOut: bv8)
    requires Xor8(Reflected(c, refOut), xorOut) == Xor8(Reflected(d, refOut), xorOut)
    ensures c == d
  {
    hide Xor8, Reflected;
    Undo8(Reflected(c, refOut), xorOut);
    Undo8(Reflected(d, refOut), xorOut);
    ReflectTwice(c, refOut);
    ReflectTwice(d, refOut);
  }

  lemma ByteDetected(before: seq<bv8>, v: bv8, w: bv8, after: seq<bv8>, polynom: bv8, init: bv8,
                     refIn: bool, refOut: bool, xorOut: bv8)
    requires Odd8(polynom)
    requires Crc8(WithByte(before, v, after), polynom, init, refIn, refOut, xorOut)
      == Crc8(WithByte(before, w, after), polynom, init, refIn, refOut, xorOut)
    ensures v == w
  {
    hide Odd8, Shift8, Xor8, Reflected, Fold8, WithByte;
    var crc := Fold8(before, polynom, init, refIn);
    var x, y := Xor8(crc, Reflected(v, refIn)), Xor8(crc, Reflected(w, refIn));
    Finish8Injective(Fold8(WithByte(before, v, after), polynom, init, refIn),
                     Fold8(WithByte(before, w, after), polynom, init, refIn), refOut, xorOut);
    WithByteFold(before, v, after, polynom, init, refIn);
    WithByteFold(before, w, after, polynom, init, refIn);
    Fold8Injective(after, polynom, Shift8(x, polynom, 8), Shift8(y, polynom, 8), refIn);
    Shift8Injective(x, y, polynom, 8);
    Undo8(Reflected(v, refIn), crc);
    Undo8(Reflected(w, refIn), crc);
    ReflectTwice(v, refIn);
    ReflectTwice(w, refIn);
  }

  /** For an even polynomial this register value is shifted out without a trace. */
  function Invisible8(polynom: bv8): bv8 {
    0x80 | (polynom >> 1)
  }

  lemma Invisible8Step(polynom: bv8)
    requires !Odd8(polynom)
    ensures Invisible8(polynom) != 0 && Shifted8(Invisible8(polynom), Top8(Invisible8(polynom)), polynom) == 0
  {
  }

  lemma {:induction false} Invisible8Vanishes(polynom: bv8, j: nat)
    requires !Odd8(polynom) && j >= 1
    ensures Shift8(Invisible8(polynom), polynom, j) == 0
  {
    hide Odd8, Invisible8;
    if j == 1 {
      assert Shift8(Invisible8(polynom), polynom, 0) == Invisible8(polynom);
      Invisible8Step(polynom);
    } else {
      Invisible8Vanishes(polynom, j - 1);
    }
  }

  lemma ByteMissed(polynom: bv8, init: bv8, refIn: bool)
    requires !Odd8(polynom)
    ensures var v, w := Reflected(init, refIn), Reflected(Xor8(init, Invisible8(polynom)), refIn);
      v != w && Fold8(WithByte([], v, []), polynom, init, refIn) == Fold8(WithByte([], w, []), polynom, init, refIn)
  {
    hide Odd8, Shift8, Xor8, Reflected, WithByte, Invisible8;
    var k := Invisible8(polynom);
    var v, w := Reflected(init, refIn), Reflected(Xor8(init, k), refIn);
    ReflectTwice(init, refIn);
    ReflectTwice(Xor8(init, k), refIn);
    Undo8(k, init);
    Laws8(init);
    Invisible8Step(polynom);
    Invisible8Vanishes(polynom, 8);
    ZeroStays8(polynom, 8);
    WithByteFold([], v, [], polynom, init, refIn);
    WithByteFold([], w, [], polynom, init, refIn);
  }

  /** Every change confined to one byte changes the CRC. */
  ghost predicate DetectsBytes(polynom: bv8, init: bv8, refIn: bool, refOut: bool, xorOut: bv8) {
    forall before: seq<bv8>, v: bv8, w: bv8, after: seq<bv8>
        {:trigger WithByte(before, v, after), WithByte(before, w, after)} ::
      v != w ==>
      Crc8(WithByte(before, v, after), polynom, init, refIn, refOut, xorOut)
        != Crc8(WithByte(before, w, after), polynom, init, refIn, refOut, xorOut)
  }

  /** The changes within one byte are all detected exactly when the polynomial is odd. */
  lemma DetectsBytesIff(polynom: bv8, init: bv8, refIn: bool, refOut: bool, xorOut: bv8)
    ensures DetectsBytes(polynom, init, refIn, refOut, xorOut) <==> Odd8(polynom)
  {
    hide Odd8, Xor8, Reflected, WithByte, Invisible8, Fold8;
    if Odd8(polynom) {
      forall before: seq<bv8>, v: bv8, w: bv8, after: seq<bv8> | v != w
        ensures Crc8(WithByte(before, v, after), polynom, init, refIn, refOut, xorOut)
          != Crc8(WithByte(before, w, after), polynom, init, refIn, refOut, xorOut)
      {
        if Crc8(WithByte(before, v, after), polynom, init, refIn, refOut, xorOut)
          == Crc8(WithByte(before, w, after), polynom, init, refIn, refOut, xorOut) {
          ByteDetected(before, v, w, after, polynom, init, refIn, refOut, xorOut);
        }
      }
    } else {
      var v, w := Reflected(init, refIn), Reflected(Xor8(init, Invisible8(polynom)), refIn);
      ByteMissed(polynom, init, refIn);
      assert Crc8(WithByte([], v, []), polynom, init, refIn, refOut, xorOut)
        == Crc8(WithByte([], w, []), polynom, init, refIn, refOut, xorOut);
    }
  }
}

/** The loops of bit_lib_crc8 and bit_lib_crc16. */
module Crc {
  import opened CrcModel

  /** The inner loop of bit_lib_crc16. */
  method ShiftByte16(init: bv16, byte: bv8, polynom: bv16) returns (crc: bv16)
    ensures crc == Bits16(init, byte, polynom, 8)
  {
    hide Left16, Xor16, Top16, BitOf, BitAt;
    crc := init;
    for j := 0 to 8
      invariant crc == Bits16(init, byte, polynom, j)
    {
      BitAtIsBitOf(byte, j);
      var c15 := Top16(crc);
      var bit := BitAt(byte, j);
      crc := Left16(crc);
      if c15 != bit {
        crc := Xor16(crc, polynom);
      }
    }
  }

  method ComputeCrc16(data: seq<bv8>, polynom: bv16, init: bv16, refIn: bool, refOut: bool, xorOut: bv16)
    returns (crc: bv16)
    ensures crc == Crc16(data, polynom, init, refIn, refOut, xorOut)
  {
    hide Reverse16Fast, ReflectByte, Bits16, Xor16;
    crc := init;
    assert data[0..] == data;
    for i := 0 to |data|
      invariant Fold16(data[i..], polynom, crc, refIn) == Fold16(data, polynom, init, refIn)
    {
      var byte := data[i];
      if refIn {
        byte := ReflectByte(byte);
      }
      crc := ShiftByte16(crc, byte, polynom);
      assert data[i..][0] == data[i] && data[i..][1..] == data[i + 1..];
    }
    if refOut {
      crc := Reverse16Fast(crc);
    }
    crc := Xor16(crc, xorOut);
  }

  /** bit_lib_reverse_bits on one byte: swapping bits from the outside in. */
  method ReverseByte(byte: bv8) returns (r: bv8)
    ensures r == Reverse8Fast(byte)
  {
    r := SwapBits(byte, 0x80, 0x01);
    r := SwapBits(r, 0x40, 0x02);
    r := SwapBits(r, 0x20, 0x04);
    r := SwapBits(r, 0x10, 0x08);
  }

  /** Exchanges the bits under two masks. */
  function SwapBits(b: bv8, p: bv8, q: bv8): bv8 {
    (if b & q != 0 then p else 0) | (if b & p != 0 then q else 0) | (b & !p & !q)
  }

  method ComputeCrc8(data: seq<bv8>, polynom: bv8, init: bv8, refIn: bool, refOut: bool, xorOut: bv8)
    returns (crc: bv8)
    ensures crc == Crc8(data, polynom, init, refIn, refOut, xorOut)
  {
    hide Reverse8Fast, ReflectByte, Left8, Top8, Xor8;
    crc := init;
    assert data[0..] == data;
    for i := 0 to |data|
      invariant Fold8(data[i..], polynom, crc, refIn) == Fold8(data, polynom, init, refIn)
    {
      var byte := data[i];
      if refIn {
        ReversalsAgree(byte, 0);
        byte := ReverseByte(byte);
      }
      crc := Xor8(crc, byte);
      ghost var before := crc;
      for j := 0 to 8
        invariant crc == Shift8(before, polynom, j)
      {
        if Top8(crc) {
          crc := Xor8(Left8(crc), polynom);
        } else {
          crc := Left8(crc);
        }
      }
      assert data[i..][0] == data[i] && data[i..][1..] == data[i + 1..];
    }
    if refOut {
      ReversalsAgree(crc, 0);
      crc := ReverseByte(crc);
    }
    crc := Xor8(crc, xorOut);
  }
}
