/** The functions of bit_lib that write bits into a buffer. */
module BitWriting {
  import opened MachineTypes
  import opened BitModel
  import opened BitReading
  import opened ParityModel

  /** Bits outside [lo, hi) are as before. */
  ghost predicate SameOutside(m: seq<uint8>, m': seq<uint8>, lo: nat, hi: nat) {
    && |m| == |m'|
    && (forall q: nat {:trigger GetBit(m', q)} :: q < 8 * |m| && !(lo <= q < hi) ==> GetBit(m', q) == GetBit(m, q))
  }

  lemma SetMask(b: uint8, j: nat, k: nat)
    requires j < 8 && k < 8
    ensures Pow2(j) < Pow2(32)
    ensures Or(b, Pow2(j)) < 0x100 && And(b, Not32(Pow2(j))) < 0x100
    ensures Bit(Or(b, Pow2(j)), k) == (k == j || Bit(b, k))
    ensures Bit(And(b, Not32(Pow2(j))), k) == (k != j && Bit(b, k))
  {
    hide Or, And, Bit;
    PowMono(j, 7);
    assert Pow2(7) == 128;
    PowLarge();
    OrBit(b, Pow2(j), k);
    AndBit(b, Not32(Pow2(j)), k);
    PowBit(j, k);
    ComplementBit(Pow2(j), 32, k);
    OrBound(b, Pow2(j), 8);
    AndBound(b, Not32(Pow2(j)));
    EightBits();
  }

  lemma PowLarge()
    ensures Pow2(7) < Pow2(32)
  {
    PowMono(8, 32);
  }

  lemma {:induction false} OrBound(x: nat, y: nat, n: nat)
    requires x < Pow2(n) && y < Pow2(n)
    ensures Or(x, y) < Pow2(n)
    decreases n
  {
    if n > 0 && x > 0 { OrBound(x / 2, y / 2, n - 1); }
  }

  lemma {:induction false} AndBound(x: nat, y: nat)
    ensures And(x, y) <= x
    decreases x
  {
    if x > 0 { AndBound(x / 2, y / 2); }
  }

  /** bit_lib_set_bit: an OR with the mask, or an AND with its complement. */
  method SetBit(data: array<uint8>, position: nat, bit: bool)
    requires position < 8 * data.Length
    modifies data
    ensures GetBit(data[..], position) == bit
    ensures SameOutside(old(data[..]), data[..], position, position + 1)
  {
    hide Or, And, Bit, Pow2, GetBit;
    var k, j := position / 8, 7 - position % 8;
    ghost var b := data[k];
    SetMask(b, j, 0);
    if bit {
      data[k] := Or(data[k], Pow2(j));
    } else {
      data[k] := And(data[k], Not32(Pow2(j)));
    }
    forall q: nat | q < 8 * data.Length
      ensures GetBit(data[..], q) == if q == position then bit else GetBit(old(data[..]), q)
    {
      GetBitIsBit(data[..], q);
      GetBitIsBit(old(data[..]), q);
      if q / 8 == k {
        SetMask(b, j, 7 - q % 8);
        SamePosition(position, q);
      }
    }
  }

  lemma GetBitIsBit(data: seq<uint8>, q: nat)
    requires q < 8 * |data|
    ensures GetBit(data, q) == Bit(data[q / 8], 7 - q % 8)
  {
    BitIsShift(data[q / 8], 7 - q % 8);
  }

  lemma SamePosition(p: nat, q: nat)
    requires p / 8 == q / 8
    ensures p == q <==> p % 8 == q % 8
  {
  }

  /** bit_lib_set_bits, for the lengths its checks let through. */
  method SetBits(data: array<uint8>, position: nat, byte: uint8, length: nat)
    requires 0 < length <= 8 && position + length <= 8 * data.Length
    modifies data
    ensures Bits(data[..], position, length) == LowBits(byte, length)
    ensures SameOutside(old(data[..]), data[..], position, position + length)
  {
    hide GetBit, LowBits, Shr, Bit;
    for i := 0 to length
      invariant forall t :: 0 <= t < i ==> GetBit(data[..], position + t) == LowBits(byte, length)[t]
      invariant SameOutside(old(data[..]), data[..], position, position + i)
    {
      ghost var before := data[..];
      var shift := (length - 1) - i;
      SetBit(data, position + i, Shr(byte, shift) % 2 == 1);
      LowBitsAt(byte, length, i);
      BitIsShift(byte, shift);
      forall t | 0 <= t < i ensures GetBit(data[..], position + t) == LowBits(byte, length)[t] {
        assert GetBit(data[..], position + t) == GetBit(before, position + t);
      }
    }
    assert Bits(data[..], position, length) == LowBits(byte, length);
  }

  /** What set_bits stored, get_bits returns. */
  lemma StoredIsLoaded(data: seq<uint8>, position: nat, byte: uint8, length: nat)
    requires length <= 8 && Readable(data, position, length) && position + length <= 8 * |data|
    requires Bits(data, position, length) == LowBits(byte, length)
    ensures GetBits(data, position, length) == byte % Pow2(length)
  {
    hide GetBits, Bits, Num, LowBits;
    GetBitsIsFold(data, position, length);
    NumOfLow(byte, length);
  }

  // ------------------------------------------------------------------ parity

  /** Number of parity words: the word loop runs while word < length. */
  function Words(word: nat, length: nat, n: nat): nat
    requires n > 0
    decreases length - word
  {
    if word < length then 1 + Words(word + n, length, n) else 0
  }

  /** With a whole number of words the loop covers exactly the source. */
  lemma {:induction false} WholeWords(word: nat, k: nat, n: nat)
    requires n > 0
    ensures Words(word, word + k * n, n) == k
    decreases k
  {
    if k > 0 {
      MulStep(k - 1, n);
      WholeWords(word + n, k - 1, n);
    }
  }

  lemma BitsPush(data: seq<uint8>, position: nat, length: nat)
    requires position + length < 8 * |data|
    ensures Bits(data, position, length + 1) == Bits(data, position, length) + [GetBit(data, position + length)]
  {
  }

  lemma BitsKept(m: seq<uint8>, m': seq<uint8>, position: nat, length: nat, lo: nat, hi: nat)
    requires SameOutside(m, m', lo, hi) && position + length <= 8 * |m| && (position + length <= lo || hi <= position)
    ensures Bits(m', position, length) == Bits(m, position, length)
  {
    hide GetBit;
    forall i: nat | i < length ensures Bits(m', position, length)[i] == Bits(m, position, length)[i] {
      assert GetBit(m', position + i) == GetBit(m, position + i);
    }
  }

  /** Setting the bit behind a run extends the run. */
  method AppendBit(data: array<uint8>, ghost start: nat, position: nat, bit: bool)
    requires start <= position < 8 * data.Length
    modifies data
    ensures Bits(data[..], start, position - start + 1) == Bits(old(data[..]), start, position - start) + [bit]
    ensures SameOutside(old(data[..]), data[..], position, position + 1)
  {
    hide GetBit, Bits;
    SetBit(data, position, bit);
    BitsPush(data[..], start, position - start);
    BitsKept(old(data[..]), data[..], start, position - start, position, position + 1);
  }

  lemma OutsideTrans(a: seq<uint8>, b: seq<uint8>, c: seq<uint8>, lo: nat, mid: nat, hi: nat)
    requires SameOutside(a, b, lo, mid) && SameOutside(b, c, mid, hi) && lo <= mid <= hi
    ensures SameOutside(a, c, lo, hi)
  {
    hide GetBit;
    forall q: nat | q < 8 * |a| && !(lo <= q < hi) ensures GetBit(c, q) == GetBit(a, q) {
      assert GetBit(c, q) == GetBit(b, q);
    }
  }

  /** The inner loop of add_parity: copies one word and collects it. */
  method CopyWord(data: seq<uint8>, from: nat, dest: array<uint8>, ghost start: nat, to: nat, n: nat)
    returns (word: nat)
    requires from + n <= 8 * |data| && start <= to && to + n <= 8 * dest.Length
    modifies dest
    ensures word == Word32(Bits(data, from, n))
    ensures Bits(dest[..], start, to - start + n) == Bits(old(dest[..]), start, to - start) + Bits(data, from, n)
    ensures SameOutside(old(dest[..]), dest[..], to, to + n)
  {
    hide GetBit, Bits, Pow2, SameOutside;
    word := 0;
    NoBits(data, from);
    SameAll(dest[..], to);
    for bit := 0 to n
      invariant word == Word32(Bits(data, from, bit))
      invariant Bits(dest[..], start, to - start + bit)
        == Bits(old(dest[..]), start, to - start) + Bits(data, from, bit)
      invariant SameOutside(old(dest[..]), dest[..], to, to + bit)
    {
      ghost var before := dest[..];
      BitsPush(data, from, bit);
      WordPush(Bits(data, from, bit), GetBit(data, from + bit));
      word := Or(Shl(word, 1) % Pow2(32), if GetBit(data, from + bit) then 1 else 0);
      AppendBit(dest, start, to + bit, GetBit(data, from + bit));
      OutsideTrans(old(dest[..]), before, dest[..], to, to + bit, to + bit + 1);
    }
  }

  lemma NoBits(data: seq<uint8>, from: nat)
    requires from <= 8 * |data|
    ensures Bits(data, from, 0) == [] && Word32([]) == 0
  {
    assert 0 % Pow2(32) == 0 by { SmallMod(0, Pow2(32)); }
  }

  lemma SameAll(m: seq<uint8>, at: nat)
    ensures SameOutside(m, m, at, at)
  {
  }

  /** `(word << 1) | bit` in 32 bits. */
  lemma WordPush(bits: seq<bool>, b: bool)
    ensures Word32(bits + [b]) == Or(Shl(Word32(bits), 1) % Pow2(32), if b then 1 else 0)
  {
    hide Or, Shl, Num;
    var x := Num(bits);
    var d := if b then 1 else 0;
    NumPush(bits, b);
    assert Pow2(32) == 2 * Pow2(31);
    DoubleMod(x, Pow2(31), d);
    OneShift(x % Pow2(32));
    var y := 2 * (x % Pow2(32)) % Pow2(32);
    assert y == 2 * (y / 2);
    OneShift(y / 2);
    OrIsSum(y / 2, 1, d);
  }

  lemma OneShift(x: nat)
    ensures Shl(x, 1) == 2 * x && Pow2(1) == 2
  {
  }

  lemma DoubleMod(x: nat, h: nat, d: nat)
    requires h > 0 && d < 2
    ensures (2 * x + d) % (2 * h) == 2 * (x % (2 * h)) % (2 * h) + d
    ensures 2 * (x % (2 * h)) % (2 * h) % 2 == 0
  {
    DoubleRest(x, h, d);
    DoubleRest(x % (2 * h), h, 0);
    RestOfRest(x, h);
  }

  lemma DoubleRest(x: nat, h: nat, d: nat)
    requires h > 0 && d < 2
    ensures (2 * x + d) % (2 * h) == 2 * (x % h) + d
  {
    var q := x / h;
    assert 2 * (q * h) == q * (2 * h);
    QuotientUnique(2 * x + d, 2 * h, q, 2 * (x % h) + d);
  }

  lemma RestOfRest(x: nat, h: nat)
    requires h > 0
    ensures x % (2 * h) % h == x % h
  {
    var s, t := x / (2 * h), x % (2 * h);
    DivNat(x, 2 * h);
    DivNat(t, h);
    RestParts(x, h, s, t, t / h, t % h);
  }

  lemma RestParts(x: nat, h: nat, s: nat, t: nat, u: nat, r: nat)
    requires x == s * (2 * h) + t && t == u * h + r && r < h
    ensures x % h == r && t % h == r
  {
    Regroup(s, u, h);
    QuotientUnique(x, h, 2 * s + u, r);
    QuotientUnique(t, h, u, r);
  }

  lemma Regroup(s: nat, u: int, h: nat)
    ensures s * (2 * h) + u * h == (2 * s + u) * h
  {
  }

  /** bit_lib_add_parity. */
  method AddParity(data: seq<uint8>, position: nat, dest: array<uint8>, destPosition: nat,
                   sourceLength: uint8, parityLength: uint8, parity: Parity)
    returns (bitCount: nat)
    requires 2 <= parityLength
    requires position + Words(0, sourceLength, parityLength - 1) * (parityLength - 1) <= 8 * |data|
    requires destPosition + Words(0, sourceLength, parityLength - 1) * parityLength <= 8 * dest.Length
    modifies dest
    ensures bitCount == Words(0, sourceLength, parityLength - 1) * parityLength
    ensures Bits(dest[..], destPosition, bitCount) ==
      (var k := Words(0, sourceLength, parityLength - 1);
       WithParity(Bits(data, position, k * (parityLength - 1)), parityLength - 1, parity, k))
    ensures SameOutside(old(dest[..]), dest[..], destPosition, destPosition + bitCount)
  {
    hide GetBit, Bits, SameOutside, Word32, ParityBit, WithParity;
    var n := parityLength - 1;
    var word, j := 0, 0;
    bitCount := 0;
    ghost var k, total := 0, Words(0, sourceLength, n);
    Nothing(data, position, n, parity);
    NoBits(dest[..], destPosition);
    SameAll(dest[..], destPosition);
    while word < sourceLength
      invariant k + Words(word, sourceLength, n) == total
      invariant word == k * n && j == bitCount == k * parityLength
      invariant word <= total * n && j <= total * parityLength
      invariant Bits(dest[..], destPosition, j) == WithParity(Bits(data, position, word), n, parity, k)
      invariant SameOutside(old(dest[..]), dest[..], destPosition, destPosition + j)
    {
      ghost var before := dest[..];
      MoreWords(k, total, n);
      MoreWords(k, total, parityLength);
      MulStep(k, n);
      MulStep(k, parityLength);
      var parityWord := CopyWord(data, position + word, dest, destPosition, destPosition + j, n);
      ghost var middle := dest[..];
      j := j + n;
      AppendBit(dest, destPosition, destPosition + j, ParityBit(parityWord, parity));
      OutsideTrans(before, middle, dest[..], destPosition + (j - n), destPosition + j, destPosition + j + 1);
      OutsideTrans(old(dest[..]), before, dest[..], destPosition, destPosition + (j - n), destPosition + j + 1);
      j := j + 1;
      NextBlock(data, position, word, n, parity, k);
      bitCount := bitCount + parityLength;
      word := word + (parityLength - 1);
      k := k + 1;
    }
  }

  lemma Nothing(data: seq<uint8>, position: nat, n: nat, parity: Parity)
    requires position <= 8 * |data|
    ensures Bits(data, position, 0) == [] && WithParity([], n, parity, 0) == []
  {
  }

  lemma MoreWords(k: nat, total: nat, n: nat)
    requires k < total
    ensures k * n + n <= total * n
  {
    MulMono(k + 1, total, n);
  }

  lemma NextBlock(data: seq<uint8>, position: nat, word: nat, n: nat, parity: Parity, k: nat)
    requires word == k * n && position + word + n <= 8 * |data|
    ensures word + n == (k + 1) * n
    ensures WithParity(Bits(data, position, word + n), n, parity, k + 1) ==
      WithParity(Bits(data, position, word), n, parity, k) + Bits(data, position + word, n)
      + [ParityBit(Word32(Bits(data, position + word, n)), parity)]
  {
    hide GetBit, Bits, Word32, ParityBit;
    MulStep(k, n);
    BitsConcat(data, position, word, n);
    var all := Bits(data, position, word + n);
    assert all[..word] == Bits(data, position, word) && all[word..] == Bits(data, position + word, n);
  }

  /** `length / parity_length`. */
  function BlockCount(length: nat, n: nat): (k: nat)
    requires n > 0
    ensures k * n <= length
  {
    DivNat(length, n);
    length / n
  }

  /** bit_lib_test_parity; blocks longer than 32 bits are outside its reader under Even and Odd. */
  method TestParity(data: seq<uint8>, position: nat, length: uint8, parity: Parity, parityLength: uint8)
    returns (result: bool)
    requires 0 < parityLength && position + length <= 8 * |data|
    requires parity.Even? || parity.Odd? ==> parityLength <= 32
    requires parity.Even? || parity.Odd? ==>
      forall i :: 0 <= i < BlockCount(length, parityLength) ==>
        Readable(data, position + i * parityLength, parityLength)
    ensures result ==
      BlocksPass(Bits(data, position, length), parityLength, parity, BlockCount(length, parityLength))
  {
    hide GetBit, Bits, GetBits32, PopCount, Weight, Readable;
    var blocks := BlockCount(length, parityLength);
    ghost var bits := Bits(data, position, length);
    result := true;
    var i := 0;
    while i < blocks
      invariant 0 <= i <= blocks && i * parityLength <= length
      invariant result && BlocksPass(bits, parityLength, parity, i)
    {
      MulStep(i, parityLength);
      MulMono(i + 1, blocks, parityLength);
      ghost var block := bits[i * parityLength..(i + 1) * parityLength];
      SubBits(data, position, length, i * parityLength, parityLength);
      if parity.Even? || parity.Odd? {
        var word := GetBits32(data, position + i * parityLength, parityLength);
        GetBits32IsFold(data, position + i * parityLength, parityLength);
        PopCountNum(block);
        result := TestParity32(word, parity);
      } else {
        var bit := GetBit(data, position + i * parityLength + parityLength - 1);
        LastBit(data, position + i * parityLength, parityLength);
        result := if parity.Always0? then !bit else bit;
      }
      if !result {
        FailedBlock(bits, parityLength, parity, i, blocks);
        return;
      }
      i := i + 1;
    }
  }

  lemma SubBits(data: seq<uint8>, position: nat, length: nat, from: nat, n: nat)
    requires position + length <= 8 * |data| && from + n <= length
    ensures Bits(data, position, length)[from..from + n] == Bits(data, position + from, n)
  {
  }

  lemma LastBit(data: seq<uint8>, position: nat, n: nat)
    requires 0 < n && position + n <= 8 * |data|
    ensures Bits(data, position, n)[n - 1] == GetBit(data, position + n - 1)
  {
  }

  lemma {:induction false} FailedBlock(bits: seq<bool>, n: nat, parity: Parity, i: nat, k: nat)
    requires n > 0 && i < k && k * n <= |bits| && (i + 1) * n <= |bits| && 0 <= i * n <= (i + 1) * n
    requires i * n < (i + 1) * n && !BlockPasses(bits[i * n..(i + 1) * n], parity)
    ensures !BlocksPass(bits, n, parity, k)
    decreases k
  {
    if i < k - 1 {
      MulStep(k - 1, n);
      FailedBlock(bits, n, parity, i, k - 1);
    }
  }

  // -------------------------------------------------------- removing in place

  /** One bit read by the removal loop: kept unless its number is a multiple of n. */
  method RemoveBitEveryNth(data: array<uint8>, position: nat, length: uint8, n: uint8) returns (resultCounter: nat)
    requires 0 < n && position + length <= 8 * data.Length
    modifies data
    ensures resultCounter == |RemoveNth(Bits(old(data[..]), position, length), n)|
    ensures Bits(data[..], position, resultCounter) == RemoveNth(Bits(old(data[..]), position, length), n)
    ensures SameOutside(old(data[..]), data[..], position, position + resultCounter)
  {
    hide GetBit, Bits, Num, SameOutside, RemoveNth, LowBits, Or, Shl, Low8;
    var counter, bitBuffer, bitCounter := 0, 0, 0;
    resultCounter := 0;
    ghost var m := data[..];
    ghost var kept: seq<bool> := [];
    NoBits(m, position);
    RemoveNone(n);
    SameAll(m, position);
    NoNum();
    while counter < length
      invariant 0 <= counter <= length
      invariant kept == RemoveNth(Bits(m, position, counter), n)
      invariant 0 <= bitCounter < 8 && |kept| == resultCounter + bitCounter <= counter
      invariant bitBuffer == Num(kept[resultCounter..])
      invariant Bits(data[..], position, resultCounter) == kept[..resultCounter]
      invariant SameOutside(m, data[..], position, position + resultCounter)
    {
      NextKept(m, position, counter, n);
      if (counter + 1) % n != 0 {
        UnreadBit(m, data[..], position, resultCounter, position + counter);
        var bit := GetBit(data[..], position + counter);
        BufferPush(kept, resultCounter, bit);
        bitBuffer := Or(Low8(Shl(bitBuffer, 1)), if bit then 1 else 0);
        bitCounter := bitCounter + 1;
        kept := kept + [bit];
      }
      if bitCounter == 8 {
        FlushBits(data, m, position, resultCounter, bitBuffer, bitCounter, kept);
        bitCounter := 0;
        bitBuffer := 0;
        resultCounter := resultCounter + 8;
        assert kept[resultCounter..] == [];
      }
      counter := counter + 1;
    }
    if bitCounter != 0 {
      FlushBits(data, m, position, resultCounter, bitBuffer, bitCounter, kept);
      resultCounter := resultCounter + bitCounter;
    }
    assert kept[..resultCounter] == kept;
  }

  lemma NextKept(m: seq<uint8>, position: nat, counter: nat, n: nat)
    requires n > 0 && position + counter < 8 * |m|
    ensures RemoveNth(Bits(m, position, counter + 1), n) ==
      if (counter + 1) % n != 0 then RemoveNth(Bits(m, position, counter), n) + [GetBit(m, position + counter)]
      else RemoveNth(Bits(m, position, counter), n)
  {
    hide GetBit, Bits, RemoveNth;
    BitsPush(m, position, counter);
    RemovePush(Bits(m, position, counter), GetBit(m, position + counter), n);
  }

  /** Writes the collected bits behind those already written. */
  method FlushBits(data: array<uint8>, ghost m: seq<uint8>, position: nat, resultCounter: nat,
                   bitBuffer: nat, bitCounter: nat, ghost kept: seq<bool>)
    requires 0 < bitCounter <= 8 && |kept| == resultCounter + bitCounter
    requires position + |kept| <= 8 * data.Length
    requires bitBuffer == Num(kept[resultCounter..])
    requires Bits(data[..], position, resultCounter) == kept[..resultCounter]
    requires SameOutside(m, data[..], position, position + resultCounter)
    modifies data
    ensures Bits(data[..], position, |kept|) == kept
    ensures SameOutside(m, data[..], position, position + |kept|)
  {
    hide GetBit, Bits, Num, SameOutside, LowBits;
    ghost var tail := kept[resultCounter..];
    ghost var before := data[..];
    NumBound(tail);
    PowMono(|tail|, 8);
    EightBits();
    SetBits(data, position + resultCounter, bitBuffer, bitCounter);
    LowOfNum(tail);
    BitsKept(before, data[..], position, resultCounter, position + resultCounter, position + |kept|);
    BitsConcat(data[..], position, resultCounter, bitCounter);
    assert kept == kept[..resultCounter] + tail;
    OutsideTrans(m, before, data[..], position, position + resultCounter, position + |kept|);
  }

  lemma NoNum()
    ensures Num([]) == 0
  {
  }

  lemma UnreadBit(m: seq<uint8>, m': seq<uint8>, position: nat, written: nat, q: nat)
    requires SameOutside(m, m', position, position + written) && position + written <= q < 8 * |m|
    ensures GetBit(m', q) == GetBit(m, q)
  {
  }

  /** The buffered bits are those of `kept` from `written` on. */
  lemma BufferPush(kept: seq<bool>, written: nat, b: bool)
    requires written <= |kept| < written + 8
    ensures Num((kept + [b])[written..]) == Or(Low8(Shl(Num(kept[written..]), 1)), if b then 1 else 0)
    ensures (kept + [b])[..written] == kept[..written]
  {
    hide Or, Shl, Num, Pow2;
    var tail := kept[written..];
    assert (kept + [b])[written..] == tail + [b];
    NumPush(tail, b);
    NumBound(tail);
    PowMono(|tail|, 7);
    assert Pow2(7) == 128 by { SevenBits(); }
    OneShift(Num(tail));
    OrIsSum(Num(tail), 1, if b then 1 else 0);
  }

  lemma SevenBits()
    ensures Pow2(7) == 128
  {
  }

  /**
    Parity added to k words of p - 1 bits and removed in place.  The length of the added bits goes
    through the 8-bit parameter of the removal: the source comes back exactly when it fits.
   */
  method AddThenRemove(data: seq<uint8>, position: nat, dest: array<uint8>, destPosition: nat,
                       k: nat, parityLength: uint8, parity: Parity)
    returns (count: nat)
    requires 2 <= parityLength && k * (parityLength - 1) < 0x100
    requires position + k * (parityLength - 1) <= 8 * |data|
    requires destPosition + k * parityLength <= 8 * dest.Length
    modifies dest
    ensures count == k * (parityLength - 1) <==> k * parityLength < 0x100
    ensures k * parityLength < 0x100 ==>
      Bits(dest[..], destPosition, count) == Bits(data, position, k * (parityLength - 1))
  {
    hide GetBit, Bits, SameOutside, RemoveNth, WithParity;
    WholeWords(0, k, parityLength - 1);
    var added := AddParity(data, position, dest, destPosition, k * (parityLength - 1), parityLength, parity);
    RemoveUndoesAdd(Bits(data, position, k * (parityLength - 1)), parityLength - 1, parity, k);
    Truncated(k, parityLength);
    count := RemoveBitEveryNth(dest, destPosition, Low8(added), parityLength);
  }

  lemma Truncated(k: nat, p: nat)
    requires 2 <= p && k * (p - 1) < 0x100
    ensures k < 0x100 && Low8(k * p) <= k * p
    ensures k * p < 0x100 ==> Low8(k * p) == k * p
    ensures k * p >= 0x100 ==> Low8(k * p) < k * (p - 1)
  {
    MulMono(1, p - 1, k);
    assert k * p == k * (p - 1) + k;
  }

  /** What test_parity says, under any mode, of the blocks that add_parity writes. */
  method AddThenTest(data: seq<uint8>, position: nat, dest: array<uint8>, destPosition: nat,
                     k: nat, parityLength: uint8, parity: Parity, test: Parity)
    returns (accepted: bool)
    requires 2 <= parityLength <= 32 && k * parityLength < 0x100
    requires position + k * (parityLength - 1) <= 8 * |data|
    requires destPosition + k * parityLength <= 8 * dest.Length
    requires test.Even? || test.Odd? ==>
      forall i :: 0 <= i < k ==> Readable(dest[..], destPosition + i * parityLength, parityLength)
    modifies dest
    ensures accepted <==> AllAccepted(Bits(data, position, k * (parityLength - 1)), parityLength - 1, parity, test, k)
    ensures test == AcceptingMode(parity) ==> accepted
  {
    hide GetBit, Bits, SameOutside, WithParity, BlocksPass, AllAccepted, Readable, BlockCount, Words, AcceptingMode;
    var n := parityLength - 1;
    BlockSizes(k, parityLength);
    WholeWords(0, k, n);
    ghost var before := dest[..];
    var added := AddParity(data, position, dest, destPosition, k * n, parityLength, parity);
    assert test.Even? || test.Odd? ==>
      forall i :: 0 <= i < k ==> Readable(dest[..], destPosition + i * parityLength, parityLength) by {
      StillReadable(before, dest[..]);
    }
    Verdict(Bits(data, position, k * n), n, parity, k, test);
    accepted := TestParity(dest[..], destPosition, added, test, parityLength);
  }

  lemma BlockSizes(k: nat, p: nat)
    requires 2 <= p
    ensures 0 <= k * (p - 1) <= k * p && BlockCount(k * p, p) == k
  {
    MulMono(p - 1, p, k);
    QuotientUnique(k * p, p, k, 0);
  }

  /** What may be read depends on the size of the buffer alone. */
  lemma StillReadable(m: seq<uint8>, m': seq<uint8>)
    requires |m| == |m'|
    ensures forall position: nat, length: nat :: Readable(m, position, length) ==> Readable(m', position, length)
  {
  }

  lemma Verdict(source: seq<bool>, n: nat, parity: Parity, k: nat, test: Parity)
    requires 0 < n <= 32 && |source| == k * n
    ensures BlocksPass(WithParity(source, n, parity, k), n + 1, test, k) <==> AllAccepted(source, n, parity, test, k)
    ensures test == AcceptingMode(parity) ==> AllAccepted(source, n, parity, test, k)
  {
    hide BlocksPass, WithParity, AllAccepted;
    AddedParityPasses(source, n, parity, k, test);
    if test == AcceptingMode(parity) { AcceptedByMode(source, n, parity, k); }
  }
}
