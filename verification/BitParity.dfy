/**
  Parity bits over blocks of a bit sequence: what adding, testing and removing them
  means, and that the three fit together.
 */
module ParityModel {
  import opened BitModel

  datatype Parity = Even | Odd | Always0 | Always1

  /** bit_lib_test_parity_32: true for an odd number of ones under Even. */
  predicate TestParity32(word: nat, parity: Parity)
    requires parity.Even? || parity.Odd?
  {
    if parity.Even? then PopCount(word) % 2 == 1 else PopCount(word) % 2 != 1
  }

  /** The bit that add_parity appends; the word it is computed from has 32 bits. */
  predicate ParityBit(word: nat, parity: Parity) {
    match parity
    case Always0 => false
    case Always1 => true
    case _ => (TestParity32(word, Odd) != parity.Odd?) != true
  }

  function Word32(block: seq<bool>): nat {
    Num(block) % Pow2(32)
  }

  /** k blocks of n source bits, each followed by its parity bit. */
  function WithParity(source: seq<bool>, n: nat, parity: Parity, k: nat): (bits: seq<bool>)
    requires |source| == k * n
    ensures |bits| == k * (n + 1)
    decreases k
  {
    if k == 0 then [] else
    MulStep(k - 1, n);
    MulStep(k - 1, n + 1);
    var before := source[..(k - 1) * n];
    var block := source[(k - 1) * n..];
    WithParity(before, n, parity, k - 1) + block + [ParityBit(Word32(block), parity)]
  }

  /** Dropping every n-th bit. */
  function RemoveNth(bits: seq<bool>, n: nat): (r: seq<bool>)
    requires n > 0
    ensures |r| <= |bits|
    decreases |bits|
  {
    if bits == [] then [] else
    var r := RemoveNth(bits[..|bits| - 1], n);
    if |bits| % n != 0 then r + [bits[|bits| - 1]] else r
  }

  /** What test_parity asks of one block. */
  predicate BlockPasses(block: seq<bool>, parity: Parity)
    requires block != []
  {
    match parity
    case Even => Weight(block) % 2 == 1
    case Odd => Weight(block) % 2 != 1
    case Always0 => !block[|block| - 1]
    case Always1 => block[|block| - 1]
  }

  /** ... and of the first k blocks of n bits. */
  predicate BlocksPass(bits: seq<bool>, n: nat, parity: Parity, k: nat)
    requires n > 0 && k * n <= |bits|
    decreases k
  {
    k == 0 ||
    (MulStep(k - 1, n);
     BlocksPass(bits, n, parity, k - 1) && BlockPasses(bits[(k - 1) * n..k * n], parity))
  }

  lemma MulStep(k: nat, n: nat)
    ensures (k + 1) * n == k * n + n && 0 <= k * n
  {
  }

  lemma ModBlock(k: nat, n: nat, r: nat)
    requires r < n
    ensures (k * n + r) % n == r
  {
    QuotientUnique(k * n + r, n, k, r);
  }

  lemma RemovePush(bits: seq<bool>, b: bool, n: nat)
    requires n > 0
    ensures RemoveNth(bits + [b], n) ==
      if (|bits| + 1) % n != 0 then RemoveNth(bits, n) + [b] else RemoveNth(bits, n)
  {
    assert (bits + [b])[..|bits|] == bits;
  }

  lemma RemoveNone(n: nat)
    requires n > 0
    ensures RemoveNth([], n) == []
  {
  }

  /** Inside a block nothing is dropped. */
  lemma {:induction false} RemoveWithin(bits: seq<bool>, k: nat, n: nat, block: seq<bool>)
    requires |bits| == k * n && |block| < n
    ensures RemoveNth(bits + block, n) == RemoveNth(bits, n) + block
    decreases |block|
  {
    if block == [] {
      assert bits + block == bits;
    } else {
      var c := block[..|block| - 1];
      var b := block[|block| - 1];
      RemoveWithin(bits, k, n, c);
      ModBlock(k, n, |block|);
      RemovePush(bits + c, b, n);
      assert (bits + c) + [b] == bits + block;
      assert RemoveNth(bits, n) + c + [b] == RemoveNth(bits, n) + block;
    }
  }

  /** Adding parity and removing every (n+1)-th bit gives the source back. */
  lemma {:induction false} RemoveUndoesAdd(source: seq<bool>, n: nat, parity: Parity, k: nat)
    requires n > 0 && |source| == k * n
    ensures RemoveNth(WithParity(source, n, parity, k), n + 1) == source
    decreases k
  {
    hide RemoveNth, ParityBit, Word32;
    RemoveNone(n + 1);
    if k > 0 {
      MulStep(k - 1, n);
      MulStep(k - 1, n + 1);
      var before, block := source[..(k - 1) * n], source[(k - 1) * n..];
      var w := WithParity(before, n, parity, k - 1);
      var bit := ParityBit(Word32(block), parity);
      RemoveUndoesAdd(before, n, parity, k - 1);
      RemoveWithin(w, k - 1, n + 1, block);
      ModBlock(k, n + 1, 0);
      RemovePush(w + block, bit, n + 1);
      assert before + block == source;
    }
  }

  /** Up to 32 source bits the parity word is the whole block. */
  lemma WordParity(block: seq<bool>)
    requires |block| <= 32
    ensures PopCount(Word32(block)) == Weight(block)
  {
    NumBound(block);
    PowMono(|block|, 32);
    SmallMod(Num(block), Pow2(32));
    PopCountNum(block);
  }

  lemma SmallMod(x: nat, d: nat)
    requires x < d
    ensures x % d == x
  {
  }

  lemma {:induction false} PowMono(m: nat, n: nat)
    requires m <= n
    ensures Pow2(m) <= Pow2(n)
    decreases n
  {
    if m < n { PowMono(m, n - 1); }
  }

  /** A block with its parity bit: the number of ones is even under Even and odd under Odd. */
  lemma BlockWeight(block: seq<bool>, parity: Parity)
    requires |block| <= 32
    ensures var whole := block + [ParityBit(Word32(block), parity)];
      match parity
      case Even => Weight(whole) % 2 == 0
      case Odd => Weight(whole) % 2 == 1
      case Always0 => !whole[|block|]
      case Always1 => whole[|block|]
  {
    hide Word32, PopCount, Weight;
    WordParity(block);
    WeightPush(block, ParityBit(Word32(block), parity));
  }

  /** The mode under which test_parity accepts what add_parity wrote: its Even and Odd are exchanged. */
  function AcceptingMode(parity: Parity): Parity {
    match parity
    case Even => Odd
    case Odd => Even
    case Always0 => Always0
    case Always1 => Always1
  }

  predicate OddOnes(block: seq<bool>) {
    Weight(block) % 2 == 1
  }

  /** Whether the test mode accepts a block written under `parity`, by the ones among its source bits. */
  predicate Accepts(parity: Parity, test: Parity, odd: bool) {
    match test
    case Even => parity.Odd? || (parity.Always0? && odd) || (parity.Always1? && !odd)
    case Odd => parity.Even? || (parity.Always0? && !odd) || (parity.Always1? && odd)
    case Always0 => parity.Always0? || (parity.Even? && !odd) || (parity.Odd? && odd)
    case Always1 => parity.Always1? || (parity.Even? && odd) || (parity.Odd? && !odd)
  }

  /** ... and all k blocks of n source bits. */
  predicate AllAccepted(source: seq<bool>, n: nat, parity: Parity, test: Parity, k: nat)
    requires |source| == k * n
    decreases k
  {
    k == 0 ||
    (MulStep(k - 1, n);
     AllAccepted(source[..(k - 1) * n], n, parity, test, k - 1)
     && Accepts(parity, test, OddOnes(source[(k - 1) * n..])))
  }

  lemma BlockAccepted(block: seq<bool>, parity: Parity, test: Parity)
    requires |block| <= 32
    ensures BlockPasses(block + [ParityBit(Word32(block), parity)], test) <==> Accepts(parity, test, OddOnes(block))
  {
    hide Word32, PopCount, Weight;
    WordParity(block);
    WeightPush(block, ParityBit(Word32(block), parity));
  }

  /** What add_parity writes under one mode, test_parity accepts under any other exactly as `Accepts` says. */
  lemma {:induction false} AddedParityPasses(source: seq<bool>, n: nat, parity: Parity, k: nat, test: Parity)
    requires 0 < n <= 32 && |source| == k * n
    ensures BlocksPass(WithParity(source, n, parity, k), n + 1, test, k) <==> AllAccepted(source, n, parity, test, k)
    decreases k
  {
    hide ParityBit, Word32, Accepts, OddOnes, BlockPasses;
    if k > 0 {
      MulStep(k - 1, n);
      MulStep(k - 1, n + 1);
      var before, block := source[..(k - 1) * n], source[(k - 1) * n..];
      var w := WithParity(before, n, parity, k - 1);
      var last := block + [ParityBit(Word32(block), parity)];
      var all := WithParity(source, n, parity, k);
      AddedParityPasses(before, n, parity, k - 1, test);
      assert all == w + last;
      assert all[(k - 1) * (n + 1)..k * (n + 1)] == last;
      PrefixPasses(w, last, n + 1, test, k - 1);
      BlockAccepted(block, parity, test);
    }
  }

  lemma {:induction false} AcceptedByMode(source: seq<bool>, n: nat, parity: Parity, k: nat)
    requires |source| == k * n
    ensures AllAccepted(source, n, parity, AcceptingMode(parity), k)
    decreases k
  {
    if k > 0 {
      MulStep(k - 1, n);
      AcceptedByMode(source[..(k - 1) * n], n, parity, k - 1);
    }
  }

  /** k blocks whose last one has the given number of ones, 0 or 1. */
  function LastBlock(odd: bool, n: nat, k: nat): (source: seq<bool>)
    ensures |source| == k * n
  {
    MulStep(k, n);
    seq(k * n, i => odd && i == k * n - 1)
  }

  lemma {:induction false} NoOnes(n: nat)
    ensures Weight(seq(n, _ => false)) == 0
  {
    if n > 0 {
      var bits := seq(n, _ => false);
      assert bits[..n - 1] == seq(n - 1, _ => false);
      NoOnes(n - 1);
    }
  }

  lemma LastBlockOnes(odd: bool, n: nat, k: nat)
    requires n > 0 && k > 0
    ensures 0 <= (k - 1) * n <= k * n && OddOnes(LastBlock(odd, n, k)[(k - 1) * n..]) == odd
  {
    MulStep(k - 1, n);
    var block := LastBlock(odd, n, k)[(k - 1) * n..];
    assert block == seq(n - 1, _ => false) + [odd];
    NoOnes(n - 1);
    WeightPush(seq(n - 1, _ => false), odd);
  }

  ghost predicate AcceptsEverySource(n: nat, parity: Parity, k: nat, test: Parity) {
    forall source: seq<bool> {:trigger WithParity(source, n, parity, k)} ::
      |source| == k * n ==> BlocksPass(WithParity(source, n, parity, k), n + 1, test, k)
  }

  /** One mode accepts everything written under a mode, and of the four it is the exchanged one. */
  lemma AcceptingModeIff(n: nat, parity: Parity, k: nat, test: Parity)
    requires 0 < n <= 32
    ensures AcceptsEverySource(n, parity, k, test) <==> k == 0 || test == AcceptingMode(parity)
  {
    hide WithParity, BlocksPass;
    forall source: seq<bool> | |source| == k * n
      ensures BlocksPass(WithParity(source, n, parity, k), n + 1, test, k)
        <==> AllAccepted(source, n, parity, test, k)
    {
      AddedParityPasses(source, n, parity, k, test);
    }
    if k == 0 || test == AcceptingMode(parity) {
      forall source: seq<bool> | |source| == k * n ensures AllAccepted(source, n, parity, test, k) {
        if k > 0 { AcceptedByMode(source, n, parity, k); }
      }
    } else {
      var odd: bool :| !Accepts(parity, test, odd);
      LastBlockOnes(odd, n, k);
      assert !AllAccepted(LastBlock(odd, n, k), n, parity, test, k);
      assert !BlocksPass(WithParity(LastBlock(odd, n, k), n, parity, k), n + 1, test, k);
    }
  }

  /** Later bits do not change the verdict on earlier blocks. */
  lemma {:induction false} PrefixPasses(bits: seq<bool>, more: seq<bool>, n: nat, parity: Parity, k: nat)
    requires n > 0 && k * n <= |bits|
    ensures BlocksPass(bits + more, n, parity, k) == BlocksPass(bits, n, parity, k)
    decreases k
  {
    if k > 0 {
      MulStep(k - 1, n);
      PrefixPasses(bits, more, n, parity, k - 1);
      assert (bits + more)[(k - 1) * n..k * n] == bits[(k - 1) * n..k * n];
    }
  }
}
