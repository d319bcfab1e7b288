/**
  Block headers in RAM.  A header is two little-endian words, pxNextFreeBlock
  and xBlockSize, at the start of the block it describes.  `Linked` says that RAM
  holds a given free list; the lemmas say which writes keep it.
 */
module HeapMemory {
  import opened MachineTypes
  import opened HeapModel

  const ADDRESS_SPACE: nat := TWO_TO_32

  function Word(m: seq<uint8>, a: nat): (w: nat)
    requires a + 4 <= |m|
    ensures w < ADDRESS_SPACE
  {
    var b: seq<int> := [m[a], m[a + 1], m[a + 2], m[a + 3]];
    b[0] + 0x100 * b[1] + 0x1_0000 * b[2] + 0x100_0000 * b[3]
  }

  /** pxNextFreeBlock of the header at p. */
  function Next(m: seq<uint8>, p: nat): (w: nat)
    requires p + HEADER <= |m|
    ensures w < ADDRESS_SPACE
  {
    Word(m, p)
  }

  /** xBlockSize of the header at p. */
  function Size(m: seq<uint8>, p: nat): (w: nat)
    requires p + HEADER <= |m|
    ensures w < ADDRESS_SPACE
  {
    Word(m, p + 4)
  }

  /** The address that follows the first k list nodes. */
  function NodeAfter(l: seq<Block>, hi: nat, k: nat): nat {
    if k < |l| then l[k].addr else hi
  }

  /** The node in front of index k: xStart or a free block. */
  function NodeBefore(l: seq<Block>, xs: nat, k: nat): nat
    requires k <= |l|
  {
    if k == 0 then xs else l[k - 1].addr
  }

  ghost predicate Linked(m: seq<uint8>, xs: nat, l: seq<Block>, hi: nat) {
    && xs + HEADER <= |m| && hi + HEADER <= |m|
    && (forall i :: 0 <= i < |l| ==> l[i].addr + HEADER <= |m|)
    && Next(m, xs) == NodeAfter(l, hi, 0) && Size(m, xs) == 0
    && Next(m, hi) == 0 && Size(m, hi) == 0
    && (forall i {:trigger Next(m, l[i].addr)} {:trigger Size(m, l[i].addr)} :: 0 <= i < |l| ==>
          Next(m, l[i].addr) == NodeAfter(l, hi, i + 1) && Size(m, l[i].addr) == l[i].size)
  }

  /** xStart lies outside the heap and its end marker. */
  predicate Outside(xs: nat, lo: nat, hi: nat) {
    xs + HEADER <= lo || hi + HEADER <= xs
  }

  ghost predicate SameHeader(m: seq<uint8>, m': seq<uint8>, p: nat)
    requires |m| == |m'|
  {
    p + HEADER <= |m| && Next(m', p) == Next(m, p) && Size(m', p) == Size(m, p)
  }

  /** Replacing the nodes j..j' of a linked list by one block. */
  lemma Relink(m: seq<uint8>, m': seq<uint8>, xs: nat, l: seq<Block>, hi: nat, j: nat, j': nat, c: Block)
    requires Linked(m, xs, l, hi) && |m'| == |m| && j <= j' <= |l|
    requires c.addr + HEADER <= |m|
    requires Next(m', c.addr) == NodeAfter(l, hi, j') && Size(m', c.addr) == c.size
    requires Next(m', NodeBefore(l, xs, j)) == c.addr
    requires Size(m', NodeBefore(l, xs, j)) == Size(m, NodeBefore(l, xs, j))
    requires j > 0 ==> SameHeader(m, m', xs)
    requires SameHeader(m, m', hi)
    requires forall i {:trigger l[i]} :: (0 <= i < j - 1 || j' <= i < |l|) ==> SameHeader(m, m', l[i].addr)
    ensures Linked(m', xs, l[..j] + [c] + l[j'..], hi)
  {
    hide Next, Size;
    var r := l[..j] + [c] + l[j'..];
    var d := j' - j - 1;
    assert forall i :: j < i < |r| ==> r[i] == l[i + d];
    forall i | 0 <= i < |r|
      ensures r[i].addr + HEADER <= |m'|
      ensures Next(m', r[i].addr) == NodeAfter(r, hi, i + 1) && Size(m', r[i].addr) == r[i].size
    {
      if i < j {
        assert r[i] == l[i];
        assert Next(m, l[i].addr) == NodeAfter(l, hi, i + 1);
        if i < j - 1 { assert SameHeader(m, m', l[i].addr) && r[i + 1] == l[i + 1]; }
      } else if i == j {
        assert r[i] == c;
      } else {
        assert SameHeader(m, m', l[i + d].addr);
        assert Next(m, l[i + d].addr) == NodeAfter(l, hi, i + d + 1);
      }
    }
  }

  /** Taking node k out of a linked list. */
  lemma Unlink(m: seq<uint8>, m': seq<uint8>, xs: nat, l: seq<Block>, hi: nat, k: nat)
    requires Linked(m, xs, l, hi) && |m'| == |m| && k < |l|
    requires Next(m', NodeBefore(l, xs, k)) == NodeAfter(l, hi, k + 1)
    requires Size(m', NodeBefore(l, xs, k)) == Size(m, NodeBefore(l, xs, k))
    requires k > 0 ==> SameHeader(m, m', xs)
    requires SameHeader(m, m', hi)
    requires forall i {:trigger l[i]} :: (0 <= i < k - 1 || k < i < |l|) ==> SameHeader(m, m', l[i].addr)
    ensures Linked(m', xs, l[..k] + l[k + 1..], hi)
  {
    hide Next, Size;
    var r := l[..k] + l[k + 1..];
    forall i | 0 <= i < |r|
      ensures r[i].addr + HEADER <= |m'|
      ensures Next(m', r[i].addr) == NodeAfter(r, hi, i + 1) && Size(m', r[i].addr) == r[i].size
    {
      if i < k {
        assert r[i] == l[i];
        assert Next(m, l[i].addr) == NodeAfter(l, hi, i + 1);
      } else {
        assert r[i] == l[i + 1];
        assert Next(m, l[i + 1].addr) == NodeAfter(l, hi, i + 2);
      }
    }
  }

  /** Headers are carried over by any change that avoids their bytes. */
  lemma HeaderFrame(m: seq<uint8>, m': seq<uint8>, p: nat)
    requires |m| == |m'| && p + HEADER <= |m|
    requires forall x :: p <= x < p + HEADER ==> m'[x] == m[x]
    ensures SameHeader(m, m', p)
  {
    WordFrame(m, m', p);
    WordFrame(m, m', p + 4);
  }

  lemma LinkedFrame(m: seq<uint8>, m': seq<uint8>, xs: nat, l: seq<Block>, hi: nat)
    requires Linked(m, xs, l, hi) && |m'| == |m|
    requires SameHeader(m, m', xs) && SameHeader(m, m', hi)
    requires forall i {:trigger l[i]} :: 0 <= i < |l| ==> SameHeader(m, m', l[i].addr)
    ensures Linked(m', xs, l, hi)
  {
    hide Next, Size;
    forall i | 0 <= i < |l|
      ensures Next(m', l[i].addr) == NodeAfter(l, hi, i + 1) && Size(m', l[i].addr) == l[i].size
    {
      assert Next(m, l[i].addr) == NodeAfter(l, hi, i + 1);
    }
  }

  /** The least multiple of the alignment from the address on. */
  function AlignUp(a: nat): (r: nat)
    ensures a <= r < a + ALIGNMENT && r % ALIGNMENT == 0
  {
    if a % ALIGNMENT != 0 then (a + (ALIGNMENT - 1)) / ALIGNMENT * ALIGNMENT else a
  }

  /** The greatest multiple of the alignment up to the address. */
  function AlignDown(a: nat): (r: nat)
    ensures r <= a < r + ALIGNMENT && r % ALIGNMENT == 0
  {
    a / ALIGNMENT * ALIGNMENT
  }

  /** `memset(p, 0, n)`. */
  function Wiped(m: seq<uint8>, p: nat, n: nat): (m': seq<uint8>)
    requires p + n <= |m|
    ensures |m'| == |m|
    ensures forall x :: 0 <= x < |m| ==> m'[x] == if p <= x < p + n then 0 else m[x]
  {
    m[..p] + seq(n, _ => 0) + m[p + n..]
  }

  method Digits(v: nat) returns (b0: uint8, b1: uint8, b2: uint8, b3: uint8)
    requires v < ADDRESS_SPACE
    ensures v == b0 + 0x100 * (b1 as int) + 0x1_0000 * (b2 as int) + 0x100_0000 * (b3 as int)
  {
    var w := v / 0x100;
    var u := w / 0x100;
    b0, b1, b2, b3 := v % 0x100, w % 0x100, u % 0x100, u / 0x100;
  }

  /** Every header that shares no byte with the one at p is as before. */
  ghost predicate OthersSame(m: seq<uint8>, m': seq<uint8>, p: nat) {
    && |m| == |m'|
    && (forall q: nat {:trigger Next(m', q)} {:trigger Size(m', q)} ::
          (q + HEADER <= p || p + HEADER <= q) && q + HEADER <= |m| ==> SameHeader(m, m', q))
  }

  lemma WordFrame(m: seq<uint8>, m': seq<uint8>, a: nat)
    requires |m| == |m'| && a + 4 <= |m|
    requires forall x :: a <= x < a + 4 ==> m'[x] == m[x]
    ensures Word(m', a) == Word(m, a)
  {
  }

  lemma OthersFrame(m: seq<uint8>, m': seq<uint8>, p: nat)
    requires |m| == |m'| && p + HEADER <= |m|
    requires forall x :: 0 <= x < |m| && !(p <= x < p + HEADER) ==> m'[x] == m[x]
    ensures OthersSame(m, m', p)
  {
    forall q: nat | (q + HEADER <= p || p + HEADER <= q) && q + HEADER <= |m| ensures SameHeader(m, m', q) {
      HeaderFrame(m, m', q);
    }
  }

  /** A block ready to be inserted into a list that RAM holds. */
  ghost predicate ListReady(m: seq<uint8>, xs: nat, lo: nat, hi: nat, l: seq<Block>, b: Block) {
    && Linked(m, xs, l, hi) && Outside(xs, lo, hi)
    && FreeShape(lo, hi, l) && Fits(lo, hi, b) && Apart(l, b)
    && b.addr + HEADER <= |m| && Size(m, b.addr) == b.size
  }

  lemma BlockBelow(m: seq<uint8>, xs: nat, lo: nat, hi: nat, l: seq<Block>, b: Block)
    requires ListReady(m, xs, lo, hi, l, b)
    ensures b.addr < hi && xs != b.addr && Canonical(l)
  {
  }

  lemma NotInList(l: seq<Block>, b: Block)
    requires Apart(l, b) && b.size > 0 && Canonical(l)
    ensures forall i :: 0 <= i < |l| ==> l[i].addr != b.addr
  {
    forall i | 0 <= i < |l| ensures l[i].addr != b.addr {
      assert l[i].End() <= b.addr || b.End() <= l[i].addr;
    }
  }

  /** What the node in front of index k holds. */
  lemma NodeFacts(m: seq<uint8>, xs: nat, l: seq<Block>, hi: nat, k: nat)
    requires Linked(m, xs, l, hi) && k <= |l|
    ensures var p := NodeBefore(l, xs, k);
      && p + HEADER <= |m| && Next(m, p) == NodeAfter(l, hi, k)
      && Size(m, p) == if k == 0 then 0 else l[k - 1].size
  {
    hide Next, Size;
    if k > 0 { assert Next(m, l[k - 1].addr) == NodeAfter(l, hi, k); }
  }

  predicate Clear(p: nat, q: nat) {
    p + HEADER <= q || q + HEADER <= p
  }

  /** Headers of different nodes share no byte. */
  lemma Separated(m: seq<uint8>, xs: nat, lo: nat, hi: nat, l: seq<Block>, b: Block, k: nat)
    requires ListReady(m, xs, lo, hi, l, b) && Belongs(l, b, k)
    ensures Clear(xs, b.addr) && Clear(xs, hi) && Clear(b.addr, hi) && xs != b.addr
    ensures forall i :: 0 <= i < |l| ==>
      Clear(l[i].addr, b.addr) && Clear(l[i].addr, xs) && Clear(l[i].addr, hi) && l[i].addr + HEADER <= |m|
    ensures forall i, j :: 0 <= i < j < |l| ==> Clear(l[i].addr, l[j].addr)
  {
    forall i | 0 <= i < |l|
      ensures Clear(l[i].addr, b.addr) && Clear(l[i].addr, xs) && Clear(l[i].addr, hi)
    {
      assert Fits(lo, hi, l[i]);
      assert l[i].End() <= b.addr || b.End() <= l[i].addr;
    }
    forall i, j | 0 <= i < j < |l| ensures Clear(l[i].addr, l[j].addr) {
      assert Fits(lo, hi, l[i]);
    }
  }

  /** The headers an insertion reads. */
  lemma InsertFacts(m: seq<uint8>, xs: nat, lo: nat, hi: nat, l: seq<Block>, b: Block, k: nat)
    requires ListReady(m, xs, lo, hi, l, b) && Belongs(l, b, k) && |m| <= ADDRESS_SPACE
    ensures k <= |l| && b.addr + HEADER <= |m| && Size(m, b.addr) == b.size
    ensures hi < ADDRESS_SPACE && 0 < b.size
    ensures var node := NodeBefore(l, xs, k);
      var next := NodeAfter(l, hi, k);
      && node + HEADER <= |m| && next + HEADER <= |m|
      && Next(m, node) == next && Size(m, node) == (if k == 0 then 0 else l[k - 1].size)
      && (k < |l| ==> next != hi && Next(m, next) == NodeAfter(l, hi, k + 1) && Size(m, next) == l[k].size)
      && Clear(node, b.addr) && Clear(next, node) && Clear(next, b.addr)
      && (node + Size(m, node) == b.addr <==> JoinsBefore(l, b, k))
      && (k > 0 ==> l[k - 1].End() <= b.addr) && b.End() <= next
      && (k < |l| ==> l[k].End() < ADDRESS_SPACE)
  {
    hide Next, Size, Canonical, Apart;
    BlockBelow(m, xs, lo, hi, l, b);
    Neighbours(l, b, k);
    NodeFacts(m, xs, l, hi, k);
    Separated(m, xs, lo, hi, l, b, k);
    if k < |l| {
      NodeFacts(m, xs, l, hi, k + 1);
      assert Fits(lo, hi, l[k]);
    }
  }

  lemma EndFacts(m: seq<uint8>, xs: nat, lo: nat, hi: nat, l: seq<Block>, b: Block)
    requires ListReady(m, xs, lo, hi, l, b)
    ensures Size(m, hi) == 0 && b.End() <= hi
  {
  }

  /** Only the headers at p and q may have changed. */
  ghost predicate OnlyTwo(m: seq<uint8>, m': seq<uint8>, p: nat, q: nat) {
    && |m| == |m'|
    && (forall r: nat {:trigger Next(m', r)} {:trigger Size(m', r)} ::
          Clear(r, p) && Clear(r, q) && r + HEADER <= |m| ==> SameHeader(m, m', r))
  }

  lemma NoneChanged(m: seq<uint8>, p: nat, q: nat)
    ensures OnlyTwo(m, m, p, q)
  {
    forall r: nat | r + HEADER <= |m| ensures SameHeader(m, m, r) {
    }
  }

  lemma OthersStep(m: seq<uint8>, m1: seq<uint8>, m2: seq<uint8>, p: nat, q: nat, w: nat)
    requires OnlyTwo(m, m1, p, q) && OthersSame(m1, m2, w) && (w == p || w == q)
    ensures OnlyTwo(m, m2, p, q)
  {
    hide Next, Size;
    forall r: nat | Clear(r, p) && Clear(r, q) && r + HEADER <= |m| ensures SameHeader(m, m2, r) {
      assert Next(m2, r) == Next(m1, r);
      assert SameHeader(m, m1, r);
    }
  }

  predicate JoinsBefore(l: seq<Block>, b: Block, k: nat)
    requires k <= |l|
  {
    k > 0 && l[k - 1].End() == b.addr
  }

  predicate JoinsAfter(l: seq<Block>, b: Block, k: nat) {
    k < |l| && b.End() == l[k].addr
  }

  /** The block that stands in the list after coalescing. */
  function Joined(l: seq<Block>, b: Block, k: nat): Block
    requires k <= |l|
  {
    Block(if JoinsBefore(l, b, k) then l[k - 1].addr else b.addr,
          (if JoinsBefore(l, b, k) then l[k - 1].size else 0) + b.size + (if JoinsAfter(l, b, k) then l[k].size else 0))
  }

  /** The header writes of prvInsertBlockIntoFreeList leave the inserted list. */
  lemma Inserted(m: seq<uint8>, m': seq<uint8>, xs: nat, lo: nat, hi: nat, l: seq<Block>, b: Block, k: nat)
    requires ListReady(m, xs, lo, hi, l, b) && Belongs(l, b, k)
    requires OnlyTwo(m, m', NodeBefore(l, xs, k), b.addr)
    requires Joined(l, b, k).addr + HEADER <= |m| && NodeBefore(l, xs, k) + HEADER <= |m|
    requires Next(m', Joined(l, b, k).addr) == NodeAfter(l, hi, if JoinsAfter(l, b, k) then k + 1 else k)
    requires Size(m', Joined(l, b, k).addr) == Joined(l, b, k).size
    requires !JoinsBefore(l, b, k) ==>
      && Next(m', NodeBefore(l, xs, k)) == b.addr
      && Size(m', NodeBefore(l, xs, k)) == Size(m, NodeBefore(l, xs, k))
    ensures Linked(m', xs, Insert(l, b), hi)
  {
    hide Next, Size, Canonical, Insert, Apart, Linked;
    var j := if JoinsBefore(l, b, k) then k - 1 else k;
    var j' := if JoinsAfter(l, b, k) then k + 1 else k;
    var c := Joined(l, b, k);
    NodesKept(m, m', xs, lo, hi, l, b, k);
    NodeFacts(m, xs, l, hi, j);
    Relink(m, m', xs, l, hi, j, j', c);
    InsertedForm(l, b, k);
  }

  lemma InsertedForm(l: seq<Block>, b: Block, k: nat)
    requires Belongs(l, b, k)
    ensures Insert(l, b) ==
      l[..if JoinsBefore(l, b, k) then k - 1 else k] + [Joined(l, b, k)] + l[if JoinsAfter(l, b, k) then k + 1 else k..]
  {
    hide Insert, Canonical, Apart;
    var j := if JoinsBefore(l, b, k) then k - 1 else k;
    var j' := if JoinsAfter(l, b, k) then k + 1 else k;
    if JoinsBefore(l, b, k) { InsertJoined(l, b, k); } else { InsertApart(l, b, k); }
    assert l[..j] + [Joined(l, b, k)] + l[j'..] == l[..j] + ([Joined(l, b, k)] + l[j'..]);
  }

  lemma NodesKept(m: seq<uint8>, m': seq<uint8>, xs: nat, lo: nat, hi: nat, l: seq<Block>, b: Block, k: nat)
    requires ListReady(m, xs, lo, hi, l, b) && Belongs(l, b, k)
    requires OnlyTwo(m, m', NodeBefore(l, xs, k), b.addr)
    ensures k > 0 ==> SameHeader(m, m', xs)
    ensures SameHeader(m, m', hi)
    ensures forall i {:trigger l[i]} :: 0 <= i < k - 1 || k <= i < |l| ==> SameHeader(m, m', l[i].addr)
  {
    hide Next, Size, Canonical, Apart;
    Separated(m, xs, lo, hi, l, b, k);
    forall i {:trigger l[i]} | 0 <= i < k - 1 || k <= i < |l| ensures SameHeader(m, m', l[i].addr) {
      assert Clear(l[i].addr, NodeBefore(l, xs, k));
    }
  }

  /** The headers written by an insertion lie in xStart, the list or the block. */
  lemma HeadersCovered(m: seq<uint8>, xs: nat, lo: nat, hi: nat, l: seq<Block>, b: Block, k: nat)
    requires ListReady(m, xs, lo, hi, l, b) && Belongs(l, b, k)
    ensures k > 0 ==> forall x :: l[k - 1].addr <= x < l[k - 1].addr + HEADER ==> Covers(l, x)
  {
    if k > 0 {
      assert Fits(lo, hi, l[k - 1]);
      forall x | l[k - 1].addr <= x < l[k - 1].addr + HEADER ensures Covers(l, x) {
        assert l[k - 1].Has(x);
      }
    }
  }

  ghost predicate LiveHeaders(m: seq<uint8>, live: map<nat, nat>) {
    forall a {:trigger a in live} :: a in live ==>
      a + HEADER <= |m| && Next(m, a) == 0 && Size(m, a) == live[a] + TOP_BIT
  }

  /** Only the end marker has no successor. */
  lemma Terminated(m: seq<uint8>, xs: nat, s: HeapState, k: nat)
    requires Inv(s) && Linked(m, xs, s.free, s.hi) && k <= |s.free|
    ensures NodeAfter(s.free, s.hi, k) + HEADER <= |m|
    ensures Next(m, NodeAfter(s.free, s.hi, k)) == 0 <==> k == |s.free|
    ensures NodeAfter(s.free, s.hi, k) == s.hi <==> k == |s.free|
    ensures k == |s.free| ==> Size(m, s.hi) == 0
  {
    hide Next, Size;
    if k < |s.free| {
      NodeFacts(m, xs, s.free, s.hi, k + 1);
      assert Fits(s.lo, s.hi, s.free[k]);
      if k + 1 < |s.free| { assert s.free[k].End() < s.free[k + 1].addr; }
    }
  }

  /** All list headers, xStart and the end marker are clear of the header at p. */
  ghost predicate ListClear(xs: nat, l: seq<Block>, hi: nat, p: nat) {
    Clear(xs, p) && Clear(hi, p) && (forall i :: 0 <= i < |l| ==> Clear(l[i].addr, p))
  }

  lemma LinkedOff(m: seq<uint8>, m': seq<uint8>, xs: nat, l: seq<Block>, hi: nat, p: nat)
    requires Linked(m, xs, l, hi) && OthersSame(m, m', p) && ListClear(xs, l, hi, p)
    ensures Linked(m', xs, l, hi)
  {
    hide Next, Size;
    assert Next(m', xs) == Next(m, xs) && Next(m', hi) == Next(m, hi);
    forall i | 0 <= i < |l| ensures SameHeader(m, m', l[i].addr) {
      assert Clear(l[i].addr, p);
      assert Next(m', l[i].addr) == Next(m, l[i].addr);
    }
    LinkedFrame(m, m', xs, l, hi);
  }

  /** The headers malloc reads when it takes block k. */
  lemma TakeFacts(m: seq<uint8>, xs: nat, s: HeapState, k: nat, n: nat)
    requires Inv(s) && Linked(m, xs, s.free, s.hi) && Outside(xs, s.lo, s.hi) && k < |s.free|
    ensures s.free[k].addr + HEADER <= |m| && s.free[k].End() <= s.hi && s.hi + HEADER <= |m|
    ensures FreeShape(s.lo, s.hi, s.free) && Canonical(s.free) && Fits(s.lo, s.hi, s.free[k])
    ensures NodeBefore(s.free, xs, k) + HEADER <= |m|
    ensures Next(m, s.free[k].addr) == NodeAfter(s.free, s.hi, k + 1)
    ensures Size(m, s.free[k].addr) == s.free[k].size
    ensures Clear(s.free[k].addr, NodeBefore(s.free, xs, k))
  {
    hide Next, Size;
    NodeFacts(m, xs, s.free, s.hi, k);
    NodeFacts(m, xs, s.free, s.hi, k + 1);
    assert Fits(s.lo, s.hi, s.free[k]);
    if k > 0 { assert Fits(s.lo, s.hi, s.free[k - 1]) && s.free[k - 1].End() < s.free[k].addr; }
  }

  lemma UnlinkNode(m: seq<uint8>, m': seq<uint8>, xs: nat, lo: nat, hi: nat, l: seq<Block>, k: nat)
    requires Linked(m, xs, l, hi) && FreeShape(lo, hi, l) && Outside(xs, lo, hi) && k < |l|
    requires OthersSame(m, m', NodeBefore(l, xs, k)) && NodeBefore(l, xs, k) + HEADER <= |m|
    requires Next(m', NodeBefore(l, xs, k)) == NodeAfter(l, hi, k + 1)
    requires Size(m', NodeBefore(l, xs, k)) == Size(m, NodeBefore(l, xs, k))
    ensures Linked(m', xs, l[..k] + l[k + 1..], hi)
    ensures SameHeader(m, m', l[k].addr)
  {
    hide Next, Size;
    var p := NodeBefore(l, xs, k);
    forall i | 0 <= i < k - 1 || k <= i < |l| ensures SameHeader(m, m', l[i].addr) {
      assert Clear(l[i].addr, p) by {
        assert Fits(lo, hi, l[i]);
        if k > 0 { assert Fits(lo, hi, l[k - 1]); }
      }
      assert Next(m', l[i].addr) == Next(m, l[i].addr);
    }
    assert Clear(hi, p) && (k > 0 ==> Clear(xs, p)) by {
      if k > 0 { assert Fits(lo, hi, l[k - 1]); }
    }
    assert Next(m', hi) == Next(m, hi);
    if k > 0 { assert Next(m', xs) == Next(m, xs); }
    Unlink(m, m', xs, l, hi, k);
  }

  /** The two headers written by a cut are clear of the remaining list and of each other. */
  lemma CutClear(xs: nat, lo: nat, hi: nat, l: seq<Block>, k: nat, n: nat)
    requires FreeShape(lo, hi, l) && Outside(xs, lo, hi) && k < |l|
    requires 0 < n && n + MINIMUM_BLOCK < l[k].size && n % ALIGNMENT == 0
    ensures ListClear(xs, l[..k] + l[k + 1..], hi, l[k].addr)
    ensures ListClear(xs, l[..k] + l[k + 1..], hi, l[k].addr + n)
    ensures Clear(l[k].addr, l[k].addr + n)
  {
    var r := l[..k] + l[k + 1..];
    assert Fits(lo, hi, l[k]);
    forall i | 0 <= i < |r| ensures Clear(r[i].addr, l[k].addr) && Clear(r[i].addr, l[k].addr + n) {
      var j := if i < k then i else i + 1;
      assert r[i] == l[j] && Fits(lo, hi, l[j]);
    }
  }

  lemma CutReady(m: seq<uint8>, xs: nat, lo: nat, hi: nat, l: seq<Block>, k: nat, n: nat)
    requires FreeShape(lo, hi, l) && Outside(xs, lo, hi) && k < |l|
    requires 0 < n && n + MINIMUM_BLOCK < l[k].size && n % ALIGNMENT == 0
    requires Linked(m, xs, l[..k] + l[k + 1..], hi)
    requires l[k].addr + n + HEADER <= |m| && Size(m, l[k].addr + n) == l[k].size - n
    ensures ListReady(m, xs, lo, hi, l[..k] + l[k + 1..], Block(l[k].addr + n, l[k].size - n))
  {
    hide Next, Size, Linked;
    var r := l[..k] + l[k + 1..];
    WithoutCanonical(l, k);
    assert Fits(lo, hi, l[k]);
    forall i | 0 <= i < |r|
      ensures Fits(lo, hi, r[i]) && (r[i].End() <= l[k].addr + n || l[k].End() <= r[i].addr)
    {
      var j := if i < k then i else i + 1;
      assert r[i] == l[j];
    }
  }

  /** Inserting the rest of a cut block leaves the header of the part taken. */
  lemma CutKeepsHeader(m: seq<uint8>, m': seq<uint8>, xs: nat, lo: nat, hi: nat, l: seq<Block>, k: nat, n: nat)
    requires FreeShape(lo, hi, l) && Outside(xs, lo, hi) && k < |l| && |m| == |m'| && hi <= |m|
    requires HEADER <= n && n + MINIMUM_BLOCK < l[k].size
    requires forall x :: (0 <= x < |m| && !(xs <= x < xs + HEADER) && !Covers(l[..k] + l[k + 1..], x)
                          && !(l[k].addr + n <= x < l[k].addr + n + HEADER)) ==> m'[x] == m[x]
    ensures SameHeader(m, m', l[k].addr)
  {
    assert Fits(lo, hi, l[k]);
    forall x | l[k].addr <= x < l[k].addr + HEADER ensures m'[x] == m[x] {
      ConcatCovers(l[..k], l[k + 1..], x);
      SidesCovered(l, k, x);
    }
    HeaderFrame(m, m', l[k].addr);
  }

  /** Everything malloc writes besides xStart lies in blocks of the list. */
  lemma WithinBlocks(lo: nat, hi: nat, l: seq<Block>, k: nat)
    requires FreeShape(lo, hi, l) && k < |l|
    ensures forall x :: Covers(l[..k] + l[k + 1..], x) ==> Covers(l, x)
    ensures forall x :: l[k].addr <= x < l[k].End() ==> Covers(l, x)
    ensures HEADER <= l[k].size
    ensures k > 0 ==> forall x :: l[k - 1].addr <= x < l[k - 1].addr + HEADER ==> Covers(l, x)
  {
    assert Fits(lo, hi, l[k]);
    forall x | Covers(l[..k] + l[k + 1..], x) ensures Covers(l, x) {
      ConcatCovers(l[..k], l[k + 1..], x);
      assert l == l[..k] + [l[k]] + l[k + 1..];
      MiddleCovers(l[..k], l[k], l[k + 1..], x);
    }
    forall x | l[k].addr <= x < l[k].End() ensures Covers(l, x) {
      assert l[k].Has(x);
    }
    if k > 0 {
      assert Fits(lo, hi, l[k - 1]);
      forall x | l[k - 1].addr <= x < l[k - 1].addr + HEADER ensures Covers(l, x) {
        assert l[k - 1].Has(x);
      }
    }
  }

  lemma TakenClear(xs: nat, lo: nat, hi: nat, l: seq<Block>, k: nat, n: nat)
    requires FreeShape(lo, hi, l) && Outside(xs, lo, hi) && k < |l|
    requires HEADER <= n <= l[k].size
    ensures ListClear(xs, Take(l, k, n), hi, l[k].addr)
  {
    var t := Take(l, k, n);
    assert Fits(lo, hi, l[k]);
    forall i | 0 <= i < |t| ensures Clear(t[i].addr, l[k].addr) {
      if l[k].size - n > MINIMUM_BLOCK {
        assert i != k ==> t[i] == l[i] && Fits(lo, hi, l[i]);
      } else {
        var j := if i < k then i else i + 1;
        assert t[i] == l[j] && Fits(lo, hi, l[j]);
      }
    }
  }

  /** The parts of the invariant the methods use directly. */
  lemma StateFacts(s: HeapState)
    requires Inv(s)
    ensures s.freeBytes == Total(s.free) && FreeShape(s.lo, s.hi, s.free) && s.minEver <= s.freeBytes
    ensures s.hi % ALIGNMENT == 0
    ensures forall x :: Covers(s.free, x) ==> s.lo <= x < s.hi && !LiveCovers(s.live, x)
    ensures forall x :: LiveCovers(s.live, x) ==> s.lo <= x < s.hi
  {
    forall x | Covers(s.free, x) ensures s.lo <= x < s.hi && !LiveCovers(s.live, x) {
      InRange(s, x);
    }
  }

  lemma OwnedWithin(s: HeapState, a: nat)
    requires Inv(s) && a in s.live
    ensures s.lo <= a && HEADER < s.live[a] && a + s.live[a] <= s.hi && a % ALIGNMENT == 0
    ensures Fits(s.lo, s.hi, Block(a, s.live[a]))
    ensures forall x :: a <= x < a + s.live[a] ==> LiveCovers(s.live, x)
  {
  }

  lemma OwnedHeader(m: seq<uint8>, s: HeapState, a: nat)
    requires LiveHeaders(m, s.live) && a in s.live
    ensures a + HEADER <= |m| && Next(m, a) == 0 && Size(m, a) == s.live[a] + TOP_BIT
  {
  }

  /** Changing only xStart and free blocks leaves every owned header. */
  lemma OwnersKept(m: seq<uint8>, m': seq<uint8>, xs: nat, s: HeapState)
    requires Inv(s) && |m| == |m'| && LiveHeaders(m, s.live) && Outside(xs, s.lo, s.hi)
    requires forall x :: (0 <= x < |m| && !(xs <= x < xs + HEADER) && !Covers(s.free, x)) ==> m'[x] == m[x]
    ensures LiveHeaders(m', s.live)
    ensures forall x :: 0 <= x < |m| && LiveCovers(s.live, x) ==> m'[x] == m[x]
  {
    hide Next, Size, Covers, LiveCovers, Inv;
    StateFacts(s);
    forall a | a in s.live
      ensures a + HEADER <= |m'| && Next(m', a) == 0 && Size(m', a) == s.live[a] + TOP_BIT
    {
      OwnedWithin(s, a);
      HeaderFrame(m, m', a);
    }
  }

  lemma OwnerAdded(m: seq<uint8>, m': seq<uint8>, xs: nat, s: HeapState, wanted: nat)
    requires Inv(s) && Chosen(s, wanted) < |s.free| && LiveHeaders(m', s.live)
    requires var b := s.free[Chosen(s, wanted)];
      b.addr + HEADER <= |m'| && Next(m', b.addr) == 0
      && Size(m', b.addr) == Taken(b, Rounded(wanted)) + TOP_BIT
    ensures LiveHeaders(m', AfterMalloc(s, wanted).live)
  {
    hide Next, Size, Inv, Take;
  }

  lemma WipeFrame(m: seq<uint8>, m': seq<uint8>, p: nat, n: nat, q: nat)
    requires p + n <= |m| && m' == Wiped(m, p, n) && q + HEADER <= |m|
    requires q + HEADER <= p || p + n <= q
    ensures SameHeader(m, m', q)
  {
    HeaderFrame(m, m', q);
  }

  /** Wiping inside an owned payload disturbs no header. */
  lemma WipeOwned(m: seq<uint8>, m': seq<uint8>, xs: nat, s: HeapState, a: nat, n: nat)
    requires Inv(s) && a in s.live && HEADER + n <= s.live[a] && a + HEADER + n <= |m|
    requires Linked(m, xs, s.free, s.hi) && Outside(xs, s.lo, s.hi) && LiveHeaders(m, s.live)
    requires m' == Wiped(m, a + HEADER, n)
    ensures Linked(m', xs, s.free, s.hi) && LiveHeaders(m', s.live)
  {
    WipeList(m, m', xs, s, a, n);
    hide Next, Size, Inv, Linked;
    forall c | c in s.live
      ensures c + HEADER <= |m'| && Next(m', c) == 0 && Size(m', c) == s.live[c] + TOP_BIT
    {
      OwnedWithin(s, c);
      OwnedApart(s, a, c);
      WipeFrame(m, m', a + HEADER, n, c);
    }
  }

  lemma OwnedApart(s: HeapState, a: nat, c: nat)
    requires Inv(s) && a in s.live && c in s.live
    ensures c == a || c + s.live[c] <= a || a + s.live[a] <= c
  {
  }

  lemma WipeList(m: seq<uint8>, m': seq<uint8>, xs: nat, s: HeapState, a: nat, n: nat)
    requires Inv(s) && a in s.live && HEADER + n <= s.live[a] && a + HEADER + n <= |m|
    requires Linked(m, xs, s.free, s.hi) && Outside(xs, s.lo, s.hi)
    requires m' == Wiped(m, a + HEADER, n)
    ensures Linked(m', xs, s.free, s.hi)
  {
    hide Next, Size, Linked, Inv, Covers;
    StateFacts(s);
    OwnedWithin(s, a);
    LiveApart(s, a);
    LinkedBounds(m, xs, s.free, s.hi);
    WipeFrame(m, m', a + HEADER, n, xs);
    WipeFrame(m, m', a + HEADER, n, s.hi);
    forall i | 0 <= i < |s.free| ensures SameHeader(m, m', s.free[i].addr) {
      assert Fits(s.lo, s.hi, s.free[i]);
      WipeFrame(m, m', a + HEADER, n, s.free[i].addr);
    }
    LinkedFrame(m, m', xs, s.free, s.hi);
  }

  lemma LinkedBounds(m: seq<uint8>, xs: nat, l: seq<Block>, hi: nat)
    requires Linked(m, xs, l, hi)
    ensures xs + HEADER <= |m| && hi + HEADER <= |m|
    ensures forall i :: 0 <= i < |l| ==> l[i].addr + HEADER <= |m|
  {
  }

  /** The wiped payload of a new owner meets no older owner. */
  lemma WipeMisses(s: HeapState, wanted: nat)
    requires Inv(s) && MallocResult(s, wanted) != 0
    ensures var pv := MallocResult(s, wanted);
      forall x :: pv <= x < pv + wanted ==> !LiveCovers(s.live, x)
  {
    hide Inv, Take;
    MallocGrants(s, wanted);
  }

  lemma FreeClear(xs: nat, s: HeapState, a: nat)
    requires Inv(s) && a in s.live && Outside(xs, s.lo, s.hi)
    ensures ListClear(xs, s.free, s.hi, a)
  {
    OwnedWithin(s, a);
    LiveApart(s, a);
    forall i | 0 <= i < |s.free| ensures Clear(s.free[i].addr, a) {
      assert Fits(s.lo, s.hi, s.free[i]);
    }
  }

  /** Wiping the payload of the block being freed leaves its header and the list. */
  lemma WipeUnlinked(m: seq<uint8>, m': seq<uint8>, xs: nat, s: HeapState, a: nat)
    requires Inv(s) && a in s.live && HEADER < s.live[a] && a + s.live[a] <= |m|
    requires Linked(m, xs, s.free, s.hi) && Outside(xs, s.lo, s.hi) && Size(m, a) == s.live[a]
    requires m' == Wiped(m, a + HEADER, s.live[a] - HEADER)
    ensures ListReady(m', xs, s.lo, s.hi, s.free, Block(a, s.live[a]))
  {
    hide Next, Size, Linked, Covers, Inv, Apart;
    StateFacts(s);
    OwnedWithin(s, a);
    LiveApart(s, a);
    WipeList(m, m', xs, s, a, s.live[a] - HEADER);
    WipeFrame(m, m', a + HEADER, s.live[a] - HEADER, a);
  }

  /** A free changes no other owned byte. */
  lemma OwnersLeft(m: seq<uint8>, m': seq<uint8>, xs: nat, s: HeapState, a: nat)
    requires Inv(s) && a in s.live && |m| == |m'| && LiveHeaders(m, s.live) && Outside(xs, s.lo, s.hi)
    requires forall x :: (0 <= x < |m| && !(xs <= x < xs + HEADER) && !Covers(s.free, x)
                          && !(a <= x < a + s.live[a])) ==> m'[x] == m[x]
    ensures LiveHeaders(m', s.live - {a})
    ensures forall x :: 0 <= x < |m| && LiveCovers(s.live - {a}, x) ==> m'[x] == m[x]
  {
    hide Next, Size, Covers, Inv, LiveCovers;
    StateFacts(s);
    forall c | c in s.live && c != a
      ensures c + HEADER <= |m'| && Next(m', c) == 0 && Size(m', c) == s.live[c] + TOP_BIT
    {
      OwnedWithin(s, c);
      OwnedApart(s, a, c);
      HeaderFrame(m, m', c);
    }
    forall x | 0 <= x < |m| && LiveCovers(s.live - {a}, x) ensures m'[x] == m[x] {
      OthersOwned(s, a, x);
    }
  }

  lemma OthersOwned(s: HeapState, a: nat, x: int)
    requires Inv(s) && a in s.live
    ensures LiveCovers(s.live - {a}, x) ==> LiveCovers(s.live, x) && !(a <= x < a + s.live[a])
  {
    forall c | c in s.live ensures c == a || c + s.live[c] <= a || a + s.live[a] <= c {
      OwnedApart(s, a, c);
    }
    LiveRemove(s.live, a, x);
  }

  lemma PayloadStays(m: seq<uint8>, m': seq<uint8>, xs: nat, s: HeapState, a: nat)
    requires Inv(s) && a in s.live && |m| == |m'| && a + s.live[a] <= |m| && Outside(xs, s.lo, s.hi)
    requires forall x :: (0 <= x < |m| && !(xs <= x < xs + HEADER) && !Covers(s.free, x)
                          && !(a <= x < a + HEADER)) ==> m'[x] == m[x]
    ensures forall x :: a + HEADER <= x < a + s.live[a] ==> m'[x] == m[x]
  {
    hide Covers, Inv, LiveCovers;
    StateFacts(s);
    OwnedWithin(s, a);
  }
}
