/**
  The heap seen as data: an address-ordered list of free blocks and a map of the
  blocks owned by the application.  The functions here say what one call of the
  allocator does to that data; the lemmas say what every run of calls keeps.
  `MemmgrHeap` carries the same steps out on a byte-addressed RAM.
 */
module HeapModel {

  /** xHeapStructSize: two 32-bit words, already a multiple of the alignment. */
  const HEADER: nat := 8
  /** portBYTE_ALIGNMENT. */
  const ALIGNMENT: nat := 8
  /** heapMINIMUM_BLOCK_SIZE. */
  const MINIMUM_BLOCK: nat := 16
  /** xBlockAllocatedBit, the top bit of a 32-bit size. */
  const TOP_BIT: nat := 0x8000_0000

  datatype Block = Block(addr: nat, size: nat) {
    function End(): nat { addr + size }

    predicate Has(x: int) { addr <= x < End() }
  }

  /** A byte belongs to some block of the list. */
  ghost predicate Covers(l: seq<Block>, x: int) {
    exists i :: 0 <= i < |l| && l[i].Has(x)
  }

  /** Ascending addresses, no empty block and no two blocks touching. */
  ghost predicate Canonical(l: seq<Block>) {
    && (forall i :: 0 <= i < |l| ==> l[i].size > 0)
    && (forall i, j :: 0 <= i < j < |l| ==> l[i].End() < l[j].addr)
  }

  /** The sum of the block sizes. */
  function Total(l: seq<Block>): nat {
    if l == [] then 0 else l[0].size + Total(l[1..])
  }

  /** memmgr_heap_get_max_free_block as a fold. */
  function MaxSize(l: seq<Block>): nat {
    if l == [] then 0 else
    var m := MaxSize(l[1..]);
    if l[0].size > m then l[0].size else m
  }

  // ---------------------------------------------------------------- the list

  /** Insertion in address order, coalescing with the block on either side. */
  function Insert(l: seq<Block>, b: Block): seq<Block>
    decreases |l|
  {
    if l == [] then [b]
    else if b.End() < l[0].addr then [b] + l
    else if b.End() == l[0].addr then [Block(b.addr, b.size + l[0].size)] + l[1..]
    else if l[0].End() == b.addr then Insert(l[1..], Block(l[0].addr, l[0].size + b.size))
    else [l[0]] + Insert(l[1..], b)
  }

  /** The lowest-addressed block of at least the given size, or |l|. */
  function FirstFit(l: seq<Block>, n: nat): (k: nat)
    ensures k <= |l|
    ensures forall i :: 0 <= i < k ==> l[i].size < n
    ensures k < |l| ==> l[k].size >= n
  {
    if l == [] || l[0].size >= n then 0 else 1 + FirstFit(l[1..], n)
  }

  /** A block is cut only when the rest exceeds the minimum block size. */
  function Taken(b: Block, n: nat): nat
    requires n <= b.size
  {
    if b.size - n > MINIMUM_BLOCK then n else b.size
  }

  /** The list after n bytes were taken from block k. */
  function Take(l: seq<Block>, k: nat, n: nat): seq<Block>
    requires k < |l| && n <= l[k].size
  {
    if l[k].size - n > MINIMUM_BLOCK
    then l[k := Block(l[k].addr + n, l[k].size - n)]
    else l[..k] + l[k + 1..]
  }

  // --------------------------------------------------------------- the state

  datatype HeapState = HeapState(
    lo: nat, hi: nat,          // the heap proper: aligned start up to pxEnd
    free: seq<Block>,
    live: map<nat, nat>,       // header address of each owned block to its size
    freeBytes: nat,            // xFreeBytesRemaining
    minEver: nat)              // xMinimumEverFreeBytesRemaining

  ghost predicate LiveCovers(live: map<nat, nat>, x: int) {
    exists a :: a in live && a <= x < a + live[a]
  }

  /** Inside the heap, aligned, and large enough for a header. */
  ghost predicate Fits(lo: nat, hi: nat, b: Block) {
    && lo <= b.addr && b.End() <= hi
    && b.addr % ALIGNMENT == 0 && b.size % ALIGNMENT == 0 && HEADER <= b.size
  }

  ghost predicate FreeShape(lo: nat, hi: nat, l: seq<Block>) {
    && Canonical(l)
    && (forall i :: 0 <= i < |l| ==> Fits(lo, hi, l[i]))
  }

  ghost predicate LiveShape(lo: nat, hi: nat, live: map<nat, nat>) {
    && (forall a :: a in live ==>
          && lo <= a && a + live[a] <= hi
          && a % ALIGNMENT == 0 && live[a] % ALIGNMENT == 0 && HEADER < live[a])
    && (forall a, b :: a in live && b in live && a < b ==> a + live[a] <= b)
  }

  /** Every byte of the heap is in exactly one of the two. */
  ghost predicate Tiles(s: HeapState) {
    forall x :: s.lo <= x < s.hi ==> (Covers(s.free, x) <==> !LiveCovers(s.live, x))
  }

  /** What every reachable state satisfies. */
  ghost predicate Inv(s: HeapState) {
    && s.lo % ALIGNMENT == 0 && s.hi % ALIGNMENT == 0 && s.lo < s.hi
    && FreeShape(s.lo, s.hi, s.free)
    && LiveShape(s.lo, s.hi, s.live)
    && Tiles(s)
    && s.freeBytes == Total(s.free)
    && s.minEver <= s.freeBytes
  }

  /** prvHeapInit: one free block from the aligned start to the end marker. */
  function Initial(lo: nat, hi: nat): HeapState
    requires lo < hi
  {
    HeapState(lo, hi, [Block(lo, hi - lo)], map[], hi - lo, hi - lo)
  }

  /** Request plus header, rounded up to the alignment. */
  function Rounded(wanted: nat): (r: nat)
    ensures wanted + 8 <= r < wanted + 16 && r % 8 == 0
  {
    var n := wanted + HEADER;
    if n % ALIGNMENT != 0 then n + (ALIGNMENT - n % ALIGNMENT) else n
  }

  /** The index of the block malloc takes, or |free| when the call fails. */
  function Chosen(s: HeapState, wanted: nat): (k: nat)
    ensures k <= |s.free|
    ensures k < |s.free| ==> s.free[k].size >= Rounded(wanted)
  {
    if wanted < TOP_BIT && 0 < wanted && Rounded(wanted) <= s.freeBytes
    then FirstFit(s.free, Rounded(wanted)) else |s.free|
  }

  /** pvPortMalloc on the state; a failed request changes nothing. */
  function AfterMalloc(s: HeapState, wanted: nat): HeapState {
    var k := Chosen(s, wanted);
    if k == |s.free| then s else
    var b := s.free[k];
    var size := Taken(b, Rounded(wanted));
    var left := if size <= s.freeBytes then s.freeBytes - size else 0;
    s.(free := Take(s.free, k, Rounded(wanted)),
       live := s.live[b.addr := size],
       freeBytes := left,
       minEver := if left < s.minEver then left else s.minEver)
  }

  /** The pointer pvPortMalloc hands out; 0 stands for the failed furi_check. */
  function MallocResult(s: HeapState, wanted: nat): nat {
    var k := Chosen(s, wanted);
    if k == |s.free| then 0 else s.free[k].addr + HEADER
  }

  /** vPortFree of an owned block, given by its header address. */
  function AfterFree(s: HeapState, a: nat): HeapState
    requires a in s.live
  {
    s.(free := Insert(s.free, Block(a, s.live[a])),
       live := s.live - {a},
       freeBytes := s.freeBytes + s.live[a])
  }

  // ------------------------------------------------------------ list lemmas

  ghost predicate Apart(l: seq<Block>, b: Block) {
    forall i :: 0 <= i < |l| ==> l[i].End() <= b.addr || b.End() <= l[i].addr
  }

  /** Two canonical lists covering the same bytes are the same list. */
  lemma {:induction false} CanonicalUnique(l: seq<Block>, m: seq<Block>)
    requires Canonical(l) && Canonical(m)
    requires forall x :: Covers(l, x) <==> Covers(m, x)
    ensures l == m
  {
    hide Covers, Canonical;
    if l == [] || m == [] {
      if l != [] { HeadCovered(l); NoneCovers(l[0].addr); }
      if m != [] { HeadCovered(m); NoneCovers(m[0].addr); }
    } else {
      HeadStart(l, m);
      HeadStart(m, l);
      HeadEnd(l, m);
      HeadEnd(m, l);
      assert l[0] == m[0];
      forall x ensures Covers(l[1..], x) <==> Covers(m[1..], x) {
        TailCovers(l, x);
        TailCovers(m, x);
      }
      TailCanonical(l);
      TailCanonical(m);
      CanonicalUnique(l[1..], m[1..]);
      assert l == [l[0]] + l[1..] && m == [m[0]] + m[1..];
    }
  }

  lemma HeadCovered(l: seq<Block>)
    requires Canonical(l) && l != []
    ensures Covers(l, l[0].addr)
  {
    assert l[0].Has(l[0].addr);
  }

  lemma HeadStart(l: seq<Block>, m: seq<Block>)
    requires Canonical(l) && Canonical(m) && l != [] && m != []
    requires forall x :: Covers(l, x) <==> Covers(m, x)
    ensures l[0].addr >= m[0].addr
  {
    assert l[0].Has(l[0].addr);
    assert Covers(m, l[0].addr);
    var i :| 0 <= i < |m| && m[i].Has(l[0].addr);
    assert i > 0 ==> m[0].End() < m[i].addr;
  }

  lemma HeadEnd(l: seq<Block>, m: seq<Block>)
    requires Canonical(l) && Canonical(m) && l != [] && m != []
    requires forall x :: Covers(l, x) <==> Covers(m, x)
    requires l[0].addr == m[0].addr
    ensures l[0].End() <= m[0].End()
  {
    HeadGap(m);
    assert !Covers(l, m[0].End());
    assert !l[0].Has(m[0].End());
  }

  lemma HeadGap(l: seq<Block>)
    requires Canonical(l) && l != []
    ensures !Covers(l, l[0].End())
  {
  }

  lemma TailCovers(l: seq<Block>, x: int)
    requires Canonical(l) && l != []
    ensures Covers(l[1..], x) <==> Covers(l, x) && !l[0].Has(x)
  {
    if Covers(l[1..], x) {
      var i :| 0 <= i < |l[1..]| && l[1..][i].Has(x);
      assert l[i + 1].Has(x);
      assert l[0].End() < l[i + 1].addr;
    }
    if Covers(l, x) && !l[0].Has(x) {
      var i :| 0 <= i < |l| && l[i].Has(x);
      assert i > 0;
      assert l[1..][i - 1].Has(x);
    }
  }

  /** Splits the coverage of a three-part list. */
  lemma ConcatCovers(l: seq<Block>, m: seq<Block>, x: int)
    ensures Covers(l + m, x) <==> Covers(l, x) || Covers(m, x)
  {
    if Covers(l + m, x) {
      var i :| 0 <= i < |l + m| && (l + m)[i].Has(x);
      if i < |l| { assert l[i].Has(x); } else { assert m[i - |l|].Has(x); }
    }
    if Covers(l, x) {
      var i :| 0 <= i < |l| && l[i].Has(x);
      assert (l + m)[i].Has(x);
    }
    if Covers(m, x) {
      var i :| 0 <= i < |m| && m[i].Has(x);
      assert (l + m)[|l| + i].Has(x);
    }
  }

  lemma NoneCovers(x: int)
    ensures !Covers([], x)
  {
  }

  lemma OneCovers(b: Block, x: int)
    ensures Covers([b], x) <==> b.Has(x)
  {
    if b.Has(x) { assert [b][0].Has(x); }
  }

  lemma MiddleCovers(l: seq<Block>, b: Block, m: seq<Block>, x: int)
    ensures Covers(l + [b] + m, x) <==> Covers(l, x) || b.Has(x) || Covers(m, x)
  {
    ConcatCovers(l + [b], m, x);
    ConcatCovers(l, [b], x);
    OneCovers(b, x);
  }

  lemma Prepend(b: Block, l: seq<Block>)
    requires Canonical(l) && b.size > 0 && (l != [] ==> b.End() < l[0].addr)
    ensures Canonical([b] + l)
  {
    var m := [b] + l;
    forall i, j | 0 <= i < j < |m| ensures m[i].End() < m[j].addr {
      if i == 0 && j > 1 { assert l[0].End() < l[j - 1].addr; }
    }
  }

  lemma TailCanonical(l: seq<Block>)
    requires Canonical(l) && l != []
    ensures Canonical(l[1..])
  {
  }

  lemma ApartTail(l: seq<Block>, b: Block)
    requires Canonical(l) && Apart(l, b) && l != []
    ensures Canonical(l[1..]) && Apart(l[1..], b)
  {
  }

  /** A block apart from the list and touching its head from above. */
  lemma ApartMerged(l: seq<Block>, b: Block)
    requires Canonical(l) && Apart(l, b) && l != [] && b.size > 0
    requires l[0].End() == b.addr
    ensures Apart(l[1..], Block(l[0].addr, l[0].size + b.size))
  {
    var t := l[1..];
    forall i | 0 <= i < |t| ensures b.End() <= t[i].addr {
      assert t[i] == l[i + 1] && l[0].End() < l[i + 1].addr;
    }
  }

  /** Insertion keeps the form; the first block can only grow downwards to the new one. */
  lemma {:induction false} InsertCanonical(l: seq<Block>, b: Block)
    requires Canonical(l) && Apart(l, b) && b.size > 0
    ensures Canonical(Insert(l, b))
    ensures Insert(l, b) != []
    ensures Insert(l, b)[0].addr == if l == [] || b.addr < l[0].addr then b.addr else l[0].addr
    decreases |l|
  {
    hide Canonical, Apart;
    if l == [] {
      EmptyCanonical();
      Prepend(b, []);
      assert [b] + [] == [b];
    } else {
      ApartTail(l, b);
      HeadBelow(l);
      var t := l[1..];
      if b.End() < l[0].addr {
        Prepend(b, l);
      } else if b.End() == l[0].addr {
        Prepend(Block(b.addr, b.size + l[0].size), t);
      } else if l[0].End() == b.addr {
        ApartMerged(l, b);
        InsertCanonical(t, Block(l[0].addr, l[0].size + b.size));
      } else {
        ApartHead(l, b);
        InsertCanonical(t, b);
        Prepend(l[0], Insert(t, b));
      }
    }
  }

  lemma EmptyCanonical()
    ensures Canonical([])
  {
  }

  lemma HeadBelow(l: seq<Block>)
    requires Canonical(l) && l != []
    ensures l[0].size > 0
    ensures l[1..] != [] ==> l[0].End() < l[1..][0].addr
  {
  }

  lemma ApartHead(l: seq<Block>, b: Block)
    requires Apart(l, b) && l != []
    ensures l[0].End() <= b.addr || b.End() <= l[0].addr
  {
  }

  /** Insertion adds exactly the bytes of the block. */
  lemma {:induction false} InsertCovers(l: seq<Block>, b: Block, x: int)
    requires Canonical(l) && Apart(l, b) && b.size > 0
    ensures Covers(Insert(l, b), x) <==> Covers(l, x) || b.Has(x)
    decreases |l|
  {
    hide Canonical, Apart, Covers;
    if l == [] {
      OneCovers(b, x);
      NoneCovers(x);
    } else {
      ApartTail(l, b);
      var t := l[1..];
      assert l == [l[0]] + t;
      ConsCovers(l[0], t, x);
      if b.End() < l[0].addr {
        ConsCovers(b, l, x);
      } else if b.End() == l[0].addr {
        ConsCovers(Block(b.addr, b.size + l[0].size), t, x);
      } else if l[0].End() == b.addr {
        ApartMerged(l, b);
        InsertCovers(t, Block(l[0].addr, l[0].size + b.size), x);
      } else {
        InsertCovers(t, b, x);
        ConsCovers(l[0], Insert(t, b), x);
      }
    }
  }

  lemma ConsCovers(b: Block, l: seq<Block>, x: int)
    ensures Covers([b] + l, x) <==> b.Has(x) || Covers(l, x)
  {
    ConcatCovers([b], l, x);
    OneCovers(b, x);
  }

  lemma {:induction false} TotalConcat(l: seq<Block>, m: seq<Block>)
    ensures Total(l + m) == Total(l) + Total(m)
  {
    if l == [] {
      assert l + m == m;
    } else {
      assert (l + m)[1..] == l[1..] + m;
      TotalConcat(l[1..], m);
    }
  }

  lemma TotalMiddle(l: seq<Block>, b: Block, m: seq<Block>)
    ensures Total(l + [b] + m) == Total(l) + b.size + Total(m)
  {
    TotalConcat(l + [b], m);
    TotalConcat(l, [b]);
    assert Total([b]) == b.size;
  }

  lemma TotalAt(l: seq<Block>, k: nat)
    requires k < |l|
    ensures Total(l) == Total(l[..k]) + l[k].size + Total(l[k + 1..])
  {
    assert l == l[..k] + [l[k]] + l[k + 1..];
    TotalMiddle(l[..k], l[k], l[k + 1..]);
  }

  lemma {:induction false} InsertTotal(l: seq<Block>, b: Block)
    ensures Total(Insert(l, b)) == Total(l) + b.size
    decreases |l|
  {
    if l != [] {
      var t := l[1..];
      if b.End() < l[0].addr {
        assert ([b] + l)[1..] == l;
      } else if b.End() == l[0].addr {
        assert ([Block(b.addr, b.size + l[0].size)] + t)[1..] == t;
      } else if l[0].End() == b.addr {
        InsertTotal(t, Block(l[0].addr, l[0].size + b.size));
      } else {
        InsertTotal(t, b);
        assert ([l[0]] + Insert(t, b))[1..] == Insert(t, b);
      }
    }
  }

  lemma {:induction false} InsertFits(lo: nat, hi: nat, l: seq<Block>, b: Block)
    requires forall i :: 0 <= i < |l| ==> Fits(lo, hi, l[i])
    requires Fits(lo, hi, b)
    ensures forall i :: 0 <= i < |Insert(l, b)| ==> Fits(lo, hi, Insert(l, b)[i])
    decreases |l|
  {
    if l != [] {
      var t := l[1..];
      if b.End() < l[0].addr {
      } else if b.End() == l[0].addr {
        assert Fits(lo, hi, Block(b.addr, b.size + l[0].size));
      } else if l[0].End() == b.addr {
        InsertFits(lo, hi, t, Block(l[0].addr, l[0].size + b.size));
      } else {
        InsertFits(lo, hi, t, b);
      }
    }
  }

  lemma InsertShape(lo: nat, hi: nat, l: seq<Block>, b: Block)
    requires FreeShape(lo, hi, l) && Apart(l, b) && Fits(lo, hi, b)
    ensures FreeShape(lo, hi, Insert(l, b))
  {
    InsertCanonical(l, b);
    InsertFits(lo, hi, l, b);
  }

  /** Blocks that end below the new one are passed over unchanged. */
  lemma {:induction false} InsertPast(l: seq<Block>, b: Block, k: nat)
    requires Canonical(l) && k <= |l| && b.size > 0
    requires forall i :: 0 <= i < k ==> l[i].End() < b.addr
    ensures Insert(l, b) == l[..k] + Insert(l[k..], b)
    decreases k
  {
    hide Canonical;
    if k == 0 {
      assert l[k..] == l;
    } else {
      var t := l[1..];
      TailCanonical(l);
      InsertPast(t, b, k - 1);
      assert t[k - 1..] == l[k..];
      assert [l[0]] + t[..k - 1] == l[..k];
      assert l[0].End() < b.addr;
    }
  }

  /** Index k is where the block belongs. */
  ghost predicate Belongs(l: seq<Block>, b: Block, k: nat) {
    && Canonical(l) && Apart(l, b) && b.size > 0 && k <= |l|
    && (forall i :: 0 <= i < k ==> l[i].addr < b.addr)
    && (k < |l| ==> b.addr < l[k].addr)
  }

  lemma Neighbours(l: seq<Block>, b: Block, k: nat)
    requires Belongs(l, b, k)
    ensures forall i :: 0 <= i < k - 1 ==> l[i].End() < b.addr
    ensures k > 0 ==> l[k - 1].End() <= b.addr
    ensures k < |l| ==> b.End() <= l[k].addr
  {
    forall i | 0 <= i < k - 1 ensures l[i].End() < b.addr {
      assert l[i].End() < l[k - 1].addr;
    }
  }

  /** Not touching the block in front. */
  lemma InsertApart(l: seq<Block>, b: Block, k: nat)
    requires Belongs(l, b, k) && (k > 0 ==> l[k - 1].End() != b.addr)
    ensures k < |l| && b.End() == l[k].addr ==>
      Insert(l, b) == l[..k] + ([Block(b.addr, b.size + l[k].size)] + l[k + 1..])
    ensures !(k < |l| && b.End() == l[k].addr) ==> Insert(l, b) == l[..k] + ([b] + l[k..])
  {
    hide Insert, Canonical, Apart;
    Neighbours(l, b, k);
    InsertPast(l, b, k);
    InsertAtIndex(l, b, k);
  }

  /** Touching the block in front. */
  lemma InsertJoined(l: seq<Block>, b: Block, k: nat)
    requires Belongs(l, b, k) && k > 0 && l[k - 1].End() == b.addr
    ensures k < |l| && b.End() == l[k].addr ==>
      Insert(l, b) == l[..k - 1] + ([Block(l[k - 1].addr, l[k - 1].size + b.size + l[k].size)] + l[k + 1..])
    ensures !(k < |l| && b.End() == l[k].addr) ==>
      Insert(l, b) == l[..k - 1] + ([Block(l[k - 1].addr, l[k - 1].size + b.size)] + l[k..])
  {
    hide Insert, Canonical, Apart;
    Neighbours(l, b, k);
    InsertPast(l, b, k - 1);
    InsertMergesAt(l, b, k - 1);
    InsertAtIndex(l, Block(l[k - 1].addr, l[k - 1].size + b.size), k);
  }

  lemma SliceHead(l: seq<Block>, k: nat)
    requires k < |l|
    ensures l[k..][0] == l[k] && l[k..][1..] == l[k + 1..]
  {
  }

  lemma InsertAtIndex(l: seq<Block>, b: Block, k: nat)
    requires k <= |l|
    requires k < |l| ==> b.End() <= l[k].addr
    ensures Insert(l[k..], b) ==
      if k < |l| && b.End() == l[k].addr then [Block(b.addr, b.size + l[k].size)] + l[k + 1..] else [b] + l[k..]
  {
    hide Insert;
    if k < |l| { SliceHead(l, k); }
    InsertHere(l[k..], b);
  }

  lemma InsertMergesAt(l: seq<Block>, b: Block, k: nat)
    requires k < |l| && l[k].End() == b.addr && b.size > 0
    ensures Insert(l[k..], b) == Insert(l[k + 1..], Block(l[k].addr, l[k].size + b.size))
  {
    hide Insert;
    SliceHead(l, k);
    InsertMerges(l[k..], b);
  }

  lemma InsertMerges(l: seq<Block>, b: Block)
    requires l != [] && l[0].End() == b.addr && b.size > 0
    ensures Insert(l, b) == Insert(l[1..], Block(l[0].addr, l[0].size + b.size))
  {
  }

  lemma InsertHere(l: seq<Block>, b: Block)
    requires l != [] ==> b.End() <= l[0].addr
    ensures Insert(l, b) ==
      if l != [] && b.End() == l[0].addr then [Block(b.addr, b.size + l[0].size)] + l[1..] else [b] + l
  {
  }

  /** Cutting a block is inserting its rest into the list without the block. */
  lemma TakeIsInsert(l: seq<Block>, k: nat, n: nat)
    requires Canonical(l) && k < |l| && 0 < n && n + MINIMUM_BLOCK < l[k].size
    ensures Take(l, k, n) == Insert(l[..k] + l[k + 1..], Block(l[k].addr + n, l[k].size - n))
  {
    hide Insert, Canonical;
    var r := l[..k] + l[k + 1..];
    var rest := Block(l[k].addr + n, l[k].size - n);
    assert r[k..] == l[k + 1..] && r[..k] == l[..k];
    assert Insert(r, rest) == l[..k] + Insert(l[k + 1..], rest) by {
      WithoutCanonical(l, k);
      BelowIndex(l, k);
      InsertPast(r, rest, k);
    }
    AboveIndex(l, k);
    InsertHere(l[k + 1..], rest);
    assert l[k := rest] == l[..k] + ([rest] + l[k + 1..]);
  }

  lemma BelowIndex(l: seq<Block>, k: nat)
    requires Canonical(l) && k < |l|
    ensures forall i :: 0 <= i < k ==> l[i].End() < l[k].addr
  {
  }

  lemma AboveIndex(l: seq<Block>, k: nat)
    requires Canonical(l) && k < |l|
    ensures l[k + 1..] != [] ==> l[k].End() < l[k + 1..][0].addr
  {
  }

  lemma WithoutCanonical(l: seq<Block>, k: nat)
    requires Canonical(l) && k < |l|
    ensures Canonical(l[..k] + l[k + 1..])
  {
  }

  lemma SidesCovered(l: seq<Block>, k: nat, x: int)
    requires Canonical(l) && k < |l|
    ensures Covers(l[..k], x) ==> x < l[k].addr
    ensures Covers(l[k + 1..], x) ==> l[k].End() <= x
  {
    if Covers(l[..k], x) {
      var i :| 0 <= i < |l[..k]| && l[..k][i].Has(x);
      assert l[i].End() < l[k].addr;
    }
    if Covers(l[k + 1..], x) {
      var i :| 0 <= i < |l[k + 1..]| && l[k + 1..][i].Has(x);
      assert l[k].End() < l[k + 1 + i].addr;
    }
  }

  lemma TakeCovers(l: seq<Block>, k: nat, n: nat, x: int)
    requires Canonical(l) && k < |l| && n <= l[k].size
    ensures Covers(Take(l, k, n), x) <==> Covers(l, x) && !(l[k].addr <= x < l[k].addr + Taken(l[k], n))
  {
    hide Covers, Canonical;
    assert l == l[..k] + [l[k]] + l[k + 1..];
    MiddleCovers(l[..k], l[k], l[k + 1..], x);
    SidesCovered(l, k, x);
    if l[k].size - n > MINIMUM_BLOCK {
      var rest := Block(l[k].addr + n, l[k].size - n);
      assert Take(l, k, n) == l[..k] + [rest] + l[k + 1..];
      MiddleCovers(l[..k], rest, l[k + 1..], x);
    } else {
      ConcatCovers(l[..k], l[k + 1..], x);
    }
  }

  lemma TakeTotal(l: seq<Block>, k: nat, n: nat)
    requires k < |l| && n <= l[k].size
    ensures Total(l) == Total(Take(l, k, n)) + Taken(l[k], n)
  {
    TotalAt(l, k);
    if l[k].size - n > MINIMUM_BLOCK {
      var rest := Block(l[k].addr + n, l[k].size - n);
      assert Take(l, k, n) == l[..k] + [rest] + l[k + 1..];
      TotalMiddle(l[..k], rest, l[k + 1..]);
    } else {
      TotalConcat(l[..k], l[k + 1..]);
    }
  }

  lemma {:induction false} MaxSizeIsMax(l: seq<Block>, n: nat)
    requires n > 0
    ensures n <= MaxSize(l) <==> exists i :: 0 <= i < |l| && l[i].size >= n
  {
    if l != [] {
      MaxSizeIsMax(l[1..], n);
      if i :| 0 <= i < |l| && l[i].size >= n {
        if i > 0 { assert l[1..][i - 1].size >= n; }
      }
      if j :| 0 <= j < |l[1..]| && l[1..][j].size >= n {
        assert l[j + 1].size >= n;
      }
    }
  }

  lemma {:induction false} MaxSizeAtMostTotal(l: seq<Block>)
    ensures MaxSize(l) <= Total(l)
  {
    if l != [] { MaxSizeAtMostTotal(l[1..]); }
  }

  // ----------------------------------------------------------- one call each

  lemma InitialInv(lo: nat, hi: nat)
    requires lo % ALIGNMENT == 0 && hi % ALIGNMENT == 0 && lo < hi
    ensures Inv(Initial(lo, hi))
  {
    var s := Initial(lo, hi);
    forall x | lo <= x < hi ensures Covers(s.free, x) && !LiveCovers(s.live, x) {
      assert s.free[0].Has(x);
    }
  }

  lemma TakeShape(lo: nat, hi: nat, l: seq<Block>, k: nat, n: nat)
    requires FreeShape(lo, hi, l) && k < |l| && n <= l[k].size && n % ALIGNMENT == 0
    ensures FreeShape(lo, hi, Take(l, k, n))
  {
    if l[k].size - n > MINIMUM_BLOCK {
      assert Fits(lo, hi, Block(l[k].addr + n, l[k].size - n));
    } else {
      WithoutCanonical(l, k);
    }
  }

  lemma RoundedAligned(wanted: nat)
    ensures Rounded(wanted) % ALIGNMENT == 0
    ensures wanted + HEADER <= Rounded(wanted) < wanted + HEADER + ALIGNMENT
  {
  }

  lemma LiveShapeAdd(lo: nat, hi: nat, live: map<nat, nat>, b: Block)
    requires LiveShape(lo, hi, live) && Fits(lo, hi, b) && HEADER < b.size
    requires forall a :: a in live ==> a + live[a] <= b.addr || b.End() <= a
    ensures LiveShape(lo, hi, live[b.addr := b.size])
  {
  }

  lemma MallocTiles(s: HeapState, k: nat, n: nat)
    requires Inv(s) && k < |s.free| && n <= s.free[k].size
    ensures Tiles(s.(free := Take(s.free, k, n), live := s.live[s.free[k].addr := Taken(s.free[k], n)]))
  {
    var b := s.free[k];
    var size := Taken(b, n);
    BlockFree(s, k);
    forall x | s.lo <= x < s.hi
      ensures Covers(Take(s.free, k, n), x) <==> !LiveCovers(s.live[b.addr := size], x)
    {
      TakeCovers(s.free, k, n, x);
      LiveAdd(s.live, b.addr, size, x);
      if b.addr <= x < b.addr + size { assert b.Has(x); }
    }
  }

  lemma MallocInv(s: HeapState, wanted: nat)
    requires Inv(s)
    ensures Inv(AfterMalloc(s, wanted))
  {
    var k := Chosen(s, wanted);
    if k < |s.free| {
      var n := Rounded(wanted);
      var b := s.free[k];
      RoundedAligned(wanted);
      TakeTotal(s.free, k, n);
      TakeShape(s.lo, s.hi, s.free, k, n);
      BlockFree(s, k);
      assert Fits(s.lo, s.hi, b);
      LiveShapeAdd(s.lo, s.hi, s.live, Block(b.addr, Taken(b, n)));
      MallocTiles(s, k, n);
    }
  }

  /** A free block meets no owned block. */
  lemma BlockFree(s: HeapState, k: nat)
    requires Inv(s) && k < |s.free|
    ensures s.free[k].addr !in s.live
    ensures forall a :: a in s.live ==> a + s.live[a] <= s.free[k].addr || s.free[k].End() <= a
  {
    var b := s.free[k];
    forall a | a in s.live ensures a + s.live[a] <= b.addr || b.End() <= a {
      if a < b.End() && b.addr < a + s.live[a] {
        var x := if a < b.addr then b.addr else a;
        assert b.Has(x) && Covers(s.free, x);
        assert LiveCovers(s.live, x);
        assert false;
      }
    }
  }

  /** An owned block lies apart from the free list. */
  lemma LiveApart(s: HeapState, a: nat)
    requires Inv(s) && a in s.live
    ensures Apart(s.free, Block(a, s.live[a]))
  {
    forall i | 0 <= i < |s.free| ensures s.free[i].End() <= a || a + s.live[a] <= s.free[i].addr {
      BlockFree(s, i);
    }
  }

  lemma LiveAdd(live: map<nat, nat>, a: nat, size: nat, x: int)
    requires a !in live
    ensures LiveCovers(live[a := size], x) <==> LiveCovers(live, x) || a <= x < a + size
  {
    var m := live[a := size];
    if LiveCovers(live, x) {
      var c :| c in live && c <= x < c + live[c];
      assert c in m && m[c] == live[c];
    }
    if a <= x < a + size { assert a in m && m[a] == size; }
  }

  lemma LiveRemove(live: map<nat, nat>, a: nat, x: int)
    requires a in live
    requires forall c :: c in live && c != a ==> c + live[c] <= a || a + live[a] <= c
    ensures LiveCovers(live - {a}, x) <==> LiveCovers(live, x) && !(a <= x < a + live[a])
  {
    var m := live - {a};
    if LiveCovers(m, x) {
      var c :| c in m && c <= x < c + m[c];
      assert c in live;
    }
    if LiveCovers(live, x) && !(a <= x < a + live[a]) {
      var c :| c in live && c <= x < c + live[c];
      assert c in m && m[c] == live[c];
    }
  }

  lemma FreeInv(s: HeapState, a: nat)
    requires Inv(s) && a in s.live
    ensures Inv(AfterFree(s, a))
  {
    var b := Block(a, s.live[a]);
    var t := AfterFree(s, a);
    LiveApart(s, a);
    InsertShape(s.lo, s.hi, s.free, b);
    InsertTotal(s.free, b);
    forall x | s.lo <= x < s.hi ensures Covers(t.free, x) <==> !LiveCovers(t.live, x) {
      InsertCovers(s.free, b, x);
      LiveRemove(s.live, a, x);
      if b.Has(x) { assert LiveCovers(s.live, x); }
    }
  }

  // ------------------------------------------------------------- every run

  datatype Call = Malloc(wanted: nat) | Free(pv: nat)

  /** vPortFree accepts NULL and pointers to owned payloads. */
  predicate Legal(s: HeapState, c: Call) {
    c.Free? && c.pv != 0 ==> c.pv >= HEADER && c.pv - HEADER in s.live
  }

  function Step(s: HeapState, c: Call): HeapState
    requires Legal(s, c)
  {
    match c
    case Malloc(wanted) => AfterMalloc(s, wanted)
    case Free(pv) => if pv == 0 then s else AfterFree(s, pv - HEADER)
  }

  predicate LegalRun(s: HeapState, calls: seq<Call>)
    decreases |calls|
  {
    calls == [] || (Legal(s, calls[0]) && LegalRun(Step(s, calls[0]), calls[1..]))
  }

  function Run(s: HeapState, calls: seq<Call>): HeapState
    requires LegalRun(s, calls)
    decreases |calls|
  {
    if calls == [] then s else Run(Step(s, calls[0]), calls[1..])
  }

  /** The least number of free bytes after any prefix of the run. */
  function LowestFree(s: HeapState, calls: seq<Call>): nat
    requires LegalRun(s, calls)
    decreases |calls|
  {
    if calls == [] then s.freeBytes else
    var rest := LowestFree(Step(s, calls[0]), calls[1..]);
    if s.freeBytes < rest then s.freeBytes else rest
  }

  lemma StepInv(s: HeapState, c: Call)
    requires Inv(s) && Legal(s, c)
    ensures Inv(Step(s, c))
    ensures Step(s, c).lo == s.lo && Step(s, c).hi == s.hi
    ensures Step(s, c).minEver == if Step(s, c).freeBytes < s.minEver then Step(s, c).freeBytes else s.minEver
  {
    match c
    case Malloc(wanted) =>
      MallocInv(s, wanted);
    case Free(pv) =>
      if pv != 0 { FreeInv(s, pv - HEADER); }
  }

  lemma {:induction false} RunKeepsInv(s: HeapState, calls: seq<Call>)
    requires Inv(s) && LegalRun(s, calls)
    ensures Inv(Run(s, calls))
    ensures Run(s, calls).lo == s.lo && Run(s, calls).hi == s.hi
    ensures Run(s, calls).minEver ==
      (if LowestFree(s, calls) < s.minEver then LowestFree(s, calls) else s.minEver)
    decreases |calls|
  {
    if calls != [] {
      StepInv(s, calls[0]);
      RunKeepsInv(Step(s, calls[0]), calls[1..]);
    }
  }

  /** From start-up on, every run keeps the invariant and the watermark is the minimum of the run. */
  lemma RunsFromInit(lo: nat, hi: nat, calls: seq<Call>)
    requires lo % ALIGNMENT == 0 && hi % ALIGNMENT == 0 && lo < hi
    requires LegalRun(Initial(lo, hi), calls)
    ensures Inv(Run(Initial(lo, hi), calls))
    ensures Run(Initial(lo, hi), calls).minEver == LowestFree(Initial(lo, hi), calls)
  {
    InitialInv(lo, hi);
    RunKeepsInv(Initial(lo, hi), calls);
    LowestAtMostFirst(Initial(lo, hi), calls);
  }

  lemma LowestAtMostFirst(s: HeapState, calls: seq<Call>)
    requires LegalRun(s, calls)
    ensures LowestFree(s, calls) <= s.freeBytes
  {
  }

  // ------------------------------------------------------ canonical form

  /** The free list depends on the owned blocks alone. */
  lemma FreeListDetermined(s: HeapState, t: HeapState)
    requires Inv(s) && Inv(t)
    requires s.lo == t.lo && s.hi == t.hi && s.live == t.live
    ensures s.free == t.free && s.freeBytes == t.freeBytes
  {
    forall x ensures Covers(s.free, x) <==> Covers(t.free, x) {
      if Covers(s.free, x) { InRange(s, x); assert !LiveCovers(s.live, x); }
      if Covers(t.free, x) { InRange(t, x); assert !LiveCovers(t.live, x); }
    }
    CanonicalUnique(s.free, t.free);
  }

  lemma InRange(s: HeapState, x: int)
    requires Inv(s) && Covers(s.free, x)
    ensures s.lo <= x < s.hi
  {
  }

  /** Two runs that leave the same blocks owned leave the same free list, whatever their order. */
  lemma RunsAgree(lo: nat, hi: nat, c1: seq<Call>, c2: seq<Call>)
    requires lo % ALIGNMENT == 0 && hi % ALIGNMENT == 0 && lo < hi
    requires LegalRun(Initial(lo, hi), c1) && LegalRun(Initial(lo, hi), c2)
    requires Run(Initial(lo, hi), c1).live == Run(Initial(lo, hi), c2).live
    ensures Run(Initial(lo, hi), c1).free == Run(Initial(lo, hi), c2).free
  {
    InitialInv(lo, hi);
    RunKeepsInv(Initial(lo, hi), c1);
    RunKeepsInv(Initial(lo, hi), c2);
    FreeListDetermined(Run(Initial(lo, hi), c1), Run(Initial(lo, hi), c2));
  }

  /** Frees of the given header addresses, one after the other. */
  function Frees(blocks: seq<nat>): seq<Call> {
    if blocks == [] then [] else [Free(blocks[0] + HEADER)] + Frees(blocks[1..])
  }

  predicate Distinct(blocks: seq<nat>) {
    forall i, j :: 0 <= i < j < |blocks| ==> blocks[i] != blocks[j]
  }

  lemma {:induction false} FreesRun(s: HeapState, blocks: seq<nat>)
    requires Inv(s) && Distinct(blocks)
    requires forall i :: 0 <= i < |blocks| ==> blocks[i] in s.live
    ensures LegalRun(s, Frees(blocks))
    ensures Inv(Run(s, Frees(blocks)))
    ensures Run(s, Frees(blocks)).lo == s.lo && Run(s, Frees(blocks)).hi == s.hi
    ensures Run(s, Frees(blocks)).live == s.live - Members(blocks)
    decreases |blocks|
  {
    hide Inv, Step;
    if blocks == [] {
      assert s.live - Members(blocks) == s.live;
    } else {
      var a := blocks[0];
      var rest := blocks[1..];
      var c := Free(a + HEADER);
      FreeOne(s, c);
      FreesRun(Step(s, c), rest);
      RunCons(s, c, Frees(rest));
      RemoveFirst(s.live, blocks);
    }
  }

  lemma FreeOne(s: HeapState, c: Call)
    requires Inv(s) && Legal(s, c) && c.Free? && c.pv != 0
    ensures Inv(Step(s, c)) && Step(s, c).live == s.live - {c.pv - HEADER}
    ensures Step(s, c).lo == s.lo && Step(s, c).hi == s.hi
  {
    FreeInv(s, c.pv - HEADER);
  }

  lemma RunCons(s: HeapState, c: Call, calls: seq<Call>)
    requires Legal(s, c) && LegalRun(Step(s, c), calls)
    ensures LegalRun(s, [c] + calls) && Run(s, [c] + calls) == Run(Step(s, c), calls)
  {
    assert ([c] + calls)[1..] == calls;
  }

  function Members(blocks: seq<nat>): set<nat> {
    set a | a in blocks
  }

  lemma RemoveFirst(live: map<nat, nat>, blocks: seq<nat>)
    requires blocks != []
    ensures live - {blocks[0]} - Members(blocks[1..]) == live - Members(blocks)
  {
    assert Members(blocks) == {blocks[0]} + Members(blocks[1..]);
  }

  /** Any order of the same frees gives the same free list. */
  lemma FreeOrderIrrelevant(s: HeapState, b1: seq<nat>, b2: seq<nat>)
    requires Inv(s) && Distinct(b1) && Distinct(b2)
    requires forall i :: 0 <= i < |b1| ==> b1[i] in s.live
    requires Members(b1) == Members(b2)
    ensures LegalRun(s, Frees(b1)) && LegalRun(s, Frees(b2))
    ensures Run(s, Frees(b1)).free == Run(s, Frees(b2)).free
    ensures Run(s, Frees(b1)).live == Run(s, Frees(b2)).live
    ensures Run(s, Frees(b1)).freeBytes == Run(s, Frees(b2)).freeBytes
  {
    hide Inv, Run, LegalRun, Frees;
    forall i | 0 <= i < |b2| ensures b2[i] in s.live {
      assert b2[i] in Members(b1);
    }
    FreesRun(s, b1);
    FreesRun(s, b2);
    FreeListDetermined(Run(s, Frees(b1)), Run(s, Frees(b2)));
  }

  /** A successful malloc undone by free restores list, owners and free count. */
  lemma MallocThenFree(s: HeapState, wanted: nat)
    requires Inv(s) && MallocResult(s, wanted) != 0
    ensures var t := AfterMalloc(s, wanted);
      var a := MallocResult(s, wanted) - HEADER;
      a in t.live
      && AfterFree(t, a).free == s.free
      && AfterFree(t, a).live == s.live
      && AfterFree(t, a).freeBytes == s.freeBytes
  {
    hide Insert, Take;
    var t := AfterMalloc(s, wanted);
    var k := Chosen(s, wanted);
    var a := s.free[k].addr;
    BlockFree(s, k);
    MallocInv(s, wanted);
    FreeInv(t, a);
    assert AfterFree(t, a).live == s.live;
    FreeListDetermined(AfterFree(t, a), s);
  }

  /** With nothing owned the heap is the single initial block again. */
  lemma AllFreedIsInitial(s: HeapState)
    requires Inv(s) && s.live == map[]
    ensures s.free == Initial(s.lo, s.hi).free && s.freeBytes == s.hi - s.lo
  {
    InitialInv(s.lo, s.hi);
    FreeListDetermined(s, Initial(s.lo, s.hi));
  }

  /** Freeing every owned block, in any order, gives back the initial block. */
  lemma FreeEverything(s: HeapState, blocks: seq<nat>)
    requires Inv(s) && Distinct(blocks) && Members(blocks) == s.live.Keys
    ensures LegalRun(s, Frees(blocks))
    ensures Run(s, Frees(blocks)).free == [Block(s.lo, s.hi - s.lo)]
  {
    hide Inv, Run, LegalRun, Frees;
    forall i | 0 <= i < |blocks| ensures blocks[i] in s.live {
      assert blocks[i] in Members(blocks);
    }
    FreesRun(s, blocks);
    AllFreedIsInitial(Run(s, Frees(blocks)));
  }

  // ------------------------------------------------------- what malloc grants

  /** A request succeeds exactly when it is a size without the top bit that fits the largest free block. */
  lemma MallocSucceedsIff(s: HeapState, wanted: nat)
    requires Inv(s)
    ensures MallocResult(s, wanted) != 0 <==> 0 < wanted < 0x8000_0000 && Rounded(wanted) <= MaxSize(s.free)
    ensures MallocResult(s, wanted) == 0 ==> AfterMalloc(s, wanted) == s
  {
    var n := Rounded(wanted);
    MaxSizeIsMax(s.free, n);
    MaxSizeAtMostTotal(s.free);
  }

  /** The block is cut to the rounded size exactly when more than 16 bytes would be left over. */
  lemma MallocCutsIff(s: HeapState, wanted: nat)
    requires Inv(s) && MallocResult(s, wanted) != 0
    ensures var a := MallocResult(s, wanted) - HEADER;
      exists i :: 0 <= i < |s.free| && s.free[i].addr == a
        && AfterMalloc(s, wanted).live[a] ==
          if s.free[i].size > Rounded(wanted) + 16 then Rounded(wanted) else s.free[i].size
  {
    var k := Chosen(s, wanted);
    assert s.free[k].addr == MallocResult(s, wanted) - HEADER;
  }

  /** First fit, bounded waste, and no overlap with any other owner. */
  lemma MallocGrants(s: HeapState, wanted: nat)
    requires Inv(s) && MallocResult(s, wanted) != 0
    ensures var a := MallocResult(s, wanted) - HEADER;
      var t := AfterMalloc(s, wanted);
      && a in t.live && a !in s.live
      && t.live == s.live[a := t.live[a]]
      && Rounded(wanted) <= t.live[a] <= Rounded(wanted) + MINIMUM_BLOCK
      && MallocResult(s, wanted) % ALIGNMENT == 0
      && HEADER + wanted <= t.live[a]
      && (forall c :: c in s.live ==> c + s.live[c] <= a || a + t.live[a] <= c)
      && (forall i :: 0 <= i < |s.free| && s.free[i].addr < a ==> s.free[i].size < Rounded(wanted))
      && (exists i :: 0 <= i < |s.free| && s.free[i].addr == a && s.free[i].size >= Rounded(wanted))
  {
    var k := Chosen(s, wanted);
    BlockFree(s, k);
    forall i | 0 <= i < |s.free| && s.free[i].addr < s.free[k].addr ensures i < k {
      if i > k { assert false; }
    }
  }
}
