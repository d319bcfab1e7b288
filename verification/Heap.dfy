/**
  The allocator itself.  The methods follow the pointers and rewrite the headers
  in place; their contracts tie every call to the step of `HeapModel` and say
  which bytes of RAM the call may touch.
 */
module MemmgrHeap {
  import opened MachineTypes
  import opened HeapModel
  import opened HeapMemory

  class Heap {
    const ram: array<uint8>
    /** Address of the static list head. */
    const xStart: nat
    const heapStart: nat
    const heapEnd: nat
    var pxEnd: nat
    var xFreeBytesRemaining: nat
    var xMinimumEverFreeBytesRemaining: nat
    ghost var st: HeapState

    /** What the linker guarantees about the addresses. */
    ghost predicate Layout() {
      && ram.Length <= ADDRESS_SPACE
      && heapStart < heapEnd <= ram.Length && heapEnd - heapStart < TOP_BIT
      && Outside(xStart, heapStart, heapEnd) && xStart + HEADER <= ram.Length && 0 < heapStart
      && AlignUp(heapStart) + HEADER < AlignDown(heapEnd)
    }

    method SetWord(a: nat, v: nat)
      requires a + 4 <= ram.Length && v < ADDRESS_SPACE
      modifies ram
      ensures Word(ram[..], a) == v
      ensures forall x :: 0 <= x < ram.Length && !(a <= x < a + 4) ==> ram[x] == old(ram[x])
    {
      var b0, b1, b2, b3 := Digits(v);
      ram[a], ram[a + 1], ram[a + 2], ram[a + 3] := b0, b1, b2, b3;
    }

    method SetNext(p: nat, v: nat)
      requires p + HEADER <= ram.Length && v < ADDRESS_SPACE
      modifies ram
      ensures Next(ram[..], p) == v && Size(ram[..], p) == Size(old(ram[..]), p)
      ensures OthersSame(old(ram[..]), ram[..], p)
      ensures forall x :: 0 <= x < ram.Length && !(p <= x < p + 4) ==> ram[x] == old(ram[x])
    {
      SetWord(p, v);
      WordFrame(old(ram[..]), ram[..], p + 4);
      OthersFrame(old(ram[..]), ram[..], p);
    }

    method SetSize(p: nat, v: nat)
      requires p + HEADER <= ram.Length && v < ADDRESS_SPACE
      modifies ram
      ensures Size(ram[..], p) == v && Next(ram[..], p) == Next(old(ram[..]), p)
      ensures OthersSame(old(ram[..]), ram[..], p)
      ensures forall x :: 0 <= x < ram.Length && !(p + 4 <= x < p + 8) ==> ram[x] == old(ram[x])
    {
      SetWord(p + 4, v);
      WordFrame(old(ram[..]), ram[..], p);
      OthersFrame(old(ram[..]), ram[..], p);
    }

    /** The walk of prvInsertBlockIntoFreeList to the node the block goes after. */
    method FindPosition(block: nat, ghost lo: nat, ghost l: seq<Block>, ghost b: Block)
      returns (node: nat)
      requires ListReady(ram[..], xStart, lo, pxEnd, l, b) && b.addr == block
      ensures exists k: nat :: k <= |l| && Belongs(l, b, k) && node == NodeBefore(l, xStart, k)
    {
      hide Next, Size, Canonical, Covers;
      node := xStart;
      ghost var k := 0;
      BlockBelow(ram[..], xStart, lo, pxEnd, l, b);
      NodeFacts(ram[..], xStart, l, pxEnd, k);
      while Next(ram[..], node) < block
        invariant 0 <= k <= |l| && node == NodeBefore(l, xStart, k)
        invariant node + HEADER <= ram.Length && Next(ram[..], node) == NodeAfter(l, pxEnd, k)
        invariant forall i :: 0 <= i < k ==> l[i].addr < block
        decreases |l| - k
      {
        node := Next(ram[..], node);
        k := k + 1;
        NodeFacts(ram[..], xStart, l, pxEnd, k);
      }
      NotInList(l, b);
      assert Belongs(l, b, k);
    }

    /**
      The linking part of prvInsertBlockIntoFreeList, behind the node the block goes after: the block
      joins the node if they touch, and the node behind it, unless that is the end marker.
     */
    method LinkBlock(node: nat, block: nat)
      requires ram.Length <= ADDRESS_SPACE && node + HEADER <= ram.Length && block + HEADER <= ram.Length
      requires var next := Next(ram[..], node);
        && next + HEADER <= ram.Length && pxEnd < ADDRESS_SPACE
        && Clear(node, block) && Clear(next, node) && Clear(next, block)
        && Size(ram[..], node) + Size(ram[..], block) + Size(ram[..], next) < ADDRESS_SPACE
      modifies ram
      ensures OnlyTwo(old(ram[..]), ram[..], node, block)
      ensures forall x :: 0 <= x < ram.Length && !(node <= x < node + HEADER) && !(block <= x < block + HEADER)
                ==> ram[x] == old(ram[x])
      ensures var m := old(ram[..]);
        var next := Next(m, node);
        var joined := node + Size(m, node) == block;
        var at := if joined then node else block;
        var size := (if joined then Size(m, node) else 0) + Size(m, block);
        var touches := at + size == next && next != pxEnd;
        && Size(ram[..], at) == size + (if touches then Size(m, next) else 0)
        && Next(ram[..], at) == (if touches then Next(m, next) else next)
        && (!joined ==> Next(ram[..], node) == block && Size(ram[..], node) == Size(m, node))
    {
      hide Next, Size;
      var toInsert := block;
      ghost var m := ram[..];
      NoneChanged(m, node, block);
      if node + Size(ram[..], node) == toInsert {
        SetSize(node, Size(ram[..], node) + Size(ram[..], toInsert));
        OthersStep(m, m, ram[..], node, block, node);
        toInsert := node;
      }
      ghost var m1 := ram[..];
      var next := Next(ram[..], node);
      if toInsert + Size(ram[..], toInsert) == next {
        if next != pxEnd {
          SetSize(toInsert, Size(ram[..], toInsert) + Size(ram[..], next));
          OthersStep(m, m1, ram[..], node, block, toInsert);
          m1 := ram[..];
          SetNext(toInsert, Next(ram[..], next));
        } else {
          SetNext(toInsert, pxEnd);
        }
      } else {
        SetNext(toInsert, next);
      }
      OthersStep(m, m1, ram[..], node, block, toInsert);
      m1 := ram[..];
      if node != toInsert {
        SetNext(node, toInsert);
        OthersStep(m, m1, ram[..], node, block, node);
      }
    }

    /** prvInsertBlockIntoFreeList. */
    method InsertBlock(block: nat, ghost lo: nat, ghost l: seq<Block>, ghost b: Block)
      requires ListReady(ram[..], xStart, lo, pxEnd, l, b) && b.addr == block
      requires ram.Length <= ADDRESS_SPACE
      modifies ram
      ensures Linked(ram[..], xStart, Insert(l, b), pxEnd)
      ensures forall x :: 0 <= x < ram.Length && !(xStart <= x < xStart + HEADER) && !Covers(l, x)
                && !(b.addr <= x < b.addr + HEADER)
                ==> ram[x] == old(ram[x])
    {
      hide Next, Size, Covers, Insert, ListReady, Linked, Belongs, OnlyTwo;
      var node := FindPosition(block, lo, l, b);
      ghost var k: nat :| k <= |l| && Belongs(l, b, k) && node == NodeBefore(l, xStart, k);
      ghost var m := ram[..];
      InsertFacts(m, xStart, lo, pxEnd, l, b, k);
      EndFacts(m, xStart, lo, pxEnd, l, b);
      LinkBlock(node, block);
      Inserted(m, ram[..], xStart, lo, pxEnd, l, b, k);
      HeadersCovered(m, xStart, lo, pxEnd, l, b, k);
    }

    ghost predicate Ready()
      reads this, ram
    {
      && Layout()
      && st.lo == AlignUp(heapStart) && st.hi == pxEnd && pxEnd == AlignDown(heapEnd) - HEADER
      && Inv(st)
      && Linked(ram[..], xStart, st.free, pxEnd)
      && LiveHeaders(ram[..], st.live)
      && xFreeBytesRemaining == st.freeBytes && xMinimumEverFreeBytesRemaining == st.minEver
    }

    /** Before the first allocation pxEnd is NULL and nothing is set up. */
    ghost predicate Valid()
      reads this, ram
    {
      Layout() && (pxEnd == 0 || Ready())
    }

    lemma AlignedWithin()
      requires Layout()
      ensures heapStart <= AlignUp(heapStart) && AlignDown(heapEnd) <= heapEnd
      ensures AlignUp(heapStart) + HEADER < AlignDown(heapEnd) && AlignDown(heapEnd) % ALIGNMENT == 0
    {
    }

    /** The state the next call starts from: set up on first use. */
    ghost function Started(): HeapState
      reads this
      requires Layout()
    {
      if pxEnd == 0 then Initial(AlignUp(heapStart), AlignDown(heapEnd) - HEADER) else st
    }

    constructor (ram: array<uint8>, xStart: nat, heapStart: nat, heapEnd: nat)
      requires ram.Length <= ADDRESS_SPACE
      requires 0 < heapStart < heapEnd <= ram.Length && heapEnd - heapStart < TOP_BIT
      requires Outside(xStart, heapStart, heapEnd) && xStart + HEADER <= ram.Length
      requires AlignUp(heapStart) + HEADER < AlignDown(heapEnd)
      ensures this.ram == ram && Valid() && pxEnd == 0
    {
      this.ram, this.xStart, this.heapStart, this.heapEnd := ram, xStart, heapStart, heapEnd;
      pxEnd, xFreeBytesRemaining, xMinimumEverFreeBytesRemaining := 0, 0, 0;
      st := HeapState(0, 0, [], map[], 0, 0);
    }

    /**
      The first block begins at the first multiple of 8 in the heap, and the end marker is the last
      multiple of 8 with room for a header behind it.
     */
    ghost predicate FillsHeap()
      reads `st
    {
      && heapStart <= st.lo < heapStart + 8 && st.lo % 8 == 0
      && heapEnd - 16 < st.hi <= heapEnd - 8 && st.hi % 8 == 0
    }

    /** The address arithmetic of prvHeapInit. */
    method AlignedBounds() returns (first: nat, end: nat)
      requires Layout()
      ensures first == AlignUp(heapStart) && end == AlignDown(heapEnd) - HEADER
      ensures first % ALIGNMENT == 0 && end % ALIGNMENT == 0
      ensures heapStart <= first && first + HEADER <= end && end + HEADER <= heapEnd
    {
      var total := heapEnd - heapStart;
      var address := heapStart;
      if address % ALIGNMENT != 0 {
        address := address + (ALIGNMENT - 1);
        address := address / ALIGNMENT * ALIGNMENT;
        total := total - (address - heapStart);
      }
      first := address;
      address := first + total;
      address := address - HEADER;
      end := address / ALIGNMENT * ALIGNMENT;
    }

    /** prvHeapInit. */
    method HeapInit()
      requires Layout()
      modifies this, ram
      ensures Ready() && st == Initial(AlignUp(heapStart), AlignDown(heapEnd) - HEADER)
      ensures FillsHeap() && st.free == [Block(st.lo, st.hi - st.lo)] && pxEnd == st.hi
      ensures forall x :: 0 <= x < ram.Length && !(xStart <= x < xStart + HEADER) && !(heapStart <= x < heapEnd)
                ==> ram[x] == old(ram[x])
    {
      hide Next, Size, Inv;
      var first, end := AlignedBounds();
      SetNext(xStart, first);
      SetSize(xStart, 0);
      pxEnd := end;
      SetSize(pxEnd, 0);
      SetNext(pxEnd, 0);
      SetSize(first, end - first);
      SetNext(first, pxEnd);
      assert Linked(ram[..], xStart, [Block(first, end - first)], end);

      xMinimumEverFreeBytesRemaining := Size(ram[..], first);
      xFreeBytesRemaining := Size(ram[..], first);
      st := Initial(first, pxEnd);
      InitialInv(first, pxEnd);
    }

    /** memmgr_heap_get_max_free_block. */
    method MaxFreeBlock() returns (max: nat)
      requires Ready()
      ensures max == MaxSize(st.free)
    {
      hide Next, Size, Inv;
      max := 0;
      var block := Next(ram[..], xStart);
      ghost var k := 0;
      NodeFacts(ram[..], xStart, st.free, pxEnd, 0);
      Terminated(ram[..], xStart, st, k);
      while Next(ram[..], block) != 0
        invariant 0 <= k <= |st.free| && block == NodeAfter(st.free, pxEnd, k)
        invariant block + HEADER <= ram.Length
        invariant Next(ram[..], block) == 0 <==> k == |st.free|
        invariant MaxSize(st.free) == if max > MaxSize(st.free[k..]) then max else MaxSize(st.free[k..])
        decreases |st.free| - k
      {
        NodeFacts(ram[..], xStart, st.free, pxEnd, k + 1);
        assert st.free[k..][0] == st.free[k] && st.free[k..][1..] == st.free[k + 1..];
        if Size(ram[..], block) > max {
          max := Size(ram[..], block);
        }
        block := Next(ram[..], block);
        k := k + 1;
        Terminated(ram[..], xStart, st, k);
      }
    }

    /** The first-fit walk of pvPortMalloc. */
    method FindFit(wanted: nat) returns (previous: nat, block: nat)
      requires Ready() && 0 < wanted
      ensures previous == NodeBefore(st.free, xStart, FirstFit(st.free, wanted))
      ensures block == NodeAfter(st.free, pxEnd, FirstFit(st.free, wanted))
      ensures block == pxEnd <==> FirstFit(st.free, wanted) == |st.free|
    {
      hide Next, Size, Inv;
      previous := xStart;
      block := Next(ram[..], xStart);
      ghost var k := 0;
      NodeFacts(ram[..], xStart, st.free, pxEnd, 0);
      Terminated(ram[..], xStart, st, k);
      if k < |st.free| { NodeFacts(ram[..], xStart, st.free, pxEnd, k + 1); }
      while Size(ram[..], block) < wanted && Next(ram[..], block) != 0
        invariant 0 <= k <= |st.free| && block == NodeAfter(st.free, pxEnd, k)
        invariant previous == NodeBefore(st.free, xStart, k)
        invariant block + HEADER <= ram.Length
        invariant Next(ram[..], block) == 0 <==> k == |st.free|
        invariant block == pxEnd <==> k == |st.free|
        invariant Size(ram[..], block) == if k < |st.free| then st.free[k].size else 0
        invariant FirstFit(st.free, wanted) == k + FirstFit(st.free[k..], wanted)
        decreases |st.free| - k
      {
        NodeFacts(ram[..], xStart, st.free, pxEnd, k + 1);
        assert st.free[k..][0] == st.free[k] && st.free[k..][1..] == st.free[k + 1..];
        previous := block;
        block := Next(ram[..], block);
        k := k + 1;
        Terminated(ram[..], xStart, st, k);
        if k < |st.free| { NodeFacts(ram[..], xStart, st.free, pxEnd, k + 1); }
      }
      assert k < |st.free| ==> st.free[k..][0] == st.free[k];
    }

    /** Splitting: the rest of the block becomes a free block of its own. */
    method CutBlock(block: nat, wanted: nat, ghost lo: nat, ghost l: seq<Block>, ghost k: nat)
      requires FreeShape(lo, pxEnd, l) && Outside(xStart, lo, pxEnd) && k < |l| && block == l[k].addr
      requires pxEnd + HEADER <= ram.Length <= ADDRESS_SPACE
      requires 0 < wanted && wanted % ALIGNMENT == 0 && l[k].size - wanted > MINIMUM_BLOCK
      requires l[k].End() <= pxEnd
      requires Linked(ram[..], xStart, l[..k] + l[k + 1..], pxEnd) && Size(ram[..], block) == l[k].size
      modifies ram
      ensures Linked(ram[..], xStart, Take(l, k, wanted), pxEnd)
      ensures Size(ram[..], block) == wanted
      ensures forall x :: 0 <= x < ram.Length && !(xStart <= x < xStart + HEADER) && !Covers(l, x)
                ==> ram[x] == old(ram[x])
    {
      hide Next, Size, Covers, Linked, Insert, Canonical;
      ghost var r := l[..k] + l[k + 1..];
      ghost var rest := Block(l[k].addr + wanted, l[k].size - wanted);
      var newBlock := block + wanted;
      CutClear(xStart, lo, pxEnd, l, k, wanted);
      SetSize(newBlock, Size(ram[..], block) - wanted);
      LinkedOff(old(ram[..]), ram[..], xStart, r, pxEnd, newBlock);
      ghost var m2 := ram[..];
      SetSize(block, wanted);
      LinkedOff(m2, ram[..], xStart, r, pxEnd, block);
      ghost var m3 := ram[..];
      CutReady(m3, xStart, lo, pxEnd, l, k, wanted);
      InsertBlock(newBlock, lo, r, rest);
      TakeIsInsert(l, k, wanted);
      CutKeepsHeader(m3, ram[..], xStart, lo, pxEnd, l, k, wanted);
      WithinBlocks(lo, pxEnd, l, k);
    }

    /** The part of pvPortMalloc that takes block k out of the list, cuts it and marks it owned. */
    method TakeBlock(previous: nat, block: nat, wanted: nat, ghost k: nat) returns (size: nat)
      requires Ready() && k < |st.free|
      requires previous == NodeBefore(st.free, xStart, k) && block == st.free[k].addr
      requires 0 < wanted <= st.free[k].size && wanted % ALIGNMENT == 0
      modifies ram
      ensures size == Taken(st.free[k], wanted) && block + HEADER <= ram.Length
      ensures Linked(ram[..], xStart, Take(st.free, k, wanted), pxEnd)
      ensures Next(ram[..], block) == 0 && Size(ram[..], block) == size + TOP_BIT
      ensures forall x :: 0 <= x < ram.Length && !(xStart <= x < xStart + HEADER) && !Covers(st.free, x)
                ==> ram[x] == old(ram[x])
    {
      hide Next, Size, Covers, Linked, Inv, Insert, LiveHeaders;
      ghost var l, lo := st.free, st.lo;
      TakeFacts(ram[..], xStart, st, k, wanted);
      SetNext(previous, Next(ram[..], block));
      UnlinkNode(old(ram[..]), ram[..], xStart, lo, pxEnd, l, k);
      if Size(ram[..], block) - wanted > MINIMUM_BLOCK {
        CutBlock(block, wanted, lo, l, k);
      }
      size := Size(ram[..], block);
      TakenClear(xStart, lo, pxEnd, l, k, wanted);
      ghost var m4 := ram[..];
      SetSize(block, Size(ram[..], block) + TOP_BIT);
      LinkedOff(m4, ram[..], xStart, Take(l, k, wanted), pxEnd, block);
      ghost var m5 := ram[..];
      SetNext(block, 0);
      LinkedOff(m5, ram[..], xStart, Take(l, k, wanted), pxEnd, block);
      WithinBlocks(lo, pxEnd, l, k);

    }

    method Memset(p: nat, n: nat)
      requires p + n <= ram.Length
      modifies ram
      ensures ram[..] == Wiped(old(ram[..]), p, n)
    {
      for i := 0 to n
        invariant forall x :: 0 <= x < ram.Length ==> ram[x] == if p <= x < p + i then 0 else old(ram[x])
      {
        ram[p + i] := 0;
      }
    }

    /** The first call sets the heap up. */
    method Start()
      requires Valid()
      modifies this, ram
      ensures Ready() && pxEnd != 0 && st == old(Started())
      ensures forall x :: 0 <= x < ram.Length && LiveCovers(st.live, x) ==> ram[x] == old(ram[x])
      ensures forall x :: 0 <= x < ram.Length && !(xStart <= x < xStart + HEADER) && !(heapStart <= x < heapEnd)
                ==> ram[x] == old(ram[x])
    {
      hide Next, Size, Linked, Inv, LiveHeaders;
      if pxEnd == 0 {
        HeapInit();
      }
    }

    /** Hands out the block found, and counts it. */
    method GrantBlock(previous: nat, block: nat, size: nat, ghost wanted: nat, ghost k: nat)
      requires Ready() && k == Chosen(st, wanted) && k < |st.free| && size == Rounded(wanted)
      requires previous == NodeBefore(st.free, xStart, k) && block == st.free[k].addr
      modifies this, ram
      ensures Ready() && pxEnd == old(pxEnd)
      ensures st == AfterMalloc(old(st), wanted)
      ensures forall x :: 0 <= x < ram.Length && !(xStart <= x < xStart + HEADER) && !Covers(old(st).free, x)
                ==> ram[x] == old(ram[x])
    {
      hide Next, Size, Covers, LiveCovers, Linked, Inv, Take, Canonical, FirstFit, LiveHeaders, Chosen;
      ghost var s := st;
      ghost var m := ram[..];
      StateFacts(s);
      RoundedAligned(wanted);
      var taken := TakeBlock(previous, block, size, k);
      TakeTotal(s.free, k, size);
      xFreeBytesRemaining := xFreeBytesRemaining - taken;
      if xFreeBytesRemaining < xMinimumEverFreeBytesRemaining {
        xMinimumEverFreeBytesRemaining := xFreeBytesRemaining;
      }
      st := AfterMalloc(s, wanted);
      MallocInv(s, wanted);
      OwnersKept(m, ram[..], xStart, s);
      OwnerAdded(m, ram[..], xStart, s, wanted);
    }

    /** The locked section of pvPortMalloc, without the final memset. */
    method Grant(wanted: nat) returns (pv: nat)
      requires Ready() && wanted < ADDRESS_SPACE
      modifies this, ram
      ensures Ready() && pxEnd == old(pxEnd)
      ensures st == AfterMalloc(old(st), wanted) && pv == MallocResult(old(st), wanted)
      ensures forall x :: 0 <= x < ram.Length && !(xStart <= x < xStart + HEADER) && !Covers(old(st).free, x)
                ==> ram[x] == old(ram[x])
    {
      hide Next, Size, Covers, LiveCovers, Linked, Inv, Take, Canonical, FirstFit, LiveHeaders;
      pv := 0;
      ghost var s := st;
      var size := wanted;
      if size < TOP_BIT {
        if size > 0 {
          size := size + HEADER;
          if size % ALIGNMENT != 0 {
            size := size + (ALIGNMENT - size % ALIGNMENT);
          }
        }
        if size > 0 && size <= xFreeBytesRemaining {
          assert size == Rounded(wanted);
          ghost var k := Chosen(s, wanted);
          var previous, block := FindFit(size);
          if block != pxEnd {
            NodeFacts(ram[..], xStart, s.free, pxEnd, k);
            pv := Next(ram[..], previous) + HEADER;
            GrantBlock(previous, block, size, wanted, k);
          }
        }
      }
    }

    /**
      pvPortMalloc.  The result 0 stands for the furi_check that stops the device
      when the request cannot be met.
     */
    method Malloc(wanted: nat) returns (pv: nat)
      requires Valid() && wanted < ADDRESS_SPACE
      modifies this, ram
      ensures Valid() && pxEnd != 0 && FillsHeap()
      ensures st == AfterMalloc(old(Started()), wanted)
      ensures pv == MallocResult(old(Started()), wanted)
      ensures pv != 0 ==> pv + wanted <= ram.Length && forall x :: pv <= x < pv + wanted ==> ram[x] == 0
      ensures forall x :: 0 <= x < ram.Length && LiveCovers(old(Started()).live, x) ==> ram[x] == old(ram[x])
      ensures forall x :: 0 <= x < ram.Length && !(xStart <= x < xStart + HEADER) && !(heapStart <= x < heapEnd)
                ==> ram[x] == old(ram[x])
    {
      hide Next, Size, Covers, LiveCovers, Linked, Inv, LiveHeaders, AfterMalloc, MallocResult, AlignUp, AlignDown;
      AlignedWithin();
      Start();
      ghost var s := st;
      ghost var m := ram[..];
      StateFacts(s);
      pv := Grant(wanted);
      OwnersKept(m, ram[..], xStart, s);
      if pv != 0 {
        ghost var m1 := ram[..];
        MallocGrants(s, wanted);
        OwnedWithin(st, pv - HEADER);
        Memset(pv, wanted);
        WipeOwned(m1, ram[..], xStart, st, pv - HEADER, wanted);
        WipeMisses(s, wanted);
      }
    }

    /** vPortFree.  A pointer must come from malloc and still be owned. */
    method Free(pv: nat)
      requires Valid()
      requires pv != 0 ==> pxEnd != 0 && HEADER <= pv && pv - HEADER in st.live
      modifies this, ram
      ensures Valid()
      ensures pxEnd == old(pxEnd)
      ensures pv == 0 ==> st == old(st) && ram[..] == old(ram[..])
      ensures pv != 0 ==>
        && st == AfterFree(old(st), pv - HEADER)
        && pv + old(st.live)[pv - HEADER] - HEADER <= ram.Length
        && (forall x :: pv <= x < pv + old(st.live)[pv - HEADER] - HEADER ==> ram[x] == 0)
        && (forall x :: 0 <= x < ram.Length && LiveCovers(st.live, x) ==> ram[x] == old(ram[x]))
      ensures forall x :: 0 <= x < ram.Length && !(xStart <= x < xStart + HEADER) && !(heapStart <= x < heapEnd)
                ==> ram[x] == old(ram[x])
    {
      hide Next, Size, Covers, LiveCovers, Linked, Inv, LiveHeaders, AlignUp, AlignDown, AfterFree;
      if pv != 0 {
        var link := pv - HEADER;
        OwnedWithin(st, link);
        OwnedHeader(ram[..], st, link);
        if Size(ram[..], link) >= TOP_BIT {
          if Next(ram[..], link) == 0 {
            Release(link);
          }
        }
      }
    }

    /** The part of vPortFree that gives an owned block back. */
    method Release(link: nat)
      requires Ready() && link in st.live
      modifies this, ram
      ensures Ready() && pxEnd == old(pxEnd)
      ensures st == AfterFree(old(st), link)
      ensures link + old(st.live)[link] <= ram.Length
      ensures forall x :: link + HEADER <= x < link + old(st.live)[link] ==> ram[x] == 0
      ensures forall x :: 0 <= x < ram.Length && LiveCovers(st.live, x) ==> ram[x] == old(ram[x])
      ensures forall x :: 0 <= x < ram.Length && !(xStart <= x < xStart + HEADER) && !(heapStart <= x < heapEnd)
                ==> ram[x] == old(ram[x])
    {
      hide Next, Size, Covers, LiveCovers, Linked, Inv, Insert, Canonical, LiveHeaders, AlignUp, AlignDown;
      AlignedWithin();
      ghost var s := st;
      ghost var m := ram[..];
      StateFacts(s);
      OwnedWithin(s, link);
      OwnedHeader(m, s, link);
      FreeClear(xStart, s, link);
      SetSize(link, Size(ram[..], link) - TOP_BIT);
      LinkedOff(m, ram[..], xStart, s.free, pxEnd, link);
      xFreeBytesRemaining := xFreeBytesRemaining + Size(ram[..], link);
      ghost var m1 := ram[..];
      Memset(link + HEADER, Size(ram[..], link) - HEADER);
      WipeUnlinked(m1, ram[..], xStart, s, link);
      ghost var m2 := ram[..];
      LiveApart(s, link);
      InsertBlock(link, s.lo, s.free, Block(link, s.live[link]));
      InsertTotal(s.free, Block(link, s.live[link]));
      st := AfterFree(s, link);
      FreeInv(s, link);
      OwnersLeft(m, ram[..], xStart, s, link);
      PayloadStays(m2, ram[..], xStart, s, link);
    }
  }
}
