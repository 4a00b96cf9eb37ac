/**
 The shortest run in which frees out of order go wrong, in a pool of any order from 1 on, the start-up
 pool among them: two small allocations, freed oldest first. The swap of merge_blocks leaves the left
 block on list 0, the merges that follow carry it up to the whole pool, and the next two requests get
 the same pointer.
 */
module BuddyAliasing {
  import opened BuddyHeap
  import opened BuddyPool
  import opened BuddyRuns
  import opened BuddyAnyOrder
  import opened BuddyProcess

  /** The right half of order o is the only block on its list. */
  predicate Rung(h: Heap, start: int, o: nat)
    requires o < |h.heads|
  {
    && h.heads[o] == start + Bytes(o)
    && At(h, start + Bytes(o)).order == o && At(h, start + Bytes(o)).isFree && At(h, start + Bytes(o)).next == 0
  }

  /** Right halves of the orders from k on; the lists from 1 on hold nothing else. */
  predicate Rungs(h: Heap, start: int, top: nat, k: nat) {
    && |h.heads| == MAX_ORDER && k <= top < MAX_ORDER && h.start == start > 0 && h.size == Bytes(top)
    && (forall o :: k <= o < top ==> Rung(h, start, o))
    && (forall o :: 1 <= o < MAX_ORDER && (o < k || o >= top) ==> h.heads[o] == 0)
  }

  /** A free block of order k at the foot of the right halves above it. */
  predicate Ladder(h: Heap, start: int, top: nat, k: nat) {
    && Rungs(h, start, top, k)
    && var x := At(h, start);
       x.order == k && x.isFree && x.buddy == if k < top then start + Bytes(k) else 0
  }

  /** One straight merge up the ladder. */
  lemma MergeRung(h: Heap, start: int, top: nat, k: nat)
    requires Ladder(h, start, top, k) && 1 <= k < top
    ensures CanMerge(h, start) && Adjacent(start, At(h, start).buddy, k)
    ensures var g := Grown(Unlink(h, k, start + Bytes(k)), start);
            Ladder(g, start, top, k + 1) && g.heads[0] == h.heads[0]
  {
    var hi := start + Bytes(k);
    assert Rung(h, start, k);
    assert ChainLink(h, [hi], 0);
    UnlinkOnly(h, k, hi);
    var g := Grown(Unlink(h, k, hi), start);
    BytesGrow(k, top);
    if k + 1 < top {
      BytesGrow(k + 1, top);
    }
    forall o | k + 1 <= o < top ensures Rung(g, start, o) {
      assert Rung(h, start, o);
    }
  }

  /** merge_blocks climbs to the whole pool and never looks at list 0. */
  lemma {:induction false} Climb(h: Heap, start: int, top: nat, k: nat)
    requires Ladder(h, start, top, k) && 1 <= k
    ensures var s := MergeBlocks(h, start);
            s.heads[0] == h.heads[0] && s.heads[top] == start && At(s, start).order == top && At(s, start).next == 0
    ensures forall o :: 1 <= o < MAX_ORDER && o != top ==> MergeBlocks(h, start).heads[o] == 0
    decreases top - k
  {
    if k < top {
      MergeRung(h, start, top, k);
      Climb(Grown(Unlink(h, k, start + Bytes(k)), start), start, top, k + 1);
    }
  }

  /** The right half of order 0 that split_block cuts off names the left block as its buddy. */
  lemma {:induction false} SplitNamesBuddy(h: Heap, block: int)
    requires |h.heads| == MAX_ORDER && 1 <= At(h, block).order <= MAX_ORDER && block + Bytes(At(h, block).order) <= End(h)
    ensures At(SplitBlock(h, block, 0), block + Bytes(0)).buddy == block
    decreases At(h, block).order
  {
    BytesGrow(At(h, block).order - 1, At(h, block).order);
    if At(h, block).order > 1 {
      SplitNamesBuddy(SplitOnce(h, block), block);
    }
  }

  // ---------------------------------------------------------------- the run

  /** Whether the left and the right block of order 0 are in use. */
  predicate Cut(h: Heap, start: int, top: nat, head0: int, leftFree: bool, rightFree: bool) {
    && Rungs(h, start, top, 1) && h.heads[0] == head0
    && At(h, start).order == 0 && At(h, start).isFree == leftFree && At(h, start).buddy == start + Bytes(0)
    && At(h, start + Bytes(0)).order == 0 && At(h, start + Bytes(0)).isFree == rightFree
    && At(h, start + Bytes(0)).buddy == start
  }

  /** malloc turns h into s and returns ptr. */
  predicate Serves(h: Heap, size: nat, s: Heap, ptr: int) { HeadsSane(h) && Malloc(h, size) == (s, ptr) }

  /** free turns h into s. */
  ghost predicate Frees(h: Heap, ptr: int, s: Heap) {
    |h.heads| == MAX_ORDER && At(h, ptr - HEADER_SIZE).order < MAX_ORDER && s == Free(h, ptr)
  }

  /** At most this many bytes fit a block of order 0. */
  const SMALL := MIN_BLOCK_SIZE - HEADER_SIZE

  lemma SmallIsOrder0(size: nat)
    requires size <= SMALL
    ensures TotalSize(size) == size + HEADER_SIZE <= Bytes(0) && OrderOf(size) == 0
  {
  }

  lemma CutRungs(h: Heap, p: Pool, start: int, top: nat)
    requires Represents(h, p) && p.start == start && p.top == top && 1 <= top < MAX_ORDER
    requires forall o :: 1 <= o < top ==> p.lists[o] == [start + Bytes(o)]
    requires forall o :: top <= o < MAX_ORDER ==> p.lists[o] == []
    ensures Rungs(h, start, top, 1)
  {
    forall o: nat | 1 <= o < MAX_ORDER ensures if o < top then Rung(h, start, o) else h.heads[o] == 0 {
      assert ListHeld(h, p, p.lists[o], o);
      if o < top {
        assert ChainLink(h, p.lists[o], 0) && FreeHeader(h, p, p.lists[o][0], o);
      }
    }
  }

  lemma FirstGrant(start: int, top: nat, size: nat)
    requires 1 <= top < MAX_ORDER && size <= SMALL
    ensures Room(Whole(start, top), size) && NextFrame(Whole(start, top), size) == Frame(start, 0, top, size)
    ensures var q := Grant(Whole(start, top), size);
            && q.start == start && q.top == top && q.live == [Frame(start, 0, top, size)]
            && (forall o :: 0 <= o < top ==> q.lists[o] == [start + Bytes(o)])
            && (forall o :: top <= o < MAX_ORDER ==> q.lists[o] == [])
  {
    SmallIsOrder0(size);
    BytesGrow(0, top);
    WholeFits(start, top, 0);
  }

  /** The first allocation splits the whole pool. */
  lemma FirstMalloc(h0: Heap, start: int, top: nat, size: nat) returns (h1: Heap)
    requires Represents(h0, Whole(start, top)) && 1 <= top < MAX_ORDER && size <= SMALL
    ensures Serves(h0, size, h1, start + HEADER_SIZE)
    ensures Cut(h1, start, top, start + Bytes(0), false, true) && At(h1, start + Bytes(0)).next == 0
  {
    WholeOk(start, top);
    FirstGrant(start, top, size);
    MallocGrants(h0, Whole(start, top), size);
    h1 := Malloc(h0, size).0;
    FirstSplit(h0, start, top, size);
    CutAfterSplit(h1, Grant(Whole(start, top), size), start, top, size);
  }

  lemma CutAfterSplit(h: Heap, q: Pool, start: int, top: nat, size: nat)
    requires Represents(h, q) && q.start == start && q.top == top && 1 <= top < MAX_ORDER
    requires q.live == [Frame(start, 0, top, size)]
    requires forall o :: 0 <= o < top ==> q.lists[o] == [start + Bytes(o)]
    requires forall o :: top <= o < MAX_ORDER ==> q.lists[o] == []
    requires At(h, start + Bytes(0)).buddy == start
    ensures Cut(h, start, top, start + Bytes(0), false, true) && At(h, start + Bytes(0)).next == 0
  {
    assert LiveHeader(h, q, q.live[0]);
    assert ListHeld(h, q, q.lists[0], 0);
    assert ChainLink(h, q.lists[0], 0) && FreeHeader(h, q, q.lists[0][0], 0);
    CutRungs(h, q, start, top);
  }

  lemma FirstSplit(h0: Heap, start: int, top: nat, size: nat)
    requires Represents(h0, Whole(start, top)) && HeadsSane(h0) && 1 <= top < MAX_ORDER && size <= SMALL
    ensures At(Malloc(h0, size).0, start + Bytes(0)).buddy == start
  {
    var p := Whole(start, top);
    SmallIsOrder0(size);
    BytesGrow(0, top);
    WholeFits(start, top, 0);
    FindsFirstFit(h0, p, 0);
    assert ListHeld(h0, p, p.lists[top], top);
    assert ChainLink(h0, p.lists[top], 0) && FreeHeader(h0, p, p.lists[top][0], top);
    SplitNamesBuddy(h0.(heads := h0.heads[top := At(h0, start).next]), start);
  }

  /** A request served from list 0 takes its first block as it is. */
  lemma MallocPops(h: Heap, start: int, top: nat, size: nat)
    requires |h.heads| == MAX_ORDER && HeadsSane(h) && h.heads[0] != 0 && size <= SMALL
    requires 1 <= top < MAX_ORDER && h.size == Bytes(top)
    ensures var block := h.heads[0];
            var popped := h.(heads := h.heads[0 := At(h, block).next]);
            Malloc(h, size) == (Put(popped, block, At(h, block).(isFree := false, next := 0)), block + HEADER_SIZE)
  {
    SmallIsOrder0(size);
    BytesGrow(0, top);
    assert FindOrder(h.heads, 0) == 0;
  }

  lemma CutSane(h: Heap, start: int, top: nat, head0: int, leftFree: bool, rightFree: bool)
    requires Cut(h, start, top, head0, leftFree, rightFree)
    requires head0 == 0 || head0 == start || head0 == start + Bytes(0)
    ensures HeadsSane(h)
  {
    forall o: nat | 1 <= o < MAX_ORDER && h.heads[o] != 0 ensures At(h, h.heads[o]).order < MAX_ORDER {
      assert Rung(h, start, o);
    }
  }

  lemma RungsKept(h: Heap, s: Heap, start: int, top: nat)
    requires Rungs(h, start, top, 1) && s.start == h.start && s.size == h.size && |s.heads| == MAX_ORDER
    requires forall o :: 1 <= o < MAX_ORDER ==> s.heads[o] == h.heads[o]
    requires forall a :: a != start && a != start + Bytes(0) ==> At(s, a) == At(h, a)
    ensures Rungs(s, start, top, 1)
  {
    forall o: nat | 1 <= o < top ensures Rung(s, start, o) {
      assert Rung(h, start, o);
      BytesGrow(0, o);
    }
  }

  lemma TakeRight(h1: Heap, start: int, top: nat, block: int) returns (h2: Heap)
    requires Cut(h1, start, top, block, false, true) && block == start + Bytes(0)
    ensures h2 == Put(h1.(heads := h1.heads[0 := 0]), block, At(h1, block).(isFree := false, next := 0))
    ensures Cut(h2, start, top, 0, false, false)
  {
    h2 := Put(h1.(heads := h1.heads[0 := 0]), block, At(h1, block).(isFree := false, next := 0));
    RungsKept(h1, h2, start, top);
  }

  lemma SecondMalloc(h1: Heap, start: int, top: nat, size: nat) returns (h2: Heap)
    requires Cut(h1, start, top, start + Bytes(0), false, true) && At(h1, start + Bytes(0)).next == 0 && size <= SMALL && 1 <= top
    ensures Serves(h1, size, h2, start + Bytes(0) + HEADER_SIZE)
    ensures Cut(h2, start, top, 0, false, false)
  {
    CutSane(h1, start, top, start + Bytes(0), false, true);
    MallocPops(h1, start, top, size);
    h2 := TakeRight(h1, start, top, start + Bytes(0));
  }

  lemma FreeLeft(h2: Heap, start: int, top: nat) returns (h3: Heap)
    requires Cut(h2, start, top, 0, false, false)
    ensures Frees(h2, start + HEADER_SIZE, h3)
    ensures Cut(h3, start, top, start, true, false) && At(h3, start).next == 0
  {
    h3 := Free(h2, start + HEADER_SIZE);
    assert !CanMerge(Put(h2, start, At(h2, start).(isFree := true)), start);
    RungsKept(h2, h3, start, top);
  }

  /** The swap: the left block is widened over the right one and stays on list 0. */
  lemma SwapWidens(h: Heap, start: int, top: nat)
    requires Cut(h, start, top, start, true, true) && At(h, start).next == 0 && 1 <= top
    ensures var b := start + Bytes(0);
            CanMerge(h, b) && At(h, b).buddy == start && Adjacent(start, b, 0) && Unlink(h, 0, b) == h
    ensures Ladder(Grown(h, start), start, top, 1) && Grown(h, start).heads[0] == start
  {
    var g := Grown(h, start);
    assert ChainLink(h, [start], 0);
    UnlinkWalks(h, 0, [start], start + Bytes(0));
    RungsKept(h, g, start, top);
    if top > 1 {
      BytesGrow(1, top);
    }
  }

  lemma FreeRight(h3: Heap, start: int, top: nat) returns (h4: Heap)
    requires Cut(h3, start, top, start, true, false) && At(h3, start).next == 0 && 1 <= top
    ensures Frees(h3, start + Bytes(0) + HEADER_SIZE, h4)
    ensures |h4.heads| == MAX_ORDER && h4.heads[0] == start && h4.heads[top] == start
    ensures forall o :: 1 <= o < MAX_ORDER && o != top ==> h4.heads[o] == 0
    ensures At(h4, start).order == top && At(h4, start).next == 0 && h4.size == Bytes(top)
  {
    var b := start + Bytes(0);
    var freed := Put(h3, b, At(h3, b).(isFree := true));
    h4 := Free(h3, b + HEADER_SIZE);
    RungsKept(h3, freed, start, top);
    SwapWidens(freed, start, top);
    Climb(Grown(freed, start), start, top, 1);
    assert MergeBlocks(freed, b) == MergeBlocks(Grown(freed, start), start);
    MergeKeepsSize(freed, b);
  }

  lemma {:induction false} MergeKeepsSize(h: Heap, block: int)
    requires |h.heads| == MAX_ORDER && At(h, block).order < MAX_ORDER
    ensures MergeBlocks(h, block).size == h.size
    decreases MAX_ORDER - At(h, block).order
  {
    var order, buddy := At(h, block).order, At(h, block).buddy;
    var lo, hi := if buddy < block then buddy else block, if buddy < block then block else buddy;
    if CanMerge(h, block) && Adjacent(lo, hi, order) {
      MergeKeepsSize(Grown(Unlink(h, order, hi), lo), lo);
    }
  }

  /** With the block on list 0 and on the top list, it is handed out twice. */
  lemma HandedOutTwice(h4: Heap, start: int, top: nat, size: nat, size': nat) returns (h5: Heap, h6: Heap)
    requires |h4.heads| == MAX_ORDER && 1 <= top < MAX_ORDER && h4.heads[0] == h4.heads[top] == start > 0
    requires forall o :: 1 <= o < MAX_ORDER && o != top ==> h4.heads[o] == 0
    requires At(h4, start).order == top && At(h4, start).next == 0 && h4.size == Bytes(top)
    requires size <= SMALL && size' <= SMALL
    ensures Serves(h4, size, h5, start + HEADER_SIZE) && Serves(h5, size', h6, start + HEADER_SIZE)
  {
    MallocPops(h4, start, top, size);
    h5 := Malloc(h4, size).0;
    SmallIsOrder0(size');
    BytesGrow(0, top);
    OnlyTop(h5.heads, top, 0);
    h6 := Malloc(h5, size').0;
  }

  lemma {:induction false} OnlyTop(heads: seq<int>, top: nat, from: nat)
    requires |heads| == MAX_ORDER && from <= top < MAX_ORDER && heads[top] != 0
    requires forall o :: from <= o < top ==> heads[o] == 0
    ensures FindOrder(heads, from) == top
    decreases top - from
  {
    if from < top {
      OnlyTop(heads, top, from + 1);
    }
  }

  lemma Untouched(start: int, top: nat) returns (h0: Heap)
    requires start > 0 && top < MAX_ORDER
    ensures GetOrder(Bytes(top)) < MAX_ORDER && h0 == BuddyInit(start, Bytes(top))
    ensures Represents(h0, Whole(start, top))
  {
    InitRepresents(start, top);
    h0 := BuddyInit(start, Bytes(top));
  }

  lemma TwoMallocs(h0: Heap, start: int, top: nat, s1: nat, s2: nat, b: int) returns (h1: Heap, h2: Heap)
    requires Represents(h0, Whole(start, top)) && 1 <= top < MAX_ORDER
    requires s1 <= SMALL && s2 <= SMALL && b == start + Bytes(0) + HEADER_SIZE
    ensures Serves(h0, s1, h1, start + HEADER_SIZE) && Serves(h1, s2, h2, b)
    ensures Cut(h2, start, top, 0, false, false)
  {
    h1 := FirstMalloc(h0, start, top, s1);
    h2 := SecondMalloc(h1, start, top, s2);
  }

  lemma TwoFrees(h2: Heap, start: int, top: nat, b: int, size: nat, size': nat) returns (h3: Heap, h4: Heap, h5: Heap, h6: Heap)
    requires Cut(h2, start, top, 0, false, false) && 1 <= top && b == start + Bytes(0) + HEADER_SIZE
    requires size <= SMALL && size' <= SMALL
    ensures Frees(h2, start + HEADER_SIZE, h3)
    ensures Frees(h3, b, h4)
    ensures Serves(h4, size, h5, start + HEADER_SIZE) && Serves(h5, size', h6, start + HEADER_SIZE)
  {
    h3 := FreeLeft(h2, start, top);
    h4 := FreeRight(h3, start, top);
    h5, h6 := HandedOutTwice(h4, start, top, size, size');
  }

  /** Two allocations of at most 32 bytes from an untouched pool, freed oldest first: the next two such
      requests get the same pointer. */
  lemma OldestFirstAliases(start: int, top: nat, s1: nat, s2: nat, s3: nat, s4: nat)
    returns (h0: Heap, h1: Heap, h2: Heap, h3: Heap, h4: Heap, h5: Heap, h6: Heap, a: int, b: int)
    requires start > 0 && 1 <= top < MAX_ORDER && s1 <= SMALL && s2 <= SMALL && s3 <= SMALL && s4 <= SMALL
    ensures GetOrder(Bytes(top)) < MAX_ORDER && h0 == BuddyInit(start, Bytes(top))
    ensures Serves(h0, s1, h1, a) && Serves(h1, s2, h2, b) && a != 0 && b != 0 && a != b
    ensures Frees(h2, a, h3) && Frees(h3, b, h4)
    ensures Serves(h4, s3, h5, a) && Serves(h5, s4, h6, a)
  {
    a, b := start + HEADER_SIZE, start + Bytes(0) + HEADER_SIZE;
    h0 := Untouched(start, top);
    h1, h2 := TwoMallocs(h0, start, top, s1, s2, b);
    h3, h4, h5, h6 := TwoFrees(h2, start, top, b, s3, s4);
  }

  /** The same run in the 1 MiB pool that the program starts with. */
  lemma StartUpPoolAliases(start: int)
    returns (h0: Heap, h1: Heap, h2: Heap, h3: Heap, h4: Heap, h5: Heap, h6: Heap, a: int, b: int)
    requires start > 0
    ensures GetOrder(INITIAL_POOL_SIZE) < MAX_ORDER && h0 == BuddyInit(start, INITIAL_POOL_SIZE)
    ensures Serves(h0, 1, h1, a) && Serves(h1, 1, h2, b) && a != 0 && b != 0 && a != b
    ensures Frees(h2, a, h3) && Frees(h3, b, h4)
    ensures Serves(h4, 1, h5, a) && Serves(h5, 1, h6, a)
  {
    InitialPool(start);
    h0, h1, h2, h3, h4, h5, h6, a, b := OldestFirstAliases(start, 14, 1, 1, 1, 1);
  }
}
