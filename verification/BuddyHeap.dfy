/**
 The buddy allocator of mini_libc/src/malloc.c (and its copy in dynamic_linker/src/dl_runtime.c) on
 values: what each function does to the block headers and the free-list heads. The class in
 BuddyAllocator performs the same changes in place.

 Addresses are byte addresses. A header that was never written reads as zero, as freshly mapped
 anonymous memory does. mmap for a larger pool is taken to fail, so there is one pool.
 */
module BuddyHeap {
  import opened Words

  const MIN_BLOCK_SIZE := 64
  const MAX_ORDER := 32
  const HEADER_SIZE := 32
  const INITIAL_POOL_SIZE := 0x10_0000

  datatype Header = Header(size: int, order: nat, isFree: bool, next: int, buddy: int)

  datatype Heap = Heap(headers: map<int, Header>, heads: seq<int>, start: int, size: nat)

  function At(h: Heap, a: int): Header {
    if a in h.headers then h.headers[a] else Header(0, 0, false, 0, 0)
  }

  function Put(h: Heap, a: int, header: Header): Heap {
    h.(headers := h.headers[a := header])
  }

  function End(h: Heap): int { h.start + h.size }

  /** (1UL << order) * MIN_BLOCK_SIZE */
  function Bytes(order: nat): (r: nat)
    ensures r >= MIN_BLOCK_SIZE
  {
    Pow2(order) * MIN_BLOCK_SIZE
  }

  lemma {:induction false} BytesGrow(m: nat, n: nat)
    requires m < n
    ensures Bytes(m + 1) == 2 * Bytes(m) <= Bytes(n)
    decreases n
  {
    if m + 1 < n {
      BytesGrow(m, n - 1);
    }
  }

  // ---------------------------------------------------------------- get_order

  function GetOrderFrom(order: nat, size: nat): nat
    requires order <= MAX_ORDER
    decreases MAX_ORDER - order
  {
    if Bytes(order) < size && order < MAX_ORDER then GetOrderFrom(order + 1, size) else order
  }

  function GetOrder(size: nat): nat { GetOrderFrom(0, size) }

  /** get_order returns the least order whose block holds the size, or MAX_ORDER if none does. */
  lemma {:induction false} GetOrderLeast(from: nat, size: nat)
    requires from <= MAX_ORDER
    ensures from <= GetOrderFrom(from, size) <= MAX_ORDER
    ensures GetOrderFrom(from, size) < MAX_ORDER ==> Bytes(GetOrderFrom(from, size)) >= size
    ensures forall o :: from <= o < GetOrderFrom(from, size) ==> Bytes(o) < size
    decreases MAX_ORDER - from
  {
    if Bytes(from) < size && from < MAX_ORDER {
      GetOrderLeast(from + 1, size);
    }
  }

  /** A size that no block of order 31, 128 GiB, holds gets order 32, for which there is no list. */
  lemma TooLargeForAnyOrder(size: nat)
    ensures GetOrder(size) == 32 <==> size > 0x20_0000_0000
  {
    GetOrderLeast(0, size);
    assert Pow2(8) == 0x100;
    assert Pow2(16) == 0x1_0000;
    assert Pow2(24) == 0x100_0000;
    assert Bytes(31) == 0x20_0000_0000;
    if GetOrder(size) < 31 {
      BytesGrow(GetOrder(size), 31);
    }
  }

  // ---------------------------------------------------------------- split_block

  function SplitOnce(h: Heap, block: int): Heap
    requires |h.heads| == MAX_ORDER && 0 < At(h, block).order <= MAX_ORDER
  {
    var order := At(h, block).order - 1;
    var buddy := block + Bytes(order);
    var h1 := Put(h, block, At(h, block).(size := Bytes(order) - HEADER_SIZE, order := order, buddy := buddy));
    var h2 := Put(h1, buddy, Header(Bytes(order) - HEADER_SIZE, order, true, h.heads[order], block));
    h2.(heads := h.heads[order := buddy])
  }

  function SplitBlock(h: Heap, block: int, target: nat): (r: Heap)
    requires |h.heads| == MAX_ORDER && At(h, block).order <= MAX_ORDER
    ensures |r.heads| == MAX_ORDER
    decreases At(h, block).order
  {
    if At(h, block).order <= target then h
    else
      var size := Bytes(At(h, block).order - 1);
      if block + size + size > End(h) then h else SplitBlock(SplitOnce(h, block), block, target)
  }

  // ---------------------------------------------------------------- merge_blocks

  /** The list starting at `a` ends within n links. */
  predicate Ends(h: Heap, a: int, n: nat)
    decreases n
  {
    a == 0 || (n > 0 && Ends(h, At(h, a).next, n - 1))
  }

  /** Every free list is finite: what the list walk of merge_blocks needs to return. */
  ghost predicate ListsEnd(h: Heap) {
    |h.heads| == MAX_ORDER && forall o :: 0 <= o < MAX_ORDER ==> Finite(h, h.heads[o])
  }

  ghost predicate Finite(h: Heap, a: int) { exists n: nat :: Ends(h, a, n) }

  /** The cell a list pointer designates: a list head (prev == 0) or the next field of prev. */
  function Link(h: Heap, order: nat, prev: int): int
    requires order < |h.heads|
  {
    if prev == 0 then h.heads[order] else At(h, prev).next
  }

  function SetLink(h: Heap, order: nat, prev: int, value: int): Heap
    requires order < |h.heads|
  {
    if prev == 0 then h.(heads := h.heads[order := value]) else Put(h, prev, At(h, prev).(next := value))
  }

  function UnlinkFrom(h: Heap, order: nat, prev: int, target: int, n: nat): (r: Heap)
    requires order < |h.heads|
    ensures |r.heads| == |h.heads| && r.start == h.start && r.size == h.size
    ensures forall a :: At(r, a).(next := 0) == At(h, a).(next := 0)
    decreases n
  {
    var cur := Link(h, order, prev);
    if cur == 0 then h
    else if cur == target then SetLink(h, order, prev, At(h, target).next)
    else if n == 0 then h
    else UnlinkFrom(h, order, cur, target, n - 1)
  }

  /** Removes target from the list of the given order, if it is there. */
  ghost function Unlink(h: Heap, order: nat, target: int): (r: Heap)
    requires order < |h.heads|
    ensures |r.heads| == |h.heads| && r.start == h.start && r.size == h.size
    ensures forall a :: At(r, a).(next := 0) == At(h, a).(next := 0)
  {
    if Finite(h, h.heads[order]) then
      var n: nat :| Ends(h, h.heads[order], n);
      UnlinkFrom(h, order, 0, target, n)
    else h
  }

  function Push(h: Heap, block: int): (r: Heap)
    requires |h.heads| == MAX_ORDER && At(h, block).order < MAX_ORDER
    ensures |r.heads| == MAX_ORDER
  {
    var order := At(h, block).order;
    Put(h, block, At(h, block).(next := h.heads[order])).(heads := h.heads[order := block])
  }

  predicate CanMerge(h: Heap, block: int) {
    && At(h, block).order < MAX_ORDER - 1
    && At(h, block).buddy != 0
    && At(h, At(h, block).buddy).isFree
    && At(h, At(h, block).buddy).order == At(h, block).order
  }

  predicate Adjacent(lo: int, hi: int, order: nat) { hi == lo + Bytes(order) }

  /** The header of the merged block, with its new size and its right neighbour as buddy. */
  function Grown(h: Heap, lo: int): Heap {
    var order := At(h, lo).order + 1;
    var right := lo + Bytes(order);
    Put(h, lo, At(h, lo).(order := order, size := Bytes(order) - HEADER_SIZE,
                          buddy := if right < End(h) then right else 0))
  }

  ghost function MergeBlocks(h: Heap, block: int): (r: Heap)
    requires |h.heads| == MAX_ORDER && At(h, block).order < MAX_ORDER
    ensures |r.heads| == MAX_ORDER
    decreases MAX_ORDER - At(h, block).order
  {
    if !CanMerge(h, block) then Push(h, block)
    else
      var order, buddy := At(h, block).order, At(h, block).buddy;
      var lo, hi := if buddy < block then buddy else block, if buddy < block then block else buddy;
      if !Adjacent(lo, hi, order) then Push(h, lo)
      else MergeBlocks(Grown(Unlink(h, order, hi), lo), lo)
  }

  /** merge_blocks neither swaps the two blocks nor reports an invalid buddy. */
  ghost predicate MergesStraight(h: Heap, block: int)
    requires |h.heads| == MAX_ORDER && At(h, block).order < MAX_ORDER
    decreases MAX_ORDER - At(h, block).order
  {
    CanMerge(h, block) ==>
      var order, buddy := At(h, block).order, At(h, block).buddy;
      && block < buddy && Adjacent(block, buddy, order)
      && MergesStraight(Grown(Unlink(h, order, buddy), block), block)
  }

  // ---------------------------------------------------------------- malloc and free

  function FindOrder(heads: seq<int>, from: nat): (r: nat)
    requires |heads| == MAX_ORDER
    ensures from < MAX_ORDER ==> from <= r
    ensures r < MAX_ORDER ==> heads[r] != 0
    ensures forall o :: from <= o < r && o < MAX_ORDER ==> heads[o] == 0
    decreases MAX_ORDER - from
  {
    if from >= MAX_ORDER then MAX_ORDER else if heads[from] != 0 then from else FindOrder(heads, from + 1)
  }

  predicate HeadsSane(h: Heap) {
    && |h.heads| == MAX_ORDER
    && forall o :: 0 <= o < MAX_ORDER && h.heads[o] != 0 ==> At(h, h.heads[o]).order < MAX_ORDER
  }

  /** size + sizeof(block_t) in 64 bits. */
  function TotalSize(size: nat): nat { (size + HEADER_SIZE) % WORD }

  /** The new heap and the pointer returned, 0 for NULL. */
  function Malloc(h: Heap, size: nat): (r: (Heap, int))
    requires HeadsSane(h)
  {
    var order := GetOrder(TotalSize(size));
    var found := FindOrder(h.heads, order);
    if TotalSize(size) > h.size || found >= MAX_ORDER then (h, 0)
    else
      var block := h.heads[found];
      var h1 := h.(heads := h.heads[found := At(h, block).next]);
      var h2 := if found > order then SplitBlock(h1, block, order) else h1;
      (Put(h2, block, At(h2, block).(isFree := false, next := 0)), block + HEADER_SIZE)
  }

  ghost function Free(h: Heap, ptr: int): Heap
    requires |h.heads| == MAX_ORDER && At(h, ptr - HEADER_SIZE).order < MAX_ORDER
  {
    if ptr == 0 then h
    else
      var block := ptr - HEADER_SIZE;
      MergeBlocks(Put(h, block, At(h, block).(isFree := true)), block)
  }

  /** buddy_init over a pool that mmap placed at `start`. */
  function BuddyInit(start: int, initialSize: nat): Heap
    requires GetOrder(if initialSize < MIN_BLOCK_SIZE then MIN_BLOCK_SIZE else initialSize) < MAX_ORDER
  {
    var size := if initialSize < MIN_BLOCK_SIZE then MIN_BLOCK_SIZE else initialSize;
    var order := GetOrder(size);
    Heap(map[start := Header(size - HEADER_SIZE, order, true, 0, 0)],
         seq(MAX_ORDER, i => if i == order then start else 0), start, size)
  }
}
