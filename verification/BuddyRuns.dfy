/**
 The headers and list links of the buddy allocator against the pool they stand for. Allocation
 grants the next request; freeing the youngest allocation takes the pool back to where it was before
 that request, without ever reaching the swap or the invalid-buddy branch of merge_blocks.
 */
module BuddyRuns {
  import opened BuddyHeap
  import opened BuddyPool

  predicate ChainLink(h: Heap, l: seq<int>, i: nat)
    requires i < |l|
  {
    l[i] != 0 && At(h, l[i]).next == if i + 1 < |l| then l[i + 1] else 0
  }

  ghost predicate IsChain(h: Heap, head: int, l: seq<int>) {
    && head == (if l == [] then 0 else l[0])
    && forall i :: 0 <= i < |l| ==> ChainLink(h, l, i)
  }

  /** What the buddy field of a whole free block may hold: its right neighbour if there is one,
      whether or not that is its buddy, or the left half it was split from. With frees in any order, the
      left half may have another size by now. */
  predicate BuddyPtr(p: Pool, a: int, o: nat, ptr: int) {
    || ptr == (if a + Bytes(o) < Limit(p) then a + Bytes(o) else 0)
    || (a > p.start && if p.lifo then ptr == a - Bytes(o) else ptr < a)
  }

  predicate FreeHeader(h: Heap, p: Pool, a: int, o: nat) {
    var x := At(h, a);
    x.order == o && x.isFree && x.size == Bytes(o) - HEADER_SIZE && BuddyPtr(p, a, o, x.buddy)
  }

  predicate BuddyOfPart(p: Pool, a: int, from: nat, o: nat, ptr: int) {
    if p.lifo && o < from then ptr == a + Bytes(o) else BuddyPtr(p, a, o, ptr)
  }

  predicate LiveHeader(h: Heap, p: Pool, f: Frame) {
    var x := At(h, f.addr);
    x.order == f.order && !x.isFree && x.next == 0 && x.size == Capacity(f) && BuddyOfPart(p, f.addr, f.from, f.order, x.buddy)
  }

  ghost predicate ListHeld(h: Heap, p: Pool, l: seq<int>, o: nat)
    requires o < |h.heads|
  {
    IsChain(h, h.heads[o], l) && forall i :: 0 <= i < |l| ==> FreeHeader(h, p, l[i], o)
  }

  ghost predicate ListsHeld(h: Heap, p: Pool, lists: seq<seq<int>>) {
    && |h.heads| == MAX_ORDER && |lists| == MAX_ORDER
    && forall o :: 0 <= o < MAX_ORDER ==> ListHeld(h, p, lists[o], o)
  }

  ghost predicate LiveHeld(h: Heap, p: Pool) {
    forall i :: 0 <= i < |p.live| ==> LiveHeader(h, p, p.live[i])
  }

  ghost predicate SamePlace(h: Heap, p: Pool) {
    h.start == p.start > 0 && h.size == Bytes(p.top)
  }

  /** The heap h holds exactly the pool p. */
  ghost predicate Represents(h: Heap, p: Pool) {
    SamePlace(h, p) && ListsHeld(h, p, p.lists) && LiveHeld(h, p)
  }

  function FirstOf(p: Pool, from: nat): int
    requires from < |p.lists| && p.lists[from] != []
  {
    p.lists[from][0]
  }

  /** The first free block of order `from` is off its list and split down to order `ord`. */
  ghost predicate Opened(h: Heap, p: Pool, from: nat, ord: nat) {
    && |p.lists| == MAX_ORDER && ord <= from < MAX_ORDER && p.lists[from] != []
    && SamePlace(h, p)
    && ListsHeld(h, p, Carved(p.lists, from, ord))
    && LiveHeld(h, p)
    && var x := At(h, FirstOf(p, from));
       x.order == ord && x.size == Bytes(ord) - HEADER_SIZE && BuddyOfPart(p, FirstOf(p, from), from, ord, x.buddy)
  }

  // ---------------------------------------------------------------- addresses

  /** Blocks other than the first free block of order `from` start outside it. */
  lemma OthersOutside(p: Pool, from: nat)
    requires PoolOk(p) && from < MAX_ORDER && p.lists[from] != []
    ensures var b := FirstOf(p, from);
            && p.start <= b && b + Bytes(from) <= Limit(p) && from <= p.top
            && (forall o, i :: 0 <= o < MAX_ORDER && 0 <= i < |p.lists[o]| && (o != from || i > 0) ==>
                  !Within(p.lists[o][i], b, from))
            && (forall i :: 0 <= i < |p.live| ==> !Within(p.live[i].addr, b, from))
  {
    var b := FirstOf(p, from);
    assert FreeAt(p, b, from) && Block(p, b, from);
    forall o: nat, i | o < MAX_ORDER && 0 <= i < |p.lists[o]| && (o != from || i > 0)
      ensures !Within(p.lists[o][i], b, from)
    {
      assert FreeAt(p, p.lists[o][i], o) && Block(p, p.lists[o][i], o);
      assert o == from ==> p.lists[o][0] != p.lists[o][i];
    }
    forall i | 0 <= i < |p.live| ensures !Within(p.live[i].addr, b, from) {
      assert LiveAt(p, p.live[i].addr, p.live[i].order) && Block(p, p.live[i].addr, p.live[i].order);
      assert !LiveAt(p, b, from);
    }
  }

  /** Right halves of different orders inside one block are different addresses. */
  lemma PartAddresses(b: int, m: nat, n: nat)
    requires m < n
    ensures b < b + Bytes(m) < b + Bytes(n) && Within(b + Bytes(m), b, n) && Within(b, b, n)
  {
    BytesGrow(m, n);
  }

  // ---------------------------------------------------------------- lists and frames

  /** The pool matters only through its place. */
  predicate SamePool(p: Pool, q: Pool) { p.start == q.start && p.top == q.top && p.lifo == q.lifo }

  lemma KeepList(h: Heap, s: Heap, p: Pool, q: Pool, l: seq<int>, o: nat)
    requires o < |h.heads| == |s.heads| && ListHeld(h, p, l, o) && s.heads[o] == h.heads[o] && SamePool(p, q)
    requires forall i :: 0 <= i < |l| ==> At(s, l[i]) == At(h, l[i])
    ensures ListHeld(s, q, l, o)
  {
    forall i | 0 <= i < |l| ensures ChainLink(s, l, i) && FreeHeader(s, q, l[i], o) {
      assert ChainLink(h, l, i) && FreeHeader(h, p, l[i], o);
    }
  }

  lemma ConsList(h: Heap, s: Heap, p: Pool, a: int, l: seq<int>, o: nat)
    requires o < |h.heads| == |s.heads| && ListHeld(h, p, l, o)
    requires forall i :: 0 <= i < |l| ==> At(s, l[i]) == At(h, l[i])
    requires s.heads[o] == a != 0 && At(s, a).next == h.heads[o] && FreeHeader(s, p, a, o)
    ensures ListHeld(s, p, [a] + l, o)
  {
    var m := [a] + l;
    forall i | 0 <= i < |m| ensures ChainLink(s, m, i) && FreeHeader(s, p, m[i], o) {
      assert i > 0 ==> ChainLink(h, l, i - 1) && FreeHeader(h, p, l[i - 1], o);
    }
  }

  lemma TailList(h: Heap, s: Heap, p: Pool, l: seq<int>, o: nat)
    requires o < |h.heads| == |s.heads| && l != [] && ListHeld(h, p, l, o)
    requires forall i :: 1 <= i < |l| ==> At(s, l[i]) == At(h, l[i])
    requires s.heads[o] == At(h, l[0]).next
    ensures ListHeld(s, p, l[1..], o)
  {
    assert ChainLink(h, l, 0);
    forall i | 0 <= i < |l| - 1 ensures ChainLink(s, l[1..], i) && FreeHeader(s, p, l[1..][i], o) {
      assert ChainLink(h, l, i + 1) && FreeHeader(h, p, l[i + 1], o);
    }
  }

  lemma KeepLive(h: Heap, s: Heap, p: Pool)
    requires LiveHeld(h, p)
    requires forall i :: 0 <= i < |p.live| ==> At(s, p.live[i].addr) == At(h, p.live[i].addr)
    ensures LiveHeld(s, p)
  {
    forall i | 0 <= i < |p.live| ensures LiveHeader(s, p, p.live[i]) {
      assert LiveHeader(h, p, p.live[i]);
    }
  }

  /** The addresses on the lists of an opened pool avoid the opened block and the right halves
      that are not cut yet. */
  lemma ListsAvoid(p: Pool, from: nat, ord: nat, o: nat, i: nat)
    requires PoolOk(p) && ord <= from < MAX_ORDER && p.lists[from] != [] && o < MAX_ORDER
    requires i < |Carved(p.lists, from, ord)[o]|
    ensures Carved(p.lists, from, ord)[o][i] != FirstOf(p, from)
    ensures forall m: nat :: m < from && m != o ==> Carved(p.lists, from, ord)[o][i] != FirstOf(p, from) + Bytes(m)
  {
    OthersOutside(p, from);
    var b, a := FirstOf(p, from), Carved(p.lists, from, ord)[o][i];
    assert o == from ==> a == p.lists[o][i + 1];
    forall m: nat | m < from && m != o ensures a != b + Bytes(m) {
      PartAddresses(b, m, from);
      if m < o {
        PartAddresses(b, m, o);
      } else {
        PartAddresses(b, o, m);
      }
    }
    PartAddresses(b, 0, from + 1);
  }

  // ---------------------------------------------------------------- malloc

  lemma PopOpens(h: Heap, p: Pool, from: nat)
    requires PoolOk(p) && Represents(h, p) && from < MAX_ORDER && p.lists[from] != []
    ensures var h1 := h.(heads := h.heads[from := At(h, FirstOf(p, from)).next]);
            Opened(h1, p, from, from) && At(h1, FirstOf(p, from)).isFree && h.heads[from] == FirstOf(p, from)
  {
    var b := FirstOf(p, from);
    var h1 := h.(heads := h.heads[from := At(h, b).next]);
    assert ListHeld(h, p, p.lists[from], from);
    assert FreeHeader(h, p, p.lists[from][0], from);
    forall o: nat | o < MAX_ORDER ensures ListHeld(h1, p, Carved(p.lists, from, from)[o], o) {
      assert ListHeld(h, p, p.lists[o], o);
      if o == from {
        TailList(h, h1, p, p.lists[o], o);
      } else {
        KeepList(h, h1, p, p, p.lists[o], o);
      }
    }
    KeepLive(h, h1, p);
  }

  lemma SplitsDown(h: Heap, p: Pool, from: nat, ord: nat)
    requires PoolOk(p) && Opened(h, p, from, ord) && ord > 0 && p.lists[ord - 1] == []
    ensures Opened(SplitOnce(h, FirstOf(p, from)), p, from, ord - 1)
    ensures FirstOf(p, from) + Bytes(ord - 1) + Bytes(ord - 1) <= End(h)
    ensures At(SplitOnce(h, FirstOf(p, from)), FirstOf(p, from)).isFree == At(h, FirstOf(p, from)).isFree
  {
    var b, s := FirstOf(p, from), SplitOnce(h, FirstOf(p, from));
    var buddy := b + Bytes(ord - 1);
    OthersOutside(p, from);
    BytesGrow(ord - 1, from);
    PartAddresses(b, ord - 1, from);
    if ord < from {
      BytesGrow(ord, from);
    }
    var was, now := Carved(p.lists, from, ord), Carved(p.lists, from, ord - 1);
    forall o: nat | o < MAX_ORDER ensures ListHeld(s, p, now[o], o) {
      assert ListHeld(h, p, was[o], o);
      if o == ord - 1 {
        assert now[o] == [buddy] + was[o];
        ConsList(h, s, p, buddy, was[o], o);
      } else {
        forall i | 0 <= i < |was[o]| ensures At(s, was[o][i]) == At(h, was[o][i]) {
          ListsAvoid(p, from, ord, o, i);
        }
        KeepList(h, s, p, p, was[o], o);
      }
    }
    KeepLive(h, s, p);
  }

  /** The only headers written lie in the block at b of the given order. */
  ghost predicate OnlyWithin(h: Heap, s: Heap, b: int, o: nat) {
    forall x :: !Within(x, b, o) ==> At(s, x) == At(h, x)
  }

  lemma {:induction false} SplitsTo(h: Heap, p: Pool, from: nat, ord: nat, target: nat)
    requires PoolOk(p) && Opened(h, p, from, ord) && target <= ord
    requires forall o :: target <= o < ord ==> p.lists[o] == []
    ensures Opened(SplitBlock(h, FirstOf(p, from), target), p, from, target)
    ensures OnlyWithin(h, SplitBlock(h, FirstOf(p, from), target), FirstOf(p, from), from)
    decreases ord
  {
    if target < ord {
      PartAddresses(FirstOf(p, from), ord - 1, from);
      SplitsDown(h, p, from, ord);
      SplitsTo(SplitOnce(h, FirstOf(p, from)), p, from, ord - 1, target);
    }
  }

  /** Taking the opened block grants the request. */
  lemma TakeBlock(h: Heap, p: Pool, size: nat)
    requires PoolOk(p) && Room(p, size)
    requires Opened(h, p, NextFrame(p, size).from, NextFrame(p, size).order)
    ensures var b := NextFrame(p, size).addr;
            Represents(Put(h, b, At(h, b).(isFree := false, next := 0)), Grant(p, size))
  {
    var f, q := NextFrame(p, size), Grant(p, size);
    var s := Put(h, f.addr, At(h, f.addr).(isFree := false, next := 0));
    OthersOutside(p, f.from);
    forall o: nat | o < MAX_ORDER ensures ListHeld(s, q, q.lists[o], o) {
      assert ListHeld(h, p, q.lists[o], o);
      forall i | 0 <= i < |q.lists[o]| ensures At(s, q.lists[o][i]) == At(h, q.lists[o][i]) {
        ListsAvoid(p, f.from, f.order, o, i);
      }
      KeepList(h, s, p, q, q.lists[o], o);
    }
    KeepLive(h, s, p);
    forall i | 0 <= i < |q.live| ensures LiveHeader(s, q, q.live[i]) {
      assert i < |p.live| ==> LiveHeader(s, p, p.live[i]);
    }
  }

  lemma {:induction false} FindsFirstFit(h: Heap, p: Pool, o: nat)
    requires Represents(h, p)
    ensures FindOrder(h.heads, o) == FirstFit(p.lists, o)
    decreases MAX_ORDER - o
  {
    if o < MAX_ORDER {
      assert ListHeld(h, p, p.lists[o], o);
      assert p.lists[o] != [] ==> ChainLink(h, p.lists[o], 0);
      FindsFirstFit(h, p, o + 1);
    }
  }

  lemma RepresentsSane(h: Heap, p: Pool)
    requires Represents(h, p)
    ensures HeadsSane(h)
  {
    forall o: nat | o < MAX_ORDER && h.heads[o] != 0 ensures At(h, h.heads[o]).order < MAX_ORDER {
      assert ListHeld(h, p, p.lists[o], o);
      assert FreeHeader(h, p, p.lists[o][0], o);
    }
  }

  /** malloc grants the request when there is room for it, and otherwise changes nothing. */
  lemma MallocGrants(h: Heap, p: Pool, size: nat)
    requires PoolOk(p) && Represents(h, p)
    ensures HeadsSane(h)
    ensures Malloc(h, size).1 != 0 <==> Room(p, size)
    ensures Room(p, size) ==>
              && Malloc(h, size).1 == PayloadStart(NextFrame(p, size))
              && Represents(Malloc(h, size).0, Grant(p, size))
              && OnlyWithin(h, Malloc(h, size).0, NextFrame(p, size).addr, NextFrame(p, size).from)
    ensures !Room(p, size) ==> Malloc(h, size) == (h, 0)
  {
    RepresentsSane(h, p);
    FindsFirstFit(h, p, OrderOf(size));
    GetOrderLeast(0, TotalSize(size));
    if Room(p, size) {
      var f := NextFrame(p, size);
      PopOpens(h, p, f.from);
      OthersOutside(p, f.from);
      var h1 := h.(heads := h.heads[f.from := At(h, f.addr).next]);
      SplitsTo(h1, p, f.from, f.from, f.order);
      var h2 := if f.from > f.order then SplitBlock(h1, f.addr, f.order) else h1;
      TakeBlock(h2, p, size);
    }
  }

  // ---------------------------------------------------------------- free

  lemma ReleaseOpens(h: Heap, p: Pool, size: nat)
    requires PoolOk(p) && Room(p, size) && Represents(h, Grant(p, size))
    ensures var b := NextFrame(p, size).addr;
            Opened(Put(h, b, At(h, b).(isFree := true)), p, NextFrame(p, size).from, NextFrame(p, size).order)
  {
    var f, q := NextFrame(p, size), Grant(p, size);
    var s := Put(h, f.addr, At(h, f.addr).(isFree := true));
    GetOrderLeast(0, TotalSize(size));
    OthersOutside(p, f.from);
    forall o: nat | o < MAX_ORDER ensures ListHeld(s, p, q.lists[o], o) {
      assert ListHeld(h, q, q.lists[o], o);
      forall i | 0 <= i < |q.lists[o]| ensures At(s, q.lists[o][i]) == At(h, q.lists[o][i]) {
        ListsAvoid(p, f.from, f.order, o, i);
      }
      KeepList(h, s, q, p, q.lists[o], o);
    }
    assert q.live[|p.live|] == f;
    assert LiveHeader(h, q, f);
    assert Within(f.addr, f.addr, f.from);
    forall i | 0 <= i < |p.live| ensures LiveHeader(s, p, p.live[i]) {
      assert q.live[i] == p.live[i] && LiveHeader(h, q, q.live[i]);
    }
  }

  /** Unlinking the only block of a list empties the list and touches nothing else. */
  lemma UnlinkOnly(h: Heap, o: nat, a: int)
    requires o < |h.heads| == MAX_ORDER && IsChain(h, h.heads[o], [a])
    ensures Unlink(h, o, a) == h.(heads := h.heads[o := 0])
  {
    assert ChainLink(h, [a], 0);
    assert Ends(h, 0, 0) && Ends(h, a, 1) && Finite(h, a);
  }

  lemma MergesUp(h: Heap, p: Pool, from: nat, ord: nat)
    requires PoolOk(p) && p.lifo && Opened(h, p, from, ord) && ord < from && p.lists[ord] == []
    requires At(h, FirstOf(p, from)).isFree
    ensures var b := FirstOf(p, from);
            && CanMerge(h, b) && At(h, b).buddy == b + Bytes(ord)
            && Opened(Grown(Unlink(h, ord, b + Bytes(ord)), b), p, from, ord + 1)
            && At(Grown(Unlink(h, ord, b + Bytes(ord)), b), b).isFree
            && OnlyWithin(h, Grown(Unlink(h, ord, b + Bytes(ord)), b), b, from)
  {
    var b := FirstOf(p, from);
    var buddy := b + Bytes(ord);
    var was, now := Carved(p.lists, from, ord), Carved(p.lists, from, ord + 1);
    OthersOutside(p, from);
    PartAddresses(b, ord, from);
    assert ListHeld(h, p, was[ord], ord);
    assert was[ord] == [buddy];
    assert FreeHeader(h, p, was[ord][0], ord);
    UnlinkOnly(h, ord, buddy);
    var s := Grown(Unlink(h, ord, buddy), b);
    forall o: nat | o < MAX_ORDER ensures ListHeld(s, p, now[o], o) {
      assert ListHeld(h, p, was[o], o);
      if o != ord {
        forall i | 0 <= i < |was[o]| ensures At(s, was[o][i]) == At(h, was[o][i]) {
          ListsAvoid(p, from, ord, o, i);
        }
        KeepList(h, s, p, p, was[o], o);
      }
    }
    KeepLive(h, s, p);
    if ord + 1 < from {
      PartAddresses(b, ord + 1, from);
    }
  }

  /** Back at its own order, the block finds no buddy it could merge with. */
  lemma MergeStops(h: Heap, p: Pool, from: nat)
    requires PoolOk(p) && p.lifo && Opened(h, p, from, from)
    ensures !CanMerge(h, FirstOf(p, from))
  {
    var b := FirstOf(p, from);
    var ptr := At(h, b).buddy;
    assert FreeAt(p, b, from);
    OthersOutside(p, from);
    if b != p.start && ptr == b - Bytes(from) {
      StartsBusy(h, p, ptr);
    } else if b + Bytes(from) < Limit(p) {
      assert RightHalf(p, b, from);
      if LiveStart(p, ptr) {
        StartsBusy(h, p, ptr);
      } else {
        assert LargerFreeAt(p, ptr, from);
        var m: nat :| m > from && FreeAt(p, ptr, m);
        var i :| 0 <= i < |p.lists[m]| && p.lists[m][i] == ptr;
        assert ListHeld(h, p, Carved(p.lists, from, from)[m], m);
        assert FreeHeader(h, p, Carved(p.lists, from, from)[m][i], m);
      }
    }
  }

  lemma StartsBusy(h: Heap, p: Pool, a: int)
    requires LiveHeld(h, p)
    ensures LiveStart(p, a) ==> !At(h, a).isFree
  {
    if LiveStart(p, a) {
      var i :| 0 <= i < |p.live| && p.live[i].addr == a;
      assert LiveHeader(h, p, p.live[i]);
    }
  }

  lemma PushCloses(h: Heap, p: Pool, from: nat)
    requires PoolOk(p) && Opened(h, p, from, from) && At(h, FirstOf(p, from)).isFree
    ensures Represents(Push(h, FirstOf(p, from)), p)
  {
    var b := FirstOf(p, from);
    var s := Push(h, b);
    var was := Carved(p.lists, from, from);
    OthersOutside(p, from);
    assert Within(b, b, from);
    forall o: nat | o < MAX_ORDER ensures ListHeld(s, p, p.lists[o], o) {
      assert ListHeld(h, p, was[o], o);
      forall i | 0 <= i < |was[o]| ensures At(s, was[o][i]) == At(h, was[o][i]) {
        ListsAvoid(p, from, from, o, i);
      }
      if o == from {
        assert p.lists[o] == [b] + was[o];
        ConsList(h, s, p, b, was[o], o);
      } else {
        KeepList(h, s, p, p, was[o], o);
      }
    }
    KeepLive(h, s, p);
  }

  lemma {:induction false} MergesBack(h: Heap, p: Pool, from: nat, ord: nat)
    requires PoolOk(p) && p.lifo && Opened(h, p, from, ord) && At(h, FirstOf(p, from)).isFree
    requires forall o :: ord <= o < from ==> p.lists[o] == []
    ensures Represents(MergeBlocks(h, FirstOf(p, from)), p) && MergesStraight(h, FirstOf(p, from))
    ensures OnlyWithin(h, MergeBlocks(h, FirstOf(p, from)), FirstOf(p, from), from)
    decreases from - ord
  {
    if ord < from {
      MergesUp(h, p, from, ord);
      MergesBack(Grown(Unlink(h, ord, FirstOf(p, from) + Bytes(ord)), FirstOf(p, from)), p, from, ord + 1);
    } else {
      MergeStops(h, p, from);
      PushCloses(h, p, from);
    }
  }

  /** Freeing the youngest allocation undoes it: the pool is again the one before that request. */
  lemma FreeUndoes(h: Heap, p: Pool, size: nat)
    requires PoolOk(p) && p.lifo && Room(p, size) && Represents(h, Grant(p, size))
    ensures var ptr := PayloadStart(NextFrame(p, size));
            && |h.heads| == MAX_ORDER && ptr != 0 && At(h, ptr - HEADER_SIZE).order < MAX_ORDER
            && Represents(Free(h, ptr), p)
            && OnlyWithin(h, Free(h, ptr), NextFrame(p, size).addr, NextFrame(p, size).from)
            && MergesStraight(Put(h, ptr - HEADER_SIZE, At(h, ptr - HEADER_SIZE).(isFree := true)), ptr - HEADER_SIZE)
  {
    var f := NextFrame(p, size);
    GetOrderLeast(0, TotalSize(size));
    OthersOutside(p, f.from);
    assert Grant(p, size).live[|p.live|] == f;
    assert LiveHeader(h, Grant(p, size), f);
    ReleasedMergesBack(h, Put(h, f.addr, At(h, f.addr).(isFree := true)), p, size);
  }

  lemma ReleasedMergesBack(h: Heap, s: Heap, p: Pool, size: nat)
    requires PoolOk(p) && p.lifo && Room(p, size) && Represents(h, Grant(p, size))
    requires var b := NextFrame(p, size).addr; s == Put(h, b, At(h, b).(isFree := true))
    ensures var (b, from) := (NextFrame(p, size).addr, NextFrame(p, size).from);
            && |s.heads| == MAX_ORDER && At(s, b).order < MAX_ORDER
            && Represents(MergeBlocks(s, b), p) && MergesStraight(s, b)
            && OnlyWithin(h, MergeBlocks(s, b), b, from)
  {
    var f := NextFrame(p, size);
    GetOrderLeast(0, TotalSize(size));
    ReleaseOpens(h, p, size);
    MergesBack(s, p, f.from, f.order);
    PartAddresses(f.addr, 0, f.from + 1);
    assert Within(f.addr, f.addr, f.from);
  }
}
