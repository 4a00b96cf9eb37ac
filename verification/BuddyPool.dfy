/**
 What the buddy allocator means: one free list of addresses per order and the stack of live
 allocations, as a function of the live requests alone. Every pool reached this way is tiled by its
 blocks, and every free block but the whole pool is a right half whose left half starts with a live
 allocation.
 */
module BuddyPool {
  import opened Words
  import opened BuddyHeap

  /** A live allocation: its block, the order of the free block it was carved from, the request. */
  datatype Frame = Frame(addr: int, order: nat, from: nat, size: nat)

  /** `lifo` says that allocations are freed youngest first; it changes nothing but what is known of the
      free blocks and their buddy fields. */
  datatype Pool = Pool(start: int, top: nat, lifo: bool, lists: seq<seq<int>>, live: seq<Frame>)

  function Limit(p: Pool): int { p.start + Bytes(p.top) }

  /** The untouched pool. */
  function Whole(start: int, top: nat): Pool {
    Pool(start, top, true, seq(MAX_ORDER, i => if i == top then [start] else []), [])
  }

  function FirstFit(lists: seq<seq<int>>, from: nat): (r: nat)
    requires |lists| == MAX_ORDER
    ensures from < MAX_ORDER ==> from <= r
    ensures r < MAX_ORDER ==> lists[r] != []
    ensures forall o :: from <= o < r && o < MAX_ORDER ==> lists[o] == []
    decreases MAX_ORDER - from
  {
    if from >= MAX_ORDER then MAX_ORDER else if lists[from] != [] then from else FirstFit(lists, from + 1)
  }

  function OrderOf(size: nat): nat { GetOrder(TotalSize(size)) }

  /** Some free block is large enough for the request. */
  predicate Room(p: Pool, size: nat) {
    |p.lists| == MAX_ORDER && TotalSize(size) <= Bytes(p.top) && FirstFit(p.lists, OrderOf(size)) < MAX_ORDER
  }

  function NextFrame(p: Pool, size: nat): Frame
    requires Room(p, size)
  {
    var from := FirstFit(p.lists, OrderOf(size));
    Frame(p.lists[from][0], OrderOf(size), from, size)
  }

  /** The free lists once the first block of order `from` is split down to order `to`. */
  function Carved(lists: seq<seq<int>>, from: nat, to: nat): (r: seq<seq<int>>)
    requires |lists| == MAX_ORDER && from < MAX_ORDER && lists[from] != []
    ensures |r| == MAX_ORDER
  {
    seq(MAX_ORDER, i requires 0 <= i < MAX_ORDER =>
      if to <= i < from then [lists[from][0] + Bytes(i)]
      else if i == from then lists[from][1..]
      else lists[i])
  }

  function Grant(p: Pool, size: nat): Pool
    requires Room(p, size)
  {
    var f := NextFrame(p, size);
    p.(lists := Carved(p.lists, f.from, f.order), live := p.live + [f])
  }

  /** The live requests, oldest first, can be granted one after the other. */
  predicate Fits(start: int, top: nat, sizes: seq<nat>)
    decreases |sizes|, 0
  {
    sizes == [] ||
    (Fits(start, top, sizes[..|sizes| - 1]) &&
     Room(Replay(start, top, sizes[..|sizes| - 1]), sizes[|sizes| - 1]))
  }

  function Replay(start: int, top: nat, sizes: seq<nat>): Pool
    requires Fits(start, top, sizes)
    decreases |sizes|, 1
  {
    if sizes == [] then Whole(start, top)
    else Grant(Replay(start, top, sizes[..|sizes| - 1]), sizes[|sizes| - 1])
  }

  // ---------------------------------------------------------------- blocks

  predicate FreeAt(p: Pool, a: int, o: nat) { o < |p.lists| && a in p.lists[o] }

  predicate LiveAt(p: Pool, a: int, o: nat) {
    exists i :: 0 <= i < |p.live| && p.live[i].addr == a && p.live[i].order == o
  }

  predicate LiveStart(p: Pool, a: int) { exists i :: 0 <= i < |p.live| && p.live[i].addr == a }

  predicate Block(p: Pool, a: int, o: nat) { FreeAt(p, a, o) || LiveAt(p, a, o) }

  predicate Apart(a: int, o: nat, a': int, o': nat) { a + Bytes(o) <= a' || a' + Bytes(o') <= a }

  ghost predicate InRange(p: Pool) {
    forall a, o: nat :: Block(p, a, o) ==> o <= p.top && p.start <= a && a + Bytes(o) <= Limit(p)
  }

  ghost predicate Disjoint(p: Pool) {
    && (forall a, o: nat, a', o': nat :: Block(p, a, o) && Block(p, a', o') && (a != a' || o != o') ==> Apart(a, o, a', o'))
    && (forall a, o: nat :: !(FreeAt(p, a, o) && LiveAt(p, a, o)))
    && (forall o, i, j :: 0 <= o < |p.lists| && 0 <= i < j < |p.lists[o]| ==> p.lists[o][i] != p.lists[o][j])
    && (forall i, j :: 0 <= i < j < |p.live| ==> p.live[i].addr != p.live[j].addr)
  }

  predicate Within(x: int, a: int, o: nat) { a <= x < a + Bytes(o) }

  ghost predicate InsideBlock(p: Pool, x: int) {
    exists a, o: nat :: Block(p, a, o) && Within(x, a, o)
  }

  ghost predicate Covered(p: Pool) {
    forall x :: p.start <= x < Limit(p) ==> InsideBlock(p, x)
  }

  /** A free block other than the whole pool has a live allocation at the start of its left half
      and, to its right, the end of the pool, a live allocation or a larger free block. */
  ghost predicate RightHalves(p: Pool) {
    forall a, o: nat :: FreeAt(p, a, o) ==> RightHalf(p, a, o)
  }

  ghost predicate RightHalf(p: Pool, a: int, o: nat) {
    && (if a == p.start then o == p.top else LiveStart(p, a - Bytes(o)))
    && RightSideBusy(p, a, o)
  }

  ghost predicate RightSideBusy(p: Pool, a: int, o: nat) {
    || a + Bytes(o) >= Limit(p)
    || LiveStart(p, a + Bytes(o))
    || LargerFreeAt(p, a + Bytes(o), o)
  }

  ghost predicate LargerFreeAt(p: Pool, a: int, o: nat) { exists m: nat :: m > o && FreeAt(p, a, m) }

  /** The blocks tile the pool without gap or overlap, and each is listed or live once. */
  ghost predicate Tiled(p: Pool) {
    |p.lists| == MAX_ORDER && p.top < MAX_ORDER && InRange(p) && Disjoint(p) && Covered(p)
  }

  ghost predicate PoolOk(p: Pool) { Tiled(p) && (p.lifo ==> RightHalves(p)) }

  lemma WholeOk(start: int, top: nat)
    requires top < MAX_ORDER
    ensures PoolOk(Whole(start, top))
  {
    var p := Whole(start, top);
    assert forall a, o: nat :: Block(p, a, o) <==> a == start && o == top;
    forall x | p.start <= x < Limit(p) ensures InsideBlock(p, x) {
      assert Block(p, start, top) && Within(x, start, top);
    }
  }

  // ---------------------------------------------------------------- granting keeps the pool in order

  lemma GrantedBlocks(p: Pool, size: nat)
    requires Tiled(p) && Room(p, size)
    ensures var f, q := NextFrame(p, size), Grant(p, size);
            && f.order <= f.from < MAX_ORDER && FreeAt(p, f.addr, f.from)
            && (forall a, o: nat :: FreeAt(q, a, o) <==>
                  (f.order <= o < f.from && a == f.addr + Bytes(o)) ||
                  (FreeAt(p, a, o) && !(a == f.addr && o == f.from)))
            && (forall a, o: nat :: LiveAt(q, a, o) <==> LiveAt(p, a, o) || (a == f.addr && o == f.order))
            && (forall a :: LiveStart(q, a) <==> LiveStart(p, a) || a == f.addr)
  {
    var f, q := NextFrame(p, size), Grant(p, size);
    GetOrderLeast(0, TotalSize(size));
    var l := p.lists[f.from];
    assert l == [f.addr] + l[1..];
    assert forall a :: a in l[1..] <==> a in l && a != f.addr;
    assert q.live == p.live + [f];
    assert q.live[|p.live|] == f;
    assert forall i :: 0 <= i < |p.live| ==> q.live[i] == p.live[i];
  }

  /** The parts of the carved block: the allocation at its left edge, then one free right half of
      each smaller order. */
  predicate Part(f: Frame, a: int, o: nat) {
    (a == f.addr && o == f.order) || (f.order <= o < f.from && a == f.addr + Bytes(o))
  }

  lemma PartsInside(f: Frame, a: int, o: nat)
    requires f.order <= f.from && Part(f, a, o)
    ensures f.addr <= a && a + Bytes(o) <= f.addr + Bytes(f.from) && o <= f.from
  {
    if o < f.from {
      BytesGrow(o, f.from);
    }
  }

  lemma PartsApart(f: Frame, a: int, o: nat, a': int, o': nat)
    requires f.order <= f.from && Part(f, a, o) && Part(f, a', o') && (a != a' || o != o')
    ensures Apart(a, o, a', o') && a != a'
  {
    if o < o' {
      BytesGrow(o, o');
    } else if o' < o {
      BytesGrow(o', o);
    }
  }

  lemma {:induction false} PartsCover(f: Frame, x: int, m: nat) returns (a: int, o: nat)
    requires f.order <= m <= f.from && f.addr <= x < f.addr + Bytes(m)
    ensures Part(f, a, o) && Within(x, a, o)
    decreases m
  {
    if m == f.order {
      a, o := f.addr, m;
    } else if x < f.addr + Bytes(m - 1) {
      a, o := PartsCover(f, x, m - 1);
    } else {
      BytesGrow(m - 1, m);
      a, o := f.addr + Bytes(m - 1), m - 1;
    }
  }

  lemma NewBlocks(p: Pool, size: nat)
    requires Tiled(p) && Room(p, size)
    ensures forall a, o: nat :: Block(Grant(p, size), a, o) <==>
              Part(NextFrame(p, size), a, o) ||
              (Block(p, a, o) && !(a == NextFrame(p, size).addr && o == NextFrame(p, size).from))
  {
    GrantedBlocks(p, size);
  }

  lemma OldApart(p: Pool, f: Frame, a: int, o: nat, a': int, o': nat)
    requires Disjoint(p) && FreeAt(p, f.addr, f.from) && f.order <= f.from && Part(f, a, o)
    requires Block(p, a', o') && !(a' == f.addr && o' == f.from)
    ensures Apart(a, o, a', o') && a != a'
  {
    PartsInside(f, a, o);
    assert Block(p, f.addr, f.from);
    assert Apart(f.addr, f.from, a', o');
  }

  lemma GrantInRange(p: Pool, size: nat)
    requires Tiled(p) && Room(p, size)
    ensures InRange(Grant(p, size))
  {
    var f := NextFrame(p, size);
    GrantedBlocks(p, size);
    NewBlocks(p, size);
    assert Block(p, f.addr, f.from);
    forall a, o: nat | Part(f, a, o) ensures o <= p.top && p.start <= a && a + Bytes(o) <= Limit(p) {
      PartsInside(f, a, o);
    }
  }

  lemma GrantDisjoint(p: Pool, size: nat)
    requires Tiled(p) && Room(p, size)
    ensures Disjoint(Grant(p, size))
  {
    var f, q := NextFrame(p, size), Grant(p, size);
    GrantedBlocks(p, size);
    NewBlocks(p, size);
    forall a, o: nat, a', o': nat | Block(q, a, o) && Block(q, a', o') && (a != a' || o != o')
      ensures Apart(a, o, a', o')
    {
      if Part(f, a, o) && Part(f, a', o') {
        PartsApart(f, a, o, a', o');
      } else if Part(f, a, o) {
        OldApart(p, f, a, o, a', o');
      } else if Part(f, a', o') {
        OldApart(p, f, a', o', a, o);
      }
    }
    GrantNoRepeats(p, size);
  }

  lemma GrantNoRepeats(p: Pool, size: nat)
    requires Tiled(p) && Room(p, size)
    ensures var q := Grant(p, size);
            && (forall a, o: nat :: !(FreeAt(q, a, o) && LiveAt(q, a, o)))
            && (forall o, i, j :: 0 <= o < |q.lists| && 0 <= i < j < |q.lists[o]| ==> q.lists[o][i] != q.lists[o][j])
            && (forall i, j :: 0 <= i < j < |q.live| ==> q.live[i].addr != q.live[j].addr)
  {
    var f, q := NextFrame(p, size), Grant(p, size);
    GrantedBlocks(p, size);
    forall a, o: nat | FreeAt(q, a, o) && LiveAt(q, a, o) ensures false {
      if f.order <= o < f.from && a == f.addr + Bytes(o) {
        if LiveAt(p, a, o) {
          OldApart(p, f, a, o, a, o);
        }
      } else if a == f.addr && o == f.order {
        OldApart(p, f, a, o, a, o);
      }
    }
    forall i | 0 <= i < |p.live| ensures p.live[i].addr != f.addr {
      assert LiveAt(p, p.live[i].addr, p.live[i].order);
      OldApart(p, f, f.addr, f.order, p.live[i].addr, p.live[i].order);
    }
  }

  lemma GrantCovered(p: Pool, size: nat)
    requires Tiled(p) && Room(p, size)
    ensures Covered(Grant(p, size))
  {
    var f, q := NextFrame(p, size), Grant(p, size);
    GrantedBlocks(p, size);
    NewBlocks(p, size);
    forall x | p.start <= x < Limit(p) ensures InsideBlock(q, x) {
      assert InsideBlock(p, x);
      var a, o: nat :| Block(p, a, o) && Within(x, a, o);
      if a == f.addr && o == f.from {
        a, o := PartsCover(f, x, f.from);
      }
      assert Block(q, a, o);
    }
  }

  lemma BusyAtSameEdge(p: Pool, a: int, o: nat, a': int, o': nat)
    requires RightSideBusy(p, a', o') && a + Bytes(o) == a' + Bytes(o') && o <= o'
    ensures RightSideBusy(p, a, o)
  {
    if LargerFreeAt(p, a' + Bytes(o'), o') {
      var m: nat :| m > o' && FreeAt(p, a' + Bytes(o'), m);
      assert LargerFreeAt(p, a + Bytes(o), o);
    }
  }

  lemma InnerPartBusy(p: Pool, size: nat, o: nat)
    requires Room(p, size) && NextFrame(p, size).order <= o && o + 1 < NextFrame(p, size).from
    ensures RightSideBusy(Grant(p, size), NextFrame(p, size).addr + Bytes(o), o)
  {
    var a := NextFrame(p, size).addr;
    assert FreeAt(Grant(p, size), a + Bytes(o + 1), o + 1);
    assert a + Bytes(o + 1) == a + Bytes(o) + Bytes(o);
    assert LargerFreeAt(Grant(p, size), a + Bytes(o) + Bytes(o), o);
  }

  lemma LastPartBusy(p: Pool, size: nat, o: nat)
    requires Tiled(p) && RightHalves(p) && Room(p, size) && NextFrame(p, size).order <= o && o + 1 == NextFrame(p, size).from
    ensures RightSideBusy(Grant(p, size), NextFrame(p, size).addr + Bytes(o), o)
  {
    var f := NextFrame(p, size);
    RightSideStays(p, size, f.addr, f.from);
    BusyAtSameEdge(Grant(p, size), f.addr + Bytes(o), o, f.addr, f.from);
  }

  lemma PartIsRightHalf(p: Pool, size: nat, o: nat)
    requires Tiled(p) && RightHalves(p) && Room(p, size) && NextFrame(p, size).order <= o < NextFrame(p, size).from
    ensures RightHalf(Grant(p, size), NextFrame(p, size).addr + Bytes(o), o)
  {
    var f := NextFrame(p, size);
    if o + 1 < f.from {
      InnerPartBusy(p, size, o);
    } else {
      LastPartBusy(p, size, o);
    }
    GrantedBlocks(p, size);
    assert LiveStart(Grant(p, size), f.addr);
    assert Block(p, f.addr, f.from);
  }

  lemma OldIsRightHalf(p: Pool, size: nat, a: int, o: nat)
    requires Tiled(p) && RightHalves(p) && Room(p, size) && FreeAt(p, a, o)
    ensures RightHalf(Grant(p, size), a, o)
  {
    RightSideStays(p, size, a, o);
    GrantedBlocks(p, size);
    assert RightHalf(p, a, o);
  }

  lemma GrantRightHalves(p: Pool, size: nat)
    requires Tiled(p) && RightHalves(p) && Room(p, size)
    ensures RightHalves(Grant(p, size))
  {
    var f, q := NextFrame(p, size), Grant(p, size);
    forall a, o: nat | FreeAt(q, a, o) ensures RightHalf(q, a, o) {
      FreeAfterGrant(p, size, a, o);
      if f.order <= o < f.from {
        PartIsRightHalf(p, size, o);
      } else {
        OldIsRightHalf(p, size, a, o);
      }
    }
  }

  lemma FreeAfterGrant(p: Pool, size: nat, a: int, o: nat)
    requires Tiled(p) && Room(p, size) && FreeAt(Grant(p, size), a, o)
    ensures var f := NextFrame(p, size);
            if f.order <= o < f.from then a == f.addr + Bytes(o) else FreeAt(p, a, o)
  {
    GrantedBlocks(p, size);
  }

  lemma RightSideStays(p: Pool, size: nat, a: int, o: nat)
    requires Tiled(p) && RightHalves(p) && Room(p, size) && FreeAt(p, a, o)
    ensures RightSideBusy(Grant(p, size), a, o)
  {
    GrantedBlocks(p, size);
    assert RightHalf(p, a, o);
    var f, q := NextFrame(p, size), Grant(p, size);
    if a + Bytes(o) < Limit(p) && !LiveStart(p, a + Bytes(o)) {
      assert LargerFreeAt(p, a + Bytes(o), o);
      var m: nat :| m > o && FreeAt(p, a + Bytes(o), m);
      assert FreeAt(q, a + Bytes(o), m) || LiveStart(q, a + Bytes(o));
    }
  }

  lemma GrantOk(p: Pool, size: nat)
    requires PoolOk(p) && Room(p, size)
    ensures PoolOk(Grant(p, size))
  {
    GrantInRange(p, size);
    GrantDisjoint(p, size);
    GrantCovered(p, size);
    if p.lifo {
      GrantRightHalves(p, size);
    }
  }

  /** Whatever requests are live: the blocks tile the pool without gap or overlap, the free lists
      hold each free block once, and the free blocks are right halves. */
  lemma {:induction false} ReplayOk(start: int, top: nat, sizes: seq<nat>)
    requires top < MAX_ORDER && Fits(start, top, sizes)
    ensures PoolOk(Replay(start, top, sizes)) && Replay(start, top, sizes).lifo
    ensures Replay(start, top, sizes).start == start && Replay(start, top, sizes).top == top
    ensures |Replay(start, top, sizes).live| == |sizes|
    ensures forall i :: 0 <= i < |sizes| ==> Replay(start, top, sizes).live[i].size == sizes[i]
                                             && Replay(start, top, sizes).live[i].order == OrderOf(sizes[i])
  {
    if sizes == [] {
      WholeOk(start, top);
    } else {
      var n := |sizes| - 1;
      ReplayOk(start, top, sizes[..n]);
      GrantOk(Replay(start, top, sizes[..n]), sizes[n]);
    }
  }

  // ---------------------------------------------------------------- payloads

  function PayloadStart(f: Frame): int { f.addr + HEADER_SIZE }

  function Capacity(f: Frame): nat { Bytes(f.order) - HEADER_SIZE }

  /** A granted payload is as large as requested exactly when size + sizeof(block_t) does not wrap. */
  lemma PayloadLargeEnough(p: Pool, size: nat)
    requires Tiled(p) && Room(p, size) && size < WORD
    ensures Capacity(NextFrame(p, size)) >= size <==> size + HEADER_SIZE < WORD
  {
    GetOrderLeast(0, TotalSize(size));
    GrantedBlocks(p, size);
    assert Block(p, NextFrame(p, size).addr, NextFrame(p, size).from);
    if size + HEADER_SIZE >= WORD {
      assert TotalSize(size) == size + HEADER_SIZE - WORD < HEADER_SIZE;
      assert OrderOf(size) == 0;
    }
  }

  /** Live payloads are disjoint and inside the pool. */
  lemma PayloadsDisjoint(p: Pool, i: nat, j: nat)
    requires Tiled(p) && i < |p.live| && j < |p.live| && i != j
    ensures p.start < PayloadStart(p.live[i]) && PayloadStart(p.live[i]) + Capacity(p.live[i]) <= Limit(p)
    ensures || PayloadStart(p.live[i]) + Capacity(p.live[i]) <= PayloadStart(p.live[j])
            || PayloadStart(p.live[j]) + Capacity(p.live[j]) <= PayloadStart(p.live[i])
  {
    var f, g := p.live[i], p.live[j];
    assert LiveAt(p, f.addr, f.order) && LiveAt(p, g.addr, g.order);
    assert Block(p, f.addr, f.order) && Block(p, g.addr, g.order);
    assert f.addr != g.addr;
    assert Apart(f.addr, f.order, g.addr, g.order);
  }
}
