/**
 A process that uses the allocator: it requests blocks of any size, releases any of the live ones and
 writes whatever it likes into their payloads. What each step does to a heap that stands for a pool.
 */
module BuddyProcess {
  import opened Words
  import opened Sequences
  import opened BuddyHeap
  import opened BuddyPool
  import opened BuddyRuns

  /** The pointers malloc returned that are still live, with the sizes asked for, oldest first. */
  datatype Process = Process(heap: Heap, ptrs: seq<int>, sizes: seq<nat>)

  /** Write overlays any 32 bytes of live payload i with data that may look like a header. */
  datatype Op = Request(size: nat) | Release(i: nat) | Write(i: nat, addr: int, data: Header)

  ghost predicate Step(s: Process, op: Op, t: Process) {
    match op
    case Request(size) =>
      && HeadsSane(s.heap)
      && var (h, ptr) := Malloc(s.heap, size);
         t == if ptr == 0 then s.(heap := h) else Process(h, s.ptrs + [ptr], s.sizes + [size])
    case Release(i) =>
      && i < |s.ptrs| == |s.sizes| && |s.heap.heads| == MAX_ORDER
      && At(s.heap, s.ptrs[i] - HEADER_SIZE).order < MAX_ORDER
      && t == Process(Free(s.heap, s.ptrs[i]), Without(s.ptrs, i), Without(s.sizes, i))
    case Write(i, addr, data) =>
      i < |s.ptrs| && InPayload(s, i, addr) && t == s.(heap := Put(s.heap, addr, data))
  }

  /** The 32 bytes at `a` lie in the payload of live allocation i, as its header delimits it. */
  predicate InPayload(s: Process, i: nat, a: int)
    requires i < |s.ptrs|
  {
    s.ptrs[i] <= a && a + HEADER_SIZE <= s.ptrs[i] + At(s.heap, s.ptrs[i] - HEADER_SIZE).size
  }

  /** The pool that mmap placed at start, nothing allocated. */
  ghost predicate Starts(start: int, top: nat, s: Process) {
    start > 0 && top < MAX_ORDER && GetOrder(Bytes(top)) < MAX_ORDER && s == Process(BuddyInit(start, Bytes(top)), [], [])
  }

  /** The heap stands for the pool, whose live allocations are the process's. */
  ghost predicate StandsFor(s: Process, p: Pool) {
    && Represents(s.heap, p) && |p.live| == |s.ptrs| == |s.sizes|
    && forall i :: 0 <= i < |s.ptrs| ==> Owned(s, p, i)
  }

  predicate Owned(s: Process, p: Pool, i: nat)
    requires i < |p.live| == |s.ptrs| == |s.sizes|
  {
    s.ptrs[i] == PayloadStart(p.live[i]) && s.sizes[i] == p.live[i].size && OrderOf(s.sizes[i]) == p.live[i].order
  }

  lemma {:induction false} OrderOfPower(from: nat, top: nat)
    requires from <= top < MAX_ORDER
    ensures GetOrderFrom(from, Bytes(top)) == top
    decreases top - from
  {
    if from < top {
      BytesGrow(from, top);
      OrderOfPower(from + 1, top);
    }
  }

  lemma InitRepresents(start: int, top: nat)
    requires start > 0 && top < MAX_ORDER
    ensures GetOrder(Bytes(top)) == top && Represents(BuddyInit(start, Bytes(top)), Whole(start, top))
  {
    OrderOfPower(0, top);
    var h, p := BuddyInit(start, Bytes(top)), Whole(start, top);
    forall o: nat | o < MAX_ORDER ensures ListHeld(h, p, p.lists[o], o) {
      assert o == top ==> ChainLink(h, p.lists[o], 0);
    }
  }

  /** The pool the program asks for at start-up is one block of order 14. */
  lemma InitialPool(start: int)
    requires start > 0
    ensures Bytes(14) == INITIAL_POOL_SIZE && GetOrder(INITIAL_POOL_SIZE) == 14
    ensures Represents(BuddyInit(start, INITIAL_POOL_SIZE), Whole(start, 14))
  {
    assert Pow2(7) == 128;
    assert Pow2(14) == 0x4000;
    InitRepresents(start, 14);
  }

  /** A pool asked for with fewer than 64 bytes is one block of 64. */
  lemma SmallestPool(start: int, size: nat)
    requires start > 0 && size < 64
    ensures GetOrder(64) == 0 && Represents(BuddyInit(start, size), Whole(start, 0)) && BuddyInit(start, size).size == 64
  {
    InitRepresents(start, 0);
  }

  /** The first request from the start-up pool: 32 bytes fit the smallest block, of 64 bytes with its header
      of 32, and one byte more takes the next one. */
  lemma FirstRequest(start: int, size: nat)
    requires start > 0 && size <= 96
    ensures GetOrder(INITIAL_POOL_SIZE) < MAX_ORDER && HeadsSane(BuddyInit(start, 0x10_0000))
    ensures var (h, ptr) := Malloc(BuddyInit(start, 0x10_0000), size);
            ptr == start + 32 && At(h, start).size == (if size <= 32 then 32 else 96) && !At(h, start).isFree
  {
    InitialPool(start);
    WholeOk(start, 14);
    FirstRequestFrame(start, size);
    MallocGrants(BuddyInit(start, 0x10_0000), Whole(start, 14), size);
    var q := Grant(Whole(start, 14), size);
    assert LiveHeader(Malloc(BuddyInit(start, 0x10_0000), size).0, q, q.live[0]);
  }

  lemma {:induction false} WholeFits(start: int, top: nat, from: nat)
    requires from <= top < MAX_ORDER
    ensures FirstFit(Whole(start, top).lists, from) == top
    decreases top - from
  {
    if from < top {
      WholeFits(start, top, from + 1);
    }
  }

  lemma FirstRequestFrame(start: int, size: nat)
    requires size <= 96
    ensures Room(Whole(start, 14), size)
    ensures NextFrame(Whole(start, 14), size) == Frame(start, if size <= 32 then 0 else 1, 14, size)
    ensures Bytes(0) == 64 && Bytes(1) == 128
  {
    var order := if size <= 32 then 0 else 1;
    assert TotalSize(size) == size + 32;
    assert Bytes(0) == 64 && Bytes(1) == 128;
    assert OrderOf(size) == order;
    BytesGrow(1, 14);
    WholeFits(start, 14, order);
  }

  // ---------------------------------------------------------------- requests

  lemma GrantedFrame(p: Pool, size: nat)
    requires Tiled(p) && Room(p, size) && p.start > 0
    ensures Grant(p, size).live == p.live + [NextFrame(p, size)] && PayloadStart(NextFrame(p, size)) > 0
  {
    GrantedBlocks(p, size);
    assert Block(p, NextFrame(p, size).addr, NextFrame(p, size).from);
  }

  /** A request is granted if there is room, and otherwise changes nothing. */
  lemma RequestStands(s: Process, p: Pool, size: nat, t: Process)
    requires PoolOk(p) && StandsFor(s, p) && Step(s, Request(size), t)
    ensures if Room(p, size)
            then StandsFor(t, Grant(p, size)) && t.sizes == s.sizes + [size]
                 && t.ptrs == s.ptrs + [PayloadStart(NextFrame(p, size))]
            else t == s
  {
    MallocGrants(s.heap, p, size);
    if Room(p, size) {
      GrantedFrame(p, size);
      forall i | 0 <= i < |t.ptrs| ensures Owned(t, Grant(p, size), i) {
        assert i < |s.ptrs| ==> Owned(s, p, i);
      }
    }
  }

  lemma RequestServed(s: Process, p: Pool, size: nat, t: Process)
    requires PoolOk(p) && StandsFor(s, p) && Step(s, Request(size), t) && size < WORD && Room(p, size)
    ensures |t.ptrs| == |s.ptrs| + 1
    ensures At(t.heap, t.ptrs[|s.ptrs|] - HEADER_SIZE).size >= size <==> size + HEADER_SIZE < WORD
  {
    RequestStands(s, p, size, t);
    GrantedFrame(p, size);
    PayloadLargeEnough(p, size);
    assert LiveHeader(t.heap, Grant(p, size), Grant(p, size).live[|s.ptrs|]);
  }

  // ---------------------------------------------------------------- writes

  /** No block starts inside a payload. */
  lemma PayloadHasNoHeader(p: Pool, i: nat, addr: int, a: int, o: nat)
    requires Tiled(p) && i < |p.live| && Block(p, a, o)
    requires PayloadStart(p.live[i]) <= addr < p.live[i].addr + Bytes(p.live[i].order)
    ensures a != addr
  {
    var f := p.live[i];
    assert LiveAt(p, f.addr, f.order) && Block(p, f.addr, f.order);
    if (a, o) != (f.addr, f.order) {
      assert Apart(f.addr, f.order, a, o);
    }
  }

  lemma LiveFrame(s: Process, p: Pool, i: nat)
    requires StandsFor(s, p) && i < |s.ptrs|
    ensures s.ptrs[i] == PayloadStart(p.live[i]) && At(s.heap, s.ptrs[i] - HEADER_SIZE).size == Capacity(p.live[i])
  {
    assert Owned(s, p, i) && LiveHeader(s.heap, p, p.live[i]);
  }

  lemma WriteStands(s: Process, p: Pool, i: nat, addr: int, data: Header, t: Process)
    requires Tiled(p) && StandsFor(s, p) && Step(s, Write(i, addr, data), t)
    ensures StandsFor(t, p)
  {
    LiveFrame(s, p, i);
    forall o: nat | o < MAX_ORDER ensures ListHeld(t.heap, p, p.lists[o], o) {
      assert ListHeld(s.heap, p, p.lists[o], o);
      forall k | 0 <= k < |p.lists[o]| ensures At(t.heap, p.lists[o][k]) == At(s.heap, p.lists[o][k]) {
        assert FreeAt(p, p.lists[o][k], o);
        PayloadHasNoHeader(p, i, addr, p.lists[o][k], o);
      }
      KeepList(s.heap, t.heap, p, p, p.lists[o], o);
    }
    forall k | 0 <= k < |p.live| ensures At(t.heap, p.live[k].addr) == At(s.heap, p.live[k].addr) {
      assert LiveAt(p, p.live[k].addr, p.live[k].order);
      PayloadHasNoHeader(p, i, addr, p.live[k].addr, p.live[k].order);
    }
    KeepLive(s.heap, t.heap, p);
    forall k | 0 <= k < |t.ptrs| ensures Owned(t, p, k) {
      assert Owned(s, p, k);
    }
  }

  // ---------------------------------------------------------------- payloads

  /** Two live payloads, as their headers delimit them, lie in the pool and do not overlap. */
  predicate Clear(start: int, top: nat, s: Process, i: nat, j: nat)
    requires i < |s.ptrs| && j < |s.ptrs|
  {
    var (sizeI, sizeJ) := (At(s.heap, s.ptrs[i] - HEADER_SIZE).size, At(s.heap, s.ptrs[j] - HEADER_SIZE).size);
    && start < s.ptrs[i] && s.ptrs[i] + sizeI <= start + Bytes(top)
    && (s.ptrs[i] + sizeI <= s.ptrs[j] || s.ptrs[j] + sizeJ <= s.ptrs[i])
  }

  lemma PayloadsApart(s: Process, p: Pool, i: nat, j: nat)
    requires Tiled(p) && StandsFor(s, p) && i < |s.ptrs| && j < |s.ptrs| && i != j
    ensures Clear(p.start, p.top, s, i, j)
  {
    LiveFrame(s, p, i);
    LiveFrame(s, p, j);
    PayloadsDisjoint(p, i, j);
  }

  lemma BlockMisses(p: Pool, size: nat, i: nat, a: int)
    requires Tiled(p) && Room(p, size) && i < |p.live|
    requires p.live[i].addr <= a < p.live[i].addr + Bytes(p.live[i].order)
    ensures !Within(a, NextFrame(p, size).addr, NextFrame(p, size).from)
  {
    var f, g := p.live[i], NextFrame(p, size);
    GrantedBlocks(p, size);
    assert LiveAt(p, f.addr, f.order) && Block(p, f.addr, f.order) && Block(p, g.addr, g.from);
    assert !LiveAt(p, g.addr, g.from);
    assert Apart(f.addr, f.order, g.addr, g.from);
  }

  lemma RequestKeepsPayload(s: Process, p: Pool, size: nat, t: Process, i: nat, a: int)
    requires PoolOk(p) && StandsFor(s, p) && Step(s, Request(size), t) && i < |s.ptrs| && InPayload(s, i, a)
    ensures i < |t.ptrs| && t.ptrs[i] == s.ptrs[i] && At(t.heap, a) == At(s.heap, a)
  {
    LiveFrame(s, p, i);
    MallocGrants(s.heap, p, size);
    RequestStands(s, p, size, t);
    if Room(p, size) {
      BlockMisses(p, size, i, a);
    }
  }
}
