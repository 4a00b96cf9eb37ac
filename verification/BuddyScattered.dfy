/**
 Whole runs of the buddy allocator over one pool that release in any order. They are sound exactly as
 long as no release reaches the swap of merge_blocks.
 */
module BuddyScattered {
  import opened Sequences
  import opened BuddyHeap
  import opened BuddyPool
  import opened BuddyRuns
  import opened BuddyAnyOrder
  import opened BuddyFrees
  import opened BuddyProcess

  /** Releasing allocation i finds its recorded buddy free, of its order, and to the left. */
  predicate Swaps(s: Process, i: nat)
    requires i < |s.ptrs|
  {
    var block := s.ptrs[i] - HEADER_SIZE;
    LeftBuddyFree(Put(s.heap, block, At(s.heap, block).(isFree := true)), block)
  }

  ghost predicate IsRun(start: int, top: nat, run: seq<Process>, ops: seq<Op>) {
    && |run| == |ops| + 1 && Starts(start, top, run[0])
    && forall k :: 0 <= k < |ops| ==> Step(run[k], ops[k], run[k + 1])
  }

  /** None of the first n steps of a run reaches the swap. */
  predicate NoSwaps(run: seq<Process>, ops: seq<Op>, n: nat)
    requires n <= |ops| < |run|
  {
    forall k :: 0 <= k < n && ops[k].Release? && ops[k].i < |run[k].ptrs| ==> !Swaps(run[k], ops[k].i)
  }

  /** The heap stands for some pool that is tiled by its blocks, with the process's allocations live. */
  ghost predicate Holds(start: int, top: nat, s: Process) {
    exists p: Pool :: Witness(start, top, s, p)
  }

  ghost predicate Witness(start: int, top: nat, s: Process, p: Pool) {
    !p.lifo && p.start == start && p.top == top && Tiled(p) && StandsFor(s, p)
  }

  lemma StartHolds(start: int, top: nat, s: Process)
    requires Starts(start, top, s)
    ensures Holds(start, top, s)
  {
    var w := Whole(start, top);
    var p := w.(lifo := false);
    InitRepresents(start, top);
    WholeOk(start, top);
    assert forall a, o: nat :: Block(p, a, o) <==> Block(w, a, o);
    forall x | p.start <= x < Limit(p) ensures InsideBlock(p, x) {
      assert InsideBlock(w, x);
      var a, o: nat :| Block(w, a, o) && Within(x, a, o);
      assert Block(p, a, o);
    }
    forall o: nat | o < MAX_ORDER ensures ListHeld(s.heap, p, p.lists[o], o) {
      assert ListHeld(s.heap, w, w.lists[o], o);
      assert o == top ==> FreeHeader(s.heap, w, w.lists[o][0], o);
    }
    assert Witness(start, top, s, p);
  }

  lemma ReleasedStands(s: Process, p: Pool, i: nat, t: Process, q: Pool)
    requires StandsFor(s, p) && Step(s, Release(i), t) && Represents(t.heap, q) && SameFrames(Without(p.live, i), q.live)
    ensures StandsFor(t, q)
  {
    forall k | 0 <= k < |t.ptrs| ensures Owned(t, q, k) {
      assert Owned(s, p, if k < i then k else k + 1);
      assert q.live[k].(from := 0) == Without(p.live, i)[k].(from := 0);
    }
  }

  lemma FrameByOwner(s: Process, p: Pool, i: nat, t: Process, q: Pool)
    requires StandsFor(s, p) && Step(s, Release(i), t) && StandsFor(t, q)
    ensures SameFrames(Without(p.live, i), q.live)
  {
    forall k | 0 <= k < |t.ptrs| ensures Without(p.live, i)[k].(from := 0) == q.live[k].(from := 0) {
      assert Owned(s, p, if k < i then k else k + 1) && Owned(t, q, k);
    }
  }

  lemma HoldsIsStanding(start: int, top: nat, s: Process, p: Pool, i: nat, t: Process)
    requires Witness(start, top, s, p) && Step(s, Release(i), t)
    ensures Holds(start, top, t) <==> Stands(t.heap, p, Without(p.live, i))
  {
    if Stands(t.heap, p, Without(p.live, i)) {
      var q: Pool :| Represents(t.heap, q) && Tiled(q) && SameFrames(Without(p.live, i), q.live) && SamePool(p, q);
      ReleasedStands(s, p, i, t, q);
      assert Witness(start, top, t, q);
    }
    if Holds(start, top, t) {
      var q: Pool :| Witness(start, top, t, q);
      FrameByOwner(s, p, i, t, q);
    }
  }

  /** A release leaves a heap that stands for a tiled pool exactly when it does not reach the swap. */
  lemma ReleaseExactly(start: int, top: nat, s: Process, i: nat, t: Process)
    requires Holds(start, top, s) && Step(s, Release(i), t)
    ensures Holds(start, top, t) <==> !Swaps(s, i)
  {
    var p: Pool :| Witness(start, top, s, p);
    assert Owned(s, p, i);
    FreeExactly(s.heap, p, i);
    HoldsIsStanding(start, top, s, p, i, t);
  }

  /** A release that does not reach the swap joins the block with its whole row of free right neighbours,
      and with none exactly when merge_blocks finds no buddy; the joined block is in front of the list of its
      order, and the other free blocks stay as they are. */
  lemma ReleaseJoins(start: int, top: nat, s: Process, i: nat, t: Process) returns (p: Pool, q: Pool)
    requires Holds(start, top, s) && Step(s, Release(i), t) && !Swaps(s, i)
    ensures Witness(start, top, s, p) && Witness(start, top, t, q) && q.live == Without(p.live, i)
    ensures var block := s.ptrs[i] - HEADER_SIZE;
            var (o, n) := (At(s.heap, block).order, At(t.heap, block).order);
            && Coalesced(p, q, block, o, n) && t.heap.heads[n] == block
            && (n > o <==> CanMerge(Put(s.heap, block, At(s.heap, block).(isFree := true)), block))
  {
    p :| Witness(start, top, s, p);
    assert Owned(s, p, i) && LiveHeader(s.heap, p, p.live[i]);
    q := FreeAny(s.heap, p, i);
    ReleasedStands(s, p, i, t, q);
    var n := At(t.heap, s.ptrs[i] - HEADER_SIZE).order;
    assert ListHeld(t.heap, q, q.lists[n], n);
  }

  /** So it is in every run, up to the first swap. */
  lemma ReleasesJoin(start: int, top: nat, run: seq<Process>, ops: seq<Op>, k: nat) returns (p: Pool, q: Pool)
    requires IsRun(start, top, run, ops) && k < |ops| && NoSwaps(run, ops, k + 1) && ops[k].Release?
    ensures ops[k].i < |run[k].ptrs| && Witness(start, top, run[k], p) && Witness(start, top, run[k + 1], q)
    ensures var block := run[k].ptrs[ops[k].i] - HEADER_SIZE;
            var n := At(run[k + 1].heap, block).order;
            Coalesced(p, q, block, At(run[k].heap, block).order, n) && run[k + 1].heap.heads[n] == block
  {
    RunHolds(start, top, run, ops, k);
    assert Step(run[k], ops[k], run[k + 1]);
    p, q := ReleaseJoins(start, top, run[k], ops[k].i, run[k + 1]);
  }

  lemma StepHolds(start: int, top: nat, s: Process, op: Op, t: Process)
    requires Holds(start, top, s) && Step(s, op, t) && (op.Release? ==> !Swaps(s, op.i))
    ensures Holds(start, top, t)
  {
    if op.Release? {
      ReleaseExactly(start, top, s, op.i, t);
    } else {
      var p: Pool :| Witness(start, top, s, p);
      if op.Request? {
        RequestStands(s, p, op.size, t);
        if Room(p, op.size) {
          GrantOk(p, op.size);
          assert Witness(start, top, t, Grant(p, op.size));
        }
      } else {
        WriteStands(s, p, op.i, op.addr, op.data, t);
        assert Witness(start, top, t, p);
      }
    }
  }

  /** Whatever the order of releases, up to the first swap the heap stands for a tiled pool with exactly
      the process's allocations live. */
  lemma {:induction false} RunHolds(start: int, top: nat, run: seq<Process>, ops: seq<Op>, k: nat)
    requires IsRun(start, top, run, ops) && k < |run| && NoSwaps(run, ops, k)
    ensures Holds(start, top, run[k])
    decreases k
  {
    if k == 0 {
      StartHolds(start, top, run[0]);
    } else {
      RunHolds(start, top, run, ops, k - 1);
      assert Step(run[k - 1], ops[k - 1], run[k]);
      StepHolds(start, top, run[k - 1], ops[k - 1], run[k]);
    }
  }

  /** The first swap is where it ends: after it the heap stands for no tiled pool. */
  lemma FirstSwapEndsIt(start: int, top: nat, run: seq<Process>, ops: seq<Op>, k: nat)
    requires IsRun(start, top, run, ops) && k < |ops| && NoSwaps(run, ops, k) && ops[k].Release?
    ensures ops[k].i < |run[k].ptrs|
    ensures Holds(start, top, run[k + 1]) <==> !Swaps(run[k], ops[k].i)
  {
    RunHolds(start, top, run, ops, k);
    assert Step(run[k], ops[k], run[k + 1]);
    ReleaseExactly(start, top, run[k], ops[k].i, run[k + 1]);
  }

  /** Up to the first swap live payloads never overlap and stay inside the pool. */
  lemma LivePayloadsApart(start: int, top: nat, run: seq<Process>, ops: seq<Op>, k: nat, i: nat, j: nat)
    requires IsRun(start, top, run, ops) && k < |run| && NoSwaps(run, ops, k)
    requires i < |run[k].ptrs| && j < |run[k].ptrs| && i != j
    ensures Clear(start, top, run[k], i, j)
  {
    RunHolds(start, top, run, ops, k);
    var p: Pool :| Witness(start, top, run[k], p);
    PayloadsApart(run[k], p, i, j);
  }

  /** The address of a payload is not that of a block. */
  lemma PayloadUnlisted(p: Pool, j: nat, a: int)
    requires Tiled(p) && j < |p.live| && PayloadStart(p.live[j]) <= a < p.live[j].addr + Bytes(p.live[j].order)
    ensures Unlisted(p.lists, a) && forall i :: 0 <= i < |p.live| ==> a != p.live[i].addr
  {
    forall m | 0 <= m < |p.lists| ensures a !in p.lists[m] {
      if FreeAt(p, a, m) {
        PayloadHasNoHeader(p, j, a, a, m);
      }
    }
    forall i | 0 <= i < |p.live| ensures a != p.live[i].addr {
      assert LiveAt(p, p.live[i].addr, p.live[i].order);
      PayloadHasNoHeader(p, j, a, p.live[i].addr, p.live[i].order);
    }
  }

  /** A release without swap leaves the payloads of the other allocations as they were. */
  lemma ReleaseKeepsPayload(start: int, top: nat, s: Process, i: nat, t: Process, j: nat, a: int)
    requires Holds(start, top, s) && Step(s, Release(i), t) && !Swaps(s, i)
    requires j < |s.ptrs| && j != i && InPayload(s, j, a)
    ensures At(t.heap, a) == At(s.heap, a)
  {
    var p: Pool :| Witness(start, top, s, p);
    assert Owned(s, p, i);
    LiveFrame(s, p, j);
    PayloadUnlisted(p, j, a);
    var q := FreeAny(s.heap, p, i);
  }

  lemma RequestKeeps(start: int, top: nat, s: Process, size: nat, t: Process, j: nat, a: int)
    requires Holds(start, top, s) && Step(s, Request(size), t) && j < |s.ptrs| && InPayload(s, j, a)
    ensures j < |t.ptrs| && t.ptrs[j] == s.ptrs[j] && At(t.heap, a) == At(s.heap, a)
  {
    var p: Pool :| Witness(start, top, s, p);
    RequestKeepsPayload(s, p, size, t, j, a);
  }

  /** Up to the first swap malloc and free leave every payload that stays live as its owner wrote it. */
  lemma PayloadsKept(start: int, top: nat, run: seq<Process>, ops: seq<Op>, k: nat, j: nat, a: int)
    requires IsRun(start, top, run, ops) && k < |ops| && NoSwaps(run, ops, k + 1)
    requires !ops[k].Write? && j < |run[k].ptrs| && InPayload(run[k], j, a) && (ops[k].Release? ==> j != ops[k].i)
    ensures At(run[k + 1].heap, a) == At(run[k].heap, a)
  {
    RunHolds(start, top, run, ops, k);
    assert Step(run[k], ops[k], run[k + 1]);
    if ops[k].Request? {
      RequestKeeps(start, top, run[k], ops[k].size, run[k + 1], j, a);
    } else {
      ReleaseKeepsPayload(start, top, run[k], ops[k].i, run[k + 1], j, a);
    }
  }
}
