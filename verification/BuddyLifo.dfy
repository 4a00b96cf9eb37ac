/**
 Whole runs of the buddy allocator over one pool that release in reverse order of allocation.
 */
module BuddyLifo {
  import opened Words
  import opened BuddyHeap
  import opened BuddyPool
  import opened BuddyRuns
  import opened BuddyProcess

  /** Every release is of the youngest allocation. */
  ghost predicate IsRun(start: int, top: nat, run: seq<Process>, ops: seq<Op>) {
    && |run| == |ops| + 1 && Starts(start, top, run[0])
    && forall k :: 0 <= k < |ops| ==>
         Step(run[k], ops[k], run[k + 1]) && (ops[k].Release? ==> ops[k].i + 1 == |run[k].ptrs|)
  }

  /** The heap stands for the pool in which exactly the live requests have been granted. */
  ghost predicate Holds(start: int, top: nat, s: Process) {
    top < MAX_ORDER && Fits(start, top, s.sizes) && StandsFor(s, Replay(start, top, s.sizes))
  }

  lemma RequestHolds(start: int, top: nat, s: Process, size: nat, t: Process)
    requires Holds(start, top, s) && Step(s, Request(size), t)
    ensures Holds(start, top, t)
  {
    ReplayOk(start, top, s.sizes);
    RequestStands(s, Replay(start, top, s.sizes), size, t);
    assert (s.sizes + [size])[..|s.sizes|] == s.sizes;
  }

  /** Releasing allocation i takes only straight merges: no swap and no invalid buddy. */
  ghost predicate StraightRelease(s: Process, i: nat) {
    i < |s.ptrs| && |s.heap.heads| == MAX_ORDER &&
    var block := s.ptrs[i] - HEADER_SIZE;
    && At(s.heap, block).order < MAX_ORDER
    && MergesStraight(Put(s.heap, block, At(s.heap, block).(isFree := true)), block)
  }

  /** Without the youngest allocation the process stands for the pool before it. */
  lemma YoungestReleased(s: Process, p: Pool, size: nat, t: Process)
    requires PoolOk(p) && p.lifo && Room(p, size) && StandsFor(s, Grant(p, size))
    requires Step(s, Release(|p.live|), t)
    ensures StandsFor(t, p) && OnlyWithin(s.heap, t.heap, NextFrame(p, size).addr, NextFrame(p, size).from)
    ensures StraightRelease(s, |p.live|)
  {
    var n, q := |p.live|, Grant(p, size);
    assert Owned(s, q, n);
    FreeUndoes(s.heap, p, size);
    GrantedFrame(p, size);
    forall i | 0 <= i < n ensures Owned(t, p, i) {
      assert Owned(s, q, i);
    }
  }

  lemma ReleaseHolds(start: int, top: nat, s: Process, t: Process)
    requires Holds(start, top, s) && s.ptrs != [] && Step(s, Release(|s.ptrs| - 1), t)
    ensures Holds(start, top, t)
    ensures StraightRelease(s, |s.ptrs| - 1)
  {
    var n := |s.sizes| - 1;
    ReplayOk(start, top, s.sizes[..n]);
    YoungestReleased(s, Replay(start, top, s.sizes[..n]), s.sizes[n], t);
    assert t.sizes == s.sizes[..n];
  }

  lemma WriteHolds(start: int, top: nat, s: Process, i: nat, addr: int, data: Header, t: Process)
    requires Holds(start, top, s) && Step(s, Write(i, addr, data), t)
    ensures Holds(start, top, t)
  {
    ReplayOk(start, top, s.sizes);
    WriteStands(s, Replay(start, top, s.sizes), i, addr, data, t);
  }

  lemma StepHolds(start: int, top: nat, s: Process, op: Op, t: Process)
    requires Holds(start, top, s) && Step(s, op, t) && (op.Release? ==> op.i + 1 == |s.ptrs|)
    ensures Holds(start, top, t)
  {
    match op
    case Request(size) => RequestHolds(start, top, s, size, t);
    case Release(_) => ReleaseHolds(start, top, s, t);
    case Write(i, addr, data) => WriteHolds(start, top, s, i, addr, data, t);
  }

  /** At every state of every run the heap stands for the pool of exactly the live requests, and that
      pool is tiled by its blocks. */
  lemma {:induction false} RunHolds(start: int, top: nat, run: seq<Process>, ops: seq<Op>, k: nat)
    requires IsRun(start, top, run, ops) && k < |run|
    ensures Holds(start, top, run[k]) && PoolOk(Replay(start, top, run[k].sizes))
    decreases k
  {
    if k == 0 {
      InitRepresents(start, top);
    } else {
      RunHolds(start, top, run, ops, k - 1);
      var s, op, t := run[k - 1], ops[k - 1], run[k];
      assert Step(s, op, t) && (op.Release? ==> op.i + 1 == |s.ptrs|);
      StepHolds(start, top, s, op, t);
    }
    ReplayOk(start, top, run[k].sizes);
  }

  /** Once everything is freed, the heap holds one free block of the original order with its original
      header, and every other list is empty. */
  lemma FreeingAllRestoresThePool(start: int, top: nat, run: seq<Process>, ops: seq<Op>, k: nat)
    requires IsRun(start, top, run, ops) && k < |run| && run[k].sizes == []
    ensures run[k].heap.heads == run[0].heap.heads
    ensures At(run[k].heap, start) == Header(Bytes(top) - HEADER_SIZE, top, true, 0, 0)
  {
    RunHolds(start, top, run, ops, k);
    RunHolds(start, top, run, ops, 0);
    var p := Whole(start, top);
    forall o: nat | o < MAX_ORDER ensures run[k].heap.heads[o] == run[0].heap.heads[o] {
      assert ListHeld(run[k].heap, p, p.lists[o], o) && ListHeld(run[0].heap, p, p.lists[o], o);
    }
    assert run[k].heap.heads == run[0].heap.heads;
    assert ListHeld(run[k].heap, p, p.lists[top], top);
    assert ChainLink(run[k].heap, p.lists[top], 0) && FreeHeader(run[k].heap, p, p.lists[top][0], top);
  }

  /** The swap and invalid-buddy branches of merge_blocks are never reached. */
  lemma NeverSwaps(start: int, top: nat, run: seq<Process>, ops: seq<Op>, k: nat)
    requires IsRun(start, top, run, ops) && k < |ops| && ops[k].Release?
    ensures StraightRelease(run[k], ops[k].i)
  {
    RunHolds(start, top, run, ops, k);
    assert Step(run[k], ops[k], run[k + 1]) && ops[k].i + 1 == |run[k].ptrs|;
    ReleaseHolds(start, top, run[k], run[k + 1]);
  }

  /** A request is refused only when no free block is large enough, and then changes nothing; a
      granted payload is as large as asked exactly when size + sizeof(block_t) does not wrap. */
  lemma RequestsAreServed(start: int, top: nat, run: seq<Process>, ops: seq<Op>, k: nat)
    requires IsRun(start, top, run, ops) && k < |ops| && ops[k].Request? && ops[k].size < WORD
    ensures Fits(start, top, run[k].sizes)
    ensures if Room(Replay(start, top, run[k].sizes), ops[k].size)
            then |run[k + 1].ptrs| == |run[k].ptrs| + 1 &&
                 (At(run[k + 1].heap, run[k + 1].ptrs[|run[k].ptrs|] - HEADER_SIZE).size >= ops[k].size
                  <==> ops[k].size + HEADER_SIZE < WORD)
            else run[k + 1] == run[k]
  {
    RunHolds(start, top, run, ops, k);
    assert Step(run[k], ops[k], run[k + 1]);
    var p := Replay(start, top, run[k].sizes);
    RequestStands(run[k], p, ops[k].size, run[k + 1]);
    if Room(p, ops[k].size) {
      RequestServed(run[k], p, ops[k].size, run[k + 1]);
    }
  }

  /** Live payloads, as their headers delimit them, never overlap and stay inside the pool. */
  lemma LivePayloadsApart(start: int, top: nat, run: seq<Process>, ops: seq<Op>, k: nat, i: nat, j: nat)
    requires IsRun(start, top, run, ops) && k < |run| && i < |run[k].ptrs| && j < |run[k].ptrs| && i != j
    ensures Clear(start, top, run[k], i, j)
  {
    RunHolds(start, top, run, ops, k);
    ReplayOk(start, top, run[k].sizes);
    PayloadsApart(run[k], Replay(start, top, run[k].sizes), i, j);
  }

  lemma ReleaseKeepsPayloads(start: int, top: nat, s: Process, t: Process, i: nat, a: int)
    requires Holds(start, top, s) && i + 1 < |s.ptrs| && Step(s, Release(|s.ptrs| - 1), t) && InPayload(s, i, a)
    ensures t.ptrs[i] == s.ptrs[i] && At(t.heap, a) == At(s.heap, a)
  {
    var n := |s.sizes| - 1;
    var p := Replay(start, top, s.sizes[..n]);
    ReplayOk(start, top, s.sizes[..n]);
    YoungestReleased(s, p, s.sizes[n], t);
    GrantedFrame(p, s.sizes[n]);
    LiveFrame(s, Replay(start, top, s.sizes), i);
    BlockMisses(p, s.sizes[n], i, a);
  }

  /** malloc and free leave every payload that is live before and after as its owner wrote it. */
  lemma PayloadsKept(start: int, top: nat, run: seq<Process>, ops: seq<Op>, k: nat, i: nat, a: int)
    requires IsRun(start, top, run, ops) && k < |ops| && !ops[k].Write?
    requires i < |run[k].ptrs| && i < |run[k + 1].ptrs| && InPayload(run[k], i, a)
    ensures run[k + 1].ptrs[i] == run[k].ptrs[i] && At(run[k + 1].heap, a) == At(run[k].heap, a)
  {
    RunHolds(start, top, run, ops, k);
    assert Step(run[k], ops[k], run[k + 1]) && (ops[k].Release? ==> ops[k].i + 1 == |run[k].ptrs|);
    if ops[k].Request? {
      RequestKeepsPayload(run[k], Replay(start, top, run[k].sizes), ops[k].size, run[k + 1], i, a);
    } else {
      ReleaseKeepsPayloads(start, top, run[k], run[k + 1], i, a);
    }
  }
}
