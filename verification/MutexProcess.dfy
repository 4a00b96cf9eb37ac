/**
 The mutex object and the threads of one process, changed in place. Each step performs the shared
 accesses of pthread_mutex_lock and pthread_mutex_unlock on the two fields and is proved to be the
 transition of the state machine; `RunToEnd` drives an arbitrary schedule to its end.
 */
module MutexProcess {
  import opened Mutex
  import opened MutexProgress

  class Process {
    var lock: int
    var owner: int
    const threads: array<Thread>

    ghost function Snapshot(): State
      reads this, threads
    {
      State(lock, owner, threads[..])
    }

    constructor (ts: array<Thread>)
      requires DistinctIds(ts[..]) && forall i :: 0 <= i < ts.Length ==> Fresh(ts[i])
      ensures threads == ts && Init(Snapshot())
    {
      threads := ts;
      lock, owner := 0, 0;
    }

    /** Thread t's next access inside pthread_mutex_lock. */
    method StepLock(t: nat)
      requires Enabled(Snapshot(), Run(t))
      requires threads[t].pc in {LockCheck, TryCas, SetOwner, CallWait, Woken}
      modifies this`lock, this`owner, threads
      ensures Snapshot() == Next(old(Snapshot()), Run(t))
    {
      var th := threads[t];
      match th.pc
      case LockCheck =>
        if owner == th.tid {
          threads[t] := Return(th, -1);
        } else {
          threads[t] := th.(pc := TryCas);
        }
      case TryCas =>
        if lock == 0 {
          lock := 1;
          threads[t] := th.(pc := SetOwner, holds := true);
        } else {
          var spinning := th.spin > 0;
          threads[t] := th.(spin := th.spin - 1, pc := if spinning then TryCas else CallWait);
        }
      case SetOwner =>
        owner := th.tid;
        threads[t] := Return(th, 0);
      case CallWait =>
        if lock == 1 {
          threads[t] := th.(pc := Asleep);
        } else {
          threads[t] := th.(spin := SPIN, pc := TryCas);
        }
      case Woken =>
        threads[t] := th.(spin := SPIN, pc := TryCas);
    }

    /** Thread t's next access inside pthread_mutex_unlock, up to its wake-up call. */
    method StepUnlock(t: nat)
      requires Enabled(Snapshot(), Run(t)) && threads[t].pc in {UnlockCheck, ClearOwner, StoreLock}
      modifies this`lock, this`owner, threads
      ensures Snapshot() == Next(old(Snapshot()), Run(t))
    {
      var th := threads[t];
      match th.pc
      case UnlockCheck =>
        if owner != th.tid {
          threads[t] := Return(th, -1);
        } else {
          threads[t] := th.(pc := ClearOwner);
        }
      case ClearOwner =>
        owner := 0;
        threads[t] := th.(pc := StoreLock);
      case StoreLock =>
        lock := 0;
        threads[t] := th.(pc := CallWake, holds := false);
    }

    /** Thread t enters its next call. */
    method Call(t: nat)
      requires Enabled(Snapshot(), Run(t)) && threads[t].pc == Between
      modifies threads
      ensures Snapshot() == Next(old(Snapshot()), Run(t))
    {
      var th := threads[t];
      if th.rest[0].Lock? {
        threads[t] := th.(pc := LockCheck, spin := SPIN);
      } else {
        threads[t] := th.(pc := UnlockCheck);
      }
    }

    /** FUTEX_WAKE for one waiter: the kernel picks any sleeper, if there is one. */
    method FutexWake(t: nat) returns (l: Label)
      requires t < threads.Length && threads[t].rest != [] && threads[t].pc == CallWake
      modifies threads
      ensures (l == Run(t) || (l.Wake? && l.t == t)) && Enabled(old(Snapshot()), l)
      ensures Snapshot() == Next(old(Snapshot()), l)
    {
      var th := threads[t];
      if w: nat :| 0 <= w < threads.Length && threads[w].pc == Asleep {
        threads[t] := Return(th, 0);
        threads[w] := threads[w].(pc := Woken);
        assert Asleeping(old(Snapshot()), w);
        l := Wake(t, w);
      } else {
        threads[t] := Return(th, 0);
        l := Run(t);
      }
    }

    predicate Runnable(t: nat)
      reads this, threads
    {
      t < threads.Length && threads[t].rest != [] && threads[t].pc != Asleep
    }

    /** Whatever thread t does next. */
    method Step(t: nat) returns (ghost l: Label)
      requires Inv(Snapshot()) && Runnable(t)
      modifies this`lock, this`owner, threads
      ensures (l.Run? || l.Wake?) && l.t == t && Enabled(old(Snapshot()), l)
      ensures Snapshot() == Next(old(Snapshot()), l)
    {
      assert ThreadOk(Snapshot().threads[t]);
      l := Run(t);
      if threads[t].pc == Between {
        Call(t);
      } else if threads[t].pc == CallWake {
        l := FutexWake(t);
      } else if threads[t].rest[0].Lock? {
        StepLock(t);
      } else {
        StepUnlock(t);
      }
    }

    /** Any scheduler: it always stops, with no step it could still take. */
    method RunToEnd() returns (ghost run: seq<State>, ghost labels: seq<Label>)
      requires Init(Snapshot())
      modifies this`lock, this`owner, threads
      ensures IsRun(run, labels) && run[0] == old(Snapshot()) && run[|labels|] == Snapshot()
      ensures Stuck(Snapshot()) && |labels| <= Rank(run[0])
    {
      run, labels := [Snapshot()], [];
      Reachable(run, labels, 0);
      ghost var start := Snapshot();
      while exists t :: 0 <= t < threads.Length && Runnable(t)
        invariant Traced(run, labels, start, Snapshot())
        invariant Inv(Snapshot())
        decreases Rank(Snapshot())
      {
        var t: nat :| t < threads.Length && Runnable(t);
        ghost var s := Snapshot();
        ghost var l := Step(t);
        StepLowersRank(s, l);
        StepKeepsInv(s, l);
        run, labels := Extend(run, labels, l, start);
      }
      EveryScheduleIsFinite(run, labels);
      NoneRunnable();
    }

    lemma NoneRunnable()
      requires forall t :: 0 <= t < threads.Length ==> !Runnable(t)
      ensures Stuck(Snapshot())
    {
      forall l: Label | l.Run? || l.Wake? ensures !Enabled(Snapshot(), l) {
        assert l.t < threads.Length ==> !Runnable(l.t);
      }
    }
  }

  /** A run from start to now in which waits end only by a wake-up or EAGAIN. */
  ghost predicate Traced(run: seq<State>, labels: seq<Label>, start: State, now: State) {
    && IsRun(run, labels) && run[0] == start && run[|labels|] == now
    && forall k :: 0 <= k < |labels| ==> labels[k].Run? || labels[k].Wake?
  }

  lemma Extend(run: seq<State>, labels: seq<Label>, l: Label, start: State)
    returns (run': seq<State>, labels': seq<Label>)
    requires |run| == |labels| + 1 && Traced(run, labels, start, run[|labels|])
    requires (l.Run? || l.Wake?) && Enabled(run[|labels|], l)
    ensures Traced(run', labels', start, Next(run[|labels|], l))
  {
    run', labels' := run + [Next(run[|labels|], l)], labels + [l];
  }
}
