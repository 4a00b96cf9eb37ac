/**
 Progress of the futex mutex when a wait ends only by a wake-up or by EAGAIN: every schedule is
 finite, with an explicit bound, and stops only when every program has ended or its mutex is held
 for ever by a program that ended holding it. No fairness is assumed.
 */
module MutexProgress {
  import opened Mutex
  import opened Sums

  // ---------------------------------------------------------------- weights

  function Unlocks(ops: seq<Op>): nat {
    if ops == [] then 0 else (if ops[0].Unlock? then 1 else 0) + Unlocks(ops[1..])
  }

  /** Stores of 0 to the lock word this thread may still perform. */
  function Stores(th: Thread): nat {
    if th.pc == CallWake && Unlocks(th.rest) > 0 then Unlocks(th.rest) - 1 else Unlocks(th.rest)
  }

  function Wakes(th: Thread): nat {
    if th.pc == CallWake then 1 else 0
  }

  /** Steps a thread can still take before the lock word changes or somebody wakes it. */
  function Steps(th: Thread, lock: int): nat {
    200 * |th.rest| +
    match th.pc
    case Between => 110
    case LockCheck => 106
    case TryCas => if lock == 0 then 1 else if th.spin > 0 then 3 + th.spin else 3
    case SetOwner => 1
    case CallWait => 2
    case Asleep => 0
    case Woken => 105
    case UnlockCheck => 3
    case ClearOwner => 2
    case StoreLock => 1
    case CallWake => 0
  }

  function StoreWeights(ts: seq<Thread>): (w: seq<nat>) {
    seq(|ts|, i requires 0 <= i < |ts| => Stores(ts[i]))
  }

  function WakeWeights(ts: seq<Thread>): (w: seq<nat>) {
    seq(|ts|, i requires 0 <= i < |ts| => Wakes(ts[i]))
  }

  function StepWeights(ts: seq<Thread>, lock: int): (w: seq<nat>) {
    seq(|ts|, i requires 0 <= i < |ts| => Steps(ts[i], lock))
  }

  function RoomWeights(ts: seq<Thread>): (w: seq<nat>) {
    seq(|ts|, i requires 0 <= i < |ts| => 200 * |ts[i].program| + 110)
  }

  function StoresLeft(s: State): nat { Sum(StoreWeights(s.threads)) }

  function WakesPending(s: State): nat { Sum(WakeWeights(s.threads)) }

  function StepsLeft(s: State): nat { Sum(StepWeights(s.threads, s.lock)) }

  /** Releases still to come, then whether the lock is free: it can be swapped once per release. */
  function Epochs(s: State): nat {
    2 * StoresLeft(s) + if s.lock == 0 then 1 else 0
  }

  // ---------------------------------------------------------------- the measure falls

  lemma SumsAfter(s: State, t: nat, th: Thread, lock: int, owner: int)
    requires t < |s.threads|
    ensures var s' := State(lock, owner, s.threads[t := th]);
            && StoresLeft(s') == StoresLeft(s) - Stores(s.threads[t]) + Stores(th)
            && WakesPending(s') == WakesPending(s) - Wakes(s.threads[t]) + Wakes(th)
            && (lock == s.lock ==> StepsLeft(s') == StepsLeft(s) - Steps(s.threads[t], lock) + Steps(th, lock))
  {
    var ts, ts' := s.threads, s.threads[t := th];
    assert StoreWeights(ts') == StoreWeights(ts)[t := Stores(th)];
    assert WakeWeights(ts') == WakeWeights(ts)[t := Wakes(th)];
    assert StepWeights(ts', s.lock) == StepWeights(ts, s.lock)[t := Steps(th, s.lock)];
    SumUpdate(StoreWeights(ts), t, Stores(th));
    SumUpdate(WakeWeights(ts), t, Wakes(th));
    SumUpdate(StepWeights(ts, s.lock), t, Steps(th, s.lock));
  }

  /** The lexicographic order of the measure. */
  predicate Below(s': State, s: State) {
    || Epochs(s') < Epochs(s)
    || (Epochs(s') == Epochs(s) && WakesPending(s') < WakesPending(s))
    || (Epochs(s') == Epochs(s) && WakesPending(s') == WakesPending(s) && StepsLeft(s') < StepsLeft(s))
  }

  /** One step of a thread: fewer releases to come, or the free lock taken, or a wake-up issued, or
      fewer steps left. */
  lemma ThreadGoesDown(lock: int, owner: int, th: Thread)
    requires PcOk(th) && th.rest != [] && th.pc != Asleep && (lock == 0 || lock == 1)
    ensures var (lock', owner', th') := RunThread(lock, owner, th);
            || Stores(th') < Stores(th)
            || (Stores(th') == Stores(th) && lock == 0 && lock' == 1)
            || (Stores(th') == Stores(th) && lock' == lock && Wakes(th') < Wakes(th))
            || (Stores(th') == Stores(th) && lock' == lock && Wakes(th') == Wakes(th) && Steps(th', lock) < Steps(th, lock))
  {
    assert Unlocks(th.rest) == (if th.rest[0].Unlock? then 1 else 0) + Unlocks(th.rest[1..]);
  }

  lemma RunGoesDown(s: State, t: nat)
    requires Inv(s) && Enabled(s, Run(t))
    ensures Below(Next(s, Run(t)), s)
  {
    var th := s.threads[t];
    assert ThreadOk(th);
    var (lock, owner, th') := RunThread(s.lock, s.owner, th);
    ThreadGoesDown(s.lock, s.owner, th);
    SumsAfter(s, t, th', lock, owner);
  }

  lemma WakeGoesDown(s: State, t: nat, w: nat)
    requires Inv(s) && Enabled(s, Wake(t, w))
    ensures Below(Next(s, Wake(t, w)), s)
  {
    var th := s.threads[t];
    assert ThreadOk(th) && ThreadOk(s.threads[w]);
    var mid := s.(threads := s.threads[t := Return(th, 0)]);
    SumsAfter(s, t, Return(th, 0), s.lock, s.owner);
    SumsAfter(mid, w, s.threads[w].(pc := Woken), s.lock, s.owner);
    assert Unlocks(th.rest) == 1 + Unlocks(th.rest[1..]);
  }

  // ---------------------------------------------------------------- a numeric bound

  /** More steps than any state of a run from s can have left within one epoch. */
  function StepRoom(s: State): nat { 1 + Sum(RoomWeights(s.threads)) }

  lemma StepsBounded(s: State)
    requires Inv(s)
    ensures StepsLeft(s) < StepRoom(s) && WakesPending(s) <= |s.threads|
  {
    forall i | 0 <= i < |s.threads|
      ensures StepWeights(s.threads, s.lock)[i] <= RoomWeights(s.threads)[i]
    {
      assert ThreadOk(s.threads[i]);
    }
    SumMonotone(StepWeights(s.threads, s.lock), RoomWeights(s.threads));
    SumAtMostLength(WakeWeights(s.threads));
  }

  /** The measure folded into one number. */
  function Rank(s: State): nat {
    Fold(Fold(Epochs(s), |s.threads| + 1, WakesPending(s)), StepRoom(s), StepsLeft(s))
  }

  function Fold(high: nat, m: nat, low: nat): nat {
    high * m + low
  }

  lemma FoldsLexicographically(x': nat, x: nat, y': nat, y: nat, m: nat)
    requires (x' < x && y' < m) || (x' == x && y' < y)
    ensures Fold(x', m, y') < Fold(x, m, y)
  {
    if x' < x {
      assert (x' + 1) * m <= x * m;
    }
  }

  lemma SameRoom(s: State, s': State)
    requires SamePrograms(s, s')
    ensures StepRoom(s) == StepRoom(s')
  {
    assert RoomWeights(s.threads) == RoomWeights(s'.threads);
  }

  lemma BelowLowersRank(s: State, s': State)
    requires Below(s', s) && |s'.threads| == |s.threads| && StepRoom(s') == StepRoom(s)
    requires StepsLeft(s') < StepRoom(s) && WakesPending(s') <= |s.threads|
    ensures Rank(s') < Rank(s)
  {
    var m := |s.threads| + 1;
    var high', high := Fold(Epochs(s'), m, WakesPending(s')), Fold(Epochs(s), m, WakesPending(s));
    if Epochs(s') < Epochs(s) || WakesPending(s') < WakesPending(s) {
      FoldsLexicographically(Epochs(s'), Epochs(s), WakesPending(s'), WakesPending(s), m);
    }
    FoldsLexicographically(high', high, StepsLeft(s'), StepsLeft(s), StepRoom(s));
  }

  /** Every step that is not an early end of a wait lowers the rank. */
  lemma StepLowersRank(s: State, l: Label)
    requires Inv(s) && Enabled(s, l) && (l.Run? || l.Wake?)
    ensures Rank(Next(s, l)) < Rank(s)
  {
    var s' := Next(s, l);
    StepKeepsInv(s, l);
    StepsBounded(s');
    SameRoom(s, s');
    if l.Run? {
      RunGoesDown(s, l.t);
    } else {
      WakeGoesDown(s, l.t, l.w);
    }
    BelowLowersRank(s, s');
  }

  /** Every schedule is finite: a run takes at most Rank(run[0]) steps. */
  lemma {:induction false} EveryScheduleIsFinite(run: seq<State>, labels: seq<Label>)
    requires IsRun(run, labels)
    requires forall k :: 0 <= k < |labels| ==> labels[k].Run? || labels[k].Wake?
    ensures |labels| + Rank(run[|labels|]) <= Rank(run[0])
  {
    if labels != [] {
      var n := |labels| - 1;
      EveryScheduleIsFinite(run[..|labels|], labels[..n]);
      Reachable(run, labels, n);
      assert Moves(run[n], labels[n], run[n + 1]);
      StepLowersRank(run[n], labels[n]);
    }
  }

  // ---------------------------------------------------------------- where a schedule can stop

  ghost predicate Stuck(s: State) {
    forall l: Label :: l.Run? || l.Wake? ==> !Enabled(s, l)
  }

  predicate Finished(s: State) {
    forall i :: 0 <= i < |s.threads| ==> s.threads[i].rest == []
  }

  predicate EndsLocked(ops: seq<Op>) {
    ops != [] && ops[|ops| - 1].Lock?
  }

  /** A program ends holding the mutex exactly when its last call is a lock. */
  lemma {:induction false} LastReplyHolds(ops: seq<Op>, held: bool)
    ensures HeldAfter(ops, held) == if ops == [] then held else EndsLocked(ops)
  {
    if ops != [] {
      LastReplyHolds(ops[1..], ops[0].Lock?);
      assert |ops| > 1 ==> ops[1..][|ops| - 2] == ops[|ops| - 1];
    }
  }

  predicate HeldAfter(ops: seq<Op>, held: bool) {
    if ops == [] then held else HeldAfter(ops[1..], ops[0].Lock?)
  }

  /** What a thread will hold at its end is settled by its program from the start. */
  predicate EndSettled(th: Thread) {
    HeldAfter(th.program, false) == HeldAfter(th.rest, HeldAtCall(th))
  }

  lemma StepKeepsEndsSettled(s: State, l: Label)
    requires Inv(s) && Enabled(s, l) && forall i :: 0 <= i < |s.threads| ==> EndSettled(s.threads[i])
    ensures forall i :: 0 <= i < |s.threads| ==> EndSettled(Next(s, l).threads[i])
  {
    var th := s.threads[l.t];
    assert ThreadOk(th);
    if l.Run? {
      assert s.owner == th.tid <==> Owns(th);
    } else if l.Wake? {
      assert HeldAfter(th.rest, true) == HeldAfter(th.rest[1..], false);
    }
  }

  lemma {:induction false} EndsAreSettled(run: seq<State>, labels: seq<Label>, k: nat)
    requires IsRun(run, labels) && k < |run|
    ensures forall i :: 0 <= i < |run[k].threads| ==> EndSettled(run[k].threads[i])
  {
    if k > 0 {
      EndsAreSettled(run, labels, k - 1);
      Reachable(run, labels, k - 1);
      assert Moves(run[k - 1], labels[k - 1], run[k]);
      StepKeepsEndsSettled(run[k - 1], labels[k - 1]);
    }
  }

  lemma StuckThread(s: State, i: nat)
    requires Inv(s) && Stuck(s) && i < |s.threads|
    ensures s.threads[i].rest == [] || s.threads[i].pc == Asleep
    ensures s.threads[i].rest == [] ==> s.threads[i].pc == Between
  {
    var th := s.threads[i];
    assert ThreadOk(th);
    if th.rest != [] && th.pc != Asleep {
      assert !Enabled(s, Run(i));
      var w :| 0 <= w < |s.threads| && Asleeping(s, w);
      assert Enabled(s, Wake(i, w));
    }
  }

  /** Deadlock freedom: a run stops only when all programs are done, or when a program whose last
      call is a lock has ended, holds the mutex, and everyone left sleeps on it. */
  lemma WhereSchedulesStop(run: seq<State>, labels: seq<Label>)
    requires IsRun(run, labels) && Stuck(run[|labels|])
    ensures
      var s := run[|labels|];
      && |s.threads| == |run[0].threads|
      && (forall i :: 0 <= i < |s.threads| ==> s.threads[i].rest == [] || Asleeping(s, i))
      && (Finished(s)
      || exists i :: 0 <= i < |s.threads| && s.threads[i].holds && s.threads[i].rest == []
                      && EndsLocked(run[0].threads[i].program))
  {
    var s := run[|labels|];
    Reachable(run, labels, |labels|);
    EndsAreSettled(run, labels, |labels|);
    forall i | 0 <= i < |s.threads|
      ensures s.threads[i].rest == [] || Asleeping(s, i)
      ensures s.threads[i].rest == [] ==> s.threads[i].pc == Between
    {
      StuckThread(s, i);
    }
    if !Finished(s) {
      assert s.lock == 1;
      var h :| 0 <= h < |s.threads| && s.threads[h].holds;
      assert ThreadOk(s.threads[h]);
      assert EndSettled(s.threads[h]);
      LastReplyHolds(run[0].threads[h].program, false);
    }
  }

  /** When no program ends with a lock, every maximal run completes every program, with exactly
      the sequential replies, and leaves the mutex free. */
  lemma BalancedProgramsComplete(run: seq<State>, labels: seq<Label>)
    requires IsRun(run, labels) && Stuck(run[|labels|])
    requires forall i :: 0 <= i < |run[0].threads| ==> !EndsLocked(run[0].threads[i].program)
    ensures Finished(run[|labels|]) && run[|labels|].lock == 0 && run[|labels|].owner == 0
    ensures |run[|labels|].threads| == |run[0].threads|
    ensures forall i :: 0 <= i < |run[0].threads| ==>
              run[|labels|].threads[i].replies == Replies(run[0].threads[i].program, false)
  {
    var s := run[|labels|];
    WhereSchedulesStop(run, labels);
    Reachable(run, labels, |labels|);
    EndsAreSettled(run, labels, |labels|);
    forall i | 0 <= i < |s.threads|
      ensures !s.threads[i].holds
      ensures s.threads[i].replies == Replies(run[0].threads[i].program, false)
    {
      assert ThreadOk(s.threads[i]) && EndSettled(s.threads[i]);
      LastReplyHolds(run[0].threads[i].program, false);
      RepliesAreSequential(run, labels, |labels|, i);
    }
  }
}
