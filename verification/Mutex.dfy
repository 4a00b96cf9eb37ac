/**
 The futex mutex of mini_libc/src/lock.c as a state machine over any number of threads.

 Every thread runs an arbitrary program of pthread_mutex_lock and pthread_mutex_unlock calls:
 re-entering, unlocking without holding, and never unlocking are all allowed. One step of the
 machine is one shared-memory access or one system call of one thread; memory is sequentially
 consistent. The module ExclusiveCas justifies treating the compare-and-swap as one step.
 */
module Mutex {

  datatype Op = Lock | Unlock

  /** The next shared access a thread performs. */
  datatype Pc =
    | Between      // outside both functions
    | LockCheck    // about to read owner in pthread_mutex_lock
    | TryCas       // about to compare-and-swap the lock word
    | SetOwner     // swapped 0 for 1, about to write owner
    | CallWait     // about to enter FUTEX_WAIT with expected value 1
    | Asleep       // queued by the kernel on the lock word
    | Woken        // FUTEX_WAIT has returned 0
    | UnlockCheck  // about to read owner in pthread_mutex_unlock
    | ClearOwner   // about to write 0 to owner
    | StoreLock    // about to store 0 to the lock word
    | CallWake     // about to enter FUTEX_WAKE for one waiter

  const SPIN := 100

  /** `rest` is what is left of `program`, the current call included; `holds` is a history variable
      that no step reads: true from the successful swap to the releasing store. */
  datatype Thread = Thread(tid: int, program: seq<Op>, rest: seq<Op>, pc: Pc, spin: int,
                           replies: seq<int>, holds: bool)

  datatype State = State(lock: int, owner: int, threads: seq<Thread>)

  /** The scheduler's choices: run thread t; run t's FUTEX_WAKE with the kernel picking sleeper w;
      end t's wait early, with EINTR or with a spurious 0. */
  datatype Label = Run(t: nat) | Wake(t: nat, w: nat) | Interrupt(t: nat) | Spurious(t: nat)

  function Return(th: Thread, code: int): Thread
    requires th.rest != []
  {
    th.(pc := Between, rest := th.rest[1..], replies := th.replies + [code])
  }

  /** One step of a thread: the new lock word, owner and thread. */
  function RunThread(lock: int, owner: int, th: Thread): (int, int, Thread)
    requires th.rest != []
  {
    match th.pc
    case Between =>
      (lock, owner, if th.rest[0].Lock? then th.(pc := LockCheck, spin := SPIN) else th.(pc := UnlockCheck))
    case LockCheck =>
      (lock, owner, if owner == th.tid then Return(th, -1) else th.(pc := TryCas))
    case TryCas =>
      if lock == 0 then (1, owner, th.(pc := SetOwner, holds := true))
      else (lock, owner, th.(spin := th.spin - 1, pc := if th.spin > 0 then TryCas else CallWait))
    case SetOwner => (lock, th.tid, Return(th, 0))
    case CallWait =>
      (lock, owner, if lock == 1 then th.(pc := Asleep) else th.(spin := SPIN, pc := TryCas))
    case Asleep => (lock, owner, th)
    case Woken => (lock, owner, th.(spin := SPIN, pc := TryCas))
    case UnlockCheck =>
      (lock, owner, if owner != th.tid then Return(th, -1) else th.(pc := ClearOwner))
    case ClearOwner => (lock, 0, th.(pc := StoreLock))
    case StoreLock => (0, owner, th.(pc := CallWake, holds := false))
    case CallWake => (lock, owner, Return(th, 0))
  }

  predicate Asleeping(s: State, t: nat) {
    t < |s.threads| && s.threads[t].pc == Asleep
  }

  predicate Enabled(s: State, l: Label) {
    match l
    case Run(t) =>
      && t < |s.threads| && s.threads[t].rest != [] && s.threads[t].pc != Asleep
      && (s.threads[t].pc == CallWake ==> forall w :: 0 <= w < |s.threads| ==> !Asleeping(s, w))
    case Wake(t, w) => t < |s.threads| && s.threads[t].rest != [] && s.threads[t].pc == CallWake && Asleeping(s, w)
    case Interrupt(t) => Asleeping(s, t)
    case Spurious(t) => Asleeping(s, t)
  }

  function Next(s: State, l: Label): State
    requires Enabled(s, l)
  {
    match l
    case Run(t) =>
      var (lock, owner, th) := RunThread(s.lock, s.owner, s.threads[t]);
      State(lock, owner, s.threads[t := th])
    case Wake(t, w) =>
      s.(threads := s.threads[t := Return(s.threads[t], 0)][w := s.threads[w].(pc := Woken)])
    case Interrupt(t) => s.(threads := s.threads[t := s.threads[t].(pc := TryCas)])
    case Spurious(t) => s.(threads := s.threads[t := s.threads[t].(pc := Woken)])
  }

  /** pthread_mutex_init has run and no thread has made a call; thread ids are distinct and non-zero. */
  predicate Init(s: State) {
    && s.lock == 0 && s.owner == 0
    && (forall i :: 0 <= i < |s.threads| ==> Fresh(s.threads[i]))
    && DistinctIds(s.threads)
  }

  predicate Fresh(th: Thread) {
    && th.tid != 0 && th.rest == th.program && th.pc == Between && th.spin == 0
    && th.replies == [] && !th.holds
  }

  predicate DistinctIds(ts: seq<Thread>) {
    forall i, j :: 0 <= i < j < |ts| ==> ts[i].tid != ts[j].tid
  }

  /** A run: states joined by labelled steps. */
  predicate IsRun(run: seq<State>, labels: seq<Label>) {
    && |run| == |labels| + 1
    && Init(run[0])
    && forall k :: 0 <= k < |labels| ==> Moves(run[k], labels[k], run[k + 1])
  }

  predicate Moves(s: State, l: Label, t: State) { Enabled(s, l) && t == Next(s, l) }

  // ---------------------------------------------------------------- safety

  /** What the calls of a program return when the thread has the mutex to itself. */
  function Replies(ops: seq<Op>, held: bool): seq<int> {
    if ops == [] then []
    else if ops[0].Lock? then [if held then -1 else 0] + Replies(ops[1..], true)
    else [if held then 0 else -1] + Replies(ops[1..], false)
  }

  /** Whether the thread held the mutex when its current call began. */
  predicate HeldAtCall(th: Thread) {
    if th.pc == SetOwner then false else if th.pc == CallWake then true else th.holds
  }

  /** The owner field carries this thread's id. */
  predicate Owns(th: Thread) {
    th.holds && th.pc != SetOwner && th.pc != StoreLock
  }

  predicate InLockLoop(th: Thread) {
    th.pc == TryCas || th.pc == CallWait || th.pc == Woken
  }

  predicate ThreadOk(th: Thread) { PcOk(th) && RepliesOk(th) }

  predicate PcOk(th: Thread) {
    && th.tid != 0
    && |th.rest| <= |th.program|
    && th.spin <= SPIN
    && (th.pc in {SetOwner, ClearOwner, StoreLock} ==> th.holds)
    && (th.pc in {TryCas, CallWait, Asleep, Woken, CallWake} ==> !th.holds)
    && (th.pc in {CallWait, Asleep, Woken} ==> th.spin < 0)
    && (th.pc != Between ==> th.rest != [])
    && (th.pc in {LockCheck, TryCas, SetOwner, CallWait, Asleep, Woken} ==> th.rest[0].Lock?)
    && (th.pc in {UnlockCheck, ClearOwner, StoreLock, CallWake} ==> th.rest[0].Unlock?)
  }

  /** What the program returns is what has been returned and what the rest will return. */
  predicate RepliesOk(th: Thread) {
    Replies(th.program, false) == th.replies + Replies(th.rest, HeldAtCall(th))
  }

  predicate MutualExclusion(s: State) {
    forall i, j :: 0 <= i < |s.threads| && 0 <= j < |s.threads| && s.threads[i].holds && s.threads[j].holds ==> i == j
  }

  predicate LockWordExact(s: State) {
    && (s.lock == 0 || s.lock == 1)
    && (s.lock == 1 <==> exists i :: 0 <= i < |s.threads| && s.threads[i].holds)
  }

  predicate OwnerExact(s: State) {
    && (forall i :: 0 <= i < |s.threads| ==> (s.owner == s.threads[i].tid <==> Owns(s.threads[i])))
    && (s.owner == 0 || exists i :: 0 <= i < |s.threads| && Owns(s.threads[i]))
  }

  predicate NoLostWakeUp(s: State) {
    s.lock == 0 && (exists t :: 0 <= t < |s.threads| && Asleeping(s, t)) ==>
      exists i :: 0 <= i < |s.threads| && (s.threads[i].pc == CallWake || InLockLoop(s.threads[i]))
  }

  predicate Inv(s: State) {
    && DistinctIds(s.threads)
    && (forall i :: 0 <= i < |s.threads| ==> ThreadOk(s.threads[i]))
    && MutualExclusion(s)
    && LockWordExact(s)
    && OwnerExact(s)
    && NoLostWakeUp(s)
  }

  lemma RunRepliesOk(lock: int, owner: int, th: Thread)
    requires PcOk(th) && RepliesOk(th) && th.rest != [] && (owner == th.tid <==> Owns(th))
    ensures RepliesOk(RunThread(lock, owner, th).2)
  {
    var th' := RunThread(lock, owner, th).2;
    if |th'.replies| > |th.replies| {
      ReturnReplies(th, th'.replies[|th.replies|], th'.holds);
    }
  }

  /** A call that returns what it should passes the rest of the program on. */
  lemma ReturnReplies(th: Thread, code: int, held: bool)
    requires RepliesOk(th) && th.rest != [] && held == th.rest[0].Lock?
    requires code == if HeldAtCall(th) == held then -1 else 0
    ensures Replies(th.program, false) == (th.replies + [code]) + Replies(th.rest[1..], held)
  {
    assert Replies(th.rest, HeldAtCall(th)) == [code] + Replies(th.rest[1..], held);
  }

  /** No step changes how many threads there are, who they are or what they run. */
  predicate SamePrograms(s: State, s': State) {
    && |s'.threads| == |s.threads|
    && forall i :: 0 <= i < |s.threads| ==>
         s'.threads[i].tid == s.threads[i].tid && s'.threads[i].program == s.threads[i].program
  }

  lemma RunKeepsThreads(s: State, t: nat)
    requires Inv(s) && Enabled(s, Run(t))
    ensures SamePrograms(s, Next(s, Run(t)))
    ensures forall i :: 0 <= i < |s.threads| ==> ThreadOk(Next(s, Run(t)).threads[i])
  {
    var s' := Next(s, Run(t));
    assert ThreadOk(s.threads[t]) && (s.owner == s.threads[t].tid <==> Owns(s.threads[t]));
    RunRepliesOk(s.lock, s.owner, s.threads[t]);
    forall i | 0 <= i < |s.threads| ensures ThreadOk(s'.threads[i]) {
      assert ThreadOk(s.threads[i]);
    }
  }

  lemma RunKeepsExclusion(s: State, t: nat)
    requires Inv(s) && Enabled(s, Run(t))
    ensures MutualExclusion(Next(s, Run(t)))
  {
    var s' := Next(s, Run(t));
    if s'.threads[t].holds {
      assert s.threads[t].holds || s.lock == 0;
      assert forall i :: 0 <= i < |s.threads| && i != t ==> !s.threads[i].holds;
    }
  }

  lemma RunKeepsLockExact(s: State, t: nat)
    requires Inv(s) && Enabled(s, Run(t))
    ensures LockWordExact(Next(s, Run(t)))
  {
    var s' := Next(s, Run(t));
    var th, th' := s.threads[t], s'.threads[t];
    assert ThreadOk(th);
    if th.pc == StoreLock {
      assert forall i :: 0 <= i < |s.threads| && i != t ==> !s.threads[i].holds;
    } else if s'.lock == 1 {
      if s.lock == 1 {
        var i :| 0 <= i < |s.threads| && s.threads[i].holds;
        assert s'.threads[i].holds;
      } else {
        assert th'.holds;
      }
    }
  }

  lemma RunKeepsOwnerExact(s: State, t: nat)
    requires Inv(s) && Enabled(s, Run(t))
    ensures OwnerExact(Next(s, Run(t)))
  {
    var s' := Next(s, Run(t));
    var th, th' := s.threads[t], s'.threads[t];
    assert ThreadOk(th);
    if th.holds {
      assert forall i :: 0 <= i < |s.threads| && i != t ==> !s.threads[i].holds;
    }
    if s'.owner != 0 {
      if th.pc == SetOwner {
        assert Owns(th');
      } else {
        var i :| 0 <= i < |s.threads| && Owns(s.threads[i]);
        assert Owns(s'.threads[i]);
      }
    }
  }

  lemma RunKeepsWakeUp(s: State, t: nat)
    requires Inv(s) && Enabled(s, Run(t))
    ensures NoLostWakeUp(Next(s, Run(t)))
  {
    var s' := Next(s, Run(t));
    var th, th' := s.threads[t], s'.threads[t];
    assert ThreadOk(th);
    if s'.lock == 0 && exists w :: 0 <= w < |s.threads| && Asleeping(s', w) {
      var w :| 0 <= w < |s.threads| && Asleeping(s', w);
      if th.pc != StoreLock {
        assert s.lock == 0 && Asleeping(s, w);
        var i :| 0 <= i < |s.threads| && (s.threads[i].pc == CallWake || InLockLoop(s.threads[i]));
        assert s'.threads[i].pc == CallWake || InLockLoop(s'.threads[i]);
      } else {
        assert th'.pc == CallWake;
      }
    }
  }

  lemma WokenOk(th: Thread, pc: Pc)
    requires ThreadOk(th) && th.pc == Asleep && (pc == TryCas || pc == Woken)
    ensures ThreadOk(th.(pc := pc)) && !Owns(th) && !Owns(th.(pc := pc)) && !th.holds
  {
  }

  lemma WakerOk(th: Thread)
    requires ThreadOk(th) && th.pc == CallWake
    ensures ThreadOk(Return(th, 0)) && !Owns(th) && !Owns(Return(th, 0)) && !th.holds
  {
    assert Replies(th.rest, true) == [0] + Replies(th.rest[1..], false);
  }

  lemma KernelKeepsThreads(s: State, l: Label)
    requires Inv(s) && Enabled(s, l) && !l.Run?
    ensures SamePrograms(s, Next(s, l))
    ensures forall i :: 0 <= i < |s.threads| ==>
              && ThreadOk(Next(s, l).threads[i])
              && Next(s, l).threads[i].holds == s.threads[i].holds
              && Owns(Next(s, l).threads[i]) == Owns(s.threads[i])
    ensures exists i :: 0 <= i < |s.threads| && InLockLoop(Next(s, l).threads[i])
  {
    var s' := Next(s, l);
    var w := if l.Wake? then l.w else l.t;
    WokenOk(s.threads[w], s'.threads[w].pc);
    assert InLockLoop(s'.threads[w]);
    if l.Wake? {
      WakerOk(s.threads[l.t]);
    }
  }

  /** The lock word and owner facts depend only on who holds and who owns. */
  lemma HoldersKept(s: State, s': State)
    requires Inv(s) && SamePrograms(s, s') && s'.lock == s.lock && s'.owner == s.owner
    requires forall i :: 0 <= i < |s.threads| ==>
               s'.threads[i].holds == s.threads[i].holds && Owns(s'.threads[i]) == Owns(s.threads[i])
    ensures MutualExclusion(s') && LockWordExact(s') && OwnerExact(s')
  {
    if s.lock == 1 {
      var i :| 0 <= i < |s.threads| && s.threads[i].holds;
      assert s'.threads[i].holds;
    }
    if s.owner != 0 {
      var i :| 0 <= i < |s.threads| && Owns(s.threads[i]);
      assert Owns(s'.threads[i]);
    }
  }

  lemma StepKeepsInv(s: State, l: Label)
    requires Inv(s) && Enabled(s, l)
    ensures Inv(Next(s, l)) && SamePrograms(s, Next(s, l))
  {
    if l.Run? {
      RunKeepsThreads(s, l.t);
      RunKeepsExclusion(s, l.t);
      RunKeepsLockExact(s, l.t);
      RunKeepsOwnerExact(s, l.t);
      RunKeepsWakeUp(s, l.t);
    } else {
      KernelKeepsThreads(s, l);
      HoldersKept(s, Next(s, l));
    }
  }

  lemma {:induction false} Reachable(run: seq<State>, labels: seq<Label>, k: nat)
    requires IsRun(run, labels) && k < |run|
    ensures Inv(run[k]) && SamePrograms(run[0], run[k])
  {
    if k > 0 {
      Reachable(run, labels, k - 1);
      assert Moves(run[k - 1], labels[k - 1], run[k]);
      StepKeepsInv(run[k - 1], labels[k - 1]);
    }
  }

  /** Mutual exclusion with an exact lock word and an exact owner, in every state of every run. */
  lemma Safety(run: seq<State>, labels: seq<Label>, k: nat, i: nat)
    requires IsRun(run, labels) && k < |run| && i < |run[k].threads|
    ensures forall j :: 0 <= j < |run[k].threads| && run[k].threads[i].holds && run[k].threads[j].holds ==> i == j
    ensures run[k].threads[i].holds ==> run[k].lock == 1
    ensures run[k].lock == 1 ==> exists j :: 0 <= j < |run[k].threads| && run[k].threads[j].holds
    // whenever a thread reads owner, it finds its own id exactly if it holds the mutex
    ensures run[k].threads[i].pc in {LockCheck, UnlockCheck} ==>
              (run[k].owner == run[k].threads[i].tid <==> run[k].threads[i].holds)
  {
    Reachable(run, labels, k);
  }

  /** No wake-up is lost, in every state of every run. */
  lemma WakeUpPending(run: seq<State>, labels: seq<Label>, k: nat, t: nat)
    requires IsRun(run, labels) && k < |run| && Asleeping(run[k], t) && run[k].lock == 0
    ensures exists i :: 0 <= i < |run[k].threads| &&
                        (run[k].threads[i].pc == CallWake || InLockLoop(run[k].threads[i]))
  {
    Reachable(run, labels, k);
  }

  /** Whatever the interleaving, every call returns what it would return to a thread running alone:
      the replies so far are a prefix of the sequential ones, and all of them once the program ends. */
  lemma RepliesAreSequential(run: seq<State>, labels: seq<Label>, k: nat, i: nat)
    requires IsRun(run, labels) && k < |run| && i < |run[k].threads|
    ensures i < |run[0].threads| && run[k].threads[i].replies <= Replies(run[0].threads[i].program, false)
    ensures run[k].threads[i].rest == [] ==> run[k].threads[i].replies == Replies(run[0].threads[i].program, false)
  {
    Reachable(run, labels, k);
    assert ThreadOk(run[k].threads[i]);
  }

  // ---------------------------------------------------------------- spinning

  /** The thread after n attempts to swap while the lock word is 1. */
  function Failing(th: Thread, n: nat): (r: Thread)
    requires th.rest != []
    ensures r.rest == th.rest
  {
    if n == 0 then th
    else
      var p := Failing(th, n - 1);
      if p.pc == TryCas then RunThread(1, 0, p).2 else p
  }

  /** A thread with its whole budget makes 101 attempts before it goes to sleep, and one without any makes a
      single one. */
  lemma {:induction false} AttemptsBeforeSleeping(th: Thread, budget: nat, n: nat)
    requires th.rest != [] && th.pc == TryCas && th.spin == budget && n <= budget + 1
    ensures Failing(th, n).pc == if n <= budget then TryCas else CallWait
    ensures Failing(th, n).spin == budget - n
  {
    if n > 0 {
      AttemptsBeforeSleeping(th, budget, n - 1);
    }
  }

  /** The budget is 100 on entering the call, on EAGAIN and after a wake-up; a wait that ends with EINTR
      leaves none, so the next failed attempt ends in another wait. */
  lemma SpinBudget(run: seq<State>, labels: seq<Label>, k: nat, t: nat)
    requires IsRun(run, labels) && k < |run| && t < |run[k].threads| && run[k].threads[t].rest != []
    ensures var (s, th) := (run[k], run[k].threads[t]);
            && (th.pc == Between && th.rest[0].Lock? ==> RunThread(s.lock, s.owner, th).2.spin == 100)
            && (th.pc == Woken || (th.pc == CallWait && s.lock == 0) ==>
                  RunThread(s.lock, s.owner, th).2.pc == TryCas && RunThread(s.lock, s.owner, th).2.spin == 100)
            && (Asleeping(s, t) ==> Failing(Next(s, Interrupt(t)).threads[t], 1).pc == CallWait)
  {
    Reachable(run, labels, k);
    assert ThreadOk(run[k].threads[t]);
  }
}
