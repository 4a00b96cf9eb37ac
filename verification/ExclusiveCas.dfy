/**
 The compare-and-swap loop of mini_libc/src/lock.c, instruction by instruction: a load-exclusive,
 a compare, a store-exclusive and a retry, against any number of other threads doing the same or
 storing to the word with release. It refines an atomic compare-and-swap.
 */
module ExclusiveCas {

  datatype Op = Cas(expected: int, desired: int) | Store(value: int)

  datatype Pc =
    | Start                                          // before ldxr, or before stlr
    | Compare(tmp: int, expected: int, desired: int) // ldxr has read tmp
    | StoreEx(expected: int, desired: int)           // the comparison held, before stxr

  /** `results` holds what the finished Cas operations returned. */
  datatype Core = Core(rest: seq<Op>, pc: Pc, monitor: bool, results: seq<bool>)

  datatype State = State(word: int, cores: seq<Core>)

  /** Exec(t, true) lets a store-exclusive succeed; Exec(t, false) makes it fail, as the
      architecture always allows. Clear drops a monitor at any time. */
  datatype Label = Exec(t: nat, succeed: bool) | Clear(t: nat)

  predicate Enabled(s: State, l: Label) {
    && l.t < |s.cores|
    && (l.Exec? ==>
      var c := s.cores[l.t];
      && c.rest != []
      && (c.pc.StoreEx? && l.succeed ==> c.monitor))
  }

  function Done(c: Core, results: seq<bool>): Core
    requires c.rest != []
  {
    c.(rest := c.rest[1..], pc := Start, results := c.results + results)
  }

  /** A store to the word ends every exclusive access to it. */
  function Unmonitored(cores: seq<Core>): (r: seq<Core>)
    ensures |r| == |cores| && forall i :: 0 <= i < |r| ==> r[i] == cores[i].(monitor := false)
  {
    seq(|cores|, i requires 0 <= i < |cores| => cores[i].(monitor := false))
  }

  function Next(s: State, l: Label): State
    requires Enabled(s, l)
  {
    var c := s.cores[l.t];
    if l.Clear? then s.(cores := s.cores[l.t := c.(monitor := false)])
    else
      match c.pc
      case Start =>
        (match c.rest[0]
         case Cas(expected, desired) =>
           s.(cores := s.cores[l.t := c.(pc := Compare(s.word, expected, desired), monitor := true)])
         case Store(v) => State(v, Unmonitored(s.cores[l.t := Done(c, [])])))
      case Compare(tmp, expected, desired) =>
        s.(cores := s.cores[l.t :=
          if tmp != expected then Done(c, [false]) else c.(pc := StoreEx(expected, desired))])
      case StoreEx(_, desired) =>
        if l.succeed then
          State(desired, Unmonitored(s.cores[l.t := Done(c, [true])]))
        else s.(cores := s.cores[l.t := c.(pc := Start, monitor := false)])
  }

  predicate Init(s: State) {
    forall i :: 0 <= i < |s.cores| ==> s.cores[i].pc == Start && s.cores[i].results == []
  }

  /** States joined by labelled steps. */
  predicate IsPath(run: seq<State>, labels: seq<Label>) {
    && |run| == |labels| + 1
    && forall k :: 0 <= k < |labels| ==> Moves(run[k], labels[k], run[k + 1])
  }

  predicate Moves(s: State, l: Label, t: State) { Enabled(s, l) && t == Next(s, l) }

  predicate IsRun(run: seq<State>, labels: seq<Label>) { IsPath(run, labels) && Init(run[0]) }

  // ---------------------------------------------------------------- the atomic machine

  datatype Atomic = Atomic(rest: seq<Op>, results: seq<bool>)

  datatype AtomicState = AtomicState(word: int, cores: seq<Atomic>)

  /** Thread t performs its next operation in one indivisible step. */
  function AtomicNext(a: AtomicState, t: nat): AtomicState
    requires t < |a.cores| && a.cores[t].rest != []
  {
    var c := a.cores[t];
    match c.rest[0]
    case Store(v) => AtomicState(v, a.cores[t := Atomic(c.rest[1..], c.results)])
    case Cas(expected, desired) =>
      if a.word == expected then AtomicState(desired, a.cores[t := Atomic(c.rest[1..], c.results + [true])])
      else a.(cores := a.cores[t := Atomic(c.rest[1..], c.results + [false])])
  }

  /** One operation per entry of the schedule, in that order. */
  predicate AtomicRun(a: AtomicState, schedule: seq<nat>, b: AtomicState)
    decreases |schedule|
  {
    if schedule == [] then a == b
    else
      && schedule[0] < |a.cores| && a.cores[schedule[0]].rest != []
      && AtomicRun(AtomicNext(a, schedule[0]), schedule[1..], b)
  }

  lemma {:induction false} AtomicRunSnoc(a: AtomicState, schedule: seq<nat>, b: AtomicState, t: nat)
    requires AtomicRun(a, schedule, b) && t < |b.cores| && b.cores[t].rest != []
    ensures AtomicRun(a, schedule + [t], AtomicNext(b, t))
    decreases |schedule|
  {
    if schedule == [] {
      assert AtomicRun(AtomicNext(a, t), [], AtomicNext(b, t));
      assert ([t] + [])[1..] == [];
    } else {
      AtomicRunSnoc(AtomicNext(a, schedule[0]), schedule[1..], b, t);
      assert (schedule + [t])[1..] == schedule[1..] + [t];
    }
  }

  // ---------------------------------------------------------------- refinement

  /** A failing operation takes effect at its load, every other at its store. */
  function AbsCore(c: Core): Atomic {
    if c.pc.Compare? && c.rest != [] && c.pc.tmp != c.pc.expected
    then Atomic(c.rest[1..], c.results + [false])
    else Atomic(c.rest, c.results)
  }

  function Abs(s: State): AtomicState {
    AtomicState(s.word, seq(|s.cores|, i requires 0 <= i < |s.cores| => AbsCore(s.cores[i])))
  }

  /** While the monitor stands, the word still has the value the load read. */
  predicate CoreOk(word: int, c: Core) {
    && (!c.pc.Start? ==> c.rest != [] && c.rest[0] == Cas(c.pc.expected, c.pc.desired))
    && (c.monitor && c.pc.Compare? ==> word == c.pc.tmp)
    && (c.monitor && c.pc.StoreEx? ==> word == c.pc.expected)
  }

  predicate Inv(s: State) {
    forall i :: 0 <= i < |s.cores| ==> CoreOk(s.word, s.cores[i])
  }

  lemma StepKeepsInv(s: State, l: Label)
    requires Inv(s) && Enabled(s, l)
    ensures Inv(Next(s, l))
  {
  }

  /** The step at which the operation of core t takes effect. */
  predicate TakesEffect(s: State, l: Label)
    requires Enabled(s, l)
  {
    var c := s.cores[l.t];
    l.Exec? &&
    match c.pc
    case Start => c.rest[0].Store? || s.word != c.rest[0].expected
    case Compare(_, _, _) => false
    case StoreEx(_, _) => l.succeed
  }

  /** One instruction is one atomic operation, or changes nothing the atomic machine can see. */
  lemma StepRefines(s: State, l: Label)
    requires Inv(s) && Enabled(s, l)
    ensures if TakesEffect(s, l)
            then Abs(s).cores[l.t].rest != [] && Abs(Next(s, l)) == AtomicNext(Abs(s), l.t)
            else Abs(Next(s, l)) == Abs(s)
  {
    var c := s.cores[l.t];
    assert CoreOk(s.word, c);
    var after := Abs(Next(s, l)).cores;
    assert forall i :: 0 <= i < |s.cores| && i != l.t ==> after[i] == Abs(s).cores[i];
    if TakesEffect(s, l) {
      assert Abs(s).cores[l.t] == Atomic(c.rest, c.results);
      assert after[l.t] == AtomicNext(Abs(s), l.t).cores[l.t];
      assert after == AtomicNext(Abs(s), l.t).cores;
    } else {
      assert after == Abs(s).cores;
    }
  }

  /** Every interleaving of the instruction sequences is an interleaving of atomic operations with
      the same word and, for every core outside an operation, the same results. */
  lemma {:induction false} RunRefines(run: seq<State>, labels: seq<Label>) returns (schedule: seq<nat>)
    requires IsRun(run, labels)
    ensures Inv(run[|labels|])
    ensures AtomicRun(Abs(run[0]), schedule, Abs(run[|labels|]))
    ensures Abs(run[|labels|]).word == run[|labels|].word
    ensures forall i :: 0 <= i < |run[|labels|].cores| && run[|labels|].cores[i].pc == Start ==>
              Abs(run[|labels|]).cores[i].results == run[|labels|].cores[i].results
  {
    if labels == [] {
      schedule := [];
    } else {
      var n := |labels| - 1;
      schedule := RunRefines(run[..|labels|], labels[..n]);
      var s, l := run[n], labels[n];
      assert Moves(s, l, run[n + 1]);
      StepKeepsInv(s, l);
      StepRefines(s, l);
      if TakesEffect(s, l) {
        AtomicRunSnoc(Abs(run[0]), schedule, Abs(s), l.t);
        schedule := schedule + [l.t];
      }
    }
  }

  // ---------------------------------------------------------------- completeness

  /** No core is inside an operation. */
  predicate Quiet(s: State) { forall i :: 0 <= i < |s.cores| ==> s.cores[i].pc == Start }

  lemma AbsUpdated(s: State, s': State, t: nat, a: Atomic)
    requires t < |s.cores| == |s'.cores| && AbsCore(s'.cores[t]) == a
    requires forall i :: 0 <= i < |s.cores| && i != t ==> AbsCore(s'.cores[i]) == AbsCore(s.cores[i])
    ensures Abs(s').cores == Abs(s).cores[t := a]
  {
  }

  /** A release store is one instruction, a swap that succeeds is three undisturbed ones, and a swap that
      fails is two. */
  lemma RealiseOp(s: State, t: nat) returns (run: seq<State>, labels: seq<Label>)
    requires Quiet(s) && t < |s.cores| && s.cores[t].rest != []
    ensures IsPath(run, labels) && run[0] == s && Quiet(run[|labels|])
    ensures |labels| == if s.cores[t].rest[0].Store? then 1 else if s.word == s.cores[t].rest[0].expected then 3 else 2
    ensures Abs(run[|labels|]) == AtomicNext(Abs(s), t)
  {
    var exec := Exec(t, true);
    var s1 := Next(s, exec);
    run, labels := [s, s1], [exec];
    if s.cores[t].rest[0].Cas? {
      var s2 := Next(s1, exec);
      run, labels := [s, s1, s2], [exec, exec];
      if s.word == s.cores[t].rest[0].expected {
        run, labels := [s, s1, s2, Next(s2, exec)], [exec, exec, exec];
      }
    }
    AbsUpdated(s, run[|labels|], t, AtomicNext(Abs(s), t).cores[t]);
  }

  /** Every schedule of atomic operations is what some run of the instruction sequences does, with the same
      word and the same results: the retry loop can do all that the atomic operation can. */
  lemma {:induction false} EveryScheduleRealised(s: State, schedule: seq<nat>, b: AtomicState)
    returns (run: seq<State>, labels: seq<Label>)
    requires Quiet(s) && AtomicRun(Abs(s), schedule, b)
    ensures IsPath(run, labels) && run[0] == s && Quiet(run[|labels|]) && Abs(run[|labels|]) == b
    ensures run[|labels|].word == b.word && |run[|labels|].cores| == |b.cores|
    ensures forall i :: 0 <= i < |b.cores| ==> run[|labels|].cores[i].results == b.cores[i].results
    decreases |schedule|
  {
    if schedule == [] {
      run, labels := [s], [];
    } else {
      var first, firstLabels := RealiseOp(s, schedule[0]);
      var last, lastLabels := EveryScheduleRealised(first[|firstLabels|], schedule[1..], b);
      run, labels := first[..|firstLabels|] + last, firstLabels + lastLabels;
    }
    assert forall i :: 0 <= i < |b.cores| ==> Abs(run[|labels|]).cores[i] == AbsCore(run[|labels|].cores[i]);
  }
}
