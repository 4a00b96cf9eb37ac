/**
 The create/join handshake of mini_libc/src/pthread.c: any number of thread_start_args blocks, each
 with a child that stores its value, sets has_exited and wakes, and a joiner that polls has_exited
 and sleeps on it. A block is freed by its joiner while its child may still have to wake on it, so
 wake-ups that reach another joiner by accident are part of the model.
 */
module Join {
  import opened Sums

  datatype Option<T> = None | Some(value: T)

  datatype ChildPc =
    | Unborn     // pthread_create has not run
    | Running    // in start_routine
    | SetFlag    // has stored return_value, about to set has_exited
    | CallWake   // about to enter FUTEX_WAKE for one waiter
    | Gone

  datatype JoinerPc =
    | NotCalled
    | Check      // about to read has_exited
    | CallWait   // about to enter FUTEX_WAIT with expected value 0
    | Asleep
    | ReadValue  // left the loop, about to read return_value
    | Joined

  /** One block with its child and its joiner. `result` is what start_routine(arg) returns and
      `wantsValue` whether the joiner passed a non-null retval; both are fixed. */
  datatype Pair = Pair(result: int, wantsValue: bool, hasExited: int, returnValue: int,
                       child: ChildPc, joiner: JoinerPc, retval: Option<int>)

  datatype Label = Child(i: nat) | Joiner(i: nat) | EarlyWake(i: nat)

  predicate Enabled(ps: seq<Pair>, l: Label) {
    && l.i < |ps|
    && match l
       case Child(i) => ps[i].child != Gone
       case Joiner(i) => ps[i].child != Unborn && ps[i].joiner != Asleep && ps[i].joiner != Joined
       case EarlyWake(i) => ps[i].joiner == Asleep
  }

  function ChildStep(p: Pair): Pair {
    match p.child
    case Unborn => p.(hasExited := 0, child := Running)
    case Running => p.(returnValue := p.result, child := SetFlag)
    case SetFlag => p.(hasExited := 1, child := CallWake)
    case CallWake => p.(child := Gone, joiner := if p.joiner == Asleep then Check else p.joiner)
    case Gone => p
  }

  function JoinerStep(p: Pair): Pair {
    match p.joiner
    case NotCalled => p.(joiner := Check)
    case Check => p.(joiner := if p.hasExited == 0 then CallWait else ReadValue)
    case CallWait => p.(joiner := if p.hasExited == 0 then Asleep else Check)
    case Asleep => p
    case ReadValue => p.(joiner := Joined, retval := if p.wantsValue then Some(p.returnValue) else p.retval)
    case Joined => p
  }

  function Next(ps: seq<Pair>, l: Label): (r: seq<Pair>)
    requires Enabled(ps, l)
  {
    ps[l.i := match l
              case Child(i) => ChildStep(ps[i])
              case Joiner(i) => JoinerStep(ps[i])
              case EarlyWake(i) => ps[i].(joiner := Check)]
  }

  /** Blocks come from malloc, so hasExited and returnValue start out arbitrary. */
  predicate Init(ps: seq<Pair>) {
    forall i :: 0 <= i < |ps| ==> ps[i].child == Unborn && ps[i].joiner == NotCalled && ps[i].retval == None
  }

  predicate IsRun(run: seq<seq<Pair>>, labels: seq<Label>) {
    && |run| == |labels| + 1
    && Init(run[0])
    && forall k :: 0 <= k < |labels| ==> Enabled(run[k], labels[k]) && run[k + 1] == Next(run[k], labels[k])
  }

  predicate PairOk(p: Pair) {
    && (p.child == Unborn ==> p.joiner == NotCalled)
    && (p.child in {Running, SetFlag} ==> p.hasExited == 0)
    && (p.child in {SetFlag, CallWake, Gone} ==> p.returnValue == p.result)
    && (p.child in {CallWake, Gone} ==> p.hasExited == 1)
    && (p.joiner in {ReadValue, Joined} ==> p.child in {CallWake, Gone})
    && (p.joiner == Asleep ==> p.child != Gone)
    && p.retval == if p.joiner == Joined && p.wantsValue then Some(p.result) else None
  }

  predicate Inv(ps: seq<Pair>) {
    forall i :: 0 <= i < |ps| ==> PairOk(ps[i])
  }

  lemma StepKeepsInv(ps: seq<Pair>, l: Label)
    requires Inv(ps) && Enabled(ps, l)
    ensures Inv(Next(ps, l))
    ensures Next(ps, l)[l.i].result == ps[l.i].result && Next(ps, l)[l.i].wantsValue == ps[l.i].wantsValue
  {
    assert PairOk(ps[l.i]);
  }

  lemma {:induction false} Reachable(run: seq<seq<Pair>>, labels: seq<Label>, k: nat)
    requires IsRun(run, labels) && k < |run|
    ensures Inv(run[k]) && |run[k]| == |run[0]|
    ensures forall i :: 0 <= i < |run[0]| ==>
              run[k][i].result == run[0][i].result && run[k][i].wantsValue == run[0][i].wantsValue
  {
    if k > 0 {
      Reachable(run, labels, k - 1);
      assert Enabled(run[k - 1], labels[k - 1]);
      StepKeepsInv(run[k - 1], labels[k - 1]);
    }
  }

  /** pthread_join returns only after its own thread's routine has returned, with exactly its value,
      and no joiner sleeps once its flag is set and the wake-up issued: at every point of every run,
      early wake-ups included. */
  lemma JoinIsCorrect(run: seq<seq<Pair>>, labels: seq<Label>, k: nat, i: nat)
    requires IsRun(run, labels) && k < |run| && i < |run[k]|
    ensures |run[k]| == |run[0]|
    ensures run[k][i].joiner == Joined ==> run[k][i].child in {CallWake, Gone}
    ensures run[k][i].joiner == Joined ==>
              run[k][i].retval == if run[0][i].wantsValue then Some(run[0][i].result) else None
    ensures run[k][i].child == Gone ==> run[k][i].joiner != Asleep
  {
    Reachable(run, labels, k);
    assert PairOk(run[k][i]);
  }

  // ---------------------------------------------------------------- progress

  function Left(p: Pair): nat {
    10 * (match p.child case Unborn => 4 case Running => 3 case SetFlag => 2 case CallWake => 1 case Gone => 0) +
    match p.joiner
    case NotCalled => 6
    case Check => if p.hasExited == 0 then 3 else 4
    case CallWait => if p.hasExited == 0 then 2 else 5
    case Asleep => 0
    case ReadValue => 3
    case Joined => 0
  }

  function Lefts(ps: seq<Pair>): (w: seq<nat>) {
    seq(|ps|, i requires 0 <= i < |ps| => Left(ps[i]))
  }

  lemma PairGoesDown(p: Pair)
    requires PairOk(p)
    ensures Enabled([p], Child(0)) ==> Left(ChildStep(p)) < Left(p)
    ensures Enabled([p], Joiner(0)) ==> Left(JoinerStep(p)) < Left(p)
  {
  }

  lemma StepGoesDown(ps: seq<Pair>, l: Label)
    requires Inv(ps) && Enabled(ps, l) && !l.EarlyWake?
    ensures Sum(Lefts(Next(ps, l))) < Sum(Lefts(ps))
  {
    assert PairOk(ps[l.i]);
    PairGoesDown(ps[l.i]);
    var p := if l.Child? then ChildStep(ps[l.i]) else JoinerStep(ps[l.i]);
    assert Lefts(Next(ps, l)) == Lefts(ps)[l.i := Left(p)];
    SumUpdate(Lefts(ps), l.i, Left(p));
  }

  /** Every schedule in which waits end only by their own wake-up or EAGAIN is finite. */
  lemma {:induction false} EveryScheduleIsFinite(run: seq<seq<Pair>>, labels: seq<Label>)
    requires IsRun(run, labels)
    requires forall k :: 0 <= k < |labels| ==> !labels[k].EarlyWake?
    ensures |labels| + Sum(Lefts(run[|labels|])) <= Sum(Lefts(run[0]))
  {
    if labels != [] {
      var n := |labels| - 1;
      EveryScheduleIsFinite(run[..|labels|], labels[..n]);
      Reachable(run, labels, n);
      assert Enabled(run[n], labels[n]) && run[n + 1] == Next(run[n], labels[n]);
      StepGoesDown(run[n], labels[n]);
    }
  }

  /** A run that can take no further step has joined every thread with its own value. */
  lemma StopsOnlyWhenJoined(run: seq<seq<Pair>>, labels: seq<Label>, i: nat)
    requires IsRun(run, labels) && i < |run[0]|
    requires forall l: Label :: !l.EarlyWake? ==> !Enabled(run[|labels|], l)
    ensures |run[|labels|]| == |run[0]| && run[|labels|][i].joiner == Joined
    ensures run[0][i].wantsValue ==> run[|labels|][i].retval == Some(run[0][i].result)
  {
    Reachable(run, labels, |labels|);
    var p := run[|labels|][i];
    assert PairOk(p);
    assert !Enabled(run[|labels|], Child(i)) && !Enabled(run[|labels|], Joiner(i));
  }

  // ---------------------------------------------------------------- in place

  class Block {
    var hasExited: int
    var returnValue: int
    var child: ChildPc
    var joiner: JoinerPc
    var retval: Option<int>
    const result: int
    const wantsValue: bool

    function Contents(): Pair
      reads this
    {
      Pair(result, wantsValue, hasExited, returnValue, child, joiner, retval)
    }

    /** malloc's block: the two shared fields hold whatever was there. */
    constructor (result: int, wantsValue: bool, hasExited: int, returnValue: int)
      ensures Init([Contents()]) && Contents().result == result && Contents().wantsValue == wantsValue
      ensures Contents().hasExited == hasExited && Contents().returnValue == returnValue
    {
      this.result, this.wantsValue, this.hasExited, this.returnValue := result, wantsValue, hasExited, returnValue;
      child, joiner, retval := Unborn, NotCalled, None;
    }

    /** pthread_create's initialisation, then pthread_start, one shared access at a time. */
    method StepChild()
      requires Enabled([Contents()], Child(0))
      modifies this
      ensures [Contents()] == Next(old([Contents()]), Child(0))
    {
      match child
      case Unborn =>
        hasExited := 0;
        child := Running;
      case Running =>
        returnValue := result;
        child := SetFlag;
      case SetFlag =>
        hasExited := 1;
        child := CallWake;
      case CallWake =>
        if joiner == Asleep {
          joiner := Check;
        }
        child := Gone;
    }

    /** pthread_join, one shared access at a time. */
    method StepJoiner()
      requires Enabled([Contents()], Joiner(0))
      modifies this
      ensures [Contents()] == Next(old([Contents()]), Joiner(0))
    {
      match joiner
      case NotCalled =>
        joiner := Check;
      case Check =>
        joiner := if hasExited == 0 then CallWait else ReadValue;
      case CallWait =>
        joiner := if hasExited == 0 then Asleep else Check;
      case ReadValue =>
        if wantsValue {
          retval := Some(returnValue);
        }
        joiner := Joined;
    }
  }

  function AllContents(blocks: seq<Block>): (ps: seq<Pair>)
    reads blocks
    ensures |ps| == |blocks| && forall i :: 0 <= i < |ps| ==> ps[i] == blocks[i].Contents()
  {
    seq(|blocks|, i requires 0 <= i < |blocks| reads blocks => blocks[i].Contents())
  }

  predicate Distinct(blocks: seq<Block>) { forall i, j :: 0 <= i < j < |blocks| ==> blocks[i] != blocks[j] }

  predicate Movable(p: Pair) { Enabled([p], Child(0)) || Enabled([p], Joiner(0)) }

  /** Whatever the child or the joiner of block i does next, if both can move the scheduler chooses. */
  method StepBlock(blocks: seq<Block>, i: nat) returns (ghost l: Label)
    requires Distinct(blocks) && i < |blocks| && Movable(blocks[i].Contents())
    modifies blocks[i]
    ensures !l.EarlyWake? && Enabled(old(AllContents(blocks)), l)
    ensures AllContents(blocks) == Next(old(AllContents(blocks)), l)
  {
    var b := blocks[i];
    ghost var was := AllContents(blocks);
    if {
      case b.child != Gone =>
        b.StepChild();
        l := Child(i);
      case b.child != Unborn && b.joiner != Asleep && b.joiner != Joined =>
        b.StepJoiner();
        l := Joiner(i);
    }
    assert [b.Contents()][0] == if l.Child? then ChildStep(was[i]) else JoinerStep(was[i]);
    assert AllContents(blocks) == was[i := b.Contents()];
  }

  /** A run from start to now without early wake-ups. */
  ghost predicate Traced(run: seq<seq<Pair>>, labels: seq<Label>, start: seq<Pair>, now: seq<Pair>) {
    && IsRun(run, labels) && run[0] == start && run[|labels|] == now
    && forall k :: 0 <= k < |labels| ==> !labels[k].EarlyWake?
  }

  lemma Extend(run: seq<seq<Pair>>, labels: seq<Label>, start: seq<Pair>, now: seq<Pair>, l: Label)
    returns (run': seq<seq<Pair>>, labels': seq<Label>)
    requires Traced(run, labels, start, now) && !l.EarlyWake? && Enabled(now, l)
    ensures Traced(run', labels', start, Next(now, l))
  {
    run', labels' := run + [Next(now, l)], labels + [l];
  }

  /** Any scheduler over any number of threads: it always stops, within the bound, with every thread
      joined and its value handed over. */
  method RunToEnd(blocks: seq<Block>) returns (ghost run: seq<seq<Pair>>, ghost labels: seq<Label>)
    requires Distinct(blocks) && Init(AllContents(blocks))
    modifies blocks
    ensures IsRun(run, labels) && run[0] == old(AllContents(blocks)) && run[|labels|] == AllContents(blocks)
    ensures |labels| <= Sum(Lefts(run[0]))
    ensures forall i :: 0 <= i < |blocks| ==>
              blocks[i].joiner == Joined && (blocks[i].wantsValue ==> blocks[i].retval == Some(blocks[i].result))
  {
    ghost var start := AllContents(blocks);
    run, labels := [start], [];
    Reachable(run, labels, 0);
    while exists i :: 0 <= i < |blocks| && Movable(blocks[i].Contents())
      invariant Traced(run, labels, start, AllContents(blocks)) && Inv(AllContents(blocks))
      decreases Sum(Lefts(AllContents(blocks)))
    {
      var i: nat :| i < |blocks| && Movable(blocks[i].Contents());
      ghost var was := AllContents(blocks);
      ghost var l := StepBlock(blocks, i);
      StepGoesDown(was, l);
      StepKeepsInv(was, l);
      run, labels := Extend(run, labels, start, was, l);
    }
    EveryScheduleIsFinite(run, labels);
    forall i | 0 <= i < |blocks|
      ensures blocks[i].joiner == Joined && (blocks[i].wantsValue ==> blocks[i].retval == Some(blocks[i].result))
    {
      assert PairOk(AllContents(blocks)[i]) && !Movable(blocks[i].Contents());
    }
  }
}
