/**
 Sequences of linking steps: entries of any tables of any modules, relocated, filled by the second pass
 or bound for the executable, each read from memory when it is reached. When no step writes what a step
 reads, the sequence performs the stores that its entries ask for at first.
 */
module LinkSteps {
  import opened Sequences
  import opened Stores
  import opened SymbolSearch
  import opened Relocation

  /** One entry at address t: process_relocation, the second pass, or the executable's loop. */
  datatype Job = Relocate(lib: Library, t: int) | Refill(lib: Library, t: int) | Bind(lib: Library, t: int)

  function Asks(mem: Memory, job: Job): Effect {
    match job
    case Relocate(lib, t) => EffectOf(mem, lib, t)
    case Refill(lib, t) => GotEffect(mem, lib, t)
    case Bind(lib, t) => BindEffect(mem, lib, t)
  }

  predicate JobReads(mem: Memory, job: Job, x: int) {
    match job
    case Relocate(lib, t) => Reads(mem, lib, t, x)
    case Refill(lib, t) => EntryBytes(mem, lib, t, x)
    case Bind(lib, t) => BindReads(mem, lib, t, x)
  }

  lemma SameAsks(m: Memory, n: Memory, job: Job)
    requires forall x :: JobReads(m, job, x) ==> Byte(m, x) == Byte(n, x)
    ensures Asks(n, job) == Asks(m, job)
  {
    match job
    case Relocate(lib, t) => FetchReads(m, n, lib, t);
    case Refill(lib, t) => SameFetchEntry(m, n, lib, t);
    case Bind(lib, t) => SameBind(m, n, lib, t);
  }

  function Run(mem: Memory, jobs: seq<Job>): Memory {
    if jobs == [] then mem
    else
      var m := Run(mem, jobs[..|jobs| - 1]);
      Do(m, Asks(m, jobs[|jobs| - 1]))
  }

  lemma RunSnoc(mem: Memory, jobs: seq<Job>, job: Job)
    ensures Run(mem, jobs + [job]) == Do(Run(mem, jobs), Asks(Run(mem, jobs), job))
  {
    assert (jobs + [job])[..|jobs|] == jobs;
  }

  lemma {:induction false} RunAppend(mem: Memory, a: seq<Job>, b: seq<Job>)
    ensures Run(mem, a + b) == Run(Run(mem, a), b)
    decreases |b|
  {
    if b == [] {
      assert a + b == a;
    } else {
      var front, job := b[..|b| - 1], b[|b| - 1];
      assert a + b == (a + front) + [job] && b == front + [job];
      RunAppend(mem, a, front);
      RunSnoc(mem, a + front, job);
      RunSnoc(Run(mem, a), front, job);
    }
  }

  // ---------------------------------------------------------------- tables

  function Entry(table: int, i: nat): int { table + RECORD * i }

  function Relocations(lib: Library, table: int, n: nat): (jobs: seq<Job>)
    ensures |jobs| == n
  {
    seq(n, i requires 0 <= i < n => Relocate(lib, Entry(table, i)))
  }

  function Refills(lib: Library, table: int, n: nat): (jobs: seq<Job>)
    ensures |jobs| == n
  {
    seq(n, i requires 0 <= i < n => Refill(lib, Entry(table, i)))
  }

  function Binds(exe: Library, table: int, n: nat): (jobs: seq<Job>)
    ensures |jobs| == n
  {
    seq(n, i requires 0 <= i < n => Bind(exe, Entry(table, i)))
  }

  lemma TableSnoc(lib: Library, table: int, n: nat)
    ensures Relocations(lib, table, n + 1) == Relocations(lib, table, n) + [Relocate(lib, Entry(table, n))]
    ensures Refills(lib, table, n + 1) == Refills(lib, table, n) + [Refill(lib, Entry(table, n))]
    ensures Binds(lib, table, n + 1) == Binds(lib, table, n) + [Bind(lib, Entry(table, n))]
  {
  }

  // ---------------------------------------------------------------- steps that do not disturb each other

  function AllAsks(mem: Memory, jobs: seq<Job>): (es: seq<Effect>)
    ensures |es| == |jobs| && forall i :: 0 <= i < |es| ==> es[i] == Asks(mem, jobs[i])
  {
    Map(AskedIn(mem), jobs)
  }

  function AskedIn(mem: Memory): Job -> Effect { job => Asks(mem, job) }

  ghost predicate Misses(mem: Memory, a: Job, b: Job) {
    forall x :: Touches(Asks(mem, a), x) ==> !JobReads(mem, b, x)
  }

  /** No target overlaps anything that a step reads. */
  ghost predicate Steady(mem: Memory, jobs: seq<Job>) {
    forall a, b :: a in jobs && b in jobs ==> Misses(mem, a, b)
  }

  /** A step still asks for the same store after any of the others. */
  lemma StillAsks(mem: Memory, jobs: seq<Job>, job: Job)
    requires forall a :: a in jobs ==> Misses(mem, a, job)
    ensures Asks(DoAll(mem, AllAsks(mem, jobs)), job) == Asks(mem, job)
  {
    var es := AllAsks(mem, jobs);
    forall x | JobReads(mem, job, x) ensures Byte(DoAll(mem, es), x) == Byte(mem, x) {
      forall k | 0 <= k < |es| ensures !Touches(es[k], x) {
        assert jobs[k] in jobs;
        assert Misses(mem, jobs[k], job);
      }
      UntouchedKept(mem, es, x);
    }
    SameAsks(mem, DoAll(mem, es), job);
  }

  lemma AsksSnoc(mem: Memory, jobs: seq<Job>, job: Job)
    ensures AllAsks(mem, jobs + [job]) == AllAsks(mem, jobs) + [Asks(mem, job)]
  {
  }

  lemma AsksAppend(mem: Memory, a: seq<Job>, b: seq<Job>)
    ensures AllAsks(mem, a + b) == AllAsks(mem, a) + AllAsks(mem, b)
  {
    MapAppend(AskedIn(mem), a, b);
  }

  lemma SteadySubset(mem: Memory, jobs: seq<Job>, some: seq<Job>)
    requires Steady(mem, jobs) && forall job :: job in some ==> job in jobs
    ensures Steady(mem, some)
  {
  }

  /** Each step reads what was there at first, so the sequence performs the stores asked for at first. */
  lemma {:induction false} RunIsDoAll(mem: Memory, jobs: seq<Job>)
    requires Steady(mem, jobs)
    ensures Run(mem, jobs) == DoAll(mem, AllAsks(mem, jobs))
  {
    if jobs != [] {
      var front, job := jobs[..|jobs| - 1], jobs[|jobs| - 1];
      assert jobs == front + [job];
      SteadySubset(mem, jobs, front);
      RunIsDoAll(mem, front);
      StillAsks(mem, front, job);
      RunSnoc(mem, front, job);
      AsksSnoc(mem, front, job);
    }
  }

  /** The targets of the steps do not overlap, unless steps store the same. */
  ghost predicate NoClash(mem: Memory, jobs: seq<Job>) {
    forall a, b :: a in jobs && b in jobs ==> Compatible(Asks(mem, a), Asks(mem, b))
  }

  lemma NoClashCompatible(mem: Memory, jobs: seq<Job>)
    requires NoClash(mem, jobs)
    ensures AllCompatible(AllAsks(mem, jobs))
  {
    forall i, j | 0 <= i < |jobs| && 0 <= j < |jobs| ensures Compatible(AllAsks(mem, jobs)[i], AllAsks(mem, jobs)[j]) {
      assert jobs[i] in jobs && jobs[j] in jobs;
    }
  }

  lemma SameMembers(mem: Memory, jobs: seq<Job>, again: seq<Job>)
    requires forall job :: job in jobs ==> job in again
    ensures forall e :: e in AllAsks(mem, jobs) ==> e in AllAsks(mem, again)
  {
    forall k | 0 <= k < |jobs| ensures AllAsks(mem, jobs)[k] in AllAsks(mem, again) {
      assert jobs[k] in again;
      var j :| 0 <= j < |again| && again[j] == jobs[k];
      assert AllAsks(mem, again)[j] == AllAsks(mem, jobs)[k];
    }
  }

  /** The memory at the end depends only on which steps are taken: not on their order across all tables
      and not on how often each is taken. */
  lemma OrderAndRepetitionIrrelevant(mem: Memory, jobs: seq<Job>, again: seq<Job>)
    requires Steady(mem, jobs) && NoClash(mem, jobs) && forall job :: job in jobs <==> job in again
    ensures SameBytes(Run(mem, jobs), Run(mem, again))
  {
    SteadySubset(mem, jobs, again);
    RunIsDoAll(mem, jobs);
    RunIsDoAll(mem, again);
    NoClashCompatible(mem, jobs);
    NoClashCompatible(mem, again);
    SameMembers(mem, jobs, again);
    SameMembers(mem, again, jobs);
    SameStoresSameMemory(mem, AllAsks(mem, jobs), AllAsks(mem, again));
  }

  /** Taking all the steps twice is taking them once. */
  lemma Idempotent(mem: Memory, jobs: seq<Job>)
    requires Steady(mem, jobs) && NoClash(mem, jobs)
    ensures SameBytes(Run(Run(mem, jobs), jobs), Run(mem, jobs))
  {
    RunAppend(mem, jobs, jobs);
    OrderAndRepetitionIrrelevant(mem, jobs + jobs, jobs);
  }

  /** Every target ends with the value its step asks for, and no other byte changes. */
  lemma TargetsAndNothingElse(mem: Memory, jobs: seq<Job>)
    requires Steady(mem, jobs)
    ensures NoClash(mem, jobs) ==> forall job :: job in jobs && Asks(mem, job).Store? ==>
              Read64(Run(mem, jobs), Asks(mem, job).addr) == Asks(mem, job).value
    ensures forall x :: (forall job :: job in jobs ==> !Touches(Asks(mem, job), x)) ==> Byte(Run(mem, jobs), x) == Byte(mem, x)
  {
    var es := AllAsks(mem, jobs);
    RunIsDoAll(mem, jobs);
    if NoClash(mem, jobs) {
      NoClashCompatible(mem, jobs);
      forall job | job in jobs && Asks(mem, job).Store?
        ensures Read64(Run(mem, jobs), Asks(mem, job).addr) == Asks(mem, job).value
      {
        var i :| 0 <= i < |jobs| && jobs[i] == job;
        DoAllReads(mem, es, i);
      }
    }
    forall x | forall job :: job in jobs ==> !Touches(Asks(mem, job), x) ensures Byte(Run(mem, jobs), x) == Byte(mem, x) {
      forall k | 0 <= k < |es| ensures !Touches(es[k], x) {
        assert jobs[k] in jobs;
      }
      UntouchedKept(mem, es, x);
    }
  }

  /** The eight bytes at a are not written by this store. */
  predicate Spares(e: Effect, a: int) { e.Store? ==> e.addr + 8 <= a || a + 8 <= e.addr }

  /** A word that no step writes keeps its value. */
  lemma WordKept(mem: Memory, jobs: seq<Job>, a: int)
    requires Steady(mem, jobs) && forall job :: job in jobs ==> Spares(Asks(mem, job), a)
    ensures Read64(Run(mem, jobs), a) == Read64(mem, a)
  {
    forall x | a <= x < a + 8 ensures Byte(Run(mem, jobs), x) == Byte(mem, x) {
      forall job | job in jobs ensures !Touches(Asks(mem, job), x) {
        assert Spares(Asks(mem, job), a);
      }
      TargetsAndNothingElse(mem, jobs);
    }
    assert ReadBytes(Run(mem, jobs), a, 8) == ReadBytes(mem, a, 8);
  }
}
