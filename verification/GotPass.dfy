/**
 What the relocations of a library amount to: the values that the ELF for the Arm 64-bit Architecture
 ABI asks for, and what the second pass of load_shared_library over the PLT table changes.
 */
module GotPass {
  import opened Words
  import opened ElfImage
  import opened Stores
  import opened SymbolSearch
  import opened Relocation
  import opened LinkSteps
  import opened Linker

  // ---------------------------------------------------------------- the ABI

  /** The load bias: where link-time address 0 would be. */
  function Delta(lib: Library): u64 { Sub(lib.base, First(lib)) }

  /** Delta + A for RELATIVE and S + A for the symbol types, where S is the address of the definition the
      symbol is bound to. */
  function AbiValue(lib: Library, r: Rela, definition: u64): u64 {
    if r.Type() == R_RELATIVE then Add(Delta(lib), r.addend) else Add(definition, r.addend)
  }

  predicate InLoad(lib: Library, v: u64) { exists i :: 0 <= i < |lib.phdrs| && Contains(lib.phdrs[i], v) }

  /** A load contains the link-time address, and it is not placed at 0. */
  predicate Located(lib: Library, v: u64) { InLoad(lib, v) && Add(Delta(lib), v) != 0 }

  /** The load base, or the address of a byte of a load. */
  ghost predicate OwnAddress(lib: Library, s: u64) {
    s == lib.base || exists v: u64 :: InLoad(lib, v) && s == Add(Delta(lib), v)
  }

  /** A symbol with a value is bound to the library's own definition, a symbol without one to a
      definition in another module, or to 0 if it is weak and nowhere defined. */
  ghost predicate BoundTo(lib: Library, r: Rela, definition: u64) {
    if r.value != 0 then definition == Add(Delta(lib), r.value) else !OwnAddress(lib, definition)
  }

  /** Whatever branch computes it, the target is r_offset plus the load bias. */
  lemma TargetIsPlace(lib: Library, r: Rela)
    ensures Target(lib, r) == Add(Delta(lib), r.offset)
  {
  }

  /** A symbol's address is its value plus the load bias exactly when the first vaddr is 0 or a load
      contains the value and the sum is not 0. */
  lemma SymbolAddressExact(lib: Library, value: u64)
    ensures SymbolAddress(lib, value) == Add(Delta(lib), value)
            <==> First(lib) == 0 || Located(lib, value)
  {
  }

  /** The store the ABI asks for. */
  function AbiEffect(lib: Library, r: Rela, definition: u64): Effect {
    Store(Add(Delta(lib), r.offset), AbiValue(lib, r, definition))
  }

  /** RELATIVE is given its ABI value exactly when the entry and its target are in the window of 2 MiB from
      the load base and the first vaddr is 0. */
  lemma RelativeIsAbi(mem: Memory, lib: Library, t: int, definition: u64)
    requires Fetch(mem, lib, t).Type() == 1027
    ensures var r := Fetch(mem, lib, t);
            EffectOf(mem, lib, t) == AbiEffect(lib, r, definition) <==> Accepted(lib, r, t) && First(lib) == 0
  {
  }

  /** A library of one load of 4 MiB has targets beyond that window: an entry for vaddr 0x300000 is skipped,
      whatever its type and symbol. */
  lemma BeyondWindowSkipped(mem: Memory, lib: Library, t: int)
    requires lib.base == 0x7000_0000 && lib.phdrs == [Phdr(PT_LOAD, 0, 0, 0x40_0000, 0x40_0000)]
    requires Read64(mem, t) == 0x30_0000
    ensures Target(lib, Fetch(mem, lib, t)) == 0x7030_0000 && EffectOf(mem, lib, t) == Nothing
  {
    FirstVaddrAt(lib.phdrs, 0);
    TargetIsPlace(lib, Fetch(mem, lib, t));
  }

  /** The address given to a symbol without a value lies in the library itself; it is the load base
      unless a load contains address 0 while another one comes first. */
  lemma UndefinedIsOwn(lib: Library)
    ensures OwnAddress(lib, SymbolAddress(lib, 0))
    ensures SymbolAddress(lib, 0) == lib.base <==> First(lib) == 0 || !Located(lib, 0)
  {
  }

  lemma LocatedIsOwn(lib: Library, value: u64)
    requires value == 0 || Located(lib, value)
    ensures OwnAddress(lib, SymbolAddress(lib, value))
  {
    UndefinedIsOwn(lib);
  }

  // ---------------------------------------------------------------- data symbols

  /** ABS64 and GLOB_DAT are given their ABI value exactly when the entry and its target are in the window,
      the symbol has a value, and the first vaddr is 0 or a load contains it: the other libraries are never
      asked. */
  lemma SymbolIsAbi(mem: Memory, lib: Library, t: int, definition: u64)
    requires Fetch(mem, lib, t).Type() in {R_ABS64, R_GLOB_DAT} && BoundTo(lib, Fetch(mem, lib, t), definition)
    ensures var r := Fetch(mem, lib, t);
            EffectOf(mem, lib, t) == AbiEffect(lib, r, definition)
            <==> Accepted(lib, r, t) && r.value != 0 && (First(lib) == 0 || Located(lib, r.value))
  {
    SymbolValueIsAbi(lib, Fetch(mem, lib, t), definition);
  }

  lemma SymbolValueIsAbi(lib: Library, r: Rela, definition: u64)
    requires r.Type() in {R_ABS64, R_GLOB_DAT} && BoundTo(lib, r, definition) && (r.value != 0 ==> HasSymbol(lib, r.info))
    ensures SlotValue(lib, r) == AbiEffect(lib, r, definition)
            <==> r.value != 0 && (First(lib) == 0 || Located(lib, r.value))
  {
    TargetIsPlace(lib, r);
    SymbolAddressExact(lib, r.value);
    UndefinedIsOwn(lib);
  }

  /** An imported ABS64 or GLOB_DAT symbol is never given its ABI value; if it is given any, it is bound to
      the library's own load base, unless a load contains address 0 while another one comes first. */
  lemma ImportedDataSymbol(mem: Memory, lib: Library, t: int, definition: u64)
    requires Fetch(mem, lib, t).Type() in {R_ABS64, R_GLOB_DAT} && Fetch(mem, lib, t).value == 0
    requires !OwnAddress(lib, definition)
    ensures var r := Fetch(mem, lib, t);
            && EffectOf(mem, lib, t) != AbiEffect(lib, r, definition)
            && (EffectOf(mem, lib, t) == Store(Target(lib, r), Add(lib.base, r.addend))
                <==> Accepted(lib, r, t) && HasSymbol(lib, r.info) && (First(lib) == 0 || !Located(lib, 0)))
  {
    var r := Fetch(mem, lib, t);
    SymbolValueIsAbi(lib, r, definition);
    UndefinedIsOwn(lib);
  }

  // ---------------------------------------------------------------- jump slots

  /** load_shared_library lists the library before it relocates it; bootstrap_self runs while no library
      is listed. */
  predicate Loading(lib: Library) { lib.listed || lib.next == [] }

  /** The address given by the first entry of the library's own table with the sought name. */
  function FirstOfName(mem: Memory, lib: Library, r: Rela): u64 {
    if Named(lib, r) && lib.listed then MentionAddress(mem, lib, SoughtName(mem, lib, r)) else 0
  }

  /** The symbol address of a slot from the library alone. */
  function OwnTableSymbol(mem: Memory, lib: Library, r: Rela): u64 {
    if OwnValue(lib, r) != 0 then OwnValue(lib, r)
    else if FirstOfName(mem, lib, r) != 0 then FirstOfName(mem, lib, r)
    else lib.base
  }

  lemma AnswerIsOwn(mem: Memory, lib: Library, r: Rela)
    requires lib.listed && Named(lib, r) && HasName(mem, lib, r.Sym(), SoughtName(mem, lib, r))
    ensures Answer(mem, lib, r) == MentionAddress(mem, lib, SoughtName(mem, lib, r))
  {
    OwnTableAnswers(mem, lib, r.Sym(), SoughtName(mem, lib, r));
  }

  /** No slot is ever resolved through another library: the search stops in the library's own table. */
  lemma SlotFromOwnTable(mem: Memory, lib: Library, t: int)
    requires Loading(lib) && Fetch(mem, lib, t).Type() == R_JUMP_SLOT
    ensures SlotSymbol(lib, Fetch(mem, lib, t)) == OwnTableSymbol(mem, lib, Fetch(mem, lib, t))
  {
    var r := FetchEntry(mem, lib, t);
    if Searches(lib, r) {
      AnswerFromOwnTable(mem, lib, t);
    }
  }

  lemma AnswerFromOwnTable(mem: Memory, lib: Library, t: int)
    requires Loading(lib) && Named(lib, FetchEntry(mem, lib, t))
    ensures Answer(mem, lib, FetchEntry(mem, lib, t)) == FirstOfName(mem, lib, FetchEntry(mem, lib, t))
  {
    if lib.listed {
      AnswerIsOwn(mem, lib, FetchEntry(mem, lib, t));
    }
  }

  /** A slot is given its ABI value exactly when the entry and its target are in the window, its symbol has
      a value, and the first vaddr is 0 or a load contains it. Without a name to go by the slot gets the load
      base, which is right for the value of the first vaddr only. An imported slot is never right. */
  lemma JumpSlotIsAbi(mem: Memory, lib: Library, t: int, definition: u64)
    requires Loading(lib) && Fetch(mem, lib, t).Type() == R_JUMP_SLOT && BoundTo(lib, Fetch(mem, lib, t), definition)
    requires SlotRegular(mem, lib, Fetch(mem, lib, t))
    ensures var r := Fetch(mem, lib, t);
            EffectOf(mem, lib, t) == AbiEffect(lib, r, definition)
            <==> Accepted(lib, r, t) && r.value != 0 && if Named(lib, r) then First(lib) == 0 || Located(lib, r.value) else r.value == First(lib)
  {
    var r := Fetch(mem, lib, t);
    SlotFromOwnTable(mem, lib, t);
    TargetIsPlace(lib, r);
    OwnTableIsAbi(mem, lib, r, definition);
    assert SlotValue(lib, r) == Store(Target(lib, r), Add(OwnTableSymbol(mem, lib, r), r.addend));
  }

  /** A defined symbol is not placed at 0, and the first namesake of an imported one, if it has a value, is
      in a load. */
  predicate SlotRegular(mem: Memory, lib: Library, r: Rela) {
    && (r.value != 0 ==> SymbolAddress(lib, r.value) != 0)
    && (r.value == 0 && Named(lib, r) && lib.listed ==> FirstValue(mem, lib, r) == 0 || Located(lib, FirstValue(mem, lib, r)))
  }

  lemma OwnTableIsAbi(mem: Memory, lib: Library, r: Rela, definition: u64)
    requires BoundTo(lib, r, definition) && SlotRegular(mem, lib, r)
    ensures OwnTableSymbol(mem, lib, r) == definition
            <==> r.value != 0 && if Named(lib, r) then First(lib) == 0 || Located(lib, r.value) else r.value == First(lib)
  {
    if r.value == 0 {
      LocatedIsOwn(lib, if Named(lib, r) && lib.listed then FirstValue(mem, lib, r) else 0);
    } else if Named(lib, r) {
      SymbolAddressExact(lib, r.value);
    }
  }

  /** The value of that entry. */
  function FirstValue(mem: Memory, lib: Library, r: Rela): u64 {
    SymbolValue(mem, lib, Find(mem, lib, SoughtName(mem, lib, r)))
  }

  lemma {:induction false} SameFind(mem: Memory, lib: Library, others: seq<Library>, name: seq<u8>)
    ensures Find(mem, lib.(next := others), name) == Find(mem, lib, name)
  {
    var k := Find(mem, lib, name);
    var other := lib.(next := others);
    assert forall j :: 0 <= j < lib.symnum ==> HasName(mem, other, j, name) == HasName(mem, lib, j, name);
  }

  lemma SameMention(mem: Memory, lib: Library, others: seq<Library>, name: seq<u8>)
    ensures MentionAddress(mem, lib.(next := others), name) == MentionAddress(mem, lib, name)
  {
    SameFind(mem, lib, others, name);
  }

  lemma SameEntryFetched(mem: Memory, lib: Library, others: seq<Library>, t: int)
    ensures FetchEntry(mem, lib.(next := others), t) == FetchEntry(mem, lib, t)
  {
  }

  /** What else has been loaded makes no difference to one entry of a listed library. */
  lemma OthersIrrelevantToFetch(mem: Memory, lib: Library, others: seq<Library>, t: int)
    requires lib.listed
    ensures Fetch(mem, lib.(next := others), t) == Fetch(mem, lib, t)
  {
    SameEntryFetched(mem, lib, others, t);
    if Searches(lib, FetchEntry(mem, lib, t)) {
      OthersIrrelevantToAnswer(mem, lib, others, FetchEntry(mem, lib, t));
    }
  }

  lemma OthersIrrelevantToAnswer(mem: Memory, lib: Library, others: seq<Library>, r: Rela)
    requires lib.listed && Named(lib, r) && HasName(mem, lib, r.Sym(), SoughtName(mem, lib, r))
    ensures Answer(mem, lib.(next := others), r) == Answer(mem, lib, r)
  {
    AnswerIsOwn(mem, lib, r);
    AnswerIsOwn(mem, lib.(next := others), r);
    SameMention(mem, lib, others, SoughtName(mem, lib, r));
  }

  lemma OthersIrrelevantToValue(lib: Library, others: seq<Library>, r: Rela, t: int)
    ensures SlotValue(lib.(next := others), r) == SlotValue(lib, r)
    ensures Accepted(lib.(next := others), r, t) == Accepted(lib, r, t)
  {
  }

  predicate SameButOthers(job: Job, other: Job, others: seq<Library>) {
    && job.lib.listed && !job.Bind?
    && other == if job.Relocate? then Relocate(job.lib.(next := others), job.t) else Refill(job.lib.(next := others), job.t)
  }

  lemma OthersIrrelevantToJob(mem: Memory, job: Job, other: Job, others: seq<Library>)
    requires SameButOthers(job, other, others)
    ensures Asks(mem, other) == Asks(mem, job)
  {
    if job.Relocate? {
      OthersIrrelevantToFetch(mem, job.lib, others, job.t);
      OthersIrrelevantToValue(job.lib, others, Fetch(mem, job.lib, job.t), job.t);
    } else {
      SameEntryFetched(mem, job.lib, others, job.t);
    }
  }

  /** Relocating listed libraries and filling their slots gives the same memory whatever other libraries
      are loaded, so nothing in them is ever bound to another library. */
  lemma {:induction false} OtherLibrariesIrrelevant(mem: Memory, jobs: seq<Job>, jobs': seq<Job>, others: seq<Library>)
    requires |jobs| == |jobs'| && forall i :: 0 <= i < |jobs| ==> SameButOthers(jobs[i], jobs'[i], others)
    ensures Run(mem, jobs') == Run(mem, jobs)
    decreases |jobs|
  {
    if jobs != [] {
      var n := |jobs| - 1;
      OtherLibrariesIrrelevant(mem, jobs[..n], jobs'[..n], others);
      OthersIrrelevantToJob(Run(mem, jobs[..n]), jobs[n], jobs'[n], others);
    }
  }

  // ---------------------------------------------------------------- the second pass

  /** A JUMP_SLOT entry with a symbol and a target inside a load. */
  predicate IsSlot(lib: Library, r: Rela) {
    && r.Type() == R_JUMP_SLOT && HasSymbol(lib, r.info) && lib.strtab != 0
    && Translate(r.offset, lib.base, lib.phdrs) != 0
  }

  /** The relocation stages of a library over n entries of .rela.dyn and m of the count in .rela.plt. */
  datatype Stages = Stages(lib: Library, rela: int, n: nat, plt: int, m: nat, count: nat) {
    function FirstJobs(): seq<Job> { FirstPass(lib, rela, n, plt, m) }
    function SecondJobs(): seq<Job> { Refills(lib, plt, count) }
    function AllJobs(): seq<Job> { LibraryJobs(lib, rela, n, plt, m, count) }
    function Slot(i: nat): int { Entry(plt, i) }
  }

  /** The PLT holds slots; the targets of different entries do not overlap, nor does a target overlap
      anything that is read. */
  ghost predicate Regular(mem: Memory, s: Stages) {
    && s.m <= s.count && Loading(s.lib) && Steady(mem, s.AllJobs())
    && (forall i :: 0 <= i < s.count ==> IsSlot(s.lib, Fetch(mem, s.lib, s.Slot(i))))
    && (forall a, b :: a in s.AllJobs() && b in s.AllJobs() && a.t != b.t ==> OwnTargets(mem, a, b))
  }

  predicate OwnTargets(mem: Memory, a: Job, b: Job) {
    Asks(mem, b).Store? ==> Spares(Asks(mem, a), Asks(mem, b).addr)
  }

  /** The first pass treats slot i: it is among the entries before the first one outside the library, and it
      and its target are in the window. */
  predicate Handled(mem: Memory, s: Stages, i: nat) {
    Relocate(s.lib, s.Slot(i)) in s.FirstJobs() && Accepted(s.lib, Fetch(mem, s.lib, s.Slot(i)), s.Slot(i))
  }

  /** Both passes write the same slot. */
  lemma SlotEffects(mem: Memory, lib: Library, t: int)
    requires IsSlot(lib, Fetch(mem, lib, t)) && Loading(lib)
    ensures var r := Fetch(mem, lib, t);
            && EffectOf(mem, lib, t) ==
                 (if Accepted(lib, r, t) then Store(Target(lib, r), Add(OwnTableSymbol(mem, lib, r), r.addend)) else Nothing)
            && GotEffect(mem, lib, t) == Store(Target(lib, r), Add(SymbolAddress(lib, r.value), r.addend))
  {
    SlotFromOwnTable(mem, lib, t);
  }

  lemma StagesJobs(s: Stages)
    ensures forall job :: job in s.FirstJobs() ==> job.Relocate? && job.lib == s.lib && job in s.AllJobs()
    ensures forall job :: job in s.SecondJobs() ==> job.Refill? && job.lib == s.lib && job in s.AllJobs()
    ensures forall i :: 0 <= i < s.count ==> Refill(s.lib, s.Slot(i)) in s.SecondJobs()
    ensures forall i :: 0 <= i < s.m ==> Relocate(s.lib, s.Slot(i)) in s.FirstJobs()
  {
    forall i | 0 <= i < s.count ensures Refill(s.lib, s.Slot(i)) in s.SecondJobs() {
      assert s.SecondJobs()[i] == Refill(s.lib, s.Slot(i));
    }
    forall i | 0 <= i < s.m ensures Relocate(s.lib, s.Slot(i)) in s.FirstJobs() {
      assert s.FirstJobs()[s.n + i] == Relocate(s.lib, s.Slot(i));
    }
  }

  /** Within one pass, different entries have different targets. */
  lemma PassesClashFree(mem: Memory, s: Stages)
    requires Regular(mem, s)
    ensures Steady(mem, s.FirstJobs()) && NoClash(mem, s.FirstJobs()) && Steady(mem, s.SecondJobs()) && NoClash(mem, s.SecondJobs())
  {
    StagesJobs(s);
    SteadySubset(mem, s.AllJobs(), s.FirstJobs());
    SteadySubset(mem, s.AllJobs(), s.SecondJobs());
    forall a, b | (a in s.FirstJobs() && b in s.FirstJobs()) || (a in s.SecondJobs() && b in s.SecondJobs())
      ensures Compatible(Asks(mem, a), Asks(mem, b))
    {
      if a.t == b.t {
        assert a == b;
      } else {
        assert OwnTargets(mem, a, b);
      }
    }
  }

  /** After the first pass a handled slot holds an address from the library's own table, or the load base,
      plus addend; any other slot holds what it held. */
  lemma FirstPassSlot(mem: Memory, s: Stages, i: nat)
    requires Regular(mem, s) && i < s.count
    ensures var r := Fetch(mem, s.lib, s.Slot(i));
            Read64(Run(mem, s.FirstJobs()), Target(s.lib, r)) ==
              if Handled(mem, s, i) then Add(OwnTableSymbol(mem, s.lib, r), r.addend) else Read64(mem, Target(s.lib, r))
  {
    PassesClashFree(mem, s);
    SlotEffects(mem, s.lib, s.Slot(i));
    if Handled(mem, s, i) {
      TargetsAndNothingElse(mem, s.FirstJobs());
    } else {
      UnhandledSpared(mem, s, i);
      WordKept(mem, s.FirstJobs(), Target(s.lib, Fetch(mem, s.lib, s.Slot(i))));
    }
  }

  lemma UnhandledSpared(mem: Memory, s: Stages, i: nat)
    requires Regular(mem, s) && i < s.count && !Handled(mem, s, i)
    ensures forall job :: job in s.FirstJobs() ==> Spares(Asks(mem, job), Target(s.lib, Fetch(mem, s.lib, s.Slot(i))))
  {
    var refill := Refill(s.lib, s.Slot(i));
    StagesJobs(s);
    SlotEffects(mem, s.lib, s.Slot(i));
    assert refill in s.AllJobs() && Asks(mem, refill).addr == Target(s.lib, Fetch(mem, s.lib, s.Slot(i)));
    forall job | job in s.FirstJobs() ensures Spares(Asks(mem, job), Asks(mem, refill).addr) {
      if job.t == s.Slot(i) {
        assert job == Relocate(s.lib, s.Slot(i));
      } else {
        assert OwnTargets(mem, job, refill);
      }
    }
  }

  /** The second pass stores what its entries ask for at first, over what the first pass left. */
  lemma SecondPassStores(mem: Memory, s: Stages)
    requires Regular(mem, s)
    ensures Run(mem, s.AllJobs()) == DoAll(Run(mem, s.FirstJobs()), AllAsks(mem, s.SecondJobs()))
    ensures AllCompatible(AllAsks(mem, s.SecondJobs()))
  {
    PassesClashFree(mem, s);
    RunIsDoAll(mem, s.AllJobs());
    RunIsDoAll(mem, s.FirstJobs());
    AsksAppend(mem, s.FirstJobs(), s.SecondJobs());
    DoAllAppend(mem, AllAsks(mem, s.FirstJobs()), AllAsks(mem, s.SecondJobs()));
    NoClashCompatible(mem, s.SecondJobs());
  }

  lemma SecondAsks(mem: Memory, s: Stages, i: nat)
    requires Regular(mem, s) && i < s.count
    ensures var r := Fetch(mem, s.lib, s.Slot(i));
            AllAsks(mem, s.SecondJobs())[i] == Store(Target(s.lib, r), Add(SymbolAddress(s.lib, r.value), r.addend))
  {
    assert s.SecondJobs()[i] == Refill(s.lib, s.Slot(i));
    SlotEffects(mem, s.lib, s.Slot(i));
  }

  /** After the second pass every slot, handled by the first or not, holds the library's own symbol address
      plus addend. */
  lemma SecondPassSlot(mem: Memory, s: Stages, i: nat)
    requires Regular(mem, s) && i < s.count
    ensures var r := Fetch(mem, s.lib, s.Slot(i));
            Read64(Run(mem, s.AllJobs()), Target(s.lib, r)) == Add(SymbolAddress(s.lib, r.value), r.addend)
  {
    SecondPassStores(mem, s);
    SecondAsks(mem, s, i);
    DoAllReads(Run(mem, s.FirstJobs()), AllAsks(mem, s.SecondJobs()), i);
  }

  /** How far from the load base a symbol value ends up. */
  function Offset(lib: Library, value: u64): u64 { if Located(lib, value) then Sub(value, First(lib)) else value }

  lemma AddressByOffset(lib: Library, value: u64)
    ensures SymbolAddress(lib, value) == Add(lib.base, Offset(lib, value))
  {
  }

  predicate AtNull(lib: Library, value: u64) { Add(lib.base, Offset(lib, value)) == 0 }

  /** The two passes agree on the symbol of a slot: it has a name, a value and a place other than 0, or it
      lies as far from the load base as the first entry of its name, or, if that has no place, as the load
      base itself. */
  predicate Agrees(mem: Memory, lib: Library, r: Rela) {
    || (Named(lib, r) && r.value != 0 && !AtNull(lib, r.value))
    || Offset(lib, r.value) ==
         if Named(lib, r) && lib.listed && !AtNull(lib, FirstValue(mem, lib, r)) then Offset(lib, FirstValue(mem, lib, r)) else 0
  }

  lemma AgreesExactly(mem: Memory, lib: Library, r: Rela)
    ensures OwnTableSymbol(mem, lib, r) == SymbolAddress(lib, r.value) <==> Agrees(mem, lib, r)
  {
    AddressByOffset(lib, r.value);
    AddressByOffset(lib, FirstValue(mem, lib, r));
    OffsetInjective(lib.base, Offset(lib, r.value), Offset(lib, FirstValue(mem, lib, r)));
    OffsetInjective(lib.base, Offset(lib, r.value), 0);
  }

  lemma OffsetInjective(base: u64, x: u64, y: u64)
    ensures Add(base, x) == Add(base, y) <==> x == y
    ensures Add(base, 0) == base
  {
  }

  /** Slot i is the same after both passes. */
  predicate Settled(mem: Memory, s: Stages, i: nat) {
    var r := Fetch(mem, s.lib, s.Slot(i));
    if Handled(mem, s, i) then Agrees(mem, s.lib, r)
    else Read64(mem, Target(s.lib, r)) == Add(SymbolAddress(s.lib, r.value), r.addend)
  }

  lemma SettledExactly(mem: Memory, s: Stages, i: nat)
    requires Regular(mem, s) && i < s.count
    ensures var r := Fetch(mem, s.lib, s.Slot(i));
            Read64(Run(mem, s.FirstJobs()), Target(s.lib, r)) == Add(SymbolAddress(s.lib, r.value), r.addend) <==> Settled(mem, s, i)
  {
    var r := Fetch(mem, s.lib, s.Slot(i));
    FirstPassSlot(mem, s, i);
    AgreesExactly(mem, s.lib, r);
  }

  lemma SameWordRead(m: Memory, n: Memory, a: int)
    requires SameBytes(m, n)
    ensures Read64(m, a) == Read64(n, a)
  {
    assert ReadBytes(m, a, 8) == ReadBytes(n, a, 8);
  }

  ghost predicate SecondPassIdle(mem: Memory, s: Stages) {
    SameBytes(Run(mem, s.AllJobs()), Run(mem, s.FirstJobs()))
  }

  lemma IdleSettles(mem: Memory, s: Stages, i: nat)
    requires Regular(mem, s) && i < s.count
    ensures SecondPassIdle(mem, s) ==> Settled(mem, s, i)
  {
    SecondPassSlot(mem, s, i);
    SettledExactly(mem, s, i);
    if SecondPassIdle(mem, s) {
      SameWordRead(Run(mem, s.AllJobs()), Run(mem, s.FirstJobs()), Target(s.lib, Fetch(mem, s.lib, s.Slot(i))));
    }
  }

  lemma AlreadyThere(mem: Memory, s: Stages, i: nat)
    requires Regular(mem, s) && i < s.count
    ensures Settled(mem, s, i) ==> InPlace(Run(mem, s.FirstJobs()), AllAsks(mem, s.SecondJobs())[i])
  {
    SecondAsks(mem, s, i);
    SettledExactly(mem, s, i);
  }

  lemma SettledIdle(mem: Memory, s: Stages)
    requires Regular(mem, s)
    ensures (forall i :: 0 <= i < s.count ==> Settled(mem, s, i)) ==> SecondPassIdle(mem, s)
  {
    var first, es := Run(mem, s.FirstJobs()), AllAsks(mem, s.SecondJobs());
    SecondPassStores(mem, s);
    if forall i :: 0 <= i < s.count ==> Settled(mem, s, i) {
      forall i | 0 <= i < |es| ensures InPlace(first, es[i]) {
        AlreadyThere(mem, s, i);
      }
      RewriteNeutral(first, es);
    }
  }

  /** The second pass changes nothing exactly when for every slot that the first pass handled the two agree
      on its symbol, and every other slot held its own symbol's address plus addend already. */
  lemma SecondPassNeutral(mem: Memory, s: Stages)
    requires Regular(mem, s)
    ensures SecondPassIdle(mem, s) <==> forall i :: 0 <= i < s.count ==> Settled(mem, s, i)
  {
    if SecondPassIdle(mem, s) {
      forall i | 0 <= i < s.count ensures Settled(mem, s, i) {
        IdleSettles(mem, s, i);
      }
    }
    SettledIdle(mem, s);
  }

  /** The slot names a symbol that is the first of its name in the library's table and is not placed at 0. */
  predicate PlainSlot(mem: Memory, lib: Library, r: Rela) {
    && Named(lib, r) && Find(mem, lib, SoughtName(mem, lib, r)) == r.Sym()
    && !AtNull(lib, r.value)
  }

  lemma PlainSlotAgrees(mem: Memory, lib: Library, t: int)
    requires lib.listed && PlainSlot(mem, lib, Fetch(mem, lib, t))
    ensures Agrees(mem, lib, Fetch(mem, lib, t))
  {
    var r := Fetch(mem, lib, t);
    assert r.value == SymbolValue(mem, lib, r.Sym());
  }

  /** For a library without repeated names whose slots the first pass has all handled, the second pass
      changes nothing, imported symbols included. */
  lemma SecondPassRedundant(mem: Memory, s: Stages)
    requires Regular(mem, s) && s.lib.listed
    requires forall i :: 0 <= i < s.count ==> Handled(mem, s, i) && PlainSlot(mem, s.lib, Fetch(mem, s.lib, s.Slot(i)))
    ensures SecondPassIdle(mem, s)
  {
    forall i | 0 <= i < s.count ensures Settled(mem, s, i) {
      assert Handled(mem, s, i);
      PlainSlotAgrees(mem, s.lib, s.Slot(i));
    }
    SecondPassNeutral(mem, s);
  }

  /** A slot at vaddr 0x300000 of a library of one load of 4 MiB is left alone by the first pass and filled
      by the second. */
  lemma BeyondWindowFilled(mem: Memory, s: Stages, i: nat)
    requires Regular(mem, s) && i < s.count && Read64(mem, s.Slot(i)) == 0x30_0000
    requires s.lib.base == 0x7000_0000 && s.lib.phdrs == [Phdr(PT_LOAD, 0, 0, 0x40_0000, 0x40_0000)]
    ensures Read64(Run(mem, s.FirstJobs()), 0x7030_0000) == Read64(mem, 0x7030_0000)
    ensures var r := Fetch(mem, s.lib, s.Slot(i));
            Read64(Run(mem, s.AllJobs()), 0x7030_0000) == Add(SymbolAddress(s.lib, r.value), r.addend)
  {
    BeyondWindowSkipped(mem, s.lib, s.Slot(i));
    SlotEffects(mem, s.lib, s.Slot(i));
    FirstPassSlot(mem, s, i);
    SecondPassSlot(mem, s, i);
  }

  /** An imported slot ends, whatever other libraries define, with an address of its own library: the
      load base unless a load contains address 0 while another one comes first. */
  lemma ImportedSlot(mem: Memory, s: Stages, i: nat)
    requires Regular(mem, s) && i < s.count && Fetch(mem, s.lib, s.Slot(i)).value == 0
    ensures var (r, m) := (Fetch(mem, s.lib, s.Slot(i)), Run(mem, s.AllJobs()));
            && (Read64(m, Target(s.lib, r)) == Add(s.lib.base, r.addend) <==> First(s.lib) == 0 || !Located(s.lib, 0))
            && forall a: u64 :: !OwnAddress(s.lib, a) ==> Read64(m, Target(s.lib, r)) != Add(a, r.addend)
  {
    var r := Fetch(mem, s.lib, s.Slot(i));
    SecondPassSlot(mem, s, i);
    UndefinedIsOwn(s.lib);
  }

  // ---------------------------------------------------------------- the whole library

  /** After all stages every target of .rela.dyn holds what its entry asks for, every slot its own symbol's
      address plus addend, and no byte outside the targets has changed. */
  lemma LibraryRelocated(mem: Memory, s: Stages)
    requires Regular(mem, s)
    ensures forall i :: 0 <= i < s.n && EffectOf(mem, s.lib, Entry(s.rela, i)).Store? && !InPlt(s, Entry(s.rela, i)) ==>
              Read64(Run(mem, s.AllJobs()), EffectOf(mem, s.lib, Entry(s.rela, i)).addr) == EffectOf(mem, s.lib, Entry(s.rela, i)).value
    ensures forall i :: 0 <= i < s.count ==> SlotFilled(mem, s, i)
    ensures forall x :: (forall job :: job in s.AllJobs() ==> !Touches(Asks(mem, job), x)) ==> Byte(Run(mem, s.AllJobs()), x) == Byte(mem, x)
  {
    forall i | 0 <= i < s.n && EffectOf(mem, s.lib, Entry(s.rela, i)).Store? && !InPlt(s, Entry(s.rela, i))
      ensures Read64(Run(mem, s.AllJobs()), EffectOf(mem, s.lib, Entry(s.rela, i)).addr) == EffectOf(mem, s.lib, Entry(s.rela, i)).value
    {
      RelaTargetHolds(mem, s, i);
    }
    forall i | 0 <= i < s.count ensures SlotFilled(mem, s, i) {
      SecondPassSlot(mem, s, i);
    }
    TargetsAndNothingElse(mem, s.AllJobs());
  }

  /** The address is that of an entry of the PLT table. */
  predicate InPlt(s: Stages, t: int) { exists i :: 0 <= i < s.count && t == s.Slot(i) }

  ghost predicate SlotFilled(mem: Memory, s: Stages, i: nat) {
    var r := Fetch(mem, s.lib, s.Slot(i));
    Read64(Run(mem, s.AllJobs()), Target(s.lib, r)) == Add(SymbolAddress(s.lib, r.value), r.addend)
  }

  lemma RelaTargetHolds(mem: Memory, s: Stages, i: nat)
    requires Regular(mem, s) && i < s.n && EffectOf(mem, s.lib, Entry(s.rela, i)).Store? && !InPlt(s, Entry(s.rela, i))
    ensures Read64(Run(mem, s.AllJobs()), EffectOf(mem, s.lib, Entry(s.rela, i)).addr) == EffectOf(mem, s.lib, Entry(s.rela, i)).value
  {
    var job, first, es := Relocate(s.lib, Entry(s.rela, i)), Run(mem, s.FirstJobs()), AllAsks(mem, s.SecondJobs());
    assert s.FirstJobs()[i] == job;
    StagesJobs(s);
    PassesClashFree(mem, s);
    TargetsAndNothingElse(mem, s.FirstJobs());
    SecondPassStores(mem, s);
    forall k | 0 <= k < |es| ensures Spares(es[k], Asks(mem, job).addr) {
      assert s.SecondJobs()[k] == Refill(s.lib, s.Slot(k)) && s.SecondJobs()[k] in s.SecondJobs();
      assert OwnTargets(mem, s.SecondJobs()[k], job);
    }
    WordSpared(first, es, Asks(mem, job).addr);
  }

  lemma WordSpared(mem: Memory, es: seq<Effect>, a: int)
    requires forall k :: 0 <= k < |es| ==> Spares(es[k], a)
    ensures Read64(DoAll(mem, es), a) == Read64(mem, a)
  {
    forall x | a <= x < a + 8 ensures Byte(DoAll(mem, es), x) == Byte(mem, x) {
      assert forall k :: 0 <= k < |es| ==> !Touches(es[k], x);
      UntouchedKept(mem, es, x);
    }
    assert ReadBytes(DoAll(mem, es), a, 8) == ReadBytes(mem, a, 8);
  }
}
