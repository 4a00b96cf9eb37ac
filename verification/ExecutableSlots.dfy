/**
 The executable's jump slots in main of dynamic_linker/src/dynamic_linker.c, the one place where a name
 is looked up in other modules. The list has the library loaded last in front, a library that only
 imports the name answers for it, and the loop stops after 28 entries.
 */
module ExecutableSlots {
  import opened Words
  import opened ElfImage
  import opened Stores
  import opened SymbolSearch
  import opened Relocation
  import opened LinkSteps
  import opened Linker
  import opened GotPass
  import RelaBytes

  /** The library's first entry of the name has a value. */
  predicate Defines(mem: Memory, lib: Library, name: seq<u8>) {
    Mentions(mem, lib, name) && SymbolValue(mem, lib, Find(mem, lib, name)) != 0
  }

  /** The first library on the list that mentions the name. */
  lemma {:induction false} FirstMention(mem: Memory, libs: seq<Library>, name: seq<u8>, d: nat) returns (i: nat)
    requires d < |libs| && Mentions(mem, libs[d], name)
    ensures i <= d && Mentions(mem, libs[i], name) && forall j :: 0 <= j < i ==> !Mentions(mem, libs[j], name)
    ensures Resolve(mem, libs, name) == MentionAddress(mem, libs[i], name)
  {
    i := 0;
    while !Mentions(mem, libs[i], name)
      invariant i <= d && forall j :: 0 <= j < i ==> !Mentions(mem, libs[j], name)
      decreases d - i
    {
      i := i + 1;
    }
    FirstMentionAnswers(mem, libs, name, i);
  }

  /** The first definition on the list, placed outside the libraries before it, is the one a name is
      bound to exactly when no library before it so much as mentions the name. */
  lemma BoundToDefinition(mem: Memory, libs: seq<Library>, name: seq<u8>, d: nat)
    requires d < |libs| && Defines(mem, libs[d], name)
    requires forall j :: 0 <= j < d ==> !Defines(mem, libs[j], name) && !OwnAddress(libs[j], MentionAddress(mem, libs[d], name))
    ensures Resolve(mem, libs, name) == MentionAddress(mem, libs[d], name)
            <==> forall j :: 0 <= j < d ==> !Mentions(mem, libs[j], name)
  {
    var i := FirstMention(mem, libs, name, d);
    if i < d {
      assert !Defines(mem, libs[i], name);
      UndefinedIsOwn(libs[i]);
    }
  }

  // ---------------------------------------------------------------- what the slots hold

  /** Entry i of the table of the executable, and where its slot is. */
  function Info(mem: Memory, table: int, i: nat): u64 { Read64(mem, Entry(table, i) + 8) }

  function SlotPlace(mem: Memory, exe: Library, table: int, i: nat): u64 {
    Add(Delta(exe), Read64(mem, Entry(table, i)))
  }

  /** The loop treats the entry, looks its name up, and finds its slot in a load. */
  predicate Reached(mem: Memory, exe: Library, table: int, i: nat) {
    i < 28 && LooksUp(mem, exe, Info(mem, table, i)) && Located(exe, Read64(mem, Entry(table, i)))
  }

  lemma BindAsks(mem: Memory, exe: Library, table: int, i: nat)
    ensures var s := Bound(mem, exe, Info(mem, table, i));
            BindEffect(mem, exe, Entry(table, i)) ==
              if s != 0 && Located(exe, Read64(mem, Entry(table, i))) then Store(SlotPlace(mem, exe, table, i), s) else Nothing
  {
  }

  /** What the loop leaves: every slot it reaches holds the answer of the search, if there is one, and no
      byte outside those slots has changed. */
  lemma SlotsFilled(mem: Memory, exe: Library, table: int, count: nat)
    requires Steady(mem, Binds(exe, table, Treated(count))) && NoClash(mem, Binds(exe, table, Treated(count)))
    ensures forall i :: 0 <= i < count && Reached(mem, exe, table, i) && Bound(mem, exe, Info(mem, table, i)) != 0 ==>
              SlotHolds(mem, exe, table, count, i)
    ensures forall x :: (forall i :: 0 <= i < Treated(count) ==> !Touches(BindEffect(mem, exe, Entry(table, i)), x)) ==>
              Byte(Run(mem, Binds(exe, table, Treated(count))), x) == Byte(mem, x)
  {
    forall i | 0 <= i < count && Reached(mem, exe, table, i) && Bound(mem, exe, Info(mem, table, i)) != 0
      ensures SlotHolds(mem, exe, table, count, i)
    {
      SlotFilled(mem, exe, table, count, i);
    }
    forall x | forall i :: 0 <= i < Treated(count) ==> !Touches(BindEffect(mem, exe, Entry(table, i)), x)
      ensures Byte(Run(mem, Binds(exe, table, Treated(count))), x) == Byte(mem, x)
    {
      OutsideSlots(mem, exe, table, Treated(count), x);
    }
  }

  lemma SlotFilled(mem: Memory, exe: Library, table: int, count: nat, i: nat)
    requires Steady(mem, Binds(exe, table, Treated(count))) && NoClash(mem, Binds(exe, table, Treated(count)))
    requires i < count && Reached(mem, exe, table, i) && Bound(mem, exe, Info(mem, table, i)) != 0
    ensures SlotHolds(mem, exe, table, count, i)
  {
    BindAsks(mem, exe, table, i);
    StoreHolds(mem, exe, table, count, i, SlotPlace(mem, exe, table, i), Bound(mem, exe, Info(mem, table, i)));
  }

  lemma OutsideSlots(mem: Memory, exe: Library, table: int, n: nat, x: int)
    requires Steady(mem, Binds(exe, table, n))
    requires forall i :: 0 <= i < n ==> !Touches(BindEffect(mem, exe, Entry(table, i)), x)
    ensures Byte(Run(mem, Binds(exe, table, n)), x) == Byte(mem, x)
  {
    var jobs := Binds(exe, table, n);
    forall job | job in jobs ensures !Touches(Asks(mem, job), x) {
      var i :| 0 <= i < |jobs| && jobs[i] == job;
      assert job == Bind(exe, Entry(table, i));
    }
    TargetsAndNothingElse(mem, jobs);
  }

  ghost predicate SlotHolds(mem: Memory, exe: Library, table: int, count: nat, i: nat) {
    Read64(Run(mem, Binds(exe, table, Treated(count))), SlotPlace(mem, exe, table, i)) == Bound(mem, exe, Info(mem, table, i))
  }

  /** No other entry that the loop treats writes to the slot of entry i. */
  predicate SlotIsOwn(mem: Memory, exe: Library, table: int, count: nat, i: nat) {
    forall j :: 0 <= j < Treated(count) && j != i ==>
      Spares(BindEffect(mem, exe, Entry(table, j)), SlotPlace(mem, exe, table, i))
  }

  /** In the bytes of the tables: the slot of any of the first 28 entries, the last of them included, whose
      symbol index and name offset are in bounds, ends with the place of the first symbol on the list that
      has its name. */
  lemma SlotBoundInBytes(mem: Memory, exe: Library, table: int, count: nat, e: nat, i: nat, k: nat)
    requires Steady(mem, Binds(exe, table, Treated(count))) && NoClash(mem, Binds(exe, table, Treated(count)))
    requires e < 28 && e < count && RelaBytes.Bindable(mem, exe, table + 24 * e, i, k)
    ensures Read64(Run(mem, Binds(exe, table, Treated(count))), RelaBytes.Place(exe, Read64(mem, table + 24 * e)))
            == RelaBytes.Place(exe.next[i], Read64(mem, exe.next[i].symtab + 24 * k + 8))
  {
    RelaBytes.BindStored(mem, exe, Entry(table, e), i, k);
    StoreHolds(mem, exe, table, count, e, RelaBytes.Place(exe, Read64(mem, table + 24 * e)),
               RelaBytes.Place(exe.next[i], Read64(mem, exe.next[i].symtab + 24 * k + 8)));
  }

  /** The store of a treated entry is there at the end. */
  lemma StoreHolds(mem: Memory, exe: Library, table: int, count: nat, e: nat, a: int, v: u64)
    requires Steady(mem, Binds(exe, table, Treated(count))) && NoClash(mem, Binds(exe, table, Treated(count)))
    requires e < Treated(count) && BindEffect(mem, exe, Entry(table, e)) == Store(a, v)
    ensures Read64(Run(mem, Binds(exe, table, Treated(count))), a) == v
  {
    var jobs := Binds(exe, table, Treated(count));
    assert jobs[e] == Bind(exe, Entry(table, e)) && jobs[e] in jobs;
    TargetsAndNothingElse(mem, jobs);
  }

  /** A slot that the loop does not write keeps what it held. */
  lemma SlotUntouched(mem: Memory, exe: Library, table: int, count: nat, i: nat)
    requires Steady(mem, Binds(exe, table, Treated(count))) && SlotIsOwn(mem, exe, table, count, i)
    requires i >= 28 || i >= count || BindEffect(mem, exe, Entry(table, i)) == Nothing
    ensures var place := SlotPlace(mem, exe, table, i);
            Read64(Run(mem, Binds(exe, table, Treated(count))), place) == Read64(mem, place)
  {
    var jobs, place := Binds(exe, table, Treated(count)), SlotPlace(mem, exe, table, i);
    forall job | job in jobs ensures Spares(Asks(mem, job), place) {
      var j :| 0 <= j < |jobs| && jobs[j] == job;
      assert job == Bind(exe, Entry(table, j));
    }
    WordKept(mem, jobs, place);
  }

  /** The definition that a slot should be bound to: the first on the list of those that define its name,
      not at address 0, placed outside the libraries before it. */
  ghost predicate IsDefinition(mem: Memory, exe: Library, name: seq<u8>, d: nat) {
    && d < |exe.next| && Defines(mem, exe.next[d], name) && MentionAddress(mem, exe.next[d], name) != 0
    && forall j :: 0 <= j < d ==>
         !Defines(mem, exe.next[j], name) && !OwnAddress(exe.next[j], MentionAddress(mem, exe.next[d], name))
  }

  /** A slot that did not hold the address of its definition holds it at the end exactly when its entry is
      among the first 28, its symbol index and name are in bounds, it is in a load, and no library before
      the defining one mentions the name. */
  lemma SlotBound(mem: Memory, exe: Library, table: int, count: nat, i: nat, d: nat)
    requires Steady(mem, Binds(exe, table, Treated(count))) && NoClash(mem, Binds(exe, table, Treated(count)))
    requires i < count && SlotIsOwn(mem, exe, table, count, i)
    requires IsDefinition(mem, exe, SlotName(mem, exe, Info(mem, table, i)), d)
    requires Read64(mem, SlotPlace(mem, exe, table, i)) != MentionAddress(mem, exe.next[d], SlotName(mem, exe, Info(mem, table, i)))
    ensures var name := SlotName(mem, exe, Info(mem, table, i));
            Read64(Run(mem, Binds(exe, table, Treated(count))), SlotPlace(mem, exe, table, i)) == MentionAddress(mem, exe.next[d], name)
            <==> Reached(mem, exe, table, i) && forall j :: 0 <= j < d ==> !Mentions(mem, exe.next[j], name)
  {
    BindAsks(mem, exe, table, i);
    BoundToDefinition(mem, exe.next, SlotName(mem, exe, Info(mem, table, i)), d);
    if Reached(mem, exe, table, i) && Bound(mem, exe, Info(mem, table, i)) != 0 {
      SlotFilled(mem, exe, table, count, i);
      assert SlotHolds(mem, exe, table, count, i);
    } else {
      SlotUntouched(mem, exe, table, count, i);
    }
  }

  /** A name whose definition is d is bound to it, or to an address of a library before it. */
  lemma BoundOrOwn(mem: Memory, exe: Library, name: seq<u8>, d: nat)
    requires IsDefinition(mem, exe, name, d)
    ensures var s := Resolve(mem, exe.next, name);
            if forall j :: 0 <= j < d ==> !Mentions(mem, exe.next[j], name) then s == MentionAddress(mem, exe.next[d], name)
            else exists j :: 0 <= j < d && OwnAddress(exe.next[j], s)
  {
    var i := FirstMention(mem, exe.next, name, d);
    if i < d {
      assert !Defines(mem, exe.next[i], name);
      UndefinedIsOwn(exe.next[i]);
    }
  }

  /** The addend that the loop leaves out. */
  function SlotAddend(mem: Memory, table: int, i: nat): u64 { Read64(mem, Entry(table, i) + 16) }

  /** A slot that did not hold its ABI value S + A, which no library before the defining one covers, holds
      it at the end exactly under the conditions of `SlotBound` and when A is 0. */
  lemma SlotIsAbi(mem: Memory, exe: Library, table: int, count: nat, i: nat, d: nat)
    requires Steady(mem, Binds(exe, table, Treated(count))) && NoClash(mem, Binds(exe, table, Treated(count)))
    requires i < count && SlotIsOwn(mem, exe, table, count, i)
    requires IsDefinition(mem, exe, SlotName(mem, exe, Info(mem, table, i)), d)
    requires var abi := Add(MentionAddress(mem, exe.next[d], SlotName(mem, exe, Info(mem, table, i))), SlotAddend(mem, table, i));
             Read64(mem, SlotPlace(mem, exe, table, i)) != abi && forall j :: 0 <= j < d ==> !OwnAddress(exe.next[j], abi)
    ensures var name := SlotName(mem, exe, Info(mem, table, i));
            Read64(Run(mem, Binds(exe, table, Treated(count))), SlotPlace(mem, exe, table, i))
              == Add(MentionAddress(mem, exe.next[d], name), SlotAddend(mem, table, i))
            <==> && Reached(mem, exe, table, i) && SlotAddend(mem, table, i) == 0
                 && forall j :: 0 <= j < d ==> !Mentions(mem, exe.next[j], name)
  {
    var name := SlotName(mem, exe, Info(mem, table, i));
    BindAsks(mem, exe, table, i);
    BoundOrOwn(mem, exe, name, d);
    OffsetInjective(MentionAddress(mem, exe.next[d], name), SlotAddend(mem, table, i), 0);
    if Reached(mem, exe, table, i) && Bound(mem, exe, Info(mem, table, i)) != 0 {
      SlotFilled(mem, exe, table, count, i);
      assert SlotHolds(mem, exe, table, count, i);
    } else {
      SlotUntouched(mem, exe, table, count, i);
    }
  }

  /** A table of 29 entries of which only the last is a jump slot: nothing is bound. */
  lemma LastOf29Unbound(mem: Memory, exe: Library, table: int)
    requires forall i :: 0 <= i < 28 ==> !LooksUp(mem, exe, Info(mem, table, i))
    ensures Run(mem, Binds(exe, table, Treated(29))) == mem
  {
    NothingLookedUp(mem, exe, table, 28);
  }

  lemma {:induction false} NothingLookedUp(mem: Memory, exe: Library, table: int, n: nat)
    requires forall i :: 0 <= i < n ==> !LooksUp(mem, exe, Info(mem, table, i))
    ensures Run(mem, Binds(exe, table, n)) == mem
  {
    if n > 0 {
      NothingLookedUp(mem, exe, table, n - 1);
      NextBind(mem, exe, table, n - 1);
      BindAsks(mem, exe, table, n - 1);
      assert !LooksUp(mem, exe, Info(mem, table, n - 1));
    }
  }
}
