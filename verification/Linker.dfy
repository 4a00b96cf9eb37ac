/**
 The loops of dynamic_linker/src/dynamic_linker.c that write to memory in place: the relocation stages of
 load_shared_library and the executable's slots in main.
 */
module Linker {
  import opened Words
  import opened ElfImage
  import opened Stores
  import opened SymbolSearch
  import opened Relocation
  import opened LinkSteps

  lemma NextRelocation(m: Memory, lib: Library, table: int, i: nat)
    ensures var before := Run(m, Relocations(lib, table, i));
            Run(m, Relocations(lib, table, i + 1)) == Do(before, EffectOf(before, lib, Entry(table, i)))
  {
    TableSnoc(lib, table, i);
    RunSnoc(m, Relocations(lib, table, i), Relocate(lib, Entry(table, i)));
  }

  lemma NextRefill(m: Memory, lib: Library, table: int, i: nat)
    ensures var before := Run(m, Refills(lib, table, i));
            Run(m, Refills(lib, table, i + 1)) == Do(before, GotEffect(before, lib, Entry(table, i)))
  {
    TableSnoc(lib, table, i);
    RunSnoc(m, Refills(lib, table, i), Refill(lib, Entry(table, i)));
  }

  lemma NextBind(m: Memory, exe: Library, table: int, i: nat)
    ensures var before := Run(m, Binds(exe, table, i));
            Run(m, Binds(exe, table, i + 1)) == Do(before, BindEffect(before, exe, Entry(table, i)))
  {
    TableSnoc(exe, table, i);
    RunSnoc(m, Binds(exe, table, i), Bind(exe, Entry(table, i)));
  }

  function FirstPass(lib: Library, rela: int, n: nat, plt: int, m: nat): seq<Job> {
    Relocations(lib, rela, n) + Relocations(lib, plt, m)
  }

  /** n entries of .rela.dyn, m entries of .rela.plt, then the second pass over the whole of .rela.plt. */
  function LibraryJobs(lib: Library, rela: int, n: nat, plt: int, m: nat, count: nat): seq<Job> {
    FirstPass(lib, rela, n, plt, m) + Refills(lib, plt, count)
  }

  /** How many of the executable's entries the loop treats. */
  function Treated(count: nat): nat { if count < 28 then count else 28 }

  class Image {
    var memory: Memory

    /** process_relocation, its checks and its switch in source order. */
    method ProcessRelocation(lib: Library, t: int)
      modifies this
      ensures memory == Do(old(memory), EffectOf(old(memory), lib, t))
    {
      if t == 0 {
        return;
      }
      if t < lib.base || t > Add(lib.base, WINDOW) {
        return;
      }
      var r := FetchEntry(memory, lib, t);
      var a := Place(lib, r);
      if a == 0 {
        return;
      }
      if a < lib.base || a > Add(lib.base, WINDOW) {
        return;
      }
      if r.Type() == R_RELATIVE {
        memory := Write64(memory, a, Add(lib.base, r.addend));
      } else if r.Type() == R_ABS64 || r.Type() == R_GLOB_DAT {
        if r.Sym() < lib.symnum && lib.symtab != 0 {
          var s := OwnSymbol(lib, r.value);
          memory := Write64(memory, a, Add(s, r.addend));
        }
      } else if r.Type() == R_JUMP_SLOT {
        var s := ResolveSlot(lib, r, t);
        if s != 0 {
          memory := Write64(memory, a, Add(s, r.addend));
        } else {
          memory := Write64(memory, a, Add(lib.base, r.addend));
        }
      } else if r.Type() != 0 {
        memory := Write64(memory, a, Add(lib.base, r.addend));
      }
    }

    /** The target address: through the load that contains it, or relative to the first load. */
    method Place(lib: Library, r: Rela) returns (a: u64)
      ensures a == Target(lib, r)
    {
      a := CalculateAddressFromVaddr(r.offset, lib.base, lib.phdrs);
      if a == 0 {
        var first := FindFirstVaddr(lib.phdrs);
        a := Sub(Add(lib.base, r.offset), first);
      }
    }

    /** The two symbol lookups of a JUMP_SLOT entry; 0 if both fail. */
    method ResolveSlot(lib: Library, r: Rela, ghost t: int) returns (s: u64)
      requires r == FetchEntry(memory, lib, t) && r.Type() == R_JUMP_SLOT
      ensures SlotSymbol(lib, Fetch(memory, lib, t)) == if s != 0 then s else lib.base
    {
      s := 0;
      if r.Sym() < lib.symnum && lib.symtab != 0 && lib.strtab != 0 {
        if r.name != 0 && r.value != 0 {
          s := OwnSymbol(lib, r.value);
        }
      }
      if s == 0 && lib.strtab != 0 && r.Sym() < lib.symnum && lib.symtab != 0 {
        if r.name != 0 {
          s := ResolveSymbolGlobal(memory, lib.Searched(), lib.strtab + r.name);
        }
      }
    }

    /** calculate_symbol_address, or the load base plus the value when it finds no segment. */
    method OwnSymbol(lib: Library, value: u64) returns (s: u64)
      ensures s == SymbolAddress(lib, value)
    {
      s := CalculateSymbolAddress(value, lib.base, lib.phdrs);
      if s == 0 {
        s := Add(lib.base, value);
      }
    }

    /** The loop over .rela.dyn or .rela.plt: it stops at the first entry outside the library. */
    method ProcessTable(lib: Library, table: int, count: nat, total: nat) returns (n: nat)
      modifies this
      ensures n <= count && memory == Run(old(memory), Relocations(lib, table, n))
      ensures forall i :: 0 <= i < n ==> lib.base <= Entry(table, i) <= lib.base + total
      ensures n < count ==> !(lib.base <= Entry(table, n) <= lib.base + total)
    {
      n := 0;
      while n < count
        invariant n <= count && memory == Run(old(memory), Relocations(lib, table, n))
        invariant forall i :: 0 <= i < n ==> lib.base <= Entry(table, i) <= lib.base + total
      {
        if Entry(table, n) < lib.base || Entry(table, n) > lib.base + total {
          break;
        }
        NextRelocation(old(memory), lib, table, n);
        ProcessRelocation(lib, Entry(table, n));
        n := n + 1;
      }
    }

    /** One entry of the second pass over the PLT table. */
    method FillEntry(lib: Library, t: int)
      modifies this
      ensures memory == Do(old(memory), GotEffect(old(memory), lib, t))
    {
      var r := FetchEntry(memory, lib, t);
      if r.Sym() < lib.symnum && lib.symtab != 0 && lib.strtab != 0 {
        var s := OwnSymbol(lib, r.value);
        var got := CalculateAddressFromVaddr(r.offset, lib.base, lib.phdrs);
        if got != 0 {
          memory := Write64(memory, got, Add(s, r.addend));
        }
      }
    }

    /** The second pass over the PLT table. */
    method FillGotEntries(lib: Library, table: int, count: nat)
      modifies this
      ensures memory == Run(old(memory), Refills(lib, table, count))
    {
      for i := 0 to count
        invariant memory == Run(old(memory), Refills(lib, table, i))
      {
        NextRefill(old(memory), lib, table, i);
        FillEntry(lib, Entry(table, i));
      }
    }

    /** The relocation stages of load_shared_library: both tables, then the second pass. n and m are the
        entries before the first one outside the library. */
    method RelocateLibrary(lib: Library, rela: int, relaCount: nat, plt: int, pltCount: nat, total: nat)
      returns (n: nat, m: nat)
      modifies this
      ensures n <= relaCount && m <= pltCount
      ensures memory == Run(old(memory), LibraryJobs(lib, rela, n, plt, m, pltCount))
      ensures n < relaCount ==> !(lib.base <= Entry(rela, n) <= lib.base + total)
      ensures m < pltCount ==> !(lib.base <= Entry(plt, m) <= lib.base + total)
    {
      n := ProcessTable(lib, rela, relaCount, total);
      m := ProcessTable(lib, plt, pltCount, total);
      FillGotEntries(lib, plt, pltCount);
      RunAppend(old(memory), Relocations(lib, rela, n), Relocations(lib, plt, m));
      RunAppend(old(memory), FirstPass(lib, rela, n, plt, m), Refills(lib, plt, pltCount));
    }

    /** The search for the executable's symbol, if the entry is one to look up. */
    method LookUp(exe: Library, info: u64) returns (s: u64)
      ensures s == Bound(memory, exe, info)
    {
      s := 0;
      var sym := info / 0x1_0000_0000;
      if info % 0x1_0000_0000 == R_JUMP_SLOT && sym > 0 && sym < INDEX_LIMIT {
        var name := NameOffset(memory, exe, sym);
        if name > 0 && name < INDEX_LIMIT {
          s := ResolveSymbolGlobal(memory, exe.next, exe.strtab + name);
        }
      }
    }

    /** One round of the loop over the executable's slots. */
    method BindSlot(exe: Library, t: int)
      modifies this
      ensures memory == Do(old(memory), BindEffect(old(memory), exe, t))
    {
      var s := LookUp(exe, Read64(memory, t + 8));
      if s != 0 {
        var slot := CalculateAddressFromVaddr(Read64(memory, t), exe.base, exe.phdrs);
        if slot != 0 {
          memory := Write64(memory, slot, s);
        }
      }
    }

    /** That round, for entry i after the ones before it. */
    method BindNext(exe: Library, table: int, i: nat, ghost start: Memory)
      requires memory == Run(start, Binds(exe, table, i))
      modifies this
      ensures memory == Run(start, Binds(exe, table, i + 1))
    {
      NextBind(start, exe, table, i);
      BindSlot(exe, Entry(table, i));
    }

    /** The loop over the executable's slots: it treats the first 28 entries, however many there are. */
    method BindSlots(exe: Library, table: int, count: nat)
      modifies this
      ensures memory == Run(old(memory), Binds(exe, table, Treated(count)))
    {
      var i: nat := 0;
      while i < count && i < SLOT_LIMIT
        invariant i <= count && i <= SLOT_LIMIT
        invariant memory == Run(old(memory), Binds(exe, table, i))
      {
        BindNext(exe, table, i, old(memory));
        i := i + 1;
      }
    }
  }
}
