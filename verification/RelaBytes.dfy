/**
 What one table entry does to memory, told in the bytes of the entry: its 24 bytes at t are r_offset,
 r_info and r_addend, and the symbol named by the upper half of r_info has its name at byte 0 and its value
 at byte 8 of 24 bytes in the symbol table.
 */
module RelaBytes {
  import opened Words
  import opened ElfImage
  import opened Stores
  import opened SymbolSearch
  import opened Relocation

  /** A load of the library contains the link-time address. */
  predicate InSomeLoad(lib: Library, v: int) { Held(lib.phdrs, v) }

  /** At most 2 MiB above the load base. */
  predicate Near(lib: Library, a: int) { lib.base <= a <= lib.base + 0x20_0000 }

  /** The library is not at 0 or at the end of the address space, and its loads do not wrap around. */
  predicate Plain(lib: Library) {
    lib.base > 0 && lib.base + 0x20_0000 < 0x1_0000_0000_0000_0000 && EndsFit(lib.phdrs)
  }

  function Offset(mem: Memory, t: int): u64 { Read64(mem, t) }
  function Type(mem: Memory, t: int): nat { Read64(mem, t + 8) % 0x1_0000_0000 }
  function Symbol(mem: Memory, t: int): nat { Read64(mem, t + 8) / 0x1_0000_0000 }
  function Addend(mem: Memory, t: int): u64 { Read64(mem, t + 16) }
  function SymbolName(mem: Memory, lib: Library, t: int): nat { Read32(mem, lib.symtab + 24 * Symbol(mem, t)) }
  function SymbolWord(mem: Memory, lib: Library, t: int): u64 { Read64(mem, lib.symtab + 24 * Symbol(mem, t) + 8) }

  predicate HasEntry(mem: Memory, lib: Library, t: int) { lib.symtab != 0 && Symbol(mem, t) < lib.symnum }

  /** Where a link-time address is in memory. */
  function Place(lib: Library, v: int): int { lib.base + v - First(lib) }

  function SymbolPlusAddend(mem: Memory, lib: Library, t: int): u64
    requires InMemory(Place(lib, SymbolWord(mem, lib, t)))
  {
    Add(Place(lib, SymbolWord(mem, lib, t)), Addend(mem, t))
  }

  predicate InMemory(a: int) { 0 < a < 0x1_0000_0000_0000_0000 }

  /** Entry and target are in the window. */
  predicate Reached(mem: Memory, lib: Library, t: int) { Near(lib, t) && Near(lib, Place(lib, Offset(mem, t))) }

  /** n is m with the word at a replaced by v. */
  ghost predicate OnlyWord(m: Memory, n: Memory, a: int, v: u64) {
    Read64(n, a) == v && forall x :: x < a || x >= a + 8 ==> Byte(n, x) == Byte(m, x)
  }

  lemma WordStored(m: Memory, a: int, v: u64)
    ensures OnlyWord(m, Do(m, Store(a, v)), a, v)
  {
    WriteRead(m, a, v);
  }

  lemma TranslatePlain(lib: Library, v: u64)
    requires Plain(lib)
    ensures Translate(v, lib.base, lib.phdrs) == if InSomeLoad(lib, v) then Add(lib.base, Sub(v, First(lib))) else 0
    ensures InMemory(Place(lib, v)) ==> Add(lib.base, Sub(v, First(lib))) == Place(lib, v)
    ensures InMemory(Place(lib, v)) ==> Sub(Add(lib.base, v), First(lib)) == Place(lib, v)
  {
    TranslateByHeaders(v, lib.base, lib.phdrs);
  }

  lemma TargetPlain(mem: Memory, lib: Library, t: int)
    requires Plain(lib) && InMemory(Place(lib, Offset(mem, t)))
    ensures Target(lib, Fetch(mem, lib, t)) == Place(lib, Offset(mem, t))
    ensures Accepted(lib, Fetch(mem, lib, t), t) <==> Reached(mem, lib, t)
  {
    TranslatePlain(lib, Offset(mem, t));
  }

  lemma SymbolPlain(lib: Library, v: u64)
    requires Plain(lib) && InMemory(Place(lib, v)) && (First(lib) == 0 || InSomeLoad(lib, v))
    ensures SymbolAddress(lib, v) == Place(lib, v)
  {
    TranslatePlain(lib, v);
  }

  /** R_AARCH64_RELATIVE stores the load base plus the addend. */
  lemma RelativeStored(mem: Memory, lib: Library, t: int)
    requires Plain(lib) && Reached(mem, lib, t) && Type(mem, t) == 1027
    ensures OnlyWord(mem, Do(mem, EffectOf(mem, lib, t)), Place(lib, Offset(mem, t)), Add(lib.base, Addend(mem, t)))
  {
    TargetPlain(mem, lib, t);
    assert EffectOf(mem, lib, t) == Store(Place(lib, Offset(mem, t)), Add(lib.base, Addend(mem, t)));
    WordStored(mem, Place(lib, Offset(mem, t)), Add(lib.base, Addend(mem, t)));
  }

  /** R_AARCH64_ABS64 and R_AARCH64_GLOB_DAT store the symbol's place plus the addend. */
  lemma DataStored(mem: Memory, lib: Library, t: int)
    requires Plain(lib) && Reached(mem, lib, t) && Type(mem, t) in {257, 1025} && HasEntry(mem, lib, t)
    requires InMemory(Place(lib, SymbolWord(mem, lib, t))) && (First(lib) == 0 || InSomeLoad(lib, SymbolWord(mem, lib, t)))
    ensures OnlyWord(mem, Do(mem, EffectOf(mem, lib, t)), Place(lib, Offset(mem, t)), SymbolPlusAddend(mem, lib, t))
  {
    TargetPlain(mem, lib, t);
    SymbolPlain(lib, SymbolWord(mem, lib, t));
    assert EffectOf(mem, lib, t) == Store(Place(lib, Offset(mem, t)), SymbolPlusAddend(mem, lib, t));
    WordStored(mem, Place(lib, Offset(mem, t)), SymbolPlusAddend(mem, lib, t));
  }

  /** R_AARCH64_JUMP_SLOT with a name and a value stores the symbol's place plus the addend. */
  lemma SlotStored(mem: Memory, lib: Library, t: int)
    requires Plain(lib) && Reached(mem, lib, t) && Type(mem, t) == 1026 && HasEntry(mem, lib, t)
    requires lib.strtab != 0 && SymbolName(mem, lib, t) != 0 && SymbolWord(mem, lib, t) != 0
    requires InMemory(Place(lib, SymbolWord(mem, lib, t))) && (First(lib) == 0 || InSomeLoad(lib, SymbolWord(mem, lib, t)))
    ensures OnlyWord(mem, Do(mem, EffectOf(mem, lib, t)), Place(lib, Offset(mem, t)), SymbolPlusAddend(mem, lib, t))
  {
    TargetPlain(mem, lib, t);
    SymbolPlain(lib, SymbolWord(mem, lib, t));
    assert EffectOf(mem, lib, t) == Store(Place(lib, Offset(mem, t)), SymbolPlusAddend(mem, lib, t));
    WordStored(mem, Place(lib, Offset(mem, t)), SymbolPlusAddend(mem, lib, t));
  }

  /** R_AARCH64_JUMP_SLOT of a listed library with a name but no value stores the place of entry k, the first
      of its own table with that name, plus the addend. */
  lemma ImportedSlotStored(mem: Memory, lib: Library, t: int, k: nat)
    requires Plain(lib) && Reached(mem, lib, t) && Type(mem, t) == 1026 && HasEntry(mem, lib, t) && lib.listed
    requires lib.strtab != 0 && SymbolName(mem, lib, t) != 0 && SymbolWord(mem, lib, t) == 0
    requires FirstEntryNamed(mem, lib, k, lib.strtab + SymbolName(mem, lib, t))
    requires var v := Read64(mem, lib.symtab + 24 * k + 8); InMemory(Place(lib, v)) && (First(lib) == 0 || InSomeLoad(lib, v))
    ensures OnlyWord(mem, Do(mem, EffectOf(mem, lib, t)), Place(lib, Offset(mem, t)),
                     Add(Place(lib, Read64(mem, lib.symtab + 24 * k + 8)), Addend(mem, t)))
  {
    var v, place := Read64(mem, lib.symtab + 24 * k + 8), Place(lib, Offset(mem, t));
    TargetPlain(mem, lib, t);
    ResolvedEntry(mem, lib.Searched(), lib.strtab + SymbolName(mem, lib, t), 0, k);
    SymbolPlain(lib, v);
    assert Fetch(mem, lib, t).found == Place(lib, v);
    assert EffectOf(mem, lib, t) == Store(place, Add(Place(lib, v), Addend(mem, t)));
    WordStored(mem, place, Add(Place(lib, v), Addend(mem, t)));
  }

  /** R_AARCH64_JUMP_SLOT without a symbol entry, a string table or a name stores the load base plus the
      addend. */
  lemma NamelessSlotStored(mem: Memory, lib: Library, t: int)
    requires Plain(lib) && Reached(mem, lib, t) && Type(mem, t) == 1026
    requires !HasEntry(mem, lib, t) || lib.strtab == 0 || SymbolName(mem, lib, t) == 0
    ensures OnlyWord(mem, Do(mem, EffectOf(mem, lib, t)), Place(lib, Offset(mem, t)), Add(lib.base, Addend(mem, t)))
  {
    TargetPlain(mem, lib, t);
    assert EffectOf(mem, lib, t) == Store(Place(lib, Offset(mem, t)), Add(lib.base, Addend(mem, t)));
    WordStored(mem, Place(lib, Offset(mem, t)), Add(lib.base, Addend(mem, t)));
  }

  /** An unknown type is treated as RELATIVE. */
  lemma UnknownTypeStored(mem: Memory, lib: Library, t: int)
    requires Plain(lib) && Reached(mem, lib, t) && Type(mem, t) !in {0, 257, 1025, 1026, 1027}
    ensures OnlyWord(mem, Do(mem, EffectOf(mem, lib, t)), Place(lib, Offset(mem, t)), Add(lib.base, Addend(mem, t)))
  {
    TargetPlain(mem, lib, t);
    assert EffectOf(mem, lib, t) == Store(Place(lib, Offset(mem, t)), Add(lib.base, Addend(mem, t)));
    WordStored(mem, Place(lib, Offset(mem, t)), Add(lib.base, Addend(mem, t)));
  }

  /** R_AARCH64_NONE, an entry or target beyond the window, and a data relocation without a symbol entry
      change nothing. */
  lemma NothingStored(mem: Memory, lib: Library, t: int)
    requires Plain(lib) && InMemory(Place(lib, Offset(mem, t)))
    requires || Type(mem, t) == 0 || !Near(lib, t) || !Near(lib, Place(lib, Offset(mem, t)))
             || (Type(mem, t) in {257, 1025} && !HasEntry(mem, lib, t))
    ensures Do(mem, EffectOf(mem, lib, t)) == mem
  {
    TargetPlain(mem, lib, t);
  }

  /** The second pass stores the symbol's place plus the addend, near or far. */
  lemma RefillStored(mem: Memory, lib: Library, t: int)
    requires Plain(lib) && HasEntry(mem, lib, t) && lib.strtab != 0
    requires InSomeLoad(lib, Offset(mem, t)) && InMemory(Place(lib, Offset(mem, t)))
    requires InMemory(Place(lib, SymbolWord(mem, lib, t))) && (First(lib) == 0 || InSomeLoad(lib, SymbolWord(mem, lib, t)))
    ensures OnlyWord(mem, Do(mem, GotEffect(mem, lib, t)), Place(lib, Offset(mem, t)), SymbolPlusAddend(mem, lib, t))
  {
    TranslatePlain(lib, Offset(mem, t));
    SymbolPlain(lib, SymbolWord(mem, lib, t));
    assert GotEffect(mem, lib, t) == Store(Place(lib, Offset(mem, t)), SymbolPlusAddend(mem, lib, t));
    WordStored(mem, Place(lib, Offset(mem, t)), SymbolPlusAddend(mem, lib, t));
  }

  /** Without a symbol entry, a string table or a load at r_offset the second pass changes nothing. */
  lemma NothingRefilled(mem: Memory, lib: Library, t: int)
    requires Plain(lib) && (!HasEntry(mem, lib, t) || lib.strtab == 0 || !InSomeLoad(lib, Offset(mem, t)))
    ensures Do(mem, GotEffect(mem, lib, t)) == mem
  {
    TranslatePlain(lib, Offset(mem, t));
  }

  // ---------------------------------------------------------------- the executable

  /** The entry's name is looked up: a JUMP_SLOT whose symbol index and name offset are in bounds. */
  predicate SlotToBind(mem: Memory, exe: Library, t: int) {
    Type(mem, t) == 1026 && 0 < Symbol(mem, t) < 100000 && 0 < SymbolName(mem, exe, t) < 100000
  }

  /** Entry k of library i is the first that has the name of the executable's symbol. */
  predicate FirstNamed(mem: Memory, exe: Library, t: int, i: nat, k: nat) {
    var name := exe.strtab + SymbolName(mem, exe, t);
    && i < |exe.next| && (forall j :: 0 <= j < i ==> Silent(mem, exe.next[j], name))
    && FirstEntryNamed(mem, exe.next[i], k, name)
  }

  /** The entry is looked up, its slot is in a load, and so is the symbol found, unless the first vaddr of its
      library is 0. */
  predicate Bindable(mem: Memory, exe: Library, t: int, i: nat, k: nat) {
    && Plain(exe) && SlotToBind(mem, exe, t) && InSomeLoad(exe, Offset(mem, t)) && InMemory(Place(exe, Offset(mem, t)))
    && FirstNamed(mem, exe, t, i, k) && Plain(exe.next[i])
    && var (lib, v) := (exe.next[i], Read64(mem, exe.next[i].symtab + 24 * k + 8));
       InMemory(Place(lib, v)) && (First(lib) == 0 || InSomeLoad(lib, v))
  }

  /** One round of the executable's loop stores the place of the first symbol of that name. */
  lemma BindStored(mem: Memory, exe: Library, t: int, i: nat, k: nat)
    requires Bindable(mem, exe, t, i, k)
    ensures BindEffect(mem, exe, t) ==
              Store(Place(exe, Offset(mem, t)), Place(exe.next[i], Read64(mem, exe.next[i].symtab + 24 * k + 8)))
  {
    TranslatePlain(exe, Offset(mem, t));
    ResolvedEntry(mem, exe.next, exe.strtab + SymbolName(mem, exe, t), i, k);
    SymbolPlain(exe.next[i], Read64(mem, exe.next[i].symtab + 24 * k + 8));
  }

  /** An entry that is not to be bound, a slot in no load and a name that no library has change nothing. */
  lemma NothingBound(mem: Memory, exe: Library, t: int)
    requires Plain(exe)
    requires || !SlotToBind(mem, exe, t) || !InSomeLoad(exe, Offset(mem, t))
             || forall j :: 0 <= j < |exe.next| ==> Silent(mem, exe.next[j], exe.strtab + SymbolName(mem, exe, t))
    ensures Do(mem, BindEffect(mem, exe, t)) == mem
  {
    TranslatePlain(exe, Offset(mem, t));
    var name := exe.strtab + SymbolName(mem, exe, t);
    if forall j :: 0 <= j < |exe.next| ==> Silent(mem, exe.next[j], name) {
      NobodyAnswers(mem, exe.next, name);
    }
  }
}
