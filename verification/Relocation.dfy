/**
 What dynamic_linker/src/dynamic_linker.c does for one Elf64_Rela: process_relocation, one round of the
 second pass over the PLT table, and one round of the loop over the executable's jump slots; and which
 bytes each of them reads.
 */
module Relocation {
  import opened Words
  import opened ElfImage
  import opened Stores
  import opened SymbolSearch

  const R_ABS64 := 257
  const R_GLOB_DAT := 1025
  const R_JUMP_SLOT := 1026
  const R_RELATIVE := 1027
  const WINDOW := 0x20_0000

  // ---------------------------------------------------------------- one entry

  /** An Elf64_Rela, the two fields of its Elf64_Sym that are used, 0 when it names no symbol, and what
      resolve_symbol_global answers for its name, 0 when it is not asked. */
  datatype Rela = Rela(offset: u64, info: u64, addend: u64, name: nat, value: u64, found: u64) {
    function Type(): nat { info % 0x1_0000_0000 }
    function Sym(): nat { info / 0x1_0000_0000 }
  }

  predicate HasSymbol(lib: Library, info: u64) { info / 0x1_0000_0000 < lib.symnum && lib.symtab != 0 }

  function SymbolEntry(lib: Library, info: u64): int { SymbolAt(lib, info / 0x1_0000_0000) }

  function FetchEntry(mem: Memory, lib: Library, t: int): Rela {
    var info := Read64(mem, t + 8);
    var s := SymbolEntry(lib, info);
    if HasSymbol(lib, info) then Rela(Read64(mem, t), info, Read64(mem, t + 16), Read32(mem, s), Read64(mem, s + 8), 0)
    else Rela(Read64(mem, t), info, Read64(mem, t + 16), 0, 0, 0)
  }

  function Fetch(mem: Memory, lib: Library, t: int): Rela {
    var r := FetchEntry(mem, lib, t);
    if Searches(lib, r) then r.(found := Answer(mem, lib, r)) else r
  }

  function SoughtName(mem: Memory, lib: Library, r: Rela): seq<u8> { NameAt(mem, lib.strtab + r.name) }

  predicate InWindow(lib: Library, a: int) { lib.base <= a <= Add(lib.base, WINDOW) }

  function Target(lib: Library, r: Rela): u64 {
    var a := Translate(r.offset, lib.base, lib.phdrs);
    if a != 0 then a else Sub(Add(lib.base, r.offset), First(lib))
  }

  /** get_symbol_name returns a name. */
  predicate Named(lib: Library, r: Rela) { HasSymbol(lib, r.info) && lib.strtab != 0 && r.name != 0 }

  /** The address of the entry's own symbol, 0 if it has no name or no value. */
  function OwnValue(lib: Library, r: Rela): u64 {
    if Named(lib, r) && r.value != 0 then SymbolAddress(lib, r.value) else 0
  }

  /** process_relocation calls resolve_symbol_global. */
  predicate Searches(lib: Library, r: Rela) { r.Type() == R_JUMP_SLOT && Named(lib, r) && OwnValue(lib, r) == 0 }

  /** The symbol address of a JUMP_SLOT entry: its own symbol, then the answer of the search, then the
      load base. */
  function SlotSymbol(lib: Library, r: Rela): u64 {
    if OwnValue(lib, r) != 0 then OwnValue(lib, r) else if r.found != 0 then r.found else lib.base
  }

  /** What process_relocation computes for an entry whose target it accepts. */
  function SlotValue(lib: Library, r: Rela): Effect {
    var a := Target(lib, r);
    if r.Type() == R_ABS64 || r.Type() == R_GLOB_DAT then
      if HasSymbol(lib, r.info) then Store(a, Add(SymbolAddress(lib, r.value), r.addend)) else Nothing
    else if r.Type() == R_JUMP_SLOT then Store(a, Add(SlotSymbol(lib, r), r.addend))
    else if r.Type() == 0 then Nothing
    else Store(a, Add(lib.base, r.addend))
  }

  predicate Accepted(lib: Library, r: Rela, t: int) {
    t != 0 && InWindow(lib, t) && Target(lib, r) != 0 && InWindow(lib, Target(lib, r))
  }

  /** process_relocation as the store it performs, if any. */
  function EffectOf(mem: Memory, lib: Library, t: int): Effect {
    var r := Fetch(mem, lib, t);
    if Accepted(lib, r, t) then SlotValue(lib, r) else Nothing
  }

  /** One entry of the second pass over the PLT table. */
  function GotEffect(mem: Memory, lib: Library, t: int): Effect {
    var r := FetchEntry(mem, lib, t);
    if HasSymbol(lib, r.info) && lib.strtab != 0 && Translate(r.offset, lib.base, lib.phdrs) != 0 then
      Store(Translate(r.offset, lib.base, lib.phdrs), Add(SymbolAddress(lib, r.value), r.addend))
    else Nothing
  }

  // ---------------------------------------------------------------- the executable

  const SLOT_LIMIT := 28
  const INDEX_LIMIT := 100000

  /** The entry is one that the loop looks up: a JUMP_SLOT with a symbol index and a name in bounds. */
  predicate LooksUp(mem: Memory, exe: Library, info: u64) {
    && info % 0x1_0000_0000 == R_JUMP_SLOT && 0 < info / 0x1_0000_0000 < INDEX_LIMIT
    && 0 < NameOffset(mem, exe, info / 0x1_0000_0000) < INDEX_LIMIT
  }

  /** The name of the entry's symbol. */
  function SlotName(mem: Memory, exe: Library, info: u64): seq<u8> {
    NameAt(mem, exe.strtab + NameOffset(mem, exe, info / 0x1_0000_0000))
  }

  /** The answer of the search for such a name, 0 for any other entry. */
  function Bound(mem: Memory, exe: Library, info: u64): u64 {
    if LooksUp(mem, exe, info) then Resolve(mem, exe.next, SlotName(mem, exe, info)) else 0
  }

  /** What one round of the loop stores: that answer, without the addend. */
  function BindEffect(mem: Memory, exe: Library, t: int): Effect {
    var s, slot := Bound(mem, exe, Read64(mem, t + 8)), Translate(Read64(mem, t), exe.base, exe.phdrs);
    if s != 0 && slot != 0 then Store(slot, s) else Nothing
  }

  // ---------------------------------------------------------------- what an entry reads

  /** The bytes of the entry, of its symbol if it names one, and of the search for its name. */
  predicate Reads(mem: Memory, lib: Library, t: int, x: int) {
    EntryBytes(mem, lib, t, x) ||
    (Searches(lib, FetchEntry(mem, lib, t)) && SearchBytes(mem, lib, FetchEntry(mem, lib, t), x))
  }

  predicate SearchBytes(mem: Memory, lib: Library, r: Rela, x: int) {
    InName(mem, lib.strtab + r.name, x) || SearchReads(mem, lib.Searched(), SoughtName(mem, lib, r), x)
  }

  function Answer(mem: Memory, lib: Library, r: Rela): u64 { Resolve(mem, lib.Searched(), SoughtName(mem, lib, r)) }

  lemma SameAnswer(m: Memory, n: Memory, lib: Library, r: Rela)
    requires forall x :: SearchBytes(m, lib, r, x) ==> Byte(m, x) == Byte(n, x)
    ensures Answer(n, lib, r) == Answer(m, lib, r)
  {
    SameName(m, n, lib.strtab + r.name, NAME_LIMIT);
    SameSearch(m, n, lib.Searched(), SoughtName(m, lib, r));
  }

  predicate EntryBytes(mem: Memory, lib: Library, t: int, x: int) {
    var info := Read64(mem, t + 8);
    InSpan(t, x) || (HasSymbol(lib, info) && InSpan(SymbolEntry(lib, info), x))
  }

  lemma SameFetchEntry(m: Memory, n: Memory, lib: Library, t: int)
    requires forall x :: EntryBytes(m, lib, t, x) ==> Byte(m, x) == Byte(n, x)
    ensures FetchEntry(n, lib, t) == FetchEntry(m, lib, t)
  {
    SameWord(m, n, t, 0);
    SameWord(m, n, t, 8);
    SameWord(m, n, t, 16);
    var info := Read64(m, t + 8);
    if HasSymbol(lib, info) {
      SameHalf(m, n, SymbolEntry(lib, info));
      SameWord(m, n, SymbolEntry(lib, info), 8);
    }
  }

  lemma FetchReads(m: Memory, n: Memory, lib: Library, t: int)
    requires forall x :: Reads(m, lib, t, x) ==> Byte(m, x) == Byte(n, x)
    ensures Fetch(n, lib, t) == Fetch(m, lib, t)
  {
    SameFetchEntry(m, n, lib, t);
    var r := FetchEntry(m, lib, t);
    if Searches(lib, r) {
      SameAnswer(m, n, lib, r);
    }
  }

  /** The bytes of the entry, of its symbol, and of the search for its name. */
  predicate BindReads(mem: Memory, exe: Library, t: int, x: int) {
    InSpan(t, x) || BoundReads(mem, exe, Read64(mem, t + 8), x)
  }

  predicate BoundReads(mem: Memory, exe: Library, info: u64, x: int) {
    || InSpan(SymbolAt(exe, info / 0x1_0000_0000), x)
    || (LooksUp(mem, exe, info) &&
        (InName(mem, exe.strtab + NameOffset(mem, exe, info / 0x1_0000_0000), x) ||
         SearchReads(mem, exe.next, SlotName(mem, exe, info), x)))
  }

  lemma SameBound(m: Memory, n: Memory, exe: Library, info: u64)
    requires forall x :: BoundReads(m, exe, info, x) ==> Byte(m, x) == Byte(n, x)
    ensures Bound(n, exe, info) == Bound(m, exe, info)
  {
    SameHalf(m, n, SymbolAt(exe, info / 0x1_0000_0000));
    if LooksUp(m, exe, info) {
      SameName(m, n, exe.strtab + NameOffset(m, exe, info / 0x1_0000_0000), NAME_LIMIT);
      SameSearch(m, n, exe.next, SlotName(m, exe, info));
    }
  }

  lemma SameBind(m: Memory, n: Memory, exe: Library, t: int)
    requires forall x :: BindReads(m, exe, t, x) ==> Byte(m, x) == Byte(n, x)
    ensures BindEffect(n, exe, t) == BindEffect(m, exe, t)
  {
    SameWord(m, n, t, 0);
    SameWord(m, n, t, 8);
    SameBound(m, n, exe, Read64(m, t + 8));
  }
}
