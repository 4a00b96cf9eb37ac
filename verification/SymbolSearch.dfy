/**
 The symbol search of dynamic_linker/src/dynamic_linker.c over the libraries loaded so far: strncmp on
 names, find_symbol in one table and resolve_symbol_global along the list. The tables and the names
 are read from the memory that relocations are written to.
 */
module SymbolSearch {
  import opened Words
  import opened ElfImage
  import opened Stores

  const RECORD := 24  // bytes of an Elf64_Sym, and of an Elf64_Rela
  const NAME_LIMIT := 256

  /** A library and the list that resolve_symbol_global searches for it: `next` are the libraries loaded
      before it, and it stands in front of them if `listed`. load_shared_library lists a library before
      it relocates it; bootstrap_self runs while the list is empty. Null tables are 0. */
  datatype Library = Library(base: u64, phdrs: seq<Phdr>, symtab: nat, strtab: nat, symnum: nat,
                             listed: bool, next: seq<Library>) {
    function Searched(): seq<Library> { if listed then [this] + next else next }
  }

  function First(lib: Library): u64 { FirstVaddr(lib.phdrs) }

  /** calculate_symbol_address with its fallback. */
  function SymbolAddress(lib: Library, value: u64): u64 {
    var s := Translate(value, lib.base, lib.phdrs);
    if s == 0 then Add(lib.base, value) else s
  }

  // ---------------------------------------------------------------- names

  /** The C string at `a`, cut off after n bytes. */
  function Name(mem: Memory, a: int, n: nat): (s: seq<u8>)
    ensures |s| <= n
    decreases n, |mem|
  {
    if n == 0 || Byte(mem, a) == 0 then [] else [Byte(mem, a)] + Name(mem, a + 1, n - 1)
  }

  function NameAt(mem: Memory, a: int): seq<u8> { Name(mem, a, NAME_LIMIT) }

  /** Character k of the string at `a`. */
  function Char(mem: Memory, a: int, k: nat): u8 { Byte(mem, a + k) }

  /** The bytes of a name, none of them 0, up to the terminator or the limit. */
  lemma {:induction false} NameBytes(mem: Memory, a: int, n: nat)
    ensures forall k :: 0 <= k < |Name(mem, a, n)| ==> Name(mem, a, n)[k] == Char(mem, a, k) != 0
    ensures |Name(mem, a, n)| == n || Char(mem, a, |Name(mem, a, n)|) == 0
    decreases n
  {
    if n > 0 && Byte(mem, a) != 0 {
      NameBytes(mem, a + 1, n - 1);
      assert Name(mem, a, n) == [Byte(mem, a)] + Name(mem, a + 1, n - 1);
      assert forall k :: 1 <= k <= n ==> Char(mem, a, k) == Char(mem, a + 1, k - 1);
    }
  }

  lemma {:induction false} NameLength(mem: Memory, a: int, n: nat, m: nat)
    requires m <= n && (forall k :: 0 <= k < m ==> Char(mem, a, k) != 0) && (m == n || Char(mem, a, m) == 0)
    ensures |Name(mem, a, n)| == m
    decreases n
  {
    if m > 0 {
      var next := a + 1;
      assert Char(mem, a, 0) != 0;
      forall k | 0 <= k < m - 1 ensures Char(mem, next, k) != 0 {
        assert Char(mem, a, k + 1) != 0;
      }
      NameLength(mem, a + 1, n - 1, m - 1);
    }
  }

  /** The two strings are the same for m bytes, and then both end or n bytes are compared. */
  predicate AgreeFor(mem: Memory, a: int, b: int, n: nat, m: nat) {
    && m <= n
    && (forall k :: 0 <= k < m ==> Char(mem, a, k) == Char(mem, b, k) != 0)
    && (m == n || Char(mem, a, m) == Char(mem, b, m) == 0)
  }

  predicate SameString(mem: Memory, a: int, b: int, n: nat) { exists m :: 0 <= m <= n && AgreeFor(mem, a, b, n, m) }

  /** Strings are the same exactly when their names are. */
  lemma SameStringIsName(mem: Memory, a: int, b: int, n: nat)
    ensures SameString(mem, a, b, n) <==> Name(mem, a, n) == Name(mem, b, n)
  {
    var x, y := Name(mem, a, n), Name(mem, b, n);
    NameBytes(mem, a, n);
    NameBytes(mem, b, n);
    if x == y {
      assert forall k :: 0 <= k < |x| ==> x[k] == y[k];
      assert AgreeFor(mem, a, b, n, |x|);
    }
    if SameString(mem, a, b, n) {
      var m :| 0 <= m <= n && AgreeFor(mem, a, b, n, m);
      NameLength(mem, a, n, m);
      NameLength(mem, b, n, m);
      assert x == y;
    }
  }

  /** strncmp(s1, s2, n): 0 exactly for strings that agree on their first n characters; otherwise the
      difference of the first bytes that differ. */
  method StrNCmp(mem: Memory, s1: int, s2: int, n: nat) returns (r: int)
    ensures r == 0 <==> SameString(mem, s1, s2, n)
    ensures r != 0 ==> exists k :: 0 <= k < n && r == Char(mem, s1, k) - Char(mem, s2, k)
                                   && forall j :: 0 <= j < k ==> Char(mem, s1, j) == Char(mem, s2, j) != 0
  {
    var a, b, left := s1, s2, n;
    ghost var k: nat := 0;
    while left > 0 && Byte(mem, a) != 0 && Byte(mem, a) == Byte(mem, b)
      invariant k + left == n && a == s1 + k && b == s2 + k
      invariant forall j :: 0 <= j < k ==> Char(mem, s1, j) == Char(mem, s2, j) != 0
    {
      a, b, left := a + 1, b + 1, left - 1;
      k := k + 1;
    }
    if left == 0 {
      assert AgreeFor(mem, s1, s2, n, n);
      return 0;
    }
    r := Byte(mem, a) - Byte(mem, b);
    if r == 0 {
      assert AgreeFor(mem, s1, s2, n, k);
    } else {
      assert forall m :: 0 <= m <= n && AgreeFor(mem, s1, s2, n, m) ==> Char(mem, s1, k) == Char(mem, s2, k);
    }
  }

  // ---------------------------------------------------------------- one table

  function SymbolAt(lib: Library, i: nat): int { lib.symtab + RECORD * i }

  function NameOffset(mem: Memory, lib: Library, i: nat): nat { Read32(mem, SymbolAt(lib, i)) }

  function SymbolValue(mem: Memory, lib: Library, i: nat): u64 { Read64(mem, SymbolAt(lib, i) + 8) }

  predicate HasName(mem: Memory, lib: Library, i: nat, name: seq<u8>) {
    NameOffset(mem, lib, i) != 0 && NameAt(mem, lib.strtab + NameOffset(mem, lib, i)) == name
  }

  /** The first entry from i on with the name, or symnum. */
  function FindFrom(mem: Memory, lib: Library, name: seq<u8>, i: nat): (k: nat)
    requires i <= lib.symnum
    ensures i <= k <= lib.symnum && (k < lib.symnum ==> HasName(mem, lib, k, name))
    ensures forall j :: i <= j < k ==> !HasName(mem, lib, j, name)
    decreases lib.symnum - i
  {
    if i == lib.symnum || HasName(mem, lib, i, name) then i else FindFrom(mem, lib, name, i + 1)
  }

  function Find(mem: Memory, lib: Library, name: seq<u8>): nat { FindFrom(mem, lib, name, 0) }

  /** Some entry of the library's table has the name, defined or not. */
  predicate Mentions(mem: Memory, lib: Library, name: seq<u8>) {
    lib.symtab != 0 && lib.strtab != 0 && Find(mem, lib, name) < lib.symnum
  }

  /** The address given by the first entry with the name. */
  function MentionAddress(mem: Memory, lib: Library, name: seq<u8>): u64 {
    SymbolAddress(lib, SymbolValue(mem, lib, Find(mem, lib, name)))
  }

  // ---------------------------------------------------------------- the list

  /** resolve_symbol_global: the first library that mentions the name answers, with its first entry. */
  function Resolve(mem: Memory, libs: seq<Library>, name: seq<u8>): u64 {
    if libs == [] then 0
    else if Mentions(mem, libs[0], name) then MentionAddress(mem, libs[0], name)
    else Resolve(mem, libs[1..], name)
  }

  /** Entry i of the table, 24 bytes each, has a name, and it is the string at `name`. */
  predicate EntryNamed(mem: Memory, lib: Library, i: nat, name: int) {
    var offset := Read32(mem, lib.symtab + 24 * i);
    offset != 0 && SameString(mem, lib.strtab + offset, name, 256)
  }

  lemma EntryNamedIsHasName(mem: Memory, lib: Library, i: nat, name: int)
    ensures EntryNamed(mem, lib, i, name) <==> HasName(mem, lib, i, NameAt(mem, name))
  {
    SameStringIsName(mem, lib.strtab + NameOffset(mem, lib, i), name, NAME_LIMIT);
  }

  /** The test of find_symbol on one entry. */
  method Matches(mem: Memory, lib: Library, i: nat, name: int) returns (matches: bool)
    ensures matches <==> EntryNamed(mem, lib, i, name)
  {
    var offset := Read32(mem, SymbolAt(lib, i));
    if offset == 0 {
      return false;
    }
    var r := StrNCmp(mem, lib.strtab + offset, name, NAME_LIMIT);
    matches := r == 0;
  }

  /** find_symbol: the index it stops at, symnum for none. */
  method FindSymbol(mem: Memory, lib: Library, name: int) returns (k: nat)
    ensures k == Find(mem, lib, NameAt(mem, name)) <= lib.symnum
    ensures k < lib.symnum ==> EntryNamed(mem, lib, k, name)
    ensures forall j :: 0 <= j < k ==> !EntryNamed(mem, lib, j, name)
  {
    k := 0;
    while k < lib.symnum
      invariant k <= lib.symnum && forall j :: 0 <= j < k ==> !EntryNamed(mem, lib, j, name)
    {
      var matches := Matches(mem, lib, k, name);
      if matches {
        break;
      }
      k := k + 1;
    }
    FoundAtIndex(mem, lib, name, k);
  }

  lemma FoundAtIndex(mem: Memory, lib: Library, name: int, k: nat)
    requires k <= lib.symnum && (k < lib.symnum ==> EntryNamed(mem, lib, k, name))
    requires forall j :: 0 <= j < k ==> !EntryNamed(mem, lib, j, name)
    ensures k == Find(mem, lib, NameAt(mem, name))
  {
    forall j | 0 <= j <= k && j < lib.symnum
      ensures HasName(mem, lib, j, NameAt(mem, name)) <==> EntryNamed(mem, lib, j, name)
    {
      EntryNamedIsHasName(mem, lib, j, name);
    }
  }

  method ResolveSymbolGlobal(mem: Memory, libs: seq<Library>, name: int) returns (s: u64)
    ensures s == Resolve(mem, libs, NameAt(mem, name))
  {
    ghost var wanted := NameAt(mem, name);
    var i := 0;
    while i < |libs|
      invariant 0 <= i <= |libs| && Resolve(mem, libs, wanted) == Resolve(mem, libs[i..], wanted)
    {
      var lib := libs[i];
      assert libs[i..][0] == lib && libs[i..][1..] == libs[i + 1..];
      if lib.symtab != 0 && lib.strtab != 0 && lib.symnum > 0 {
        var k := FindSymbol(mem, lib, name);
        if k < lib.symnum {
          s := CalculateSymbolAddress(Read64(mem, SymbolAt(lib, k) + 8), lib.base, lib.phdrs);
          if s == 0 {
            s := Add(lib.base, Read64(mem, SymbolAt(lib, k) + 8));
          }
          return;
        }
      }
      i := i + 1;
    }
    return 0;
  }

  /** The answer comes from the first library on the list that mentions the name, whether or not a
      later one defines it. */
  lemma {:induction false} FirstMentionAnswers(mem: Memory, libs: seq<Library>, name: seq<u8>, i: nat)
    requires i <= |libs| && forall j :: 0 <= j < i ==> !Mentions(mem, libs[j], name)
    ensures i == |libs| ==> Resolve(mem, libs, name) == 0
    ensures i < |libs| && Mentions(mem, libs[i], name) ==> Resolve(mem, libs, name) == MentionAddress(mem, libs[i], name)
  {
    if i > 0 {
      FirstMentionAnswers(mem, libs[1..], name, i - 1);
    }
  }

  /** A listed library answers for every name in its own table, with the first entry of that name. */
  lemma OwnTableAnswers(mem: Memory, lib: Library, sym: nat, name: seq<u8>)
    requires lib.listed && lib.symtab != 0 && lib.strtab != 0 && sym < lib.symnum && HasName(mem, lib, sym, name)
    ensures Find(mem, lib, name) <= sym
    ensures Resolve(mem, lib.Searched(), name) == MentionAddress(mem, lib, name)
  {
    FirstMentionAnswers(mem, lib.Searched(), name, 0);
  }

  /** Entry k of the library's table is the first that has the name. */
  predicate FirstEntryNamed(mem: Memory, lib: Library, k: nat, name: int) {
    && lib.symtab != 0 && lib.strtab != 0 && k < lib.symnum && EntryNamed(mem, lib, k, name)
    && forall j :: 0 <= j < k ==> !EntryNamed(mem, lib, j, name)
  }

  /** No entry of the library's table has the name. */
  predicate Silent(mem: Memory, lib: Library, name: int) {
    lib.symtab == 0 || lib.strtab == 0 || forall j :: 0 <= j < lib.symnum ==> !EntryNamed(mem, lib, j, name)
  }

  lemma SilentMentionsNot(mem: Memory, lib: Library, name: int)
    ensures Silent(mem, lib, name) <==> !Mentions(mem, lib, NameAt(mem, name))
  {
    forall j | 0 <= j < lib.symnum ensures HasName(mem, lib, j, NameAt(mem, name)) <==> EntryNamed(mem, lib, j, name) {
      EntryNamedIsHasName(mem, lib, j, name);
    }
  }

  lemma SilentPrefix(mem: Memory, libs: seq<Library>, name: int, i: nat)
    requires i <= |libs| && forall j :: 0 <= j < i ==> Silent(mem, libs[j], name)
    ensures forall j :: 0 <= j < i ==> !Mentions(mem, libs[j], NameAt(mem, name))
  {
    forall j | 0 <= j < i ensures !Mentions(mem, libs[j], NameAt(mem, name)) {
      SilentMentionsNot(mem, libs[j], name);
    }
  }

  /** The search in the bytes of the tables: entry k of library i answers, with its st_value, if it is the
      first named so and the libraries before have no such entry. */
  lemma ResolvedEntry(mem: Memory, libs: seq<Library>, name: int, i: nat, k: nat)
    requires i < |libs| && forall j :: 0 <= j < i ==> Silent(mem, libs[j], name)
    requires FirstEntryNamed(mem, libs[i], k, name)
    ensures Resolve(mem, libs, NameAt(mem, name)) == SymbolAddress(libs[i], Read64(mem, libs[i].symtab + 24 * k + 8))
  {
    SilentPrefix(mem, libs, name, i);
    MentionAt(mem, libs[i], name, k);
    FirstMentionAnswers(mem, libs, NameAt(mem, name), i);
  }

  /** A name that no library has resolves to 0. */
  lemma NobodyAnswers(mem: Memory, libs: seq<Library>, name: int)
    requires forall j :: 0 <= j < |libs| ==> Silent(mem, libs[j], name)
    ensures Resolve(mem, libs, NameAt(mem, name)) == 0
  {
    SilentPrefix(mem, libs, name, |libs|);
    FirstMentionAnswers(mem, libs, NameAt(mem, name), |libs|);
  }

  lemma MentionAt(mem: Memory, lib: Library, name: int, k: nat)
    requires FirstEntryNamed(mem, lib, k, name)
    ensures Mentions(mem, lib, NameAt(mem, name))
    ensures MentionAddress(mem, lib, NameAt(mem, name)) == SymbolAddress(lib, Read64(mem, lib.symtab + 24 * k + 8))
  {
    FoundAtIndex(mem, lib, name, k);
  }

  // ---------------------------------------------------------------- what a search reads

  predicate InSpan(a: int, x: int) { a <= x < a + RECORD }

  /** The characters of the string and its terminator. */
  predicate InName(mem: Memory, a: int, x: int) { a <= x <= a + |NameAt(mem, a)| }

  /** The entries up to the one found, and their names. */
  predicate ScanReads(mem: Memory, lib: Library, name: seq<u8>, x: int) {
    && lib.symtab != 0 && lib.strtab != 0
    && exists j :: 0 <= j < lib.symnum && j <= Find(mem, lib, name) && EntryReads(mem, lib, j, x)
  }

  predicate EntryReads(mem: Memory, lib: Library, j: nat, x: int) {
    InSpan(SymbolAt(lib, j), x) ||
    (NameOffset(mem, lib, j) != 0 && InName(mem, lib.strtab + NameOffset(mem, lib, j), x))
  }

  predicate SearchReads(mem: Memory, libs: seq<Library>, name: seq<u8>, x: int) {
    libs != [] &&
    (ScanReads(mem, libs[0], name, x) || (!Mentions(mem, libs[0], name) && SearchReads(mem, libs[1..], name, x)))
  }

  lemma SameWord(m: Memory, n: Memory, a: int, k: nat)
    requires k <= 16 && forall x :: InSpan(a, x) ==> Byte(m, x) == Byte(n, x)
    ensures Read64(m, a + k) == Read64(n, a + k)
  {
    forall x | a + k <= x < a + k + 8 ensures Byte(m, x) == Byte(n, x) {
      assert InSpan(a, x);
    }
    assert ReadBytes(m, a + k, 8) == ReadBytes(n, a + k, 8);
  }

  lemma SameHalf(m: Memory, n: Memory, a: int)
    requires forall x :: InSpan(a, x) ==> Byte(m, x) == Byte(n, x)
    ensures Read32(m, a) == Read32(n, a)
  {
    forall x | a <= x < a + 4 ensures Byte(m, x) == Byte(n, x) {
      assert InSpan(a, x);
    }
    assert ReadBytes(m, a, 4) == ReadBytes(n, a, 4);
  }

  lemma {:induction false} SameName(m: Memory, n: Memory, a: int, limit: nat)
    requires forall x :: a <= x <= a + |Name(m, a, limit)| ==> Byte(m, x) == Byte(n, x)
    ensures Name(n, a, limit) == Name(m, a, limit)
    decreases limit
  {
    if limit > 0 && Byte(m, a) != 0 {
      assert |Name(m, a, limit)| == 1 + |Name(m, a + 1, limit - 1)|;
      SameName(m, n, a + 1, limit - 1);
    }
  }

  lemma SameEntry(m: Memory, n: Memory, lib: Library, j: nat, name: seq<u8>)
    requires forall x :: EntryReads(m, lib, j, x) ==> Byte(m, x) == Byte(n, x)
    ensures HasName(n, lib, j, name) == HasName(m, lib, j, name)
    ensures SymbolValue(n, lib, j) == SymbolValue(m, lib, j)
  {
    SameHalf(m, n, SymbolAt(lib, j));
    SameWord(m, n, SymbolAt(lib, j), 8);
    if NameOffset(m, lib, j) != 0 {
      SameName(m, n, lib.strtab + NameOffset(m, lib, j), NAME_LIMIT);
    }
  }

  lemma SameScan(m: Memory, n: Memory, lib: Library, name: seq<u8>)
    requires lib.symtab != 0 && lib.strtab != 0
    requires forall x :: ScanReads(m, lib, name, x) ==> Byte(m, x) == Byte(n, x)
    ensures Find(n, lib, name) == Find(m, lib, name)
    ensures Find(m, lib, name) < lib.symnum ==> MentionAddress(n, lib, name) == MentionAddress(m, lib, name)
  {
    var k := Find(m, lib, name);
    forall j | 0 <= j < lib.symnum && j <= k
      ensures HasName(n, lib, j, name) == HasName(m, lib, j, name) && SymbolValue(n, lib, j) == SymbolValue(m, lib, j)
    {
      forall x | EntryReads(m, lib, j, x) ensures Byte(m, x) == Byte(n, x) {
        assert ScanReads(m, lib, name, x);
      }
      SameEntry(m, n, lib, j, name);
    }
  }

  /** Memory that agrees on what the search reads gives the same answer. */
  lemma {:induction false} SameSearch(m: Memory, n: Memory, libs: seq<Library>, name: seq<u8>)
    requires forall x :: SearchReads(m, libs, name, x) ==> Byte(m, x) == Byte(n, x)
    ensures Resolve(n, libs, name) == Resolve(m, libs, name)
  {
    if libs != [] {
      if libs[0].symtab != 0 && libs[0].strtab != 0 {
        SameScan(m, n, libs[0], name);
      }
      if !Mentions(m, libs[0], name) {
        SameSearch(m, n, libs[1..], name);
      }
    }
  }
}
