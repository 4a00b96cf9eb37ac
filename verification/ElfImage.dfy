/**
 How dynamic_linker/src/dynamic_linker.c sizes, maps and addresses a shared library. All address
 arithmetic is unsigned and 64 bits wide. The kernel's mmap is a specification: a reservation starts
 on a page, and a MAP_FIXED file mapping replaces whole pages by file bytes, zero up to the end of
 the file's last page and inaccessible beyond it.
 */
module ElfImage {
  import opened Words

  const PAGE := 4096
  const PT_LOAD := 1

  datatype Phdr = Phdr(ptype: nat, offset: u64, vaddr: u64, filesz: u64, memsz: u64) {
    predicate Load() { ptype == PT_LOAD }
  }

  /** Sum and difference modulo 2^64. */
  function Add(a: u64, b: u64): u64 { if a + b < WORD then a + b else a + b - WORD }
  function Sub(a: u64, b: u64): u64 { if a >= b then a - b else a - b + WORD }
  function Down(a: int): int { a / PAGE * PAGE }
  function Up(a: int): int { (a + PAGE - 1) / PAGE * PAGE }

  // ---------------------------------------------------------------- addresses

  /** The vaddr of the first PT_LOAD entry, 0 if there is none. */
  function FirstVaddr(phdrs: seq<Phdr>): u64 {
    if phdrs == [] then 0 else if phdrs[0].Load() then phdrs[0].vaddr else FirstVaddr(phdrs[1..])
  }

  predicate Contains(p: Phdr, v: u64) { p.Load() && p.vaddr <= v < Add(p.vaddr, p.memsz) }

  /** Where a link-time address ends up, 0 if no segment contains it. */
  function Translate(v: u64, base: u64, phdrs: seq<Phdr>): u64 {
    if exists i :: 0 <= i < |phdrs| && Contains(phdrs[i], v) then Add(base, Sub(v, FirstVaddr(phdrs))) else 0
  }

  lemma {:induction false} FirstVaddrAt(phdrs: seq<Phdr>, i: nat)
    requires i < |phdrs| && phdrs[i].Load() && forall k :: 0 <= k < i ==> !phdrs[k].Load()
    ensures FirstVaddr(phdrs) == phdrs[i].vaddr
  {
    if i > 0 {
      FirstVaddrAt(phdrs[1..], i - 1);
    }
  }

  lemma {:induction false} NoFirstVaddr(phdrs: seq<Phdr>)
    requires forall k :: 0 <= k < |phdrs| ==> !phdrs[k].Load()
    ensures FirstVaddr(phdrs) == 0
  {
    if phdrs != [] {
      NoFirstVaddr(phdrs[1..]);
    }
  }

  method FindFirstVaddr(phdrs: seq<Phdr>) returns (first: u64)
    ensures first == FirstVaddr(phdrs)
  {
    first := 0;
    var i := 0;
    while i < |phdrs|
      invariant 0 <= i <= |phdrs| && first == 0
      invariant forall k :: 0 <= k < i ==> !phdrs[k].Load()
    {
      if phdrs[i].Load() {
        FirstVaddrAt(phdrs, i);
        return phdrs[i].vaddr;
      }
      i := i + 1;
    }
    NoFirstVaddr(phdrs);
  }

  /** calculate_address_from_vaddr: the segment search comes first, the base segment second. */
  method CalculateAddressFromVaddr(v: u64, base: u64, phdrs: seq<Phdr>) returns (r: u64)
    ensures r == Translate(v, base, phdrs)
  {
    var i := 0;
    while i < |phdrs|
      invariant 0 <= i <= |phdrs|
      invariant forall k :: 0 <= k < i ==> !Contains(phdrs[k], v)
    {
      if phdrs[i].Load() {
        var end := Add(phdrs[i].vaddr, phdrs[i].memsz);
        if v >= phdrs[i].vaddr && v < end {
          assert Contains(phdrs[i], v);
          var first := FindFirstVaddr(phdrs);
          return Add(base, Sub(v, first));
        }
      }
      i := i + 1;
    }
    return 0;
  }

  /** calculate_symbol_address: the base segment first, the segment search second. */
  method CalculateSymbolAddress(value: u64, base: u64, phdrs: seq<Phdr>) returns (r: u64)
    ensures r == Translate(value, base, phdrs)
  {
    r := 0;
    var first := FindFirstVaddr(phdrs);
    var i := 0;
    while i < |phdrs|
      invariant 0 <= i <= |phdrs| && r == 0
      invariant forall k :: 0 <= k < i ==> !Contains(phdrs[k], value)
    {
      if phdrs[i].Load() {
        if value >= phdrs[i].vaddr && value < Add(phdrs[i].vaddr, phdrs[i].memsz) {
          assert Contains(phdrs[i], value);
          r := Add(base, Sub(value, first));
          break;
        }
      }
      i := i + 1;
    }
  }

  const PT_DYNAMIC := 2

  /** The first PT_DYNAMIC entry, or the number of entries. */
  function DynamicIndex(phdrs: seq<Phdr>): (k: nat)
    ensures k <= |phdrs| && (k < |phdrs| ==> phdrs[k].ptype == PT_DYNAMIC)
    ensures forall j :: 0 <= j < k ==> phdrs[j].ptype != PT_DYNAMIC
  {
    if phdrs == [] || phdrs[0].ptype == PT_DYNAMIC then 0 else 1 + DynamicIndex(phdrs[1..])
  }

  lemma ThroughSegment(base: u64, v: u64, segment: u64, first: u64)
    ensures Add(Add(base, Sub(segment, first)), Sub(v, segment)) == Add(base, Sub(v, first))
  {
  }

  /** bootstrap_self's three ways to the dynamic segment: straight from the base when the first vaddr
      is 0, through the load that contains it, or relative to the first load. They agree. */
  method DynamicAddress(phdrs: seq<Phdr>, base: u64) returns (r: u64)
    ensures var k := DynamicIndex(phdrs);
            r == if k < |phdrs| then Add(base, Sub(phdrs[k].vaddr, FirstVaddr(phdrs))) else 0
  {
    var first := FindFirstVaddr(phdrs);
    var i := 0;
    while i < |phdrs|
      invariant 0 <= i <= DynamicIndex(phdrs)
    {
      if phdrs[i].ptype == PT_DYNAMIC {
        var v := phdrs[i].vaddr;
        if first == 0 {
          return Add(base, v);
        }
        var j := 0;
        while j < |phdrs|
          invariant 0 <= j <= |phdrs|
        {
          if Contains(phdrs[j], v) {
            ThroughSegment(base, v, phdrs[j].vaddr, first);
            return Add(Add(base, Sub(phdrs[j].vaddr, first)), Sub(v, phdrs[j].vaddr));
          }
          j := j + 1;
        }
        return Add(base, Sub(v, first));
      }
      i := i + 1;
    }
    return 0;
  }

  // ---------------------------------------------------------------- mmap and the mapping loop

  function FileByte(file: seq<nat>, i: nat): nat { if i < |file| then file[i] else 0 }

  /** mmap(addr, size, ..., MAP_PRIVATE | MAP_FIXED, fd, offset); absent addresses fault. */
  function MapFixed(mem: map<int, nat>, addr: int, size: nat, file: seq<nat>, offset: nat): (r: map<int, nat>) {
    (map a | a in mem && !(addr <= a < addr + size) :: mem[a]) +
    (map a | addr <= a < addr + size && Backed(file, offset, addr, a) :: FileByte(file, offset + (a - addr)))
  }

  /** The page that address a is mapped to holds some byte of the file. */
  predicate Backed(file: seq<nat>, offset: nat, addr: int, a: int) { offset + (a - addr) < Up(|file|) }

  /** The page range and file offset the loop computes for one segment. */
  datatype Mapping = Mapping(addr: u64, size: u64, offset: u64)

  function SegmentMapping(p: Phdr, base: u64, first: u64): Mapping {
    var load := Add(base, Sub(p.vaddr, first));
    Mapping(Down(load), Add(Add(p.memsz, load % PAGE), PAGE - 1) / PAGE * PAGE, Down(p.offset))
  }

  /** Memory after the first n program headers. */
  function Mapped(mem: map<int, nat>, file: seq<nat>, phdrs: seq<Phdr>, base: u64, n: nat): map<int, nat>
    requires n <= |phdrs|
  {
    if n == 0 then mem
    else
      var before := Mapped(mem, file, phdrs, base, n - 1);
      if !phdrs[n - 1].Load() then before
      else
        var m := SegmentMapping(phdrs[n - 1], base, FirstVaddr(phdrs));
        MapFixed(before, m.addr, m.size, file, m.offset)
  }

  function End(p: Phdr): nat { p.vaddr + p.memsz }

  /** Some PT_LOAD entry spans the link-time address. */
  predicate Held(phdrs: seq<Phdr>, v: int) { exists i :: 0 <= i < |phdrs| && HoldsVaddr(phdrs[i], v) }

  predicate HoldsVaddr(p: Phdr, v: int) { p.ptype == 1 && p.vaddr <= v < p.vaddr + p.memsz }

  /** When no load wraps around, an address is translated exactly if a PT_LOAD entry spans it; one past every
      load, or below every load, is not. */
  lemma TranslateByHeaders(v: u64, base: u64, phdrs: seq<Phdr>)
    requires EndsFit(phdrs)
    ensures Translate(v, base, phdrs) == if Held(phdrs, v) then Add(base, Sub(v, FirstVaddr(phdrs))) else 0
  {
    forall i | 0 <= i < |phdrs| ensures HoldsVaddr(phdrs[i], v) <==> Contains(phdrs[i], v) {
      assert phdrs[i].Load() ==> End(phdrs[i]) < WORD;
    }
  }

  /** The program headers of type 2 and of type 1 are the ones that count. */
  lemma HeaderTypes(phdrs: seq<Phdr>, k: nat)
    requires k < |phdrs|
    ensures (forall j :: 0 <= j < k ==> phdrs[j].ptype != 2) && phdrs[k].ptype == 2 ==> DynamicIndex(phdrs) == k
    ensures (forall j :: 0 <= j < k ==> phdrs[j].ptype != 1) && phdrs[k].ptype == 1 ==> FirstVaddr(phdrs) == phdrs[k].vaddr
  {
    if (forall j :: 0 <= j < k ==> phdrs[j].ptype != 1) && phdrs[k].ptype == 1 {
      FirstVaddrAt(phdrs, k);
    }
  }

  /** The mapping of one segment in numbers: pages of 4096 bytes. */
  lemma MappingInNumbers(offset: u64)
    requires offset == 0x1234
    ensures SegmentMapping(Phdr(1, offset, 0x5234, 0x10, 0xE00), 0x7000_0000, 0x4000) == Mapping(0x7000_1000, 0x2000, 0x1000)
  {
  }

  /** Where the load that ends last ends, as 64-bit arithmetic has it; 0 if there is none. */
  function MaxEnd(phdrs: seq<Phdr>): (r: u64)
    ensures forall i :: 0 <= i < |phdrs| && phdrs[i].Load() ==> Add(phdrs[i].vaddr, phdrs[i].memsz) <= r
    ensures r == 0 || exists i :: 0 <= i < |phdrs| && phdrs[i].Load() && Add(phdrs[i].vaddr, phdrs[i].memsz) == r
  {
    if phdrs == [] then 0
    else
      var rest := MaxEnd(phdrs[1..]);
      if phdrs[0].Load() && Add(phdrs[0].vaddr, phdrs[0].memsz) > rest then Add(phdrs[0].vaddr, phdrs[0].memsz)
      else
        assert forall i :: 1 <= i < |phdrs| ==> phdrs[i] == phdrs[1..][i - 1];
        rest
  }

  /** The span from the first vaddr to that end, rounded up to whole pages, in 64 bits. */
  function Reservation(phdrs: seq<Phdr>): u64 {
    Add(Sub(MaxEnd(phdrs), FirstVaddr(phdrs)), PAGE - 1) / PAGE * PAGE
  }

  /** No load ends beyond the address space. */
  predicate EndsFit(phdrs: seq<Phdr>) {
    forall i :: 0 <= i < |phdrs| && phdrs[i].Load() ==> End(phdrs[i]) < WORD
  }

  lemma {:induction false} FirstBelowMaxEnd(phdrs: seq<Phdr>)
    requires EndsFit(phdrs)
    ensures FirstVaddr(phdrs) <= MaxEnd(phdrs)
  {
    if phdrs != [] && !phdrs[0].Load() {
      FirstBelowMaxEnd(phdrs[1..]);
    }
  }

  /** Without wrap-around the reservation is the page-rounded span of the loads. */
  lemma ReservationExact(phdrs: seq<Phdr>)
    requires EndsFit(phdrs) && MaxEnd(phdrs) - FirstVaddr(phdrs) + PAGE <= WORD
    ensures FirstVaddr(phdrs) <= MaxEnd(phdrs) && Reservation(phdrs) == Up(MaxEnd(phdrs) - FirstVaddr(phdrs))
  {
    FirstBelowMaxEnd(phdrs);
  }

  /** What the loop subtracts from the end is the size it was added to. */
  lemma AddThenSub(v: u64, size: u64)
    ensures Sub(Add(v, size), v) == size
  {
  }

  class Loader {
    var memory: map<int, nat>

    /** The first sizing loop: the segment that ends last. */
    method LastEnd(phdrs: seq<Phdr>) returns (maxVaddr: u64, maxMemsz: u64)
      ensures Add(maxVaddr, maxMemsz) == MaxEnd(phdrs)
    {
      maxVaddr, maxMemsz := 0, 0;
      for i := 0 to |phdrs|
        invariant forall k :: 0 <= k < i && phdrs[k].Load() ==>
                    Add(phdrs[k].vaddr, phdrs[k].memsz) <= Add(maxVaddr, maxMemsz)
        invariant Add(maxVaddr, maxMemsz) == 0 ||
                  exists k :: 0 <= k < i && phdrs[k].Load() && Add(phdrs[k].vaddr, phdrs[k].memsz) == Add(maxVaddr, maxMemsz)
      {
        if phdrs[i].Load() {
          var end := Add(phdrs[i].vaddr, phdrs[i].memsz);
          if end > Add(maxVaddr, maxMemsz) {
            AddThenSub(phdrs[i].vaddr, phdrs[i].memsz);
            maxVaddr := phdrs[i].vaddr;
            maxMemsz := Sub(end, phdrs[i].vaddr);
          }
        }
      }
    }

    /** The size of the anonymous reservation. */
    method ReservationSize(phdrs: seq<Phdr>) returns (total: u64)
      ensures total == Reservation(phdrs)
    {
      var first := FindFirstVaddr(phdrs);
      var maxVaddr, maxMemsz := LastEnd(phdrs);
      total := Add(Add(Sub(maxVaddr, first), maxMemsz), PAGE - 1) / PAGE * PAGE;
    }

    /** The mapping loop of load_shared_library; mmap refuses a length of 0. */
    method MapSegments(file: seq<nat>, phdrs: seq<Phdr>, base: u64) returns (ok: bool)
      modifies this
      ensures ok <==> NoneEmpty(phdrs, base)
      ensures ok ==> memory == Mapped(old(memory), file, phdrs, base, |phdrs|)
    {
      var first := FindFirstVaddr(phdrs);
      for i := 0 to |phdrs|
        invariant memory == Mapped(old(memory), file, phdrs, base, i)
        invariant forall k :: 0 <= k < i && phdrs[k].Load() ==> SegmentMapping(phdrs[k], base, first).size > 0
      {
        if phdrs[i].Load() {
          var loadAddr := Add(base, Sub(phdrs[i].vaddr, first));
          var aligned := Down(loadAddr);
          var offsetInPage := loadAddr % PAGE;
          var fileOffset := Down(phdrs[i].offset);
          var mapSize := Add(Add(phdrs[i].memsz, offsetInPage), PAGE - 1) / PAGE * PAGE;
          assert Mapping(aligned, mapSize, fileOffset) == SegmentMapping(phdrs[i], base, first);
          if mapSize == 0 {
            return false;
          }
          memory := MapFixed(memory, aligned, mapSize, file, fileOffset);
        }
      }
      return true;
    }
  }

  // ---------------------------------------------------------------- the reservation

  /** Segments start at or after the first one and their pages end below 2^64. */
  predicate FitsAbove(p: Phdr, base: u64, first: u64) {
    first <= p.vaddr && base + (p.vaddr - first) + p.memsz + PAGE <= WORD && End(p) < WORD
  }

  /** Without wrapping, a mapping is the page hull of its segment. */
  lemma MappingHull(p: Phdr, base: u64, first: u64)
    requires base % PAGE == 0 && FitsAbove(p, base, first)
    ensures var m := SegmentMapping(p, base, first);
            && m.addr == base + Down(p.vaddr - first)
            && m.addr + m.size == base + Up(p.vaddr - first + p.memsz)
            && m.offset == Down(p.offset)
            && Add(base, Sub(p.vaddr, first)) == base + (p.vaddr - first)
  {
    var rel := p.vaddr - first;
  }

  lemma UpMonotone(a: int, b: int)
    requires a <= b
    ensures Up(a) <= Up(b) && Down(a) <= Down(b) && Down(a) <= a <= Up(a)
  {
  }

  predicate InReservation(m: Mapping, base: u64, total: int) {
    base <= m.addr && m.addr + m.size <= base + total
  }

  predicate FirstIsLeast(phdrs: seq<Phdr>) {
    forall i :: 0 <= i < |phdrs| && phdrs[i].Load() ==> FirstVaddr(phdrs) <= phdrs[i].vaddr
  }

  predicate AllInReservation(phdrs: seq<Phdr>, base: u64, total: int) {
    forall i :: 0 <= i < |phdrs| && phdrs[i].Load() ==>
      InReservation(SegmentMapping(phdrs[i], base, FirstVaddr(phdrs)), base, total)
  }

  /** For a reservation sized by the running maximum, the fixed mapping of a segment lies inside it if the
      segment does not start below the first one, and, unless it is empty, only then. */
  lemma MappingInside(p: Phdr, base: u64, first: u64, maxEnd: nat)
    requires base % PAGE == 0 && p.Load() && End(p) <= maxEnd && first <= maxEnd && maxEnd + PAGE <= WORD
    requires base + (maxEnd - first) + PAGE <= WORD
    ensures first <= p.vaddr ==> InReservation(SegmentMapping(p, base, first), base, Up(maxEnd - first))
    ensures SegmentMapping(p, base, first).size > 0 && InReservation(SegmentMapping(p, base, first), base, Up(maxEnd - first)) ==>
              first <= p.vaddr
  {
    if first <= p.vaddr {
      MappingHull(p, base, first);
      UpMonotone(p.vaddr - first + p.memsz, maxEnd - first);
      UpMonotone(0, p.vaddr - first);
    } else {
      if first - p.vaddr > base {
        HighOutside(p.vaddr - first, maxEnd - first);
      }
    }
  }

  /** A page at the top of the address space ends above the reservation. */
  lemma HighOutside(below: int, span: nat)
    requires below <= 0 && span - below + PAGE <= WORD
    ensures WORD + Down(below) + PAGE > Up(span)
  {
  }

  /** All the fixed mappings lie inside the reservation if the first load has the least vaddr, and, if
      none is empty, only then: the running maximum and the two ways of rounding up never disagree. */
  lemma AllMappingsInside(phdrs: seq<Phdr>, base: u64)
    requires base % PAGE == 0 && EndsFit(phdrs) && MaxEnd(phdrs) + PAGE <= WORD
    requires base + (MaxEnd(phdrs) - FirstVaddr(phdrs)) + PAGE <= WORD
    ensures FirstIsLeast(phdrs) ==> AllInReservation(phdrs, base, Reservation(phdrs))
    ensures NoneEmpty(phdrs, base) && AllInReservation(phdrs, base, Reservation(phdrs)) ==> FirstIsLeast(phdrs)
  {
    ReservationExact(phdrs);
    forall i | 0 <= i < |phdrs| && phdrs[i].Load()
      ensures Fits(phdrs[i], base, FirstVaddr(phdrs), Reservation(phdrs))
    {
      LoadFits(phdrs[i], base, FirstVaddr(phdrs), MaxEnd(phdrs));
    }
  }

  lemma LoadFits(p: Phdr, base: u64, first: u64, maxEnd: u64)
    requires base % PAGE == 0 && p.Load() && End(p) < WORD && Add(p.vaddr, p.memsz) <= maxEnd
    requires first <= maxEnd && maxEnd + PAGE <= WORD && base + (maxEnd - first) + PAGE <= WORD
    ensures Fits(p, base, first, Up(maxEnd - first))
  {
    MappingInside(p, base, first, maxEnd);
  }

  predicate Fits(p: Phdr, base: u64, first: u64, total: int) {
    var m := SegmentMapping(p, base, first);
    && (first <= p.vaddr ==> InReservation(m, base, total))
    && (m.size > 0 && InReservation(m, base, total) ==> first <= p.vaddr)
  }

  /** Every load can be mapped: what `MapSegments` needs to succeed. */
  predicate NoneEmpty(phdrs: seq<Phdr>, base: u64) {
    forall i :: 0 <= i < |phdrs| && phdrs[i].Load() ==> SegmentMapping(phdrs[i], base, FirstVaddr(phdrs)).size > 0
  }

  // ---------------------------------------------------------------- the image

  /** The loads come in ascending order and share no page once placed relative to the first. */
  predicate PagesApart(phdrs: seq<Phdr>, first: u64) {
    forall i, j :: 0 <= i < j < |phdrs| && phdrs[i].Load() && phdrs[j].Load() ==>
      Up(phdrs[i].vaddr - first + phdrs[i].memsz) <= Down(phdrs[j].vaddr - first)
  }

  predicate Placed(phdrs: seq<Phdr>, base: u64) {
    && base % PAGE == 0
    && (forall i :: 0 <= i < |phdrs| && phdrs[i].Load() ==> FitsAbove(phdrs[i], base, FirstVaddr(phdrs)))
    && PagesApart(phdrs, FirstVaddr(phdrs))
  }

  /** The file index that ends up at the translated address of byte k of a segment. */
  function ImageIndex(p: Phdr, first: u64, k: nat): int {
    Down(p.offset) + Sub(p.vaddr, first) % PAGE + k
  }

  predicate Covers(m: Mapping, a: int) { m.addr <= a < m.addr + m.size }

  /** What a mapping shows at an address it covers. */
  predicate Shows(mem: map<int, nat>, file: seq<nat>, m: Mapping, a: int)
    requires Covers(m, a)
  {
    var index := m.offset + (a - m.addr);
    if index < Up(|file|) then a in mem && mem[a] == FileByte(file, index) else a !in mem
  }

  lemma MapFixedShows(mem: map<int, nat>, file: seq<nat>, m: Mapping, a: int)
    requires Covers(m, a)
    ensures Shows(MapFixed(mem, m.addr, m.size, file, m.offset), file, m, a)
  {
    assert Backed(file, m.offset, m.addr, a) <==> m.offset + (a - m.addr) < Up(|file|);
  }

  lemma {:induction false} PageKept(mem: map<int, nat>, file: seq<nat>, phdrs: seq<Phdr>, base: u64, i: nat, n: nat, a: int)
    requires i < n <= |phdrs| && phdrs[i].Load() && Covers(SegmentMapping(phdrs[i], base, FirstVaddr(phdrs)), a)
    requires forall j :: i < j < n && phdrs[j].Load() ==> !Covers(SegmentMapping(phdrs[j], base, FirstVaddr(phdrs)), a)
    ensures Shows(Mapped(mem, file, phdrs, base, n), file, SegmentMapping(phdrs[i], base, FirstVaddr(phdrs)), a)
    decreases n
  {
    if i + 1 == n {
      MapFixedShows(Mapped(mem, file, phdrs, base, i), file, SegmentMapping(phdrs[i], base, FirstVaddr(phdrs)), a);
    } else {
      PageKept(mem, file, phdrs, base, i, n - 1, a);
    }
  }

  lemma LaterLoadMisses(p: Phdr, q: Phdr, base: u64, first: u64, a: int)
    requires base % PAGE == 0 && FitsAbove(p, base, first) && FitsAbove(q, base, first)
    requires Up(p.vaddr - first + p.memsz) <= Down(q.vaddr - first) && Covers(SegmentMapping(p, base, first), a)
    ensures !Covers(SegmentMapping(q, base, first), a)
  {
    MappingHull(p, base, first);
    MappingHull(q, base, first);
  }

  /** Byte k of a segment's memory is translated to its place relative to the first load. */
  lemma TranslatedByte(phdrs: seq<Phdr>, base: u64, i: nat, k: nat)
    requires i < |phdrs| && phdrs[i].Load() && k < phdrs[i].memsz && FitsAbove(phdrs[i], base, FirstVaddr(phdrs))
    ensures phdrs[i].vaddr + k < WORD
    ensures Translate(phdrs[i].vaddr + k, base, phdrs) == base + (phdrs[i].vaddr - FirstVaddr(phdrs)) + k
  {
    var p, first := phdrs[i], FirstVaddr(phdrs);
    assert Contains(p, p.vaddr + k);
  }

  /** That place lies in the segment's mapping, at its image index. */
  lemma PlaceInMapping(p: Phdr, base: u64, first: u64, k: nat)
    requires base % PAGE == 0 && FitsAbove(p, base, first) && k < p.memsz
    ensures var (m, a) := (SegmentMapping(p, base, first), base + (p.vaddr - first) + k);
            Covers(m, a) && m.offset + (a - m.addr) == ImageIndex(p, first, k)
  {
    MappingHull(p, base, first);
    UpMonotone(p.vaddr - first + p.memsz, p.vaddr - first + p.memsz);
    UpMonotone(p.vaddr - first, p.vaddr - first);
  }

  /** What the mapping loop leaves at the translated address of any byte of a segment's memory. */
  lemma ImageByte(mem: map<int, nat>, file: seq<nat>, phdrs: seq<Phdr>, base: u64, i: nat, k: nat)
    requires Placed(phdrs, base) && i < |phdrs| && phdrs[i].Load() && k < phdrs[i].memsz
    ensures phdrs[i].vaddr + k < WORD
    ensures var a := Translate(phdrs[i].vaddr + k, base, phdrs);
            var index := ImageIndex(phdrs[i], FirstVaddr(phdrs), k);
            var image := Mapped(mem, file, phdrs, base, |phdrs|);
            if index < Up(|file|) then a in image && image[a] == (if index < |file| then file[index] else 0) else a !in image
  {
    var p, first := phdrs[i], FirstVaddr(phdrs);
    TranslatedByte(phdrs, base, i, k);
    PlaceInMapping(p, base, first, k);
    var a := base + (p.vaddr - first) + k;
    forall j | i < j < |phdrs| && phdrs[j].Load() ensures !Covers(SegmentMapping(phdrs[j], base, first), a) {
      LaterLoadMisses(p, phdrs[j], base, first, a);
    }
    PageKept(mem, file, phdrs, base, i, |phdrs|, a);
  }

  /** The index is the one the program header asks for exactly when the first load is page-aligned,
      given the congruence of p_vaddr and p_offset that ELF requires. */
  lemma ImageIndexRight(p: Phdr, first: u64, k: nat)
    requires first <= p.vaddr && p.vaddr % PAGE == p.offset % PAGE
    ensures ImageIndex(p, first, k) == p.offset + k <==> first % PAGE == 0
  {
  }

  /** Loader image correctness: every file-backed byte is where calculate_address_from_vaddr looks. */
  lemma ImageCorrect(mem: map<int, nat>, file: seq<nat>, phdrs: seq<Phdr>, base: u64, i: nat, k: nat)
    requires Placed(phdrs, base) && FirstVaddr(phdrs) % PAGE == 0
    requires i < |phdrs| && phdrs[i].Load() && phdrs[i].vaddr % PAGE == phdrs[i].offset % PAGE
    requires k < phdrs[i].filesz <= phdrs[i].memsz && phdrs[i].offset + phdrs[i].filesz <= |file|
    ensures phdrs[i].vaddr + k < WORD
    ensures var a := Translate(phdrs[i].vaddr + k, base, phdrs);
            var image := Mapped(mem, file, phdrs, base, |phdrs|);
            a in image && image[a] == file[phdrs[i].offset + k]
  {
    ImageByte(mem, file, phdrs, base, i, k);
    ImageIndexRight(phdrs[i], FirstVaddr(phdrs), k);
    UpMonotone(|file|, |file|);
  }

  /** A first load that is not page-aligned is mapped from the wrong file bytes: with p_vaddr and
      p_offset both 16, the segment's first byte reads as the file's first byte. */
  lemma UnalignedImageWrong(file: seq<nat>, base: u64)
    requires |file| == 17 && file[0] != file[16] && base % PAGE == 0 && base + 2 * PAGE < WORD
    ensures var phdrs := [Phdr(PT_LOAD, 16, 16, 1, 1)];
            && Translate(16, base, phdrs) == base
            && base in Mapped(map[], file, phdrs, base, 1)
            && Mapped(map[], file, phdrs, base, 1)[base] == file[0] != file[phdrs[0].offset]
  {
    var phdrs := [Phdr(PT_LOAD, 16, 16, 1, 1)];
    FirstVaddrAt(phdrs, 0);
    ImageByte(map[], file, phdrs, base, 0, 0);
  }

  /** The mapping loop changes nothing outside the pages of the segments. */
  lemma {:induction false} OutsideUntouched(mem: map<int, nat>, file: seq<nat>, phdrs: seq<Phdr>, base: u64, n: nat, a: int)
    requires n <= |phdrs|
    requires forall i :: 0 <= i < n && phdrs[i].Load() ==>
               !Covers(SegmentMapping(phdrs[i], base, FirstVaddr(phdrs)), a)
    ensures a in Mapped(mem, file, phdrs, base, n) <==> a in mem
    ensures a in mem ==> Mapped(mem, file, phdrs, base, n)[a] == mem[a]
  {
    if n > 0 {
      OutsideUntouched(mem, file, phdrs, base, n - 1, a);
    }
  }
}
