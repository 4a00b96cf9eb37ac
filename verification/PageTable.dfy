/**
 The four-level page tables that mmu/boot.S builds, against the translation table walk of the Arm
 architecture (DDI 0487, sections D5.2 and D5.3, 4 KB granule, 48-bit addresses). Physical memory
 is a map of 64-bit words by address; a word never written reads as some fixed value.
 */
module PageTable {
  import opened Words

  const FRAME := 0x1000
  const UART := 0x0900_0000
  const DRAM := 0x4000_0000
  const VA_LIMIT := 0x1_0000_0000_0000

  type Memory = map<int, nat>

  function Word(mem: Memory, a: int): nat { if a in mem then mem[a] else 0 }

  // ---------------------------------------------------------------- ORR

  /** Bitwise inclusive or. */
  function Orr(a: nat, b: nat): nat {
    if a == 0 then b
    else if b == 0 then a
    else (if a % 2 == 1 || b % 2 == 1 then 1 else 0) + 2 * Orr(a / 2, b / 2)
  }

  /** Or-ing bits into the zero bits below an aligned address adds them. */
  lemma {:induction false} OrrDisjoint(q: nat, k: nat, b: nat)
    requires b < Pow2(k)
    ensures Orr(q * Pow2(k), b) == q * Pow2(k) + b
    decreases k
  {
    if k > 0 && q > 0 && b > 0 {
      var half := q * Pow2(k - 1);
      assert q * Pow2(k) == 2 * half;
      assert half > 0;
      OrrDisjoint(q, k - 1, b / 2);
    }
  }

  lemma OrrFrame(a: nat, b: nat)
    requires a % FRAME == 0 && b < FRAME
    ensures Orr(a, b) == a + b
  {
    assert Pow2(6) == 64 && Pow2(12) == FRAME;
    OrrDisjoint(a / FRAME, 12, b);
  }

  // ---------------------------------------------------------------- the walk

  /** Lower attributes [11:2] by field, and the upper attributes [63:50] as one number. */
  datatype Attributes = Attributes(attrIndx: nat, ns: nat, ap: nat, sh: nat, af: nat, nG: nat, upper: nat)

  datatype Translation = Fault(level: nat) | Mapped(pa: nat, level: nat, attributes: Attributes)

  /** Bytes covered by one entry at each level. */
  function Span(level: nat): (r: nat)
    ensures r > 0
  {
    if level == 0 then 0x80_0000_0000 else if level == 1 then 0x4000_0000 else if level == 2 then 0x20_0000 else 0x1000
  }

  function Index(va: nat, level: nat): nat { va / Span(level) % 512 }

  function AttributesOf(d: nat): Attributes {
    Attributes(d / 4 % 8, d / 32 % 2, d / 64 % 4, d / 256 % 4, d / 1024 % 2, d / 2048 % 2, d / 0x4_0000_0000_0000)
  }

  /** Bits [47:12] of a table descriptor, or the output address bits of a block or page. */
  function AddressField(d: nat, span: nat): nat
    requires span > 0
  {
    d % VA_LIMIT / span * span
  }

  function Walk(mem: Memory, table: nat, va: nat, level: nat): Translation
    requires level <= 3
    decreases 3 - level
  {
    var d := Word(mem, table + 8 * Index(va, level));
    var leaf := Mapped(AddressField(d, Span(level)) + va % Span(level), level, AttributesOf(d));
    if d % 2 == 0 then Fault(level)
    else if level == 3 then if d % 4 == 3 then leaf else Fault(3)
    else if d % 4 == 3 then Walk(mem, AddressField(d, FRAME), va, level + 1)
    else if level == 0 then Fault(0)
    else leaf
  }

  // ---------------------------------------------------------------- the builder

  /** The five table frames of the linker script: page-aligned, distinct, below 2^48. */
  datatype Frames = Frames(l0: nat, l1: nat, l2Periph: nat, l2Dram: nat, l3: nat) {
    predicate Valid() {
      && Aligned(l0) && Aligned(l1) && Aligned(l2Periph) && Aligned(l2Dram) && Aligned(l3)
      && l0 != l1 && l0 != l2Periph && l0 != l2Dram && l0 != l3
      && l1 != l2Periph && l1 != l2Dram && l1 != l3
      && l2Periph != l2Dram && l2Periph != l3 && l2Dram != l3
    }
  }

  predicate Aligned(frame: nat) { frame % FRAME == 0 && frame < VA_LIMIT }

  predicate InFrame(a: int, frame: int) { frame <= a < frame + FRAME }

  predicate InFrames(a: int, f: Frames) {
    InFrame(a, f.l0) || InFrame(a, f.l1) || InFrame(a, f.l2Periph) || InFrame(a, f.l2Dram) || InFrame(a, f.l3)
  }

  function Slot(frame: nat, i: nat): nat { frame + 8 * i }

  /** The entries the builder sets; every other entry is 0. */
  function Entry(f: Frames, frame: nat, i: nat): nat {
    if frame == f.l0 && i == 0 then f.l1 + 3
    else if frame == f.l1 && i == 0 then f.l2Periph + 3
    else if frame == f.l1 && i == 1 then f.l2Dram + 3
    else if frame == f.l2Periph && i == 0x48 then UART + 0x605
    else if frame == f.l2Dram && i == 0 then f.l3 + 3
    else if frame == f.l3 then DRAM + 0x1000 * i + 0x703
    else 0
  }

  ghost predicate FrameBuilt(mem: Memory, f: Frames, frame: nat) {
    forall i :: 0 <= i < 512 ==> Word(mem, Slot(frame, i)) == Entry(f, frame, i)
  }

  ghost predicate Built(mem: Memory, f: Frames) {
    && FrameBuilt(mem, f, f.l0) && FrameBuilt(mem, f, f.l1) && FrameBuilt(mem, f, f.l2Periph)
    && FrameBuilt(mem, f, f.l2Dram) && FrameBuilt(mem, f, f.l3)
  }

  ghost predicate Cleared(mem: Memory, frame: nat) {
    forall i :: 0 <= i < 512 ==> Word(mem, Slot(frame, i)) == 0
  }

  ghost predicate SameOutside(m: Memory, n: Memory, frame: nat) {
    forall a :: !InFrame(a, frame) ==> Word(m, a) == Word(n, a)
  }

  lemma FramesApart(a: nat, b: nat)
    requires Aligned(a) && Aligned(b) && a != b
    ensures a + FRAME <= b || b + FRAME <= a
  {
    assert a / FRAME * FRAME == a && b / FRAME * FRAME == b;
  }

  lemma StaysCleared(m: Memory, n: Memory, frame: nat, other: nat)
    requires Aligned(frame) && Aligned(other) && frame != other && SameOutside(m, n, other) && Cleared(m, frame)
    ensures Cleared(n, frame)
  {
    FramesApart(frame, other);
    forall i | 0 <= i < 512 ensures Word(n, Slot(frame, i)) == 0 {
      assert !InFrame(Slot(frame, i), other);
    }
  }

  /** A store into one frame leaves what was built in another. */
  lemma StaysBuilt(m: Memory, n: Memory, f: Frames, frame: nat, other: nat)
    requires Aligned(frame) && Aligned(other) && frame != other && SameOutside(m, n, other) && FrameBuilt(m, f, frame)
    ensures FrameBuilt(n, f, frame)
  {
    FramesApart(frame, other);
    forall i | 0 <= i < 512 ensures Word(n, Slot(frame, i)) == Entry(f, frame, i) {
      assert !InFrame(Slot(frame, i), other);
    }
  }

  /** One entry stored into a cleared frame that wants only this one. */
  lemma Linked(m: Memory, f: Frames, frame: nat, i: nat, v: nat)
    requires Cleared(m, frame) && i < 512 && v == Entry(f, frame, i)
    requires forall j :: 0 <= j < 512 && j != i ==> Entry(f, frame, j) == 0
    ensures FrameBuilt(m[frame + 8 * i := v], f, frame) && SameOutside(m, m[frame + 8 * i := v], frame)
  {
  }

  class Machine {
    var mem: Memory

    /** orr of descriptor bits into a page-aligned address. */
    method Describe(address: nat, bits: nat) returns (d: nat)
      requires address % FRAME == 0 && bits < FRAME
      ensures d == address + bits
    {
      OrrFrame(address, bits);
      d := Orr(address, bits);
    }

    /** memzero: stores 8 bytes at a time until the count is reached. */
    method MemZero(x0: nat, x1: nat)
      modifies this
      ensures forall i :: 0 <= i && 8 * i < x1 ==> Word(mem, Slot(x0, i)) == 0
      ensures forall a :: !(x0 <= a < x0 + (x1 + 7) / 8 * 8) ==> Word(mem, a) == Word(old(mem), a)
    {
      var x2 := 0;
      ghost var n := 0;
      while x2 < x1
        invariant x2 == 8 * n && (n > 0 ==> 8 * (n - 1) < x1)
        invariant forall i :: 0 <= i < n ==> Word(mem, Slot(x0, i)) == 0
        invariant forall a :: !(x0 <= a < x0 + 8 * n) ==> Word(mem, a) == Word(old(mem), a)
      {
        mem := mem[x0 + x2 := 0];
        x2 := x2 + 8;
        n := n + 1;
      }
    }

    /** The five calls of memzero at the start of build_page_table. */
    method ClearTables(f: Frames)
      requires f.Valid()
      modifies this
      ensures Cleared(mem, f.l0) && Cleared(mem, f.l1) && Cleared(mem, f.l2Periph) && Cleared(mem, f.l2Dram) && Cleared(mem, f.l3)
      ensures forall a :: !InFrames(a, f) ==> Word(mem, a) == Word(old(mem), a)
    {
      MemZero(f.l0, 0x1000);
      ghost var m0 := mem;
      MemZero(f.l1, 0x1000);
      ghost var m1 := mem;
      MemZero(f.l2Periph, 0x1000);
      ghost var m2 := mem;
      MemZero(f.l2Dram, 0x1000);
      ghost var m3 := mem;
      MemZero(f.l3, 0x1000);
      StaysCleared(m0, m1, f.l0, f.l1);
      StaysCleared(m1, m2, f.l0, f.l2Periph);
      StaysCleared(m1, m2, f.l1, f.l2Periph);
      StaysCleared(m2, m3, f.l0, f.l2Dram);
      StaysCleared(m2, m3, f.l1, f.l2Dram);
      StaysCleared(m2, m3, f.l2Periph, f.l2Dram);
      StaysCleared(m3, mem, f.l0, f.l3);
      StaysCleared(m3, mem, f.l1, f.l3);
      StaysCleared(m3, mem, f.l2Periph, f.l3);
      StaysCleared(m3, mem, f.l2Dram, f.l3);
    }

    /** l3_loop: 512 page descriptors for consecutive pages from DRAM on. */
    method FillL3(l3: nat)
      requires l3 % FRAME == 0
      modifies this
      ensures forall i :: 0 <= i < 512 ==> Word(mem, Slot(l3, i)) == DRAM + 0x1000 * i + 0x703
      ensures SameOutside(old(mem), mem, l3)
    {
      var x0, x1, x2 := l3, DRAM, 512;
      ghost var n: nat := 0;
      while true
        invariant n < 512 && x2 == 512 - n && x1 == DRAM + 0x1000 * n && x0 == Slot(l3, n)
        invariant forall i :: 0 <= i < n ==> Word(mem, Slot(l3, i)) == DRAM + 0x1000 * i + 0x703
        invariant SameOutside(old(mem), mem, l3)
        decreases x2
      {
        var x3 := Describe(x1, 0x703);
        mem := mem[x0 := x3];
        x0 := x0 + 8;
        x1 := x1 + 0x1000;
        x2 := x2 - 1;
        n := n + 1;
        if x2 == 0 {
          break;
        }
      }
    }

    /** The level 0 and level 1 table descriptors, over cleared frames. */
    method LinkUpper(f: Frames)
      requires f.Valid()
      requires Cleared(mem, f.l0) && Cleared(mem, f.l1) && Cleared(mem, f.l2Periph) && Cleared(mem, f.l2Dram)
      modifies this
      ensures FrameBuilt(mem, f, f.l0) && FrameBuilt(mem, f, f.l1) && Cleared(mem, f.l2Periph) && Cleared(mem, f.l2Dram)
      ensures forall a :: !InFrames(a, f) ==> Word(mem, a) == Word(old(mem), a)
    {
      ghost var m := mem;
      var x1 := Describe(f.l1, 0x3);
      mem := mem[f.l0 + 0 := x1];
      ghost var m0 := mem;
      Linked(m, f, f.l0, 0, f.l1 + 3);
      x1 := Describe(f.l2Periph, 0x3);
      mem := mem[f.l1 + 8 * 0 := x1];
      x1 := Describe(f.l2Dram, 0x3);
      mem := mem[f.l1 + 8 * 1 := x1];
      StaysCleared(m, m0, f.l1, f.l0);
      StaysCleared(m, m0, f.l2Periph, f.l0);
      StaysCleared(m, m0, f.l2Dram, f.l0);
      StaysBuilt(m0, mem, f, f.l0, f.l1);
      StaysCleared(m0, mem, f.l2Periph, f.l1);
      StaysCleared(m0, mem, f.l2Dram, f.l1);
    }

    /** The block descriptor of the UART. */
    method LinkPeripherals(f: Frames)
      requires f.Valid() && Cleared(mem, f.l2Periph)
      modifies this
      ensures FrameBuilt(mem, f, f.l2Periph) && SameOutside(old(mem), mem, f.l2Periph)
    {
      var x1 := Describe(UART, 0x605);
      Linked(mem, f, f.l2Periph, 0x48, UART + 0x605);
      mem := mem[f.l2Periph + 8 * 0x48 := x1];
    }

    /** The level 2 table descriptor of DRAM. */
    method LinkDram(f: Frames)
      requires f.Valid() && Cleared(mem, f.l2Dram)
      modifies this
      ensures FrameBuilt(mem, f, f.l2Dram) && SameOutside(old(mem), mem, f.l2Dram)
    {
      var x1 := Describe(f.l3, 0x3);
      Linked(mem, f, f.l2Dram, 0, f.l3 + 3);
      mem := mem[f.l2Dram + 8 * 0 := x1];
    }

    /** build_page_table */
    method BuildPageTable(f: Frames)
      requires f.Valid()
      modifies this
      ensures Built(mem, f)
      ensures forall a :: !InFrames(a, f) ==> Word(mem, a) == Word(old(mem), a)
    {
      ClearTables(f);
      LinkUpper(f);
      ghost var m1 := mem;
      LinkPeripherals(f);
      ghost var m2 := mem;
      StaysCleared(m1, m2, f.l2Dram, f.l2Periph);
      LinkDram(f);
      ghost var m := mem;
      FillL3(f.l3);
      StaysBuilt(m1, m2, f, f.l0, f.l2Periph);
      StaysBuilt(m1, m2, f, f.l1, f.l2Periph);
      StaysBuilt(m2, m, f, f.l0, f.l2Dram);
      StaysBuilt(m2, m, f, f.l1, f.l2Dram);
      StaysBuilt(m2, m, f, f.l2Periph, f.l2Dram);
      StaysBuilt(m, mem, f, f.l0, f.l3);
      StaysBuilt(m, mem, f, f.l1, f.l3);
      StaysBuilt(m, mem, f, f.l2Periph, f.l3);
      StaysBuilt(m, mem, f, f.l2Dram, f.l3);
    }
  }

  // ---------------------------------------------------------------- the identity map

  /** Device memory, outer shareable; normal memory, inner shareable; both accessed, EL1 read-write. */
  const DEVICE := Attributes(1, 0, 0, 2, 1, 0, 0)
  const NORMAL := Attributes(0, 0, 0, 3, 1, 0, 0)

  function Intended(va: nat): Translation {
    if UART <= va < UART + 0x20_0000 then Mapped(va, 2, DEVICE)
    else if DRAM <= va < DRAM + 0x20_0000 then Mapped(va, 3, NORMAL)
    else Fault(if va >= 0x80_0000_0000 then 0 else if va >= 0x8000_0000 then 1 else 2)
  }

  lemma TableDescriptor(frame: nat)
    requires Aligned(frame)
    ensures (frame + 3) % 2 == 1 && (frame + 3) % 4 == 3 && AddressField(frame + 3, FRAME) == frame
  {
    assert frame == frame / FRAME * FRAME;
  }

  /** The walk follows a table descriptor. */
  lemma WalkDescends(mem: Memory, table: nat, va: nat, level: nat, next: nat)
    requires level < 3 && Aligned(next) && Word(mem, Slot(table, Index(va, level))) == next + 3
    ensures Walk(mem, table, va, level) == Walk(mem, next, va, level + 1)
  {
    TableDescriptor(next);
  }

  lemma WalkFaults(mem: Memory, table: nat, va: nat, level: nat)
    requires level <= 3 && Word(mem, Slot(table, Index(va, level))) == 0
    ensures Walk(mem, table, va, level) == Fault(level)
  {
  }

  /** The entry of a table that a walk through one level reads. */
  lemma Indices(va: nat)
    requires va < VA_LIMIT
    ensures Index(va, 0) == va / 0x80_0000_0000 < 512
    ensures va < 0x80_0000_0000 ==> Index(va, 1) == va / 0x4000_0000 < 512
    ensures va < DRAM ==> Index(va, 2) == va / 0x20_0000 < 512
    ensures DRAM <= va < 0x8000_0000 ==> Index(va, 2) == va / 0x20_0000 - 0x200 < 512
  {
  }

  lemma PageDescriptor(page: nat)
    requires page < 0x10_0000
    ensures var d := 0x1000 * page + 0x703;
            d % 4 == 3 && AddressField(d, 0x1000) == 0x1000 * page && AttributesOf(d) == NORMAL
  {
    var d := 0x1000 * page + 0x703;
    assert d / 4 == 8 * (0x80 * page + 0x38);
    assert d / 32 == 2 * (0x40 * page + 0x1C);
    assert d / 64 == 4 * (0x10 * page + 0x7);
    assert d / 256 == 4 * (0x4 * page + 1) + 3;
    assert d / 1024 == 2 * (2 * page) + 1;
    assert d / 2048 == 2 * page;
    assert d / 0x1000 == page;
  }

  lemma WalkL3(mem: Memory, f: Frames, va: nat, level: nat)
    requires level == 3 && FrameBuilt(mem, f, f.l3) && f.l3 != f.l0 && f.l3 != f.l1 && f.l3 != f.l2Periph && f.l3 != f.l2Dram
    requires DRAM <= va < DRAM + 0x20_0000
    ensures Walk(mem, f.l3, va, level) == Mapped(va, level, NORMAL)
  {
    var page := va / 0x1000;
    var i := page - 0x4_0000;
    assert Index(va, level) == i;
    assert Word(mem, Slot(f.l3, i)) == Entry(f, f.l3, i) == 0x1000 * page + 0x703;
    PageDescriptor(page);
    assert va == 0x1000 * page + va % 0x1000;
  }

  lemma BlockDescriptor()
    ensures var d := UART + 0x605; d % 4 == 1 && AddressField(d, 0x20_0000) == UART && AttributesOf(d) == DEVICE
  {
  }

  lemma WalkPeripherals(mem: Memory, f: Frames, va: nat, level: nat)
    requires level == 2 && f.Valid() && FrameBuilt(mem, f, f.l2Periph) && va < DRAM
    ensures Walk(mem, f.l2Periph, va, level) == Intended(va)
  {
    var block := va / 0x20_0000;
    assert Index(va, level) == block;
    assert Word(mem, Slot(f.l2Periph, block)) == Entry(f, f.l2Periph, block);
    assert va == 0x20_0000 * block + va % 0x20_0000;
    BlockDescriptor();
  }

  lemma WalkDram(mem: Memory, f: Frames, va: nat, level: nat)
    requires level == 2 && f.Valid() && Built(mem, f) && DRAM <= va < 0x8000_0000
    ensures Walk(mem, f.l2Dram, va, level) == Intended(va)
  {
    Indices(va);
    var i := Index(va, level);
    assert Word(mem, Slot(f.l2Dram, i)) == Entry(f, f.l2Dram, i);
    if va < DRAM + 0x20_0000 {
      WalkDescends(mem, f.l2Dram, va, level, f.l3);
      WalkL3(mem, f, va, level + 1);
    } else {
      WalkFaults(mem, f.l2Dram, va, level);
    }
  }

  lemma WalkL1(mem: Memory, f: Frames, va: nat, level: nat)
    requires level == 1 && f.Valid() && Built(mem, f) && va < 0x80_0000_0000
    ensures Walk(mem, f.l1, va, level) == Intended(va)
  {
    Indices(va);
    var i := Index(va, level);
    assert Word(mem, Slot(f.l1, i)) == Entry(f, f.l1, i);
    if va < DRAM {
      WalkDescends(mem, f.l1, va, level, f.l2Periph);
      WalkPeripherals(mem, f, va, level + 1);
    } else if va < 0x8000_0000 {
      WalkDescends(mem, f.l1, va, level, f.l2Dram);
      WalkDram(mem, f, va, level + 1);
    } else {
      WalkFaults(mem, f.l1, va, level);
    }
  }

  lemma WalkL0(mem: Memory, f: Frames, va: nat, level: nat)
    requires level == 0 && f.Valid() && Built(mem, f) && va < VA_LIMIT
    ensures Walk(mem, f.l0, va, level) == Intended(va)
  {
    Indices(va);
    var i := Index(va, level);
    assert Word(mem, Slot(f.l0, i)) == Entry(f, f.l0, i);
    if va < 0x80_0000_0000 {
      WalkDescends(mem, f.l0, va, level, f.l1);
      WalkL1(mem, f, va, level + 1);
    } else {
      WalkFaults(mem, f.l0, va, level);
    }
  }

  /** After build_page_table, the hardware walk of any 48-bit address is the identity with the intended
      attributes on the UART block and the DRAM pages, and a translation fault at level 0, 1 or 2
      everywhere else. */
  lemma WalkIsIntended(mem: Memory, f: Frames, va: nat)
    requires f.Valid() && Built(mem, f) && va < VA_LIMIT
    ensures Walk(mem, f.l0, va, 0) == Intended(va)
  {
    WalkL0(mem, f, va, 0);
  }
}
