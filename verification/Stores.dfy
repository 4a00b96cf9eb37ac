/** Byte memory, little-endian words and sequences of eight-byte stores. */
module Stores {
  import opened Words

  type u8 = n: int | 0 <= n < 256
  type Memory = map<int, u8>

  function Byte(mem: Memory, a: int): u8 { if a in mem then mem[a] else 0 }

  ghost predicate SameBytes(m: Memory, n: Memory) { forall x :: Byte(m, x) == Byte(n, x) }

  function FromBytes(s: seq<u8>): nat { if s == [] then 0 else s[0] + 256 * FromBytes(s[1..]) }

  function ToBytes(v: nat, n: nat): (s: seq<u8>)
    ensures |s| == n
  {
    if n == 0 then [] else [v % 256] + ToBytes(v / 256, n - 1)
  }

  function Power256(n: nat): nat { if n == 0 then 1 else 256 * Power256(n - 1) }

  lemma {:induction false} BytesRoundTrip(v: nat, n: nat)
    requires v < Power256(n)
    ensures FromBytes(ToBytes(v, n)) == v
  {
    if n > 0 {
      BytesRoundTrip(v / 256, n - 1);
      assert ToBytes(v, n)[1..] == ToBytes(v / 256, n - 1);
    }
  }

  function ReadBytes(mem: Memory, a: int, n: nat): (s: seq<u8>)
    ensures |s| == n && forall k :: 0 <= k < n ==> s[k] == Byte(mem, a + k)
  {
    seq<u8>(n, k requires 0 <= k < n => Byte(mem, a + k))
  }

  lemma {:induction false} FromBytesBound(s: seq<u8>)
    ensures FromBytes(s) < Power256(|s|)
  {
    if s != [] {
      FromBytesBound(s[1..]);
    }
  }

  lemma WordSize()
    ensures Power256(8) == WORD
  {
    assert Power256(4) == 0x1_0000_0000;
  }

  function Read64(mem: Memory, a: int): u64 {
    FromBytesBound(ReadBytes(mem, a, 8));
    WordSize();
    FromBytes(ReadBytes(mem, a, 8))
  }

  function Read32(mem: Memory, a: int): nat { FromBytes(ReadBytes(mem, a, 4)) }

  /** Words are little-endian. */
  lemma LittleEndian(mem: Memory, a: int)
    ensures Read32(mem, a) == Number(Byte(mem, a), Byte(mem, a + 1), Byte(mem, a + 2), Byte(mem, a + 3))
  {
    var f1, f2, f3 := FromBytes(ReadBytes(mem, a + 1, 3)), FromBytes(ReadBytes(mem, a + 2, 2)), FromBytes(ReadBytes(mem, a + 3, 1));
    FirstByte(mem, a, 4);
    FirstByte(mem, a + 1, 3);
    FirstByte(mem, a + 2, 2);
    FirstByte(mem, a + 3, 1);
    Digits(Read32(mem, a), f1, f2, f3, Byte(mem, a), Byte(mem, a + 1), Byte(mem, a + 2), Byte(mem, a + 3));
  }

  lemma Digits(f0: nat, f1: nat, f2: nat, f3: nat, b0: nat, b1: nat, b2: nat, b3: nat)
    requires f0 == b0 + 256 * f1 && f1 == b1 + 256 * f2 && f2 == b2 + 256 * f3 && f3 == b3
    ensures f0 == Number(b0, b1, b2, b3)
  {
  }

  /** The low half of a word comes first. */
  lemma TwoHalves(mem: Memory, a: int)
    ensures Read64(mem, a) == Read32(mem, a) + 0x1_0000_0000 * Read32(mem, a + 4)
  {
    var s, t := ReadBytes(mem, a, 4), ReadBytes(mem, a + 4, 4);
    assert ReadBytes(mem, a, 8) == s + t;
    Concatenated(s, t);
    assert Power256(4) == 0x1_0000_0000;
  }

  lemma FirstByte(mem: Memory, a: int, n: nat)
    requires n > 0
    ensures FromBytes(ReadBytes(mem, a, n)) == Byte(mem, a) + 256 * FromBytes(ReadBytes(mem, a + 1, n - 1))
  {
    assert ReadBytes(mem, a, n)[1..] == ReadBytes(mem, a + 1, n - 1);
  }

  function Number(b0: nat, b1: nat, b2: nat, b3: nat): nat { b0 + 0x100 * b1 + 0x1_0000 * b2 + 0x100_0000 * b3 }

  lemma {:induction false} Concatenated(s: seq<u8>, t: seq<u8>)
    ensures FromBytes(s + t) == FromBytes(s) + Power256(|s|) * FromBytes(t)
  {
    if s == [] {
      assert s + t == t;
    } else {
      assert (s + t)[1..] == s[1..] + t;
      Concatenated(s[1..], t);
      Regrouped(Power256(|s| - 1), FromBytes(t));
    }
  }

  lemma Regrouped(p: nat, x: nat)
    ensures 256 * (p * x) == (256 * p) * x
  {
  }

  function Write64(mem: Memory, a: int, v: u64): Memory {
    mem + map x | a <= x < a + 8 :: ByteOf(v, a, x)
  }

  function ByteOf(v: u64, a: int, x: int): u8
    requires a <= x < a + 8
  {
    ToBytes(v, 8)[x - a]
  }

  lemma WriteRead(mem: Memory, a: int, v: u64)
    ensures Read64(Write64(mem, a, v), a) == v
    ensures forall x :: !(a <= x < a + 8) ==> Byte(Write64(mem, a, v), x) == Byte(mem, x)
    ensures forall x :: a <= x < a + 8 ==> Byte(Write64(mem, a, v), x) == ByteOf(v, a, x)
  {
    WordSize();
    BytesRoundTrip(v, 8);
    assert forall x :: a <= x < a + 8 ==> Byte(Write64(mem, a, v), x) == ByteOf(v, a, x);
    assert ReadBytes(Write64(mem, a, v), a, 8) == ToBytes(v, 8);
  }

  // ---------------------------------------------------------------- sequences of stores

  datatype Effect = Nothing | Store(addr: int, value: u64)

  function Do(mem: Memory, e: Effect): Memory {
    match e
    case Nothing => mem
    case Store(a, v) => Write64(mem, a, v)
  }

  function DoAll(mem: Memory, es: seq<Effect>): Memory {
    if es == [] then mem else Do(DoAll(mem, es[..|es| - 1]), es[|es| - 1])
  }

  predicate Touches(e: Effect, x: int) { e.Store? && e.addr <= x < e.addr + 8 }

  predicate Compatible(e: Effect, f: Effect) {
    e.Store? && f.Store? ==> e == f || e.addr + 8 <= f.addr || f.addr + 8 <= e.addr
  }

  ghost predicate AllCompatible(es: seq<Effect>) {
    forall i, j :: 0 <= i < |es| && 0 <= j < |es| ==> Compatible(es[i], es[j])
  }

  ghost predicate Untouched(es: seq<Effect>, x: int) { forall i :: 0 <= i < |es| ==> !Touches(es[i], x) }

  /** Every byte of every stored word is there. */
  ghost predicate Stored(mem: Memory, es: seq<Effect>) {
    forall i, x :: 0 <= i < |es| && Touches(es[i], x) ==> Byte(mem, x) == ByteOf(es[i].value, es[i].addr, x)
  }

  lemma {:induction false} UntouchedKept(mem: Memory, es: seq<Effect>, x: int)
    requires Untouched(es, x)
    ensures Byte(DoAll(mem, es), x) == Byte(mem, x)
  {
    if es != [] {
      var n := |es| - 1;
      assert forall i :: 0 <= i < n ==> es[..n][i] == es[i];
      UntouchedKept(mem, es[..n], x);
      assert !Touches(es[n], x);
      if es[n].Store? {
        WriteRead(DoAll(mem, es[..n]), es[n].addr, es[n].value);
      }
    }
  }

  /** Stores that do not clash: every stored word is there at the end. */
  lemma {:induction false} AllStored(mem: Memory, es: seq<Effect>)
    requires AllCompatible(es)
    ensures Stored(DoAll(mem, es), es)
  {
    if es != [] {
      var n := |es| - 1;
      var before, e := DoAll(mem, es[..n]), es[n];
      assert forall i :: 0 <= i < n ==> es[..n][i] == es[i];
      AllStored(mem, es[..n]);
      if e.Store? {
        WriteRead(before, e.addr, e.value);
      }
      forall i, x | 0 <= i < |es| && Touches(es[i], x)
        ensures Byte(DoAll(mem, es), x) == ByteOf(es[i].value, es[i].addr, x)
      {
        assert Compatible(es[i], e);
        assert i < n ==> es[..n][i] == es[i];
      }
    }
  }

  lemma DoAllReads(mem: Memory, es: seq<Effect>, i: nat)
    requires AllCompatible(es) && i < |es| && es[i].Store?
    ensures Read64(DoAll(mem, es), es[i].addr) == es[i].value
  {
    AllStored(mem, es);
    WordSize();
    BytesRoundTrip(es[i].value, 8);
    var a := es[i].addr;
    forall k | 0 <= k < 8 ensures Byte(DoAll(mem, es), a + k) == ToBytes(es[i].value, 8)[k] {
      assert Touches(es[i], a + k);
    }
    assert ReadBytes(DoAll(mem, es), a, 8) == ToBytes(es[i].value, 8);
  }

  /** Only which stores are done matters, not how often or in which order. */
  lemma SameStoresSameMemory(mem: Memory, es: seq<Effect>, fs: seq<Effect>)
    requires AllCompatible(es) && AllCompatible(fs)
    requires forall e: Effect :: e.Store? ==> (e in es <==> e in fs)
    ensures SameBytes(DoAll(mem, es), DoAll(mem, fs))
  {
    AllStored(mem, es);
    AllStored(mem, fs);
    forall x ensures Byte(DoAll(mem, es), x) == Byte(DoAll(mem, fs), x) {
      if !Untouched(es, x) {
        var i :| 0 <= i < |es| && Touches(es[i], x);
        assert es[i] in es;
        var j :| 0 <= j < |fs| && fs[j] == es[i];
        assert Touches(fs[j], x);
      } else {
        forall j | 0 <= j < |fs| ensures !Touches(fs[j], x) {
          assert fs[j] in fs;
        }
        UntouchedKept(mem, es, x);
        UntouchedKept(mem, fs, x);
      }
    }
  }

  lemma {:induction false} DoAllAppend(mem: Memory, es: seq<Effect>, fs: seq<Effect>)
    ensures DoAll(mem, es + fs) == DoAll(DoAll(mem, es), fs)
    decreases |fs|
  {
    if fs == [] {
      assert es + fs == es;
    } else {
      var n := |fs| - 1;
      assert (es + fs)[..|es + fs| - 1] == es + fs[..n];
      DoAllAppend(mem, es, fs[..n]);
    }
  }

  lemma {:induction false} BytesBack(s: seq<u8>)
    ensures ToBytes(FromBytes(s), |s|) == s
  {
    if s != [] {
      assert FromBytes(s) % 256 == s[0] && FromBytes(s) / 256 == FromBytes(s[1..]);
      BytesBack(s[1..]);
    }
  }

  lemma WordBytes(mem: Memory, a: int, x: int)
    requires a <= x < a + 8
    ensures Byte(mem, x) == ByteOf(Read64(mem, a), a, x)
  {
    BytesBack(ReadBytes(mem, a, 8));
    assert ReadBytes(mem, a, 8)[x - a] == Byte(mem, x);
  }

  predicate InPlace(mem: Memory, e: Effect) { e.Store? ==> Read64(mem, e.addr) == e.value }

  /** Storing values that are there already changes nothing. */
  lemma RewriteNeutral(mem: Memory, es: seq<Effect>)
    requires AllCompatible(es)
    requires forall i :: 0 <= i < |es| ==> InPlace(mem, es[i])
    ensures SameBytes(DoAll(mem, es), mem)
  {
    AllStored(mem, es);
    forall x ensures Byte(DoAll(mem, es), x) == Byte(mem, x) {
      if Untouched(es, x) {
        UntouchedKept(mem, es, x);
      } else {
        var i :| 0 <= i < |es| && Touches(es[i], x);
        assert InPlace(mem, es[i]);
        WordBytes(mem, es[i].addr, x);
      }
    }
  }
}
