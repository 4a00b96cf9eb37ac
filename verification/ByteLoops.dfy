/**
 The byte loops of mini_libc: memcpy with its choice of direction (src/string.c) and the aligned,
 word-wise memset (src/malloc.c), over one array of bytes. The address of mem[k] is origin + k.
 */
module ByteLoops {
  import opened Words
  import opened Stores

  /** Copies upwards; right when no source byte is overwritten before it is read. */
  method CopyUp(mem: array<u8>, dest: nat, src: nat, n: nat)
    requires dest + n <= mem.Length && src + n <= mem.Length && (dest <= src || dest >= src + n)
    modifies mem
    ensures forall k :: 0 <= k < mem.Length ==>
              mem[k] == if dest <= k < dest + n then old(mem[src + (k - dest)]) else old(mem[k])
  {
    var d, s, left: nat := dest, src, n;
    while left > 0
      invariant left <= n && d == dest + (n - left) && s == src + (n - left)
      invariant forall k :: 0 <= k < mem.Length ==>
                  mem[k] == if dest <= k < d then old(mem[src + (k - dest)]) else old(mem[k])
    {
      left := left - 1;
      mem[d] := mem[s];
      d, s := d + 1, s + 1;
    }
  }

  /** Copies downwards. */
  method CopyDown(mem: array<u8>, dest: nat, src: nat, n: nat)
    requires dest + n <= mem.Length && src + n <= mem.Length && src < dest < src + n
    modifies mem
    ensures forall k :: 0 <= k < mem.Length ==>
              mem[k] == if dest <= k < dest + n then old(mem[src + (k - dest)]) else old(mem[k])
  {
    var d, s, left: nat := dest + n - 1, src + n - 1, n;
    while left > 0
      invariant left <= n && d == dest + left - 1 && s == src + left - 1
      invariant forall k :: 0 <= k < mem.Length ==>
                  mem[k] == if d < k < dest + n then old(mem[src + (k - dest)]) else old(mem[k])
    {
      left := left - 1;
      mem[d] := mem[s];
      d, s := d - 1, s - 1;
    }
  }

  /** memcpy: for every overlap of the two ranges the destination receives the source's old bytes. */
  method MemCpy(mem: array<u8>, dest: nat, src: nat, n: nat)
    requires dest + n <= mem.Length && src + n <= mem.Length
    modifies mem
    ensures mem[..] == old(mem[..dest]) + old(mem[src..src + n]) + old(mem[dest + n..])
  {
    ghost var was := mem[..];
    if dest <= src || dest >= src + n {
      CopyUp(mem, dest, src, n);
    } else {
      CopyDown(mem, dest, src, n);
    }
    Spliced(was, mem[..], dest, was[src..src + n]);
  }

  /** A sequence that differs from another only in a stretch holding `middle`. */
  lemma Spliced(was: seq<u8>, now: seq<u8>, start: nat, middle: seq<u8>)
    requires |now| == |was| && start + |middle| <= |was|
    requires forall k :: 0 <= k < |was| ==> now[k] == if start <= k < start + |middle| then middle[k - start] else was[k]
    ensures now == was[..start] + middle + was[start + |middle|..]
  {
  }

  /** What the loop over fill_word computes in n rounds. */
  function Repeated(value: u8, n: nat): nat { if n == 0 then 0 else 256 * Repeated(value, n - 1) + value }

  lemma {:induction false} RepeatedBytes(value: u8, n: nat)
    ensures Repeated(value, n) < Power256(n)
    ensures forall k :: 0 <= k < n ==> ToBytes(Repeated(value, n), n)[k] == value
  {
    if n > 0 {
      RepeatedBytes(value, n - 1);
      assert Repeated(value, n) % 256 == value && Repeated(value, n) / 256 == Repeated(value, n - 1);
    }
  }

  /** One aligned store of an unsigned long. */
  method StoreWord(mem: array<u8>, origin: nat, p: nat, w: u64)
    requires p + 8 <= mem.Length && (origin + p) % 8 == 0
    modifies mem
    ensures forall k :: 0 <= k < mem.Length ==> mem[k] == if p <= k < p + 8 then ToBytes(w, 8)[k - p] else old(mem[k])
  {
    forall k | 0 <= k < 8 {
      mem[p + k] := ToBytes(w, 8)[k];
    }
  }

  method FillWord(value: u8) returns (w: u64)
    ensures w == Repeated(value, 8)
  {
    w := 0;
    var i := 0;
    WordSize();
    RepeatedBytes(value, 8);
    while i < 8
      invariant 0 <= i <= 8 && w == Repeated(value, i)
    {
      RepeatedGrows(value, i + 1, 8);
      w := (w * 256 + value) % WORD;
      i := i + 1;
    }
  }

  lemma {:induction false} RepeatedGrows(value: u8, m: nat, n: nat)
    requires m <= n
    ensures Repeated(value, m) <= Repeated(value, n)
    decreases n
  {
    if m < n {
      RepeatedGrows(value, m, n - 1);
    }
  }

  function Fill(value: u8, n: nat): (s: seq<u8>)
    ensures |s| == n && forall k :: 0 <= k < n ==> s[k] == value
  {
    seq<u8>(n, k => value)
  }

  lemma FillBytes(value: u8)
    ensures Repeated(value, 8) < WORD && ToBytes(Repeated(value, 8), 8) == Fill(value, 8)
  {
    RepeatedBytes(value, 8);
    WordSize();
  }

  twostate predicate Filled(mem: array<u8>, start: nat, end: nat, value: u8)
    reads mem
  {
    forall k :: 0 <= k < mem.Length ==> mem[k] == if start <= k < end then value else old(mem[k])
  }

  /** Bytes up to the first word boundary. */
  method AlignUp(mem: array<u8>, origin: nat, start: nat, count: nat, value: u8) returns (p: nat, left: nat)
    requires start + count <= mem.Length
    modifies mem
    ensures start <= p && p + left == start + count && (left == 0 || (origin + p) % 8 == 0)
    ensures Filled(mem, start, p, value)
  {
    p, left := start, count;
    while (origin + p) % 8 != 0 && left > 0
      invariant start <= p && p + left == start + count && Filled(mem, start, p, value)
      decreases left
    {
      mem[p] := value;
      p, left := p + 1, left - 1;
    }
  }

  /** Whole words while there is room for one, each at a word boundary. */
  method FillWords(mem: array<u8>, origin: nat, start: nat, count: nat, value: u8) returns (p: nat, left: nat)
    requires start + count <= mem.Length && (count == 0 || (origin + start) % 8 == 0)
    modifies mem
    ensures start <= p && p + left == start + count && left < 8
    ensures Filled(mem, start, p, value)
  {
    p, left := start, count;
    var w := FillWord(value);
    FillBytes(value);
    while left >= 8
      invariant start <= p && p + left == start + count && (left == 0 || (origin + p) % 8 == 0)
      invariant Filled(mem, start, p, value)
    {
      StoreWord(mem, origin, p, w);
      p, left := p + 8, left - 8;
    }
  }

  /** The bytes that remain. */
  method FillTail(mem: array<u8>, start: nat, count: nat, value: u8)
    requires start + count <= mem.Length
    modifies mem
    ensures Filled(mem, start, start + count, value)
  {
    var p: nat, left: nat := start, count;
    while left > 0
      invariant start <= p && p + left == start + count && Filled(mem, start, p, value)
    {
      left := left - 1;
      mem[p] := value;
      p := p + 1;
    }
  }

  /** memset: for every alignment, length and value, the memory a byte-at-a-time fill leaves. */
  method MemSet(mem: array<u8>, origin: nat, s: nat, c: int, n: nat)
    requires s + n <= mem.Length && origin + mem.Length <= WORD
    modifies mem
    ensures mem[..] == if origin + s == 0 then old(mem[..])
                       else old(mem[..s]) + Fill(c % 256, n) + old(mem[s + n..])
  {
    if origin + s == 0 {
      return;
    }
    ghost var was := mem[..];
    var value: u8 := c % 256;
    var p: nat, left: nat := s, n;
    if left >= 8 {
      p, left := AlignUp(mem, origin, p, left, value);
      p, left := FillWords(mem, origin, p, left, value);
    }
    FillTail(mem, p, left, value);
    Spliced(was, mem[..], s, Fill(value, n));
  }
}
