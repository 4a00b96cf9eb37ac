/**
 The number printers: itoa and utoa_hex of dynamic_linker/src/dl_runtime.c, which collect digits in a
 32-byte scratch buffer, and itoa of mini_libc/src/string.c, which reverses its result in place.
 */
module NumberPrinters {
  import opened Words

  const INT64_MIN := -0x8000_0000_0000_0000
  const SCRATCH := 32

  type i64 = n: int | -0x8000_0000_0000_0000 <= n < 0x8000_0000_0000_0000
  type Base = n: int | 2 <= n <= 36 witness 10

  // ---------------------------------------------------------------- digits

  function DigitChar(d: nat): char
    requires d < 36
  {
    if d < 10 then ('0' as int + d) as char else ('a' as int + (d - 10)) as char
  }

  function DigitValue(c: char): int {
    if '0' <= c <= '9' then c as int - '0' as int else c as int - 'a' as int + 10
  }

  /** The digits as the loops produce them, least significant first; none for 0. */
  function LowFirst(v: nat, base: Base): string {
    if v == 0 then "" else [DigitChar(v % base)] + LowFirst(v / base, base)
  }

  function Reversed(s: string): (r: string)
    ensures |r| == |s|
  {
    if s == "" then "" else Reversed(s[1..]) + [s[0]]
  }

  /** The numeral of v: "0", or its digits most significant first. */
  function Numeral(v: nat, base: Base): string { if v == 0 then "0" else Reversed(LowFirst(v, base)) }

  /** Positional value of a numeral. */
  function Parse(s: string, base: Base): int {
    if s == "" then 0 else Parse(s[..|s| - 1], base) * base + DigitValue(s[|s| - 1])
  }

  function ParseSigned(s: string, base: Base): int {
    if s != "" && s[0] == '-' then -Parse(s[1..], base) else Parse(s, base)
  }

  lemma DivMod(v: nat, base: Base)
    ensures v / base * base + v % base == v && 0 <= v % base < base && v / base >= 0
    ensures v > 0 ==> v / base < v
  {
    TwiceAtMost(v / base, base);
  }

  /** One round of a digit loop: the digit is below the base and the rest is smaller. */
  lemma DigitStep(v: nat, base: Base, digits: string, all: string)
    requires v > 0 && all == digits + LowFirst(v, base)
    ensures 0 <= v / base < v && 0 <= v % base < base
    ensures all == (digits + [DigitChar(v % base)]) + LowFirst(v / base, base)
    ensures |digits| < |all|
  {
    DivMod(v, base);
  }

  lemma TwiceAtMost(q: nat, base: nat)
    requires base >= 2
    ensures q * 2 <= q * base
  {
    assert q * (base - 2) >= 0;
  }

  /** The characters printed, in the bases up to 16. */
  lemma DigitCharacters(d: nat)
    requires d < 16
    ensures DigitChar(d) == "0123456789abcdef"[d]
  {
  }

  lemma ParseSnoc(s: string, c: char, base: Base)
    ensures Parse(s + [c], base) == Parse(s, base) * base + DigitValue(c)
  {
    assert (s + [c])[..|s|] == s;
  }

  lemma {:induction false} ParseReversed(v: nat, base: Base)
    ensures Parse(Reversed(LowFirst(v, base)), base) == v
  {
    if v > 0 {
      var q, d := v / base, v % base;
      DivMod(v, base);
      ParseReversed(q, base);
      var low := LowFirst(v, base);
      assert low[1..] == LowFirst(q, base) && low[0] == DigitChar(d);
      ParseSnoc(Reversed(LowFirst(q, base)), DigitChar(d), base);
    }
  }

  /** Positional parsing inverts the numeral. */
  lemma NumeralRoundTrip(v: nat, base: Base)
    ensures Parse(Numeral(v, base), base) == v
  {
    ParseReversed(v, base);
    if v == 0 {
      assert Parse("", base) == 0;
      assert "0"[..0] == "";
    }
  }

  lemma {:induction false} ReversedAt(s: string, k: nat)
    requires k < |s|
    ensures Reversed(s)[k] == s[|s| - 1 - k]
  {
    if k < |s| - 1 {
      ReversedAt(s[1..], k);
    }
  }

  lemma {:induction false} LastDigitNotZero(v: nat, base: Base)
    requires v > 0
    ensures LowFirst(v, base) != "" && LowFirst(v, base)[|LowFirst(v, base)| - 1] != '0'
  {
    DivMod(v, base);
    var q, d := v / base, v % base;
    assert LowFirst(v, base) == [DigitChar(d)] + LowFirst(q, base);
    if q > 0 {
      LastDigitNotZero(q, base);
    }
  }

  /** No numeral but "0" starts with a zero. */
  lemma NoLeadingZero(v: nat, base: Base)
    ensures Numeral(v, base) != "" && (v > 0 ==> Numeral(v, base)[0] != '0')
  {
    if v > 0 {
      LastDigitNotZero(v, base);
      ReversedAt(LowFirst(v, base), 0);
    }
  }

  lemma {:induction false} AllDigits(v: nat, base: Base, k: nat)
    requires k < |LowFirst(v, base)|
    ensures LowFirst(v, base)[k] != '-'
    decreases k
  {
    DivMod(v, base);
    assert LowFirst(v, base) == [DigitChar(v % base)] + LowFirst(v / base, base);
    if k > 0 {
      AllDigits(v / base, base, k - 1);
    }
  }

  function Power(base: Base, n: nat): nat { if n == 0 then 1 else base * Power(base, n - 1) }

  lemma ProductMonotone(p: nat, q: nat, base: nat)
    requires p <= q
    ensures p * base <= q * base
  {
    assert (q - p) * base >= 0;
  }

  lemma QuotientBelow(v: nat, base: Base, p: nat)
    requires v < base * p
    ensures v / base < p
  {
    DivMod(v, base);
    if p <= v / base {
      ProductMonotone(p, v / base, base);
    }
  }

  lemma {:induction false} FewDigits(v: nat, base: Base, n: nat)
    requires v < Power(base, n)
    ensures |LowFirst(v, base)| <= n
    decreases n
  {
    if v > 0 {
      DivMod(v, base);
      QuotientBelow(v, base, Power(base, n - 1));
      FewDigits(v / base, base, n - 1);
    }
  }

  lemma {:induction false} PowerGrows(base: Base, n: nat)
    requires base >= 4
    ensures Power(base, n) >= Power(4, n)
  {
    if n > 0 {
      PowerGrows(base, n - 1);
      ProductGrows(base, Power(base, n - 1), Power(4, n - 1));
    }
  }

  lemma ProductGrows(base: nat, x: nat, y: nat)
    requires base >= 4 && x >= y
    ensures base * x >= 4 * y
  {
    assert (base - 4) * x >= 0;
  }

  /** In base 4 and above every 64-bit value fits the scratch buffer. */
  lemma FitsScratch(v: u64, base: Base)
    requires base >= 4
    ensures |LowFirst(v, base)| <= SCRATCH
  {
    assert Power(4, 8) == 0x1_0000;
    assert Power(4, 16) == 0x1_0000_0000;
    assert Power(4, 24) == 0x1_0000_0000_0000;
    assert Power(4, 32) == WORD;
    PowerGrows(base, 32);
    FewDigits(v, base, 32);
  }

  lemma {:induction false} ManyDigits(v: nat, base: Base, n: nat)
    requires v >= Power(base, n)
    ensures |LowFirst(v, base)| > n
    decreases n
  {
    DivMod(v, base);
    if n == 0 {
      assert |LowFirst(v, base)| == 1 + |LowFirst(v / base, base)|;
    } else {
      var p := Power(base, n - 1);
      if v / base < p {
        ProductMonotone(v / base + 1, p, base);
      }
      ManyDigits(v / base, base, n - 1);
    }
  }

  /** The digits of every 64-bit value fit the scratch buffer exactly in base 4 and above. */
  lemma ScratchSuffices(base: Base)
    ensures (forall v: u64 :: |LowFirst(v, base)| <= 32) <==> base >= 4
    ensures SCRATCH == 32
  {
    if base >= 4 {
      forall v: u64 ensures |LowFirst(v, base)| <= SCRATCH {
        FitsScratch(v, base);
      }
    } else {
      SmallPowers(base);
      ManyDigits(Power(base, SCRATCH), base, SCRATCH);
    }
  }

  lemma SmallPowers(base: Base)
    requires base < 4
    ensures Power(base, SCRATCH) < WORD
  {
    if base == 2 {
      assert Power(2, 8) == 0x100;
      assert Power(2, 16) == 0x1_0000;
      assert Power(2, 24) == 0x100_0000;
      assert Power(2, 32) == 0x1_0000_0000;
    } else {
      assert Power(3, 8) == 6561;
      assert Power(3, 16) == 43046721;
      assert Power(3, 24) == 282429536481;
      assert Power(3, 32) == 1853020188851841;
    }
  }

  // ---------------------------------------------------------------- dl_runtime.c

  /** value = -value in 64 bits: the least value stays as it is. */
  function Negated(v: i64): i64 { if v == INT64_MIN then v else -v }

  /** What the dynamic linker's itoa prints. */
  function Printed(value: i64, base: Base): string {
    if value < 0 && base == 10 then "-" + (if value == INT64_MIN then "" else Numeral(-value, base))
    else if value < 0 then ""
    else Numeral(value, base)
  }

  /** Negative values in other bases than 10 print nothing. */
  lemma NegativePrintsNothing(value: i64, base: Base)
    ensures Printed(value, base) == "" <==> value < 0 && base != 10
  {
    if value >= 0 {
      NoLeadingZero(value, base);
    }
  }

  /** Base 10 is inverted by parsing for every value but the least. */
  lemma PrintedRoundTrip(value: i64)
    ensures ParseSigned(Printed(value, 10), 10) == value <==> value != INT64_MIN
  {
    if value == INT64_MIN {
      assert Printed(value, 10) == "-";
    } else if value < 0 {
      NumeralRoundTrip(-value, 10);
      assert Printed(value, 10)[1..] == Numeral(-value, 10);
    } else {
      NumeralRoundTrip(value, 10);
      NoMinus(value, 10);
    }
  }

  lemma NoMinus(v: nat, base: Base)
    ensures Numeral(v, base) != "" && Numeral(v, base)[0] != '-'
  {
    NoLeadingZero(v, base);
    if v > 0 {
      AllDigits(v, base, |LowFirst(v, base)| - 1);
      ReversedAt(LowFirst(v, base), 0);
    }
  }

  /** buf holds the string from its start, then a NUL; the rest of it is as it was. */
  twostate predicate Holds(buf: array<char>, s: string)
    reads buf
  {
    && |s| < buf.Length
    && buf[..|s|] == s && buf[|s|] == '\0'
    && SameFrom(buf, |s| + 1)
  }

  twostate predicate SameFrom(buf: array<char>, from: nat)
    reads buf
  {
    forall k :: from <= k < buf.Length ==> buf[k] == old(buf[k])
  }

  /** The remainder and quotient of one round of a digit loop. */
  method NextDigit(v: nat, base: Base, ghost digits: string, ghost all: string) returns (digit: nat, rest: nat)
    requires v > 0 && all == digits + LowFirst(v, base)
    ensures digit < base && rest < v && |digits| < |all|
    ensures all == (digits + [DigitChar(digit)]) + LowFirst(rest, base)
  {
    DigitStep(v, base, digits, all);
    digit := v % base;
    rest := v / base;
  }

  /** The digit loop shared by itoa and utoa_hex: into the scratch buffer, least significant first. */
  method CollectDigits(v: u64, base: Base, temp: array<char>) returns (i: nat)
    requires |LowFirst(v, base)| <= SCRATCH == temp.Length
    modifies temp
    ensures i <= SCRATCH && temp[..i] == LowFirst(v, base)
  {
    i := 0;
    var value: nat := v;
    while value > 0
      invariant i <= SCRATCH && LowFirst(v, base) == temp[..i] + LowFirst(value, base)
      decreases value
    {
      ghost var before := temp[..i];
      var digit, rest := NextDigit(value, base, before, LowFirst(v, base));
      temp[i] := DigitChar(digit);
      i := i + 1;
      assert temp[..i] == before + [DigitChar(digit)];
      value := rest;
    }
  }

  /** The loop that copies the scratch digits out, last first, and the NUL after it. */
  method EmitDigits(temp: array<char>, count: nat, buf: array<char>, start: nat)
    requires count <= temp.Length && start + count < buf.Length && temp != buf
    modifies buf
    ensures buf[..start + count] == old(buf[..start]) + Reversed(temp[..count])
    ensures buf[start + count] == '\0' && SameFrom(buf, start + count + 1)
  {
    var i, p := count, start;
    while i > 0
      invariant 0 <= i <= count && p == start + (count - i)
      invariant forall k :: start <= k < p ==> buf[k] == temp[count - 1 - (k - start)]
      invariant buf[..start] == old(buf[..start]) && SameFrom(buf, p)
    {
      i := i - 1;
      buf[p] := temp[i];
      p := p + 1;
    }
    forall k | 0 <= k < count ensures buf[start..p][k] == Reversed(temp[..count])[k] {
      ReversedAt(temp[..count], k);
    }
    assert buf[start..p] == Reversed(temp[..count]);
    buf[p] := '\0';
    assert buf[..p] == buf[..start] + buf[start..p];
  }

  /** The digits itoa collects fit its scratch buffer: always in base 4 and above. */
  predicate DigitsFit(value: i64, base: Base) {
    var v := if value < 0 && base == 10 then Negated(value) else value;
    v > 0 ==> |LowFirst(v, base)| <= SCRATCH
  }

  lemma DigitsAlwaysFit(value: i64, base: Base)
    requires base >= 4
    ensures DigitsFit(value, base)
  {
    var v := if value < 0 && base == 10 then Negated(value) else value;
    if v > 0 {
      FitsScratch(v, base);
    }
  }

  /** itoa */
  method Itoa(value: i64, buf: array<char>, base: Base)
    requires DigitsFit(value, base) && buf.Length > |Printed(value, base)|
    modifies buf
    ensures Holds(buf, Printed(value, base))
  {
    var p := 0;
    var negative := false;
    var v := value;
    if v < 0 && base == 10 {
      negative := true;
      v := Negated(v);
    }
    if v == 0 {
      buf[0] := '0';
      buf[1] := '\0';
      return;
    }
    var temp := new char[SCRATCH];
    var i := 0;
    if v > 0 {
      i := CollectDigits(v, base, temp);
    }
    assert Reversed(temp[..i]) == if v > 0 then Numeral(v, base) else "";
    if negative {
      buf[p] := '-';
      p := p + 1;
      assert buf[..p] == "-";
    }
    EmitDigits(temp, i, buf, p);
  }

  /** utoa_hex */
  method UtoaHex(value: u64, buf: array<char>)
    requires buf.Length > |Numeral(value, 16)|
    modifies buf
    ensures Holds(buf, Numeral(value, 16))
  {
    if value == 0 {
      buf[0] := '0';
      buf[1] := '\0';
      return;
    }
    var temp := new char[SCRATCH];
    FitsScratch(value, 16);
    var i := CollectDigits(value, 16, temp);
    EmitDigits(temp, i, buf, 0);
  }

  /** A hexadecimal numeral of a 64-bit value has at most 16 digits. */
  lemma HexLength(value: u64)
    ensures |Numeral(value, 16)| <= 16
  {
    assert Power(16, 4) == 0x1_0000;
    assert Power(16, 8) == 0x1_0000_0000;
    assert Power(16, 12) == 0x1_0000_0000_0000;
    assert Power(16, 16) == WORD;
    FewDigits(value, 16, 16);
  }

  // ---------------------------------------------------------------- mini_libc string.c

  /** What mini_libc's itoa prints: the magnitude is the unsigned reading of num, never negated. */
  function MiniPrinted(num: i64, radix: Base, signed: bool): string {
    (if signed && num < 0 then "-" else "") + Numeral(num % WORD, radix)
  }

  /** Unsigned printing is inverted by parsing for every value and radix, and its hexadecimal string is
      utoa_hex's. */
  lemma MiniUnsigned(num: i64, radix: Base)
    ensures Parse(MiniPrinted(num, radix, false), radix) == num % WORD
    ensures MiniPrinted(num, 16, false) == Numeral(num % WORD, 16)
  {
    NumeralRoundTrip(num % WORD, radix);
    assert MiniPrinted(num, radix, false) == Numeral(num % WORD, radix);
    assert MiniPrinted(num, 16, false) == Numeral(num % WORD, 16);
  }

  /** Signed printing is right exactly for the non-negative values and, by accident, the least one. */
  lemma MiniSigned(num: i64, radix: Base)
    ensures ParseSigned(MiniPrinted(num, radix, true), radix) == num <==> num >= 0 || num == INT64_MIN
  {
    var magnitude := num % WORD;
    UnsignedReading(num);
    NumeralRoundTrip(magnitude, radix);
    NoMinus(magnitude, radix);
    if num < 0 {
      assert MiniPrinted(num, radix, true)[1..] == Numeral(magnitude, radix);
      assert ParseSigned(MiniPrinted(num, radix, true), radix) == -magnitude;
    } else {
      assert MiniPrinted(num, radix, true) == Numeral(magnitude, radix);
    }
  }

  lemma UnsignedReading(num: i64)
    ensures num % WORD == if num < 0 then num + WORD else num
  {
  }

  /** The in-place reversal of the first i characters. */
  method ReverseInPlace(str: array<char>, i: nat)
    requires i <= str.Length
    modifies str
    ensures str[..i] == Reversed(old(str[..i])) && SameFrom(str, i)
  {
    ghost var was := str[..];
    var j := 0;
    while j < i / 2
      invariant 0 <= j <= i / 2
      invariant forall k :: 0 <= k < j ==> str[k] == was[i - 1 - k] && str[i - 1 - k] == was[k]
      invariant forall k :: j <= k < i - j || i <= k < str.Length ==> str[k] == was[k]
    {
      var temp := str[j];
      str[j] := str[i - 1 - j];
      str[i - 1 - j] := temp;
      j := j + 1;
    }
    forall k | 0 <= k < i ensures str[..i][k] == Reversed(was[..i])[k] {
      ReversedAt(was[..i], k);
      assert was[..i][i - 1 - k] == was[i - 1 - k];
      if k >= i - j {
        assert str[i - 1 - (i - 1 - k)] == was[i - 1 - k];
      }
    }
    assert was[..i] == old(str[..i]);
  }

  /** The digit loop of mini_libc's itoa, straight into the result buffer. */
  method MiniDigits(u: u64, str: array<char>, radix: Base) returns (i: nat)
    requires radix <= 16 && |LowFirst(u, radix)| <= str.Length
    modifies str
    ensures i == |LowFirst(u, radix)| && str[..i] == LowFirst(u, radix) && SameFrom(str, i)
  {
    i := 0;
    var v: nat := u;
    while v != 0
      invariant i <= |LowFirst(u, radix)| && LowFirst(u, radix) == str[..i] + LowFirst(v, radix)
      invariant SameFrom(str, i)
      decreases v
    {
      ghost var before := str[..i];
      var rem, rest := NextDigit(v, radix, before, LowFirst(u, radix));
      str[i] := if rem > 9 then (rem - 10 + 'a' as int) as char else (rem + '0' as int) as char;
      i := i + 1;
      assert str[..i] == before + [DigitChar(rem)];
      v := rest;
    }
  }

  /** itoa: false for a radix outside 2..16, with nothing written. */
  method MiniItoa(num: i64, str: array<char>, radix: int, signed: bool) returns (ok: bool)
    requires 2 <= radix <= 16 ==> str.Length > |MiniPrinted(num, radix, signed)|
    modifies str
    ensures ok <==> 2 <= radix <= 16
    ensures !ok ==> str[..] == old(str[..])
    ensures ok ==> Holds(str, MiniPrinted(num, radix, signed))
  {
    var sign := if signed && num < 0 then -1 else 1;
    var u := num % WORD;
    if radix < 2 || radix > 16 {
      return false;
    }
    if u == 0 {
      str[0] := '0';
      str[1] := '\0';
      return true;
    }
    var i := MiniDigits(u, str, radix);
    if sign == -1 {
      Append(str, i, '-');
      i := i + 1;
    }
    FinishMini(str, i, LowFirst(u, radix), sign == -1);
    return true;
  }

  /** str[i++] = c */
  method Append(str: array<char>, i: nat, c: char)
    requires i < str.Length
    modifies str
    ensures str[..i + 1] == old(str[..i]) + [c] && SameFrom(str, i + 1)
  {
    str[i] := c;
  }

  /** The end of mini_libc's itoa: the reversal, then the NUL. */
  method FinishMini(str: array<char>, i: nat, ghost low: string, ghost minus: bool)
    requires i < str.Length && str[..i] == low + (if minus then "-" else "")
    modifies str
    ensures str[..i] == (if minus then "-" else "") + Reversed(low)
    ensures str[i] == '\0' && SameFrom(str, i + 1)
  {
    ReversedSnoc(low, '-');
    assert str[..i] == if minus then low + ['-'] else low;
    ReverseInPlace(str, i);
    str[i] := '\0';
  }

  lemma {:induction false} ReversedSnoc(s: string, c: char)
    ensures Reversed(s + [c]) == [c] + Reversed(s)
  {
    if s == "" {
      assert ([c])[1..] == "";
      assert s + [c] == [c];
    } else {
      assert (s + [c])[1..] == s[1..] + [c];
      ReversedSnoc(s[1..], c);
    }
  }
}
