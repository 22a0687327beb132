/** Printing integers (base/convertFormatUtils.h), and the room the log stream keeps for
    it (base/logStream.cc). */
module Digits {
  import opened CInts

  /** The table is symmetric, as the source's remainders of a negative number are. */
  const DIGITS := "9876543210123456789"
  const ZERO: nat := 9
  const DIGITS_HEX := "0123456789ABCDEF"

  const INT64_MIN: int := -0x8000_0000_0000_0000
  const UINT64_MAX: int := 0xffff_ffff_ffff_ffff
  const MAX_NUMERIC_SIZE: nat := 32      // kMaxNumericSize

  // --------------------------------------------------------------- reading numerals

  function DigitValue(c: char): int {
    if '0' <= c <= '9' then c as int - '0' as int
    else if 'A' <= c <= 'F' then c as int - 'A' as int + 10
    else -1
  }

  predicate IsDigit(c: char, base: nat) {
    0 <= DigitValue(c) < base
  }

  /** Reading `s` on, having read `r` before it. */
  function Read(s: string, base: nat, r: int): int {
    if s == [] then r else Read(s[1..], base, r * base + DigitValue(s[0]))
  }

  /** `s` is the numeral of `n`: digits only, none of them a leading zero. */
  predicate Numeral(s: string, base: nat, n: int) {
    && s != [] && (forall i :: 0 <= i < |s| ==> IsDigit(s[i], base))
    && (|s| > 1 ==> s[0] != '0') && Read(s, base, 0) == n
  }

  predicate Printed(s: string, v: int) {
    if v < 0 then s != [] && s[0] == '-' && Numeral(s[1..], 10, -v) else Numeral(s, 10, v)
  }

  function ReadBack(s: string): int {
    if s != [] && s[0] == '-' then -Read(s[1..], 10, 0) else Read(s, 10, 0)
  }

  lemma {:induction false} ReadLast(s: string, c: char, base: nat, r: int)
    ensures Read(s + [c], base, r) == Read(s, base, r) * base + DigitValue(c)
  {
    if s == [] {
    } else {
      assert (s + [c])[1..] == s[1..] + [c];
      ReadLast(s[1..], c, base, r * base + DigitValue(s[0]));
    }
  }

  lemma {:induction false} ReadGrows(s: string, base: nat, r: int)
    requires base > 0 && r >= 0 && forall i :: 0 <= i < |s| ==> IsDigit(s[i], base)
    ensures Read(s, base, r) >= r
  {
    if s != [] {
      assert r * base >= r;
      ReadGrows(s[1..], base, r * base + DigitValue(s[0]));
    }
  }

  /** A numeral's last digit and the rest are its number's remainder and quotient. */
  lemma NumeralSplits(s: string, base: nat, n: int)
    requires Numeral(s, base, n) && base > 0
    ensures n >= 0 && DigitValue(s[|s| - 1]) == n % base
    ensures |s| == 1 <==> n < base
    ensures |s| > 1 ==> Numeral(s[..|s| - 1], base, n / base)
  {
    var front, c := s[..|s| - 1], s[|s| - 1];
    assert s == front + [c];
    ReadLast(front, c, base, 0);
    ReadGrows(front, base, 0);
    if |s| > 1 {
      ReadGrows(front[1..], base, DigitValue(front[0]));
      assert Read(front, base, 0) >= 1;
    }
    DivideBy(Read(front, base, 0), base, DigitValue(c));
  }

  lemma Multiples(x: int, base: int)
    requires base >= 0
    ensures x >= 1 ==> x * base >= base
    ensures x <= -1 ==> x * base <= -base
  {
  }

  lemma DivideBy(q: int, base: nat, d: int)
    requires 0 <= d < base && q >= 0
    ensures (q * base + d) / base == q && (q * base + d) % base == d
    ensures q >= 1 <==> q * base + d >= base
  {
    var n := q * base + d;
    assert (q - n / base) * base == n % base - d;
    Multiples(q - n / base, base);
    Multiples(q, base);
  }

  /** A number has one numeral. */
  lemma {:induction false} OneNumeral(s: string, t: string, base: nat, n: int)
    requires Numeral(s, base, n) && Numeral(t, base, n) && base > 0
    ensures s == t
  {
    NumeralSplits(s, base, n);
    NumeralSplits(t, base, n);
    assert s[|s| - 1] == t[|t| - 1];
    if |s| > 1 {
      OneNumeral(s[..|s| - 1], t[..|t| - 1], base, n / base);
      assert s == s[..|s| - 1] + [s[|s| - 1]] && t == t[..|t| - 1] + [t[|t| - 1]];
    }
  }

  /** What is printed reads back, and nothing else could have been printed. */
  lemma PrintedReadsBack(s: string, v: int, t: string)
    requires Printed(s, v)
    ensures ReadBack(s) == v
    ensures Printed(t, v) ==> t == s
  {
    if v >= 0 {
      assert IsDigit(s[0], 10);
    }
    if Printed(t, v) {
      if v < 0 {
        OneNumeral(s[1..], t[1..], 10, -v);
        assert s == ['-'] + s[1..] && t == ['-'] + t[1..];
      } else {
        OneNumeral(s, t, 10, v);
      }
    }
  }

  // ----------------------------------------------------------------------- printing

  function Reversed(s: string): (r: string)
    ensures |r| == |s|
  {
    if s == [] then [] else Reversed(s[1..]) + [s[0]]
  }

  lemma {:induction false} ReversedAt(s: string, k: nat)
    requires k < |s|
    ensures Reversed(s)[k] == s[|s| - 1 - k]
  {
    if k < |s| - 1 {
      ReversedAt(s[1..], k);
    }
  }

  lemma {:induction false} ReversedSnoc(s: string, c: char)
    ensures Reversed(s + [c]) == [c] + Reversed(s)
  {
    if s != [] {
      assert (s + [c])[1..] == s[1..] + [c];
      ReversedSnoc(s[1..], c);
    }
  }

  /** `std::reverse` of `buf[lo..hi]` */
  method Reverse(buf: array<char>, lo: nat, hi: nat)
    requires lo <= hi <= buf.Length
    modifies buf
    ensures buf[..] == old(buf[..lo]) + Reversed(old(buf[lo..hi])) + old(buf[hi..])
  {
    ghost var was := buf[..];
    forall k | lo <= k < hi {
      buf[k] := buf[lo + hi - 1 - k];
    }
    ghost var reversed := Reversed(was[lo..hi]);
    forall k: nat | k < hi - lo ensures buf[lo + k] == reversed[k] {
      ReversedAt(was[lo..hi], k);
    }
    assert buf[..] == was[..lo] + reversed + was[hi..];
  }

  function Pow(base: nat, k: nat): nat {
    if k == 0 then 1 else base * Pow(base, k - 1)
  }

  function Abs(x: int): nat {
    if x < 0 then -x else x
  }

  /** The digits written so far, least significant first, and what is left to write. */
  predicate Writing(written: string, left: int, value: int, base: nat) {
    && (forall i :: 0 <= i < |written| ==> IsDigit(written[i], base))
    && Read(Reversed(written), base, Abs(left)) == Abs(value)
  }

  lemma TableDigit(lsd: int)
    requires -10 < lsd < 10
    ensures DigitValue(DIGITS[ZERO + lsd]) == Abs(lsd)
    ensures DIGITS[ZERO + lsd] == '0' <==> lsd == 0
  {
  }

  /** Truncation keeps the sign, so that the digits of `-n` are those of `n`. */
  lemma TruncDigit(i: int)
    ensures -10 < TruncMod(i, 10) < 10 && Abs(i) == Abs(TruncDiv(i, 10)) * 10 + Abs(TruncMod(i, 10))
    ensures Abs(TruncDiv(i, 10)) == Abs(i) / 10
  {
  }

  lemma WriteDigit(written: string, i: int, next: int, c: char, value: int, base: nat)
    requires Writing(written, i, value, base) && IsDigit(c, base)
    requires Abs(i) == Abs(next) * base + DigitValue(c)
    ensures Writing(written + [c], next, value, base)
  {
    ReversedSnoc(written, c);
    assert ([c] + Reversed(written))[1..] == Reversed(written);
  }

  lemma Written(written: string, value: int, base: nat)
    requires Writing(written, 0, value, base) && written != []
    requires |written| > 1 ==> written[|written| - 1] != '0'
    ensures Numeral(Reversed(written), base, Abs(value))
  {
    forall k: nat | k < |written| ensures IsDigit(Reversed(written)[k], base) {
      ReversedAt(written, k);
    }
    ReversedAt(written, 0);
  }

  /** 19 digits are enough for a negative value, 20 for any. */
  lemma EnoughRoom(value: int)
    requires INT64_MIN <= value <= UINT64_MAX
    ensures Abs(value) < Pow(10, if value < 0 then 19 else 20)
  {
    assert Pow(10, 10) == 10_000_000_000;
    assert Pow(10, 19) == 10_000_000_000_000_000_000;
  }

  lemma EnoughHexRoom(value: int)
    requires 0 <= value <= UINT64_MAX
    ensures value < Pow(16, 16)
  {
    assert Pow(16, 8) == 0x1_0000_0000;
    assert Pow(16, 16) == 0x1_0000_0000_0000_0000;
  }

  lemma PutChar(front: string, written: string, rest: string, c: char)
    requires rest != []
    ensures (front + written + rest)[|front| + |written| := c] == front + (written + [c]) + rest[1..]
  {
  }

  /** The `do` loop of `convert`, at `buf + at`. */
  method WriteDigits(buf: array<char>, at: nat, value: int) returns (p: nat, ghost written: string)
    requires INT64_MIN <= value <= UINT64_MAX && at + 21 <= buf.Length
    modifies buf
    ensures p == at + |written| && 1 <= |written| <= if value < 0 then 19 else 20
    ensures buf[..] == old(buf[..at]) + written + old(buf[p..])
    ensures Writing(written, 0, value, 10) && (|written| > 1 ==> written[|written| - 1] != '0')
  {
    hide Writing, Pow;
    var i := value;
    p, written := at, [];
    ghost var front, was := buf[..at], buf[..];
    ghost var room := if value < 0 then 19 else 20;
    EnoughRoom(value);
    NothingWritten(value, 10);
    while true
      invariant p == at + |written| && |written| <= room && Abs(i) < Pow(10, room - |written|)
      invariant Writing(written, i, value, 10)
      invariant buf[..] == front + written + was[p..]
      invariant written == [] || i != 0
      decreases Abs(i), room - |written|
    {
      var lsd := TruncMod(i, 10);
      TruncDigit(i);
      TableDigit(lsd);
      PowStep(10, room - |written|, Abs(i));
      WriteDigit(written, i, TruncDiv(i, 10), DIGITS[ZERO + lsd], value, 10);
      PutChar(front, written, was[p..], DIGITS[ZERO + lsd]);
      i := TruncDiv(i, 10);
      buf[p] := DIGITS[ZERO + lsd];
      written := written + [DIGITS[ZERO + lsd]];
      p := p + 1;
      if i == 0 { break; }
    }
  }

  lemma NothingWritten(value: int, base: nat)
    ensures Writing([], value, value, base)
  {
  }

  /** A digit less needs a place less; while something is left there is a place. */
  lemma PowStep(base: nat, places: nat, left: nat)
    requires left < Pow(base, places) && base > 0
    ensures left > 0 ==> places > 0
    ensures places > 0 ==> left / base < Pow(base, places - 1)
  {
    if places > 0 {
      Scales(left / base, Pow(base, places - 1), base);
      assert left == base * (left / base) + left % base;
    }
  }

  lemma Scales(a: int, b: int, c: nat)
    ensures a >= b ==> c * a >= c * b
  {
    if a >= b {
      assert c * (a - b) >= 0;
    }
  }

  lemma TerminatedParts(front: string, written: string, rest: string)
    requires rest != []
    ensures var all := (front + written + rest)[|front| + |written| := '\0'];
            && all[..|front|] == front && all[|front|..|front| + |written|] == written
            && all[|front| + |written|..] == ['\0'] + rest[1..]
  {
  }

  lemma FinishedParts(front: string, text: string, rest: string)
    ensures front + text + (['\0'] + rest) == front + text + ['\0'] + rest
    ensures (front + text + (['\0'] + rest))[|front|..|front| + |text|] == text
  {
  }

  /** The end of both conversions: a NUL after what was written, which is then reversed. */
  method Finish(buf: array<char>, at: nat, p: nat, ghost front: string, ghost written: string, ghost rest: string)
    requires buf[..] == front + written + rest && at == |front| && p == |front| + |written| && rest != []
    modifies buf
    ensures at <= p < buf.Length && buf[at..p] == Reversed(written)
    ensures buf[..] == front + buf[at..p] + ['\0'] + rest[1..]
  {
    TerminatedParts(front, written, rest);
    FinishedParts(front, Reversed(written), rest[1..]);
    buf[p] := '\0';
    ghost var all := buf[..];
    assert buf[..at] == all[..at] && buf[at..p] == all[at..p] && buf[p..] == all[p..];
    Reverse(buf, at, p);
    assert buf[at..p] == buf[..][at..p];
  }

  method PutSign(buf: array<char>, p: nat, ghost front: string, ghost written: string, ghost rest: string)
    requires buf[..] == front + written + rest && p == |front| + |written| && rest != []
    modifies buf
    ensures buf[..] == front + (written + ['-']) + rest[1..]
    ensures Reversed(written + ['-']) == ['-'] + Reversed(written)
  {
    PutChar(front, written, rest, '-');
    ReversedSnoc(written, '-');
    buf[p] := '-';
  }

  /** `convert` at `buf + at`, for a value of any integer type of up to 64 bits: at most
      20 characters and a NUL. */
  method Convert(buf: array<char>, at: nat, value: int) returns (len: nat)
    requires INT64_MIN <= value <= UINT64_MAX && at + 21 <= buf.Length
    modifies buf
    ensures 1 <= len <= 20 && at + len < buf.Length
    ensures Printed(buf[at..at + len], value)
    ensures buf[..] == old(buf[..at]) + buf[at..at + len] + ['\0'] + old(buf[at + len + 1..])
  {
    hide Writing, Reversed, Numeral, Read;
    ghost var front, was := buf[..at], buf[..];
    var p;
    ghost var written;
    p, written := WriteDigits(buf, at, value);
    Written(written, value, 10);
    ghost var digits := Reversed(written);
    if value < 0 {
      PutSign(buf, p, front, written, was[p..]);
      written := written + ['-'];
      p := p + 1;
      assert (['-'] + digits)[1..] == digits;
    }
    Finish(buf, at, p, front, written, was[p..]);
    len := p - at;
  }

  lemma HexDigit(lsd: int)
    requires 0 <= lsd < 16
    ensures DigitValue(DIGITS_HEX[lsd]) == lsd && (DIGITS_HEX[lsd] == '0' <==> lsd == 0)
  {
  }

  /** The `do` loop of `convertHex`, at `buf + at`. */
  method WriteHexDigits(buf: array<char>, at: nat, value: int) returns (p: nat, ghost written: string)
    requires 0 <= value <= UINT64_MAX && at + 17 <= buf.Length
    modifies buf
    ensures p == at + |written| && 1 <= |written| <= 16
    ensures buf[..] == old(buf[..at]) + written + old(buf[p..])
    ensures Writing(written, 0, value, 16) && (|written| > 1 ==> written[|written| - 1] != '0')
  {
    hide Writing, Pow;
    var i := value;
    p, written := at, [];
    ghost var front, was := buf[..at], buf[..];
    EnoughHexRoom(value);
    NothingWritten(value, 16);
    while true
      invariant p == at + |written| && |written| <= 16 && 0 <= i < Pow(16, 16 - |written|)
      invariant Writing(written, i, value, 16)
      invariant buf[..] == front + written + was[p..]
      invariant written == [] || i != 0
      decreases i, 16 - |written|
    {
      var lsd := i % 16;
      HexDigit(lsd);
      PowStep(16, 16 - |written|, i);
      WriteDigit(written, i, i / 16, DIGITS_HEX[lsd], value, 16);
      PutChar(front, written, was[p..], DIGITS_HEX[lsd]);
      i := i / 16;
      buf[p] := DIGITS_HEX[lsd];
      written := written + [DIGITS_HEX[lsd]];
      p := p + 1;
      if i == 0 { break; }
    }
  }

  /** `convertHex` at `buf + at`: at most 16 characters and a NUL. */
  method ConvertHex(buf: array<char>, at: nat, value: int) returns (len: nat)
    requires 0 <= value <= UINT64_MAX && at + 17 <= buf.Length
    modifies buf
    ensures 1 <= len <= 16 && at + len < buf.Length
    ensures Numeral(buf[at..at + len], 16, value)
    ensures buf[..] == old(buf[..at]) + buf[at..at + len] + ['\0'] + old(buf[at + len + 1..])
  {
    hide Writing, Reversed, Numeral, Read;
    ghost var front, was := buf[..at], buf[..];
    var p;
    ghost var written;
    p, written := WriteHexDigits(buf, at, value);
    Written(written, value, 16);
    Finish(buf, at, p, front, written, was[p..]);
    len := p - at;
  }

  /** `LogStream::formatInteger`: the room asked for is always enough, and without it
      nothing is written. */
  method FormatInteger(data: array<char>, curPos: nat, v: int) returns (next: nat)
    requires INT64_MIN <= v <= UINT64_MAX && curPos <= data.Length
    modifies data
    ensures curPos <= next <= data.Length && data[..curPos] == old(data[..curPos])
    ensures if data.Length - curPos >= MAX_NUMERIC_SIZE
            then next < data.Length && Printed(data[curPos..next], v)
            else next == curPos && data[..] == old(data[..])
  {
    next := curPos;
    if data.Length - curPos >= MAX_NUMERIC_SIZE {
      ghost var front := data[..curPos];
      var len := Convert(data, curPos, v);
      assert data[..][..curPos] == front;
      next := curPos + len;
    }
  }
}
