/** C strings and the decimal and hexadecimal renderings that `printf`, `atoi`, `inet_ntop` and
    `inet_pton` work with. */
module Text {
  import opened Words

  /** Index of the first `c` in `s`, or the length of `s` when there is none. */
  function IndexOf(s: string, c: char): (i: nat)
    ensures i <= |s| && c !in s[..i]
    ensures i < |s| ==> s[i] == c
  {
    if s == [] || s[0] == c then 0 else 1 + IndexOf(s[1..], c)
  }

  lemma {:induction false} IndexOfIs(s: string, c: char, i: nat)
    requires i <= |s| && c !in s[..i] && (i < |s| ==> s[i] == c)
    ensures IndexOf(s, c) == i
    decreases i
  {
    if i > 0 {
      assert s[0] == s[..i][0];
      assert s[1..][..i - 1] == s[..i][1..];
      IndexOfIs(s[1..], c, i - 1);
    }
  }

  lemma IndexOfSkips(u: string, c: char, v: string)
    requires c !in u
    ensures IndexOf(u + [c] + v, c) == |u|
  {
    assert (u + [c] + v)[..|u|] == u;
    IndexOfIs(u + [c] + v, c, |u|);
  }

  lemma IndexOfAbsent(s: string, c: char)
    requires c !in s
    ensures IndexOf(s, c) == |s|
  {
  }

  /** What C sees in a buffer: the characters before the first NUL. */
  function CString(buffer: string): string {
    buffer[..IndexOf(buffer, '\0')]
  }

  lemma CStringOf(buffer: string, s: string)
    requires '\0' !in s && |s| < |buffer| && buffer[..|s|] == s && buffer[|s|] == '\0'
    ensures CString(buffer) == s
  {
    IndexOfIs(buffer, '\0', |s|);
  }

  /** A NUL at `n` hides whatever follows it. */
  lemma CStringBefore(buffer: string, n: nat)
    requires n < |buffer| && buffer[n] == '\0'
    ensures CString(buffer) == CString(buffer[..n])
    ensures |CString(buffer)| <= n && '\0' !in CString(buffer)
  {
    var i := IndexOf(buffer[..n], '\0');
    assert buffer[..n][..i] == buffer[..i];
    IndexOfIs(buffer, '\0', i);
  }

  predicate IsDigit(c: char) { '0' <= c <= '9' }

  function DigitChar(d: nat): (c: char)
    requires d < 10
    ensures IsDigit(c) && DigitValue(c) == d
  {
    '0' + d as char
  }

  function DigitValue(c: char): (d: nat)
    requires IsDigit(c)
    ensures d < 10
  {
    c as int - '0' as int
  }

  predicate AllDigits(s: string) { forall i :: 0 <= i < |s| ==> IsDigit(s[i]) }

  /** `n` in decimal without leading zeros. */
  function Decimal(n: nat): (s: string)
    ensures |s| > 0 && AllDigits(s)
  {
    if n < 10 then [DigitChar(n)] else Decimal(n / 10) + [DigitChar(n % 10)]
  }

  /** `%d`: a minus sign where needed, then the magnitude. */
  function DecimalInt(n: int): string {
    if n < 0 then "-" + Decimal(-n) else Decimal(n)
  }

  function Pow10(k: nat): nat {
    if k == 0 then 1 else 10 * Pow10(k - 1)
  }

  /** A number below `10^k` has at most `k` digits. */
  lemma {:induction false} DecimalLength(n: nat, k: nat)
    requires k > 0 && n < Pow10(k)
    ensures |Decimal(n)| <= k
  {
    if n >= 10 { DecimalLength(n / 10, k - 1); }
  }

  lemma Pow10Values()
    ensures Pow10(3) == 1000 && Pow10(10) == 10_000_000_000
  {
    assert Pow10(3) == 1000;
    assert Pow10(5) == 100 * Pow10(3);
    assert Pow10(7) == 100 * Pow10(5);
    assert Pow10(9) == 100 * Pow10(7);
  }

  /** `%d` of a C `int` takes at most eleven characters. */
  lemma DecimalIntLength(n: int32)
    ensures |DecimalInt(n)| <= 11
  {
    var m: int := n;
    Pow10Values();
    DecimalLength(if m < 0 then -m else m, 10);
  }

  /** The number spelled by the digits that start `s`, after `acc` was already read. */
  function DigitsValue(s: string, acc: nat): nat {
    if s == [] || !IsDigit(s[0]) then acc else DigitsValue(s[1..], 10 * acc + DigitValue(s[0]))
  }

  lemma {:induction false} DigitsValueThen(u: string, v: string, acc: nat)
    requires AllDigits(u)
    ensures DigitsValue(u + v, acc) == DigitsValue(v, DigitsValue(u, acc))
    decreases |u|
  {
    if u == [] {
      assert u + v == v;
    } else {
      assert (u + v)[1..] == u[1..] + v && IsDigit(u[0]);
      DigitsValueThen(u[1..], v, 10 * acc + DigitValue(u[0]));
    }
  }

  lemma {:induction false} DecimalValue(n: nat)
    ensures DigitsValue(Decimal(n), 0) == n
  {
    var d := [DigitChar(n % 10)];
    if n < 10 {
      assert Decimal(n) == d && d[1..] == [];
      assert DigitsValue(d[1..], n) == n;
    } else {
      DecimalValue(n / 10);
      DigitsValueThen(Decimal(n / 10), d, 0);
      assert DigitsValue(d[1..], n) == n;
    }
  }

  predicate IsSpace(c: char) {
    c == ' ' || c == '\t' || c == '\n' || c == '\r' || c == 11 as char || c == 12 as char
  }

  function SkipSpace(s: string): string {
    if s != [] && IsSpace(s[0]) then SkipSpace(s[1..]) else s
  }

  /** The low 32 bits of `x`, as a C `int`. */
  function LowBits(x: int): int32
    decreases if x < -0x8000_0000 then -x else if x >= 0x8000_0000 then x else 0
  {
    if x >= 0x8000_0000 then LowBits(x - 0x1_0000_0000)
    else if x < -0x8000_0000 then LowBits(x + 0x1_0000_0000)
    else x
  }

  /** `atoi` on a 64-bit machine: `strtol` stops at the ends of `long`, then the low 32 bits are
      kept. */
  function Atoi(s: string): int32 {
    var t := SkipSpace(s);
    var negative := t != [] && t[0] == '-';
    var digits := if t != [] && (t[0] == '-' || t[0] == '+') then t[1..] else t;
    var n: int := DigitsValue(digits, 0);
    LowBits(if negative then Max(-n, -0x8000_0000_0000_0000) else Min(n, 0x7fff_ffff_ffff_ffff))
  }

  /** Keeping the low bits changes a number by a multiple of 2^32 only. */
  lemma {:induction false} LowBitsIsCongruent(x: int)
    ensures (LowBits(x) - x) % 0x1_0000_0000 == 0
    decreases if x < -0x8000_0000 then -x else if x >= 0x8000_0000 then x else 0
  {
    if x >= 0x8000_0000 {
      LowBitsIsCongruent(x - 0x1_0000_0000);
    } else if x < -0x8000_0000 {
      LowBitsIsCongruent(x + 0x1_0000_0000);
    }
  }

  /** `atoi` reads blanks, an optional sign and digits, up to the first character that is none; within
      `long` the result is that number modulo 2^32. */
  lemma AtoiReads(blanks: string, sign: string, digits: string, rest: string)
    requires forall i :: 0 <= i < |blanks| ==> IsSpace(blanks[i])
    requires sign in {"", "+", "-"} && AllDigits(digits) && digits != [] && (rest != [] ==> !IsDigit(rest[0]))
    ensures var n: int := DigitsValue(digits, 0);
      n < 0x8000_0000_0000_0000 ==>
        (Atoi(blanks + sign + digits + rest) - (if sign == "-" then -n else n)) % 0x1_0000_0000 == 0
  {
    hide LowBits, DigitsValue;
    var t := sign + digits + rest;
    assert blanks + sign + digits + rest == blanks + t;
    SkipSpaceStops(blanks, t);
    DigitsValueThen(digits, rest, 0);
    var n: int := DigitsValue(digits, 0);
    StopsAt(rest, n);
    assert t[|sign|..] == digits + rest;
    LowBitsIsCongruent(if sign == "-" then -n else n);
  }

  lemma StopsAt(rest: string, acc: nat)
    requires rest != [] ==> !IsDigit(rest[0])
    ensures DigitsValue(rest, acc) == acc
  {
  }

  lemma {:induction false} SkipSpaceStops(blanks: string, t: string)
    requires forall i :: 0 <= i < |blanks| ==> IsSpace(blanks[i])
    requires t != [] && !IsSpace(t[0])
    ensures SkipSpace(blanks + t) == t
    decreases |blanks|
  {
    if blanks == [] {
      assert blanks + t == t;
    } else {
      assert (blanks + t)[1..] == blanks[1..] + t;
      SkipSpaceStops(blanks[1..], t);
    }
  }

  function Min(x: int, y: int): int { if x < y then x else y }

  function Max(x: int, y: int): int { if x < y then y else x }

  /** `atoi` reads back every C `int` that `%d` prints. */
  lemma AtoiOfDecimal(n: int32)
    ensures Atoi(DecimalInt(n)) == n
  {
    var s, m: int := DecimalInt(n), n;
    assert SkipSpace(s) == s;
    if m < 0 {
      assert s[1..] == Decimal(-m);
      DecimalValue(-m);
    } else {
      assert IsDigit(s[0]);
      DecimalValue(n);
    }
  }

  function HexChar(d: nat): (c: char)
    requires d < 16
  {
    "0123456789abcdef"[d]
  }

  /** The low `n` hexadecimal digits of `x`, as `%08x` prints a word with `n == 8`. */
  function Hex(x: nat, n: nat): (s: string)
    ensures |s| == n
  {
    if n == 0 then [] else Hex(x / 16, n - 1) + [HexChar(x % 16)]
  }

  predicate IsHexDigit(c: char) { IsDigit(c) || 'a' <= c <= 'f' }

  predicate AllHexDigits(s: string) { forall i :: 0 <= i < |s| ==> IsHexDigit(s[i]) }

  function HexDigitValue(c: char): nat
    requires IsHexDigit(c)
  {
    if IsDigit(c) then DigitValue(c) else 10 + (c as int - 'a' as int)
  }

  /** The number spelled by hexadecimal digits, most significant first. */
  function HexNumber(s: string, acc: nat): nat
    requires AllHexDigits(s)
  {
    if s == [] then acc else HexNumber(s[1..], 16 * acc + HexDigitValue(s[0]))
  }

  lemma {:induction false} HexNumberThen(u: string, c: char, acc: nat)
    requires AllHexDigits(u) && IsHexDigit(c)
    ensures HexNumber(u + [c], acc) == 16 * HexNumber(u, acc) + HexDigitValue(c)
    decreases |u|
  {
    if u == [] {
      assert [c][1..] == [];
      assert u + [c] == [c];
    } else {
      assert (u + [c])[1..] == u[1..] + [c] && (u + [c])[0] == u[0];
      HexNumberThen(u[1..], c, 16 * acc + HexDigitValue(u[0]));
    }
  }

  /** The digits of `Hex`, read most significant first, spell the number. */
  lemma {:induction false} HexReadsBack(x: nat, n: nat)
    requires x < Pow2(4 * n)
    ensures AllHexDigits(Hex(x, n)) && HexNumber(Hex(x, n), 0) == x
    decreases n
  {
    if n > 0 {
      Pow2Steps(4 * (n - 1));
      HexReadsBack(x / 16, n - 1);
      HexNumberThen(Hex(x / 16, n - 1), HexChar(x % 16), 0);
    }
  }

  lemma HexOneToOne(x: nat, y: nat, n: nat)
    requires x < Pow2(4 * n) && y < Pow2(4 * n) && Hex(x, n) == Hex(y, n)
    ensures x == y
  {
    HexReadsBack(x, n);
    HexReadsBack(y, n);
  }
}
