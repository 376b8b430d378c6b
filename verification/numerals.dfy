/** Rendering and parsing of numbers as text: the lower-case hexadecimal
    fields of the sector dump and the decimal conversion `strtoul` performs. */
module Numerals {
  import opened Base

  const HexAlphabet: string := "0123456789abcdef"

  function HexDigit(v: nat): (c: char)
    requires v < 16
  {
    HexAlphabet[v]
  }

  /** The value of a lower-case hexadecimal digit. */
  function HexValue(c: char): (v: Option<nat>)
    ensures v.Some? ==> v.value < 16
  {
    if '0' <= c <= '9' then Some(c as int - '0' as int)
    else if 'a' <= c <= 'f' then Some(c as int - 'a' as int + 10)
    else None
  }

  lemma HexDigitRoundTrip(v: nat)
    requires v < 16
    ensures HexValue(HexDigit(v)) == Some(v)
  {
  }

  /** A byte as exactly two hexadecimal digits (`%02x`). */
  function Hex2(b: byte): (s: string)
    ensures |s| == 2
  {
    [HexDigit(b / 16), HexDigit(b % 16)]
  }

  /** Reads back a two-digit hexadecimal field. */
  function ParseHex2(s: string): (r: Option<byte>)
    requires |s| == 2
  {
    match (HexValue(s[0]), HexValue(s[1]))
    case (Some(h), Some(l)) => Some(h * 16 + l)
    case _ => None
  }

  lemma Hex2RoundTrip(b: byte)
    ensures ParseHex2(Hex2(b)) == Some(b)
  {
    HexDigitRoundTrip(b / 16);
    HexDigitRoundTrip(b % 16);
  }

  /** A value below 0x1000 as exactly three hexadecimal digits (`%03x`). */
  function Hex3(n: nat): (s: string)
    requires n < 0x1000
    ensures |s| == 3
  {
    [HexDigit(n / 256), HexDigit(n / 16 % 16), HexDigit(n % 16)]
  }

  function ParseHex3(s: string): (r: Option<nat>)
    requires |s| == 3
  {
    match (HexValue(s[0]), HexValue(s[1]), HexValue(s[2]))
    case (Some(a), Some(b), Some(c)) => Some(a * 256 + b * 16 + c)
    case _ => None
  }

  lemma Hex3RoundTrip(n: nat)
    requires n < 0x1000
    ensures ParseHex3(Hex3(n)) == Some(n)
  {
    HexDigitRoundTrip(n / 256);
    HexDigitRoundTrip(n / 16 % 16);
    HexDigitRoundTrip(n % 16);
    var q := n / 16;
    assert n == q * 16 + n % 16;
    assert q == q / 16 * 16 + q % 16;
    assert n / 256 == q / 16;
  }

  predicate IsDigit(c: char)
  {
    '0' <= c <= '9'
  }

  /** The characters C's `isspace` accepts. */
  predicate IsSpace(c: char)
  {
    c == ' ' || c == '\t' || c == '\n' || c == 11 as char || c == 12 as char || c == '\r'
  }

  /** The value of a string of decimal digits, most significant first. */
  function DigitsValue(s: string): nat
    requires forall k :: 0 <= k < |s| ==> IsDigit(s[k])
  {
    if s == [] then 0
    else DigitsValue(s[..|s| - 1]) * 10 + DigitValue(s[|s| - 1])
  }

  function DigitValue(c: char): (v: nat)
    requires IsDigit(c)
    ensures v < 10
  {
    c as int - '0' as int
  }

  /** The shortest decimal rendering of a natural number. */
  function Decimal(n: nat): (s: string)
    ensures |s| >= 1
    ensures forall k :: 0 <= k < |s| ==> IsDigit(s[k])
  {
    var d := ['0' + (n % 10) as char];
    if n < 10 then d else Decimal(n / 10) + d
  }

  lemma {:induction false} DecimalRoundTrip(n: nat)
    ensures DigitsValue(Decimal(n)) == n
  {
    var s := Decimal(n);
    if n >= 10 {
      DecimalRoundTrip(n / 10);
      assert s[..|s| - 1] == Decimal(n / 10);
    }
  }

  /** The longest prefix of `s` made of decimal digits. */
  function LeadingDigits(s: string): (d: string)
    ensures d <= s
    ensures forall k :: 0 <= k < |d| ==> IsDigit(d[k])
    ensures |d| < |s| ==> !IsDigit(s[|d|])
  {
    if s != [] && IsDigit(s[0]) then [s[0]] + LeadingDigits(s[1..]) else []
  }

  /** What is left of `s` once its leading white space is skipped. */
  function SkipSpace(s: string): (t: string)
    ensures |t| <= |s|
    ensures t != [] ==> !IsSpace(t[0])
  {
    if s != [] && IsSpace(s[0]) then SkipSpace(s[1..]) else s
  }

  /** `SkipSpace` leaves a suffix, and everything it drops is white space. */
  lemma {:induction false} SkipSpaceDrops(s: string)
    ensures SkipSpace(s) == s[|s| - |SkipSpace(s)|..]
    ensures forall k :: 0 <= k < |s| - |SkipSpace(s)| ==> IsSpace(s[k])
  {
    if s != [] && IsSpace(s[0]) {
      SkipSpaceDrops(s[1..]);
      assert s[1..][|s| - 1 - |SkipSpace(s)|..] == s[|s| - |SkipSpace(s)|..];
      forall k | 1 <= k < |s| - |SkipSpace(s)|
        ensures IsSpace(s[k])
      {
        assert s[k] == s[1..][k - 1];
      }
    }
  }

  const MaxU32: u32 := 0xFFFF_FFFF

  /** `strtoul(s, NULL, 10)` with a 32-bit `unsigned long`: leading white space
      is skipped, one optional sign is accepted, the longest run of digits is
      converted, a value too large for 32 bits saturates to the maximum, a minus
      sign negates modulo 2^32, and no digits at all gives 0. */
  function Strtoul(s: string): (r: u32)
  {
    var t := SkipSpace(s);
    var negative := t != [] && t[0] == '-';
    var u := if t != [] && (t[0] == '-' || t[0] == '+') then t[1..] else t;
    var d := LeadingDigits(u);
    if d == [] then 0
    else if DigitsValue(d) > MaxU32 then MaxU32
    else if negative then Wrap32(WordModulus - DigitsValue(d))
    else DigitsValue(d)
  }

  lemma {:induction false} LeadingDigitsOfDecimal(d: string, rest: string)
    requires forall k :: 0 <= k < |d| ==> IsDigit(d[k])
    requires rest == [] || !IsDigit(rest[0])
    ensures LeadingDigits(d + rest) == d
  {
    if d == [] {
      assert d + rest == rest;
    } else {
      assert (d + rest)[1..] == d[1..] + rest;
      LeadingDigitsOfDecimal(d[1..], rest);
    }
  }

  /** Parsing the decimal rendering of a 32-bit value, after any run of
      blanks and before any non-digit text, yields that value. */
  lemma StrtoulRoundTrip(blanks: string, n: u32, rest: string)
    requires forall k :: 0 <= k < |blanks| ==> blanks[k] == ' '
    requires rest == [] || !IsDigit(rest[0])
    ensures Strtoul(blanks + Decimal(n) + rest) == n
  {
    var digits := Decimal(n);
    var t := digits + rest;
    assert blanks + digits + rest == blanks + t;
    assert t[0] == digits[0];
    SkipBlanks(blanks, t);
    LeadingDigitsOfDecimal(digits, rest);
    DecimalRoundTrip(n);
  }

  lemma {:induction false} SkipBlanks(blanks: string, t: string)
    requires forall k :: 0 <= k < |blanks| ==> blanks[k] == ' '
    requires t != [] && !IsSpace(t[0])
    ensures SkipSpace(blanks + t) == t
  {
    if blanks != [] {
      var s := blanks + t;
      assert s[0] == ' ' && s[1..] == blanks[1..] + t;
      SkipBlanks(blanks[1..], t);
    } else {
      assert blanks + t == t;
    }
  }

  /** The pieces `strtoul` sees in blanks, an optional sign, digits and a
      non-digit rest: the sign is read and the digits are converted. */
  lemma StrtoulSees(blanks: string, sign: string, d: string, rest: string)
    requires forall k :: 0 <= k < |blanks| ==> blanks[k] == ' '
    requires sign == "" || sign == "+" || sign == "-"
    requires d != [] && forall k :: 0 <= k < |d| ==> IsDigit(d[k])
    requires rest == [] || !IsDigit(rest[0])
    ensures var t := SkipSpace(blanks + sign + d + rest);
            && t == sign + d + rest
            && (t[0] == '-' <==> sign == "-")
            && LeadingDigits(if t[0] == '-' || t[0] == '+' then t[1..] else t) == d
  {
    var t := sign + d + rest;
    assert blanks + sign + d + rest == blanks + t;
    assert t[0] == (if sign == "" then d[0] else sign[0]);
    SkipBlanks(blanks, t);
    if sign == "" {
      assert t == d + rest;
    } else {
      assert t[1..] == d + rest;
    }
    LeadingDigitsOfDecimal(d, rest);
  }

  /** A value too large for 32 bits saturates to 4294967295, with either
      sign or none. */
  lemma StrtoulSaturates(blanks: string, sign: string, d: string, rest: string)
    requires forall k :: 0 <= k < |blanks| ==> blanks[k] == ' '
    requires sign == "" || sign == "+" || sign == "-"
    requires d != [] && forall k :: 0 <= k < |d| ==> IsDigit(d[k])
    requires rest == [] || !IsDigit(rest[0])
    requires DigitsValue(d) > MaxU32
    ensures Strtoul(blanks + sign + d + rest) == 4294967295
  {
    StrtoulSees(blanks, sign, d, rest);
  }

  /** A minus sign negates modulo 2^32: `-1` reads as 4294967295 and `-0`
      as 0. */
  lemma StrtoulNegates(blanks: string, n: u32, rest: string)
    requires forall k :: 0 <= k < |blanks| ==> blanks[k] == ' '
    requires rest == [] || !IsDigit(rest[0])
    ensures Strtoul(blanks + "-" + Decimal(n) + rest) == (WordModulus - n) % WordModulus
    ensures 0 < n ==> Strtoul(blanks + "-" + Decimal(n) + rest) == WordModulus - n
  {
    StrtoulSees(blanks, "-", Decimal(n), rest);
    DecimalRoundTrip(n);
  }

  /** Text with no digit after the optional blanks and sign converts to 0. */
  lemma StrtoulNoDigits(s: string)
    requires forall k :: 0 <= k < |s| ==> !IsDigit(s[k])
    ensures Strtoul(s) == 0
  {
    var t := SkipSpace(s);
    SkipSpaceDrops(s);
    var u := if t != [] && (t[0] == '-' || t[0] == '+') then t[1..] else t;
    assert u == s[|s| - |u|..];
    if u != [] {
      assert u[0] == s[|s| - |u|];
    }
  }
}
