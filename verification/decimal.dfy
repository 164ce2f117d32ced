/**
 Decimal rendering of non-negative integers (`numberToString`, which streams an
 `int` into a `std::ostringstream`) and the C library `atoi` used to read the
 value of the `-m` option.
 */
module Decimal {

  predicate IsDigit(c: char) {
    '0' <= c <= '9'
  }

  predicate AllDigits(s: string) {
    forall i :: 0 <= i < |s| ==> IsDigit(s[i])
  }

  /** A canonical decimal numeral: non-empty, digits only, no leading zero. */
  predicate IsCanonical(s: string) {
    && |s| > 0
    && AllDigits(s)
    && (s[0] == '0' ==> |s| == 1)
  }

  function DigitValue(c: char): (d: nat)
    requires IsDigit(c)
    ensures d < 10
  {
    c as int - '0' as int
  }

  function DigitChar(d: nat): (c: char)
    requires d < 10
    ensures IsDigit(c) && DigitValue(c) == d
  {
    ('0' as int + d) as char
  }

  /** `numberToString(n)` for `n >= 0`: the shortest decimal numeral of `n`. */
  function NatToString(n: nat): (s: string)
    ensures IsCanonical(s)
    ensures s == "0" <==> n == 0
    decreases n
  {
    if n < 10 then [DigitChar(n)]
    else NatToString(n / 10) + [DigitChar(n % 10)]
  }

  /** Value of a digit string, most significant digit first. */
  function ParseDecimal(s: string): nat
    requires AllDigits(s)
  {
    if |s| == 0 then 0
    else ParseDecimal(s[..|s| - 1]) * 10 + DigitValue(s[|s| - 1])
  }

  /** Reading back the rendering of `n` yields `n`. */
  lemma {:induction false} ParseNatToString(n: nat)
    ensures ParseDecimal(NatToString(n)) == n
    decreases n
  {
    if n >= 10 {
      var s := NatToString(n);
      var head := NatToString(n / 10);
      assert s == head + [DigitChar(n % 10)];
      assert s[..|s| - 1] == head;
      ParseNatToString(n / 10);
    }
  }

  lemma {:induction false} ParsePositive(s: string)
    requires |s| > 0 && AllDigits(s) && s[0] != '0'
    ensures ParseDecimal(s) > 0
    decreases |s|
  {
    if |s| > 1 {
      ParsePositive(s[..|s| - 1]);
    }
  }

  /** Every canonical numeral is the rendering of the number it denotes. */
  lemma {:induction false} NatToStringParse(s: string)
    requires IsCanonical(s)
    ensures NatToString(ParseDecimal(s)) == s
    decreases |s|
  {
    if |s| > 1 {
      var p := s[..|s| - 1];
      var d := DigitValue(s[|s| - 1]);
      ParsePositive(p);
      NatToStringParse(p);
      var n := ParseDecimal(s);
      assert n == ParseDecimal(p) * 10 + d;
      assert n / 10 == ParseDecimal(p) && n % 10 == d;
      assert DigitChar(d) == s[|s| - 1];
      assert s == p + [s[|s| - 1]];
    }
  }

  /** Distinct numbers render to distinct numerals. */
  lemma NatToStringInjective(a: nat, b: nat)
    ensures NatToString(a) == NatToString(b) <==> a == b
  {
    ParseNatToString(a);
    ParseNatToString(b);
  }

  /** The characters C's `isspace` accepts in the "C" locale. */
  predicate IsSpace(c: char) {
    c == ' ' || c == '\t' || c == '\n' || c == '\r' || c == '\U{B}' || c == '\U{C}'
  }

  /** The input with its leading white space removed. */
  function SkipSpace(s: string): string {
    if |s| > 0 && IsSpace(s[0]) then SkipSpace(s[1..]) else s
  }

  /** `SkipSpace` drops a prefix made of white space and stops at the first other character. */
  lemma {:induction false} SkipSpaceSpec(s: string)
    ensures var r := SkipSpace(s);
            && |r| <= |s| && r == s[|s| - |r|..]
            && (forall i :: 0 <= i < |s| - |r| ==> IsSpace(s[i]))
            && (|r| > 0 ==> !IsSpace(r[0]))
  {
    if |s| > 0 && IsSpace(s[0]) {
      SkipSpaceSpec(s[1..]);
    }
  }

  /** The longest prefix of the input made of digits. */
  function LeadingDigits(s: string): (r: string)
    ensures AllDigits(r)
  {
    if |s| > 0 && IsDigit(s[0]) then [s[0]] + LeadingDigits(s[1..]) else []
  }

  /** `LeadingDigits` is the prefix of the input that stops before its first non-digit. */
  lemma {:induction false} LeadingDigitsSpec(s: string)
    ensures var r := LeadingDigits(s);
            && |r| <= |s| && r == s[..|r|]
            && (|r| < |s| ==> !IsDigit(s[|r|]))
  {
    if |s| > 0 && IsDigit(s[0]) {
      LeadingDigitsSpec(s[1..]);
    }
  }

  /**
   C `atoi`: optional white space, an optional sign, then as many digits as
   follow; anything else stops the scan, and no digits at all gives 0.
   */
  function Atoi(s: string): int {
    var t := SkipSpace(s);
    if |t| > 0 && t[0] == '-' then -(ParseDecimal(LeadingDigits(t[1..])) as int)
    else if |t| > 0 && t[0] == '+' then ParseDecimal(LeadingDigits(t[1..]))
    else ParseDecimal(LeadingDigits(t))
  }

  /**
   `atoi` reads back what `numberToString` wrote, also when the numeral is
   followed by text that does not start with a digit.
   */
  lemma AtoiOfNatToString(n: nat, rest: string)
    requires |rest| > 0 ==> !IsDigit(rest[0])
    ensures Atoi(NatToString(n) + rest) == n
  {
    var s := NatToString(n);
    assert (s + rest)[0] == s[0];
    AtoiUnsigned(s + rest);
    LeadingDigitsOfNumeral(s, rest);
    ParseNatToString(n);
  }

  /** Text that starts with a digit is read from its leading digits. */
  lemma AtoiUnsigned(t: string)
    requires |t| > 0 && IsDigit(t[0])
    ensures Atoi(t) == ParseDecimal(LeadingDigits(t))
  {
    assert !IsSpace(t[0]) && t[0] != '-' && t[0] != '+';
    assert SkipSpace(t) == t;
  }

  /** A leading '-' negates what `atoi` reads from the rest. */
  lemma AtoiMinus(t: string)
    ensures Atoi("-" + t) == -(ParseDecimal(LeadingDigits(t)) as int)
  {
    var m := "-" + t;
    assert SkipSpace(m) == m;
    assert m[0] == '-' && m[1..] == t;
  }

  /** With a '-' in front, `atoi` reads the negated number. */
  lemma AtoiOfNegatedNatToString(n: nat, rest: string)
    requires |rest| > 0 ==> !IsDigit(rest[0])
    ensures Atoi("-" + NatToString(n) + rest) == -(n as int)
  {
    var s := NatToString(n);
    assert "-" + s + rest == "-" + (s + rest);
    AtoiMinus(s + rest);
    LeadingDigitsOfNumeral(s, rest);
    ParseNatToString(n);
  }

  lemma {:induction false} LeadingDigitsOfNumeral(s: string, rest: string)
    requires AllDigits(s)
    requires |rest| > 0 ==> !IsDigit(rest[0])
    ensures LeadingDigits(s + rest) == s
    decreases |s|
  {
    if |s| > 0 {
      assert (s + rest)[1..] == s[1..] + rest;
      LeadingDigitsOfNumeral(s[1..], rest);
      assert s == [s[0]] + s[1..];
    } else {
      assert s + rest == rest;
    }
  }

  /** Text with no digit after the white space and an optional sign reads as 0. */
  lemma AtoiWithoutDigits(s: string)
    requires var t := SkipSpace(s);
             var u := if |t| > 0 && (t[0] == '-' || t[0] == '+') then t[1..] else t;
             |u| == 0 || !IsDigit(u[0])
    ensures Atoi(s) == 0
  {
  }
}
