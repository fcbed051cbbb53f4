/**
 * Decimal rendering and reading of integers (std::to_string,
 * std::from_chars and stream extraction of an int), as the priority codec
 * uses them.
 */
module Decimal {
  import opened Wrappers

  predicate IsDigit(c: char) {
    '0' <= c <= '9'
  }

  /** isspace in the "C" locale: space, tab, line feed, vertical tab, form feed, carriage return. */
  predicate IsSpace(c: char) {
    c == ' ' || c == '\t' || c == '\n' || c == '\r' || c as int == 0x0B || c as int == 0x0C
  }

  function DigitValue(c: char): nat
    requires IsDigit(c)
  {
    (c as int - '0' as int) as nat
  }

  function DigitChar(d: nat): (c: char)
    requires d < 10
    ensures IsDigit(c) && DigitValue(c) == d
  {
    (('0' as int) + d) as char
  }

  /** std::to_string of a non-negative integer: shortest decimal form, no sign, no padding. */
  function ToDecimal(n: nat): (s: string)
    ensures |s| > 0
    ensures forall i :: 0 <= i < |s| ==> IsDigit(s[i])
    ensures |s| > 1 ==> s[0] != '0'
    decreases n
  {
    if n < 10 then [DigitChar(n)] else ToDecimal(n / 10) + [DigitChar(n % 10)]
  }

  /** The value of a non-empty run of digits. */
  function DigitsValue(s: string): nat
    requires forall i :: 0 <= i < |s| ==> IsDigit(s[i])
    decreases |s|
  {
    if |s| == 0 then 0 else 10 * DigitsValue(s[..|s| - 1]) + DigitValue(s[|s| - 1])
  }

  /** Length of the longest prefix of s made of digits. */
  function LeadingDigits(s: string): (k: nat)
    ensures k <= |s|
    ensures forall i :: 0 <= i < k ==> IsDigit(s[i])
    ensures k < |s| ==> !IsDigit(s[k])
    decreases |s|
  {
    if |s| == 0 || !IsDigit(s[0]) then 0 else 1 + LeadingDigits(s[1..])
  }

  const IntMin: int := -0x8000_0000
  const IntMax: int := 0x7FFF_FFFF

  /**
   * std::from_chars into a 32-bit int: an optional '-', then at least one
   * digit; no leading whitespace and no '+'. What follows the digits is not
   * examined. A value outside the int range is an error.
   */
  function FromChars(s: string): (r: Option<int>)
    ensures r.Some? ==> IntMin <= r.value <= IntMax
  {
    var neg := |s| > 0 && s[0] == '-';
    var rest := if neg then s[1..] else s;
    var k := LeadingDigits(rest);
    if k == 0 then None
    else
      var v := DigitsValue(rest[..k]);
      var signed: int := if neg then 0 - (v as int) else v as int;
      if IntMin <= signed <= IntMax then Some(signed) else None
  }

  lemma {:induction false} DigitsValueOfToDecimal(n: nat)
    ensures DigitsValue(ToDecimal(n)) == n
    decreases n
  {
    if n >= 10 {
      var s := ToDecimal(n);
      var p := ToDecimal(n / 10);
      assert s == p + [DigitChar(n % 10)];
      assert s[..|s| - 1] == p;
      DigitsValueOfToDecimal(n / 10);
    }
  }

  lemma {:induction false} LeadingDigitsOfAppend(d: string, rest: string)
    requires forall i :: 0 <= i < |d| ==> IsDigit(d[i])
    requires |rest| == 0 || !IsDigit(rest[0])
    ensures LeadingDigits(d + rest) == |d|
    decreases |d|
  {
    if |d| > 0 {
      assert (d + rest)[1..] == d[1..] + rest;
      LeadingDigitsOfAppend(d[1..], rest);
    } else {
      assert d + rest == rest;
    }
  }

  /** Reading back a rendered number, whatever non-digit text follows it. */
  lemma FromCharsOfToDecimal(n: nat, rest: string)
    requires n <= IntMax
    requires |rest| == 0 || !IsDigit(rest[0])
    ensures FromChars(ToDecimal(n) + rest) == Some(n)
  {
    var s := ToDecimal(n) + rest;
    assert s[0] == ToDecimal(n)[0];
    LeadingDigitsOfAppend(ToDecimal(n), rest);
    assert s[..|ToDecimal(n)|] == ToDecimal(n);
    DigitsValueOfToDecimal(n);
  }

  /** The text after any leading whitespace. */
  function SkipSpace(s: string): (r: string)
    ensures |r| <= |s| && r == s[|s| - |r|..]
    ensures forall i :: 0 <= i < |s| - |r| ==> IsSpace(s[i])
    ensures |r| > 0 ==> !IsSpace(r[0])
  {
    if |s| > 0 && IsSpace(s[0]) then SkipSpace(s[1..]) else s
  }

  /** At least one digit, negated when neg, in the int range; with the text after the digits. */
  function SignedDigits(neg: bool, u: string): (r: Option<(int, string)>)
    ensures r.Some? ==> IntMin <= r.value.0 <= IntMax
    ensures r.Some? ==> |r.value.1| < |u| && r.value.1 == u[|u| - |r.value.1|..]
    ensures r.Some? ==> |r.value.1| == 0 || !IsDigit(r.value.1[0])
  {
    var k := LeadingDigits(u);
    if k == 0 then None
    else
      var v := DigitsValue(u[..k]);
      var signed: int := if neg then 0 - (v as int) else v as int;
      if IntMin <= signed <= IntMax then Some((signed, u[k..])) else None
  }

  lemma SignedDigitsOfDigits(d: string, rest: string)
    requires |d| > 0 && forall i :: 0 <= i < |d| ==> IsDigit(d[i])
    requires DigitsValue(d) <= IntMax
    requires |rest| == 0 || !IsDigit(rest[0])
    ensures SignedDigits(false, d + rest) == Some((DigitsValue(d) as int, rest))
  {
    var s := d + rest;
    LeadingDigitsOfAppend(d, rest);
    assert s[..|d|] == d;
    assert s[|d|..] == rest;
  }

  /**
   * Formatted extraction of an int from a stream (is >> i): leading
   * whitespace is skipped, then an optional '+' or '-', then at least one
   * digit. A value outside the int range fails. On success the value and the
   * text after the digits are returned.
   */
  function ReadInt(s: string): (r: Option<(int, string)>)
    ensures r.Some? ==> IntMin <= r.value.0 <= IntMax
    ensures r.Some? ==> |r.value.1| < |s|
    ensures r.Some? ==> |r.value.1| == 0 || !IsDigit(r.value.1[0])
  {
    var t := SkipSpace(s);
    if |t| > 0 && (t[0] == '-' || t[0] == '+') then SignedDigits(t[0] == '-', t[1..])
    else SignedDigits(false, t)
  }

  /** Reading back a run of digits from a stream leaves exactly the text after it. */
  lemma ReadIntOfDigits(d: string, rest: string)
    requires |d| > 0 && forall i :: 0 <= i < |d| ==> IsDigit(d[i])
    requires DigitsValue(d) <= IntMax
    requires |rest| == 0 || !IsDigit(rest[0])
    ensures ReadInt(d + rest) == Some((DigitsValue(d) as int, rest))
  {
    var s := d + rest;
    var c := s[0];
    assert c == d[0];
    assert IsDigit(c);
    assert !IsSpace(c) && c != '-' && c != '+';
    assert SkipSpace(s) == s;
    assert ReadInt(s) == SignedDigits(false, s);
    SignedDigitsOfDigits(d, rest);
  }

  /** Reading back a rendered number from a stream leaves exactly the text after it. */
  lemma ReadIntOfToDecimal(n: nat, rest: string)
    requires n <= IntMax
    requires |rest| == 0 || !IsDigit(rest[0])
    ensures ReadInt(ToDecimal(n) + rest) == Some((n, rest))
  {
    DigitsValueOfToDecimal(n);
    ReadIntOfDigits(ToDecimal(n), rest);
  }
}
