/**
 * Message priorities: an enumeration stored in a 16-bit integral type, its
 * stream operators and its string translator for property trees.
 */
module Priorities {
  import opened Wrappers
  import opened Decimal

  datatype Priority = Undefined | Low | High | Control

  /** The underlying type is a 16-bit unsigned integer. */
  const Uint16Range: int := 0x1_0000

  /** _to_integral(): low is 0, high 10, control the next value after high, undefined 255. */
  function ToIntegral(p: Priority): (v: nat)
    ensures v in {0, 10, 11, 255}
    ensures v < Uint16Range
  {
    match p
    case Low => 0
    case High => 10
    case Control => 11
    case Undefined => 255
  }

  /**
   * _from_integral_nothrow: the int argument is first converted to the
   * 16-bit underlying type (reduced modulo 2^16), then looked up among the
   * declared values.
   */
  function FromIntegral(v: int): (r: Option<Priority>)
    ensures r.Some? <==> v % Uint16Range in {0, 10, 11, 255}
    ensures r.Some? ==> ToIntegral(r.value) == v % Uint16Range
  {
    var u := v % Uint16Range;
    if u == 0 then Some(Low)
    else if u == 10 then Some(High)
    else if u == 11 then Some(Control)
    else if u == 255 then Some(Undefined)
    else None
  }

  lemma ToIntegralInRange(p: Priority)
    ensures 0 <= ToIntegral(p) < Uint16Range && ToIntegral(p) <= IntMax
  {
  }

  /** Distinct priorities have distinct integral values, and each value converts back. */
  lemma FromToIntegral(p: Priority)
    ensures FromIntegral(ToIntegral(p)) == Some(p)
    ensures forall q :: ToIntegral(q) == ToIntegral(p) ==> q == p
  {
  }

  /** put_value and operator<<: the decimal integral value. */
  function PutValue(p: Priority): (s: string)
    ensures FromChars(s) == Some(ToIntegral(p) as int)
    ensures ReadInt(s) == Some((ToIntegral(p) as int, ""))
  {
    ToIntegralInRange(p);
    FromCharsOfToDecimal(ToIntegral(p), "");
    ReadIntOfToDecimal(ToIntegral(p), "");
    assert ToDecimal(ToIntegral(p)) + "" == ToDecimal(ToIntegral(p));
    ToDecimal(ToIntegral(p))
  }

  /**
   * get_value: from_chars then _from_integral_nothrow. None when no integer
   * can be read or it is not a declared value. The end position of
   * from_chars is not examined, so text after the number is ignored.
   */
  function GetValue(s: string): (r: Option<Priority>)
    ensures FromChars(s).None? ==> r.None?
    ensures FromChars(s).Some? ==> r == FromIntegral(FromChars(s).value)
  {
    match FromChars(s)
    case None => None
    case Some(v) => FromIntegral(v)
  }

  /** The translator round trip, even with non-digit text after the number. */
  lemma GetValueOfPutValue(p: Priority, rest: string)
    requires |rest| == 0 || !IsDigit(rest[0])
    ensures GetValue(PutValue(p) + rest) == Some(p)
  {
    ToIntegralInRange(p);
    FromCharsOfToDecimal(ToIntegral(p), rest);
    FromToIntegral(p);
  }

  /** get_value("10x") is high: the trailing "x" is never looked at. */
  lemma LenientSuffixExample()
    ensures GetValue("10x") == Some(High)
  {
    var s := "10x";
    assert LeadingDigits(s[2..]) == 0;
    assert LeadingDigits(s) == 2;
    assert s[..2] == "10" && "10"[..1] == "1";
    assert DigitsValue("10") == 10;
  }

  /** A number that is not a declared value gives none, and so does text without a number. */
  lemma GetValueRejectsExample()
    ensures GetValue("5") == None
    ensures GetValue("x10") == None
    ensures GetValue("+10") == None
  {
    assert LeadingDigits("5") == 1;
    assert "5"[..1] == "5";
    assert DigitsValue("5") == 5;
  }

  /**
   * The conversion to the 16-bit underlying type: 65546 is 10 modulo 2^16,
   * so it reads as high.
   */
  lemma WideValueWrapsExample()
    ensures GetValue("65546") == Some(High)
  {
    var s := "65546";
    assert LeadingDigits(s) == 5;
    assert s[..5] == s;
    assert s[..4] == "6554";
    assert "6554"[..3] == "655";
    assert "655"[..2] == "65";
    assert "65"[..1] == "6";
    assert DigitsValue("6") == 6;
    assert DigitsValue("65") == 65;
    assert DigitsValue("655") == 655;
    assert DigitsValue("6554") == 6554;
    assert DigitsValue(s) == 65546;
  }

  /**
   * operator>>: extract an int; on a failed read the priority is left as it
   * was and the stream has failed; a read value that is not a declared
   * priority also leaves it unchanged and sets failbit. Returns the
   * priority, whether the stream is still good, and the unread text.
   */
  function Extract(s: string, pr: Priority): (r: (Priority, bool, string))
    ensures ReadInt(s).None? ==> r.0 == pr && !r.1
    ensures ReadInt(s).Some? && FromIntegral(ReadInt(s).value.0).None? ==>
      r == (pr, false, ReadInt(s).value.1)
    ensures r.1 <==> ReadInt(s).Some? && FromIntegral(ReadInt(s).value.0).Some?
    ensures r.1 ==> r == (FromIntegral(ReadInt(s).value.0).value, true, ReadInt(s).value.1)
  {
    match ReadInt(s)
    // what a failed extraction consumes is not modelled
    case None => (pr, false, s)
    case Some((v, rest)) =>
      match FromIntegral(v)
      case None => (pr, false, rest)
      case Some(q) => (q, true, rest)
  }

  /** Writing a priority with operator<< and reading it back with operator>> gives it back, whatever was there before. */
  lemma ExtractOfPutValue(p: Priority, prev: Priority, rest: string)
    requires |rest| == 0 || !IsDigit(rest[0])
    ensures Extract(PutValue(p) + rest, prev) == (p, true, rest)
  {
    ToIntegralInRange(p);
    ReadIntOfToDecimal(ToIntegral(p), rest);
    FromToIntegral(p);
  }

  /** A read failure or an undeclared value never changes the priority. */
  lemma ExtractFailureKeeps(s: string, pr: Priority)
    ensures !Extract(s, pr).1 ==> Extract(s, pr).0 == pr
  {
  }
}
