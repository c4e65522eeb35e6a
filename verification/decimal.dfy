/**
 * `Integer.parseInt` / `Long.parseLong` over ASCII digits, and
 * `Boolean.parseBoolean`, with the rendering they invert.
 */
module Decimal {
  import opened Wrappers
  import opened Text
  import Schema

  predicate AllDigits(s: string) {
    forall k :: 0 <= k < |s| ==> IsAsciiDigit(s[k])
  }

  /** Value of a run of decimal digits, most significant first. */
  function DigitsValue(s: string): nat
    requires AllDigits(s)
  {
    if s == [] then 0 else DigitsValue(s[..|s| - 1]) * 10 + (s[|s| - 1] as int - '0' as int)
  }

  /** An optional `+` or `-` followed by at least one digit. */
  predicate IsSignedDecimal(s: string) {
    if |s| > 0 && (s[0] == '-' || s[0] == '+') then |s| >= 2 && AllDigits(s[1..])
    else |s| >= 1 && AllDigits(s)
  }

  function SignedValue(s: string): int
    requires IsSignedDecimal(s)
  {
    if s[0] == '-' then -(DigitsValue(s[1..]) as int)
    else if s[0] == '+' then DigitsValue(s[1..])
    else DigitsValue(s)
  }

  /**
   * A signed decimal parse with range `lo..hi`: anything else, including the
   * empty text and a lone sign, is a `NumberFormatException`.
   */
  function ParseSigned(s: string, lo: int, hi: int): (r: Result<int, Schema.Failure>)
    ensures r.Ok? <==> IsSignedDecimal(s) && lo <= SignedValue(s) <= hi
    ensures r.Ok? ==> r.value == SignedValue(s)
    ensures r.Err? ==> r.error == Schema.NumberFormat(s)
  {
    if IsSignedDecimal(s) && lo <= SignedValue(s) <= hi then Ok(SignedValue(s))
    else Err(Schema.NumberFormat(s))
  }

  lemma {:induction false} DigitsOfNat(n: nat)
    ensures AllDigits(NatToString(n))
    ensures DigitsValue(NatToString(n)) == n
    decreases n
  {
    var s := NatToString(n);
    if n >= 10 {
      DigitsOfNat(n / 10);
      assert s[..|s| - 1] == NatToString(n / 10);
    }
  }

  /** Parsing what `String.valueOf` prints gives the number back. */
  lemma ParseRendered(n: int, lo: int, hi: int)
    requires lo <= n <= hi
    ensures ParseSigned(IntToString(n), lo, hi) == Ok(n)
  {
    var s := IntToString(n);
    if n < 0 {
      DigitsOfNat(-n);
      assert s == "-" + NatToString(-n);
      assert s[1..] == NatToString(-n);
      assert IsSignedDecimal(s);
      assert SignedValue(s) == n;
    } else {
      DigitsOfNat(n);
      var d := NatToString(n);
      assert s == d;
      assert IsAsciiDigit(d[0]);
      assert IsSignedDecimal(s);
      assert SignedValue(s) == n;
    }
  }

  /** `Boolean.parseBoolean`: true exactly for "true" in any letter case. */
  function ParseBoolean(s: string): (r: bool)
    ensures r <==> |s| == 4 && forall k :: 0 <= k < 4 ==> LowerChar(s[k]) == "true"[k]
  {
    Lower(s) == "true"
  }

  lemma ParseBooleanExamples()
    ensures ParseBoolean("true") && ParseBoolean("TRUE") && ParseBoolean("True")
    ensures !ParseBoolean("yes") && !ParseBoolean(" true") && !ParseBoolean("")
  {
    assert LowerChar('T') == 't' && LowerChar('R') == 'r' && LowerChar('U') == 'u' && LowerChar('E') == 'e';
  }

  lemma ParseSignedExamples()
    ensures ParseSigned("-42", Schema.INT_MIN, Schema.INT_MAX) == Ok(-42)
    ensures ParseSigned("+7", Schema.INT_MIN, Schema.INT_MAX) == Ok(7)
    ensures ParseSigned("-", Schema.INT_MIN, Schema.INT_MAX).Err?
    ensures ParseSigned("", Schema.INT_MIN, Schema.INT_MAX).Err?
    ensures ParseSigned("1,234", Schema.INT_MIN, Schema.INT_MAX).Err?
  {
    assert "-42"[1..] == "42" && "42"[..1] == "4" && "4"[..0] == "";
    assert DigitsValue("42") == 42;
    assert "+7"[1..] == "7" && "7"[..0] == "";
    assert !IsAsciiDigit("1,234"[1]);
  }
}
