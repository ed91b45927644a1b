/** The global `parseInt(string)` with no radix argument, as section 19.2.5
    of ECMAScript 2024 defines it: skip leading white space, read an
    optional sign, switch to base 16 after a "0x"/"0X" prefix, then read the
    longest run of digits; no digit at all gives NaN. */
module JsParseInt {
  import opened Wrappers
  import opened JsValues

  /** The WhiteSpace and LineTerminator code points that `parseInt` skips. */
  predicate IsJsWhitespace(c: char) {
    || c == '\t' || c == '\U{B}' || c == '\U{C}' || c == ' '
    || c == '\U{A0}' || c == '\U{FEFF}'
    || c == '\n' || c == '\r' || c == '\U{2028}' || c == '\U{2029}'
    || c == '\U{1680}' || ('\U{2000}' <= c <= '\U{200A}')
    || c == '\U{202F}' || c == '\U{205F}' || c == '\U{3000}'
  }

  /** The string without its leading white space. */
  function TrimStart(s: string): (r: string)
    ensures |r| <= |s| && r == s[|s| - |r|..]
    ensures |r| > 0 ==> !IsJsWhitespace(r[0])
    ensures forall i :: 0 <= i < |s| - |r| ==> IsJsWhitespace(s[i])
  {
    if |s| > 0 && IsJsWhitespace(s[0]) then TrimStart(s[1..]) else s
  }

  /** The value of an alphanumeric digit (0-9, then a-z / A-Z as 10-35);
      36 for any other character. */
  function DigitValue(c: char): (d: nat)
    ensures d <= 36
  {
    if '0' <= c <= '9' then c as int - '0' as int
    else if 'a' <= c <= 'z' then c as int - 'a' as int + 10
    else if 'A' <= c <= 'Z' then c as int - 'A' as int + 10
    else 36
  }

  predicate IsDigitIn(c: char, radix: nat) {
    DigitValue(c) < radix
  }

  /** Length of the longest prefix made of digits of the radix. */
  function DigitPrefixLength(s: string, radix: nat): (k: nat)
    ensures k <= |s|
    ensures forall i :: 0 <= i < k ==> IsDigitIn(s[i], radix)
    ensures k < |s| ==> !IsDigitIn(s[k], radix)
  {
    if |s| > 0 && IsDigitIn(s[0], radix) then 1 + DigitPrefixLength(s[1..], radix) else 0
  }

  /** The number a string of digits denotes in the radix. */
  function DigitsValue(s: string, radix: nat): nat
    requires forall i :: 0 <= i < |s| ==> IsDigitIn(s[i], radix)
  {
    if |s| == 0 then 0
    else
      var init := s[..|s| - 1];
      assert forall i :: 0 <= i < |init| ==> init[i] == s[i];
      var high: nat := DigitsValue(init, radix);
      var scaled: nat := high * radix;
      scaled + DigitValue(s[|s| - 1])
  }

  /** The number denoted by the longest digit prefix; None when there is none. */
  function ParseDigits(s: string, radix: nat): Option<int> {
    var k := DigitPrefixLength(s, radix);
    if k == 0 then None else Some(DigitsValue(s[..k], radix) as int)
  }

  predicate HasHexPrefix(s: string) {
    |s| >= 2 && s[0] == '0' && (s[1] == 'x' || s[1] == 'X')
  }

  /** The part after the sign: base 16 after "0x"/"0X", base 10 otherwise. */
  function ParseUnsigned(s: string): Option<int> {
    if HasHexPrefix(s) then ParseDigits(s[2..], 16) else ParseDigits(s, 10)
  }

  function ParseSigned(s: string): Option<int> {
    if |s| > 0 && s[0] == '-' then Negate(ParseUnsigned(s[1..]))
    else if |s| > 0 && s[0] == '+' then ParseUnsigned(s[1..])
    else ParseUnsigned(s)
  }

  function Negate(r: Option<int>): Option<int> {
    match r
    case Some(m) => Some(-m)
    case None => None
  }

  /** `parseInt(input)`: Some(n) for a number, None for NaN. Integers beyond
      2^53 are kept exact here, where JavaScript would round them. */
  function ParseInt(input: string): Option<int> {
    ParseSigned(TrimStart(input))
  }

  lemma {:induction false} DecimalIsDigit(s: string)
    requires forall i :: 0 <= i < |s| ==> IsDecimalDigit(s[i])
    ensures forall i :: 0 <= i < |s| ==> IsDigitIn(s[i], 10)
  {
  }

  lemma {:induction false} DecimalDigitsValue(n: nat)
    ensures forall i :: 0 <= i < |NatToDecimal(n)| ==> IsDigitIn(NatToDecimal(n)[i], 10)
    ensures DigitsValue(NatToDecimal(n), 10) == n
    decreases n
  {
    var s := NatToDecimal(n);
    if n >= 10 {
      DecimalDigitsValue(n / 10);
      assert s[..|s| - 1] == NatToDecimal(n / 10);
    }
  }

  /** `parseInt(String(n)) === n` for every integer n: the decimal notation
      the dashboard prints is read back unchanged. */
  lemma {:induction false} ParseIntDecimalRoundTrip(n: int)
    ensures ParseInt(IntToDecimal(n)) == Some(n)
  {
    var m := if n < 0 then -n else n;
    var d := NatToDecimal(m);
    UnsignedDecimalRoundTrip(m);
    UnsignedDigitsParse(d);
    if n < 0 {
      NegatedDigitsParse(d);
    }
  }

  lemma {:induction false} UnsignedDecimalRoundTrip(m: nat)
    ensures ParseUnsigned(NatToDecimal(m)) == Some(m)
  {
    DecimalDigitsValue(m);
    DigitsOnlyParse(NatToDecimal(m));
  }

  lemma {:induction false} UnsignedDigitsParse(d: string)
    requires |d| > 0 && forall i :: 0 <= i < |d| ==> IsDecimalDigit(d[i])
    ensures ParseInt(d) == ParseUnsigned(d)
  {
    NoLeadingSpace(d);
  }

  lemma {:induction false} NegatedDigitsParse(d: string)
    requires |d| > 0 && forall i :: 0 <= i < |d| ==> IsDecimalDigit(d[i])
    requires ParseUnsigned(d).Some?
    ensures ParseInt("-" + d) == Some(-ParseUnsigned(d).value)
  {
    var neg := "-" + d;
    NoLeadingSpace(neg);
    assert neg[1..] == d;
    NegativeParse(d, neg);
  }

  lemma {:induction false} NegativeParse(d: string, neg: string)
    requires |neg| > 0 && neg[0] == '-' && neg[1..] == d
    requires ParseUnsigned(d).Some?
    ensures ParseSigned(neg) == Some(-ParseUnsigned(d).value)
  {
  }

  lemma {:induction false} NoLeadingSpace(s: string)
    requires |s| > 0 && (IsDecimalDigit(s[0]) || s[0] == '-')
    ensures TrimStart(s) == s
  {
    assert !IsJsWhitespace(s[0]);
  }

  lemma {:induction false} DigitsOnlyParse(d: string)
    requires |d| > 0 && forall i :: 0 <= i < |d| ==> IsDecimalDigit(d[i])
    ensures forall i :: 0 <= i < |d| ==> IsDigitIn(d[i], 10)
    ensures ParseUnsigned(d) == Some(DigitsValue(d, 10) as int)
  {
    DecimalIsDigit(d);
    assert !HasHexPrefix(d) by {
      if |d| >= 2 { assert IsDecimalDigit(d[1]); }
    }
    DigitRunLength(d, "");
    assert d + "" == d;
    assert d[..|d|] == d;
  }

  /** Reading stops at the first character that is not a digit: whatever
      follows a decimal numeral is ignored. */
  lemma {:induction false} ParseIntStopsAtNonDigit(d: string, t: string)
    requires |d| > 0 && forall i :: 0 <= i < |d| ==> IsDecimalDigit(d[i])
    requires |t| > 0 && !IsDecimalDigit(t[0]) && t[0] != 'x' && t[0] != 'X'
    ensures ParseInt(d + t) == ParseInt(d)
    ensures ParseInt(d).Some? && ParseInt(d).value >= 0
  {
    var s := d + t;
    assert s[0] == d[0];
    NoLeadingSpace(s);
    UnsignedDigitsParse(d);
    DigitsOnlyParse(d);
    assert ParseSigned(s) == ParseUnsigned(s);
    assert !HasHexPrefix(s) by {
      if |d| >= 2 { assert s[1] == d[1]; assert IsDecimalDigit(d[1]); } else { assert s[1] == t[0]; }
    }
    DigitRunLength(d, t);
    assert s[..|d|] == d;
  }

  lemma {:induction false} DigitRunLength(d: string, t: string)
    requires forall i :: 0 <= i < |d| ==> IsDecimalDigit(d[i])
    requires |t| == 0 || !IsDecimalDigit(t[0])
    ensures DigitPrefixLength(d + t, 10) == |d|
  {
    if |d| > 0 {
      assert (d + t)[1..] == d[1..] + t;
      DigitRunLength(d[1..], t);
    } else {
      assert d + t == t;
    }
  }

  /** A string with no digit after the optional sign is NaN. */
  lemma {:induction false} ParseIntNoDigits(s: string)
    requires |s| == 0 || (!IsDigitIn(s[0], 10) && !IsJsWhitespace(s[0]) && s[0] != '-' && s[0] != '+')
    ensures ParseInt(s) == None
  {
  }
}
