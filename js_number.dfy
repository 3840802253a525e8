/**
 * The two JavaScript number/string conversions the coach login code relies on:
 * `Number.parseInt(text, 10)` (section 19.2.5 "parseInt ( string, radix )" of
 * ECMA-262, which `Number.parseInt` is) and `String(n)` for an integral Number.
 * Numbers are modelled as mathematical integers.
 */
module JsNumber {
  import opened Wrappers

  /** The code points `parseInt` skips before the number: ECMA-262 WhiteSpace and LineTerminator. */
  predicate IsStrWhiteSpace(c: char) {
    c == '\t' || c == '\U{000B}' || c == '\U{000C}' || c == ' ' || c == '\U{00A0}' || c == '\U{FEFF}'
    || c == '\U{1680}' || ('\U{2000}' <= c <= '\U{200A}') || c == '\U{202F}' || c == '\U{205F}' || c == '\U{3000}'
    || c == '\n' || c == '\r' || c == '\U{2028}' || c == '\U{2029}'
  }

  predicate IsDigit(c: char) {
    '0' <= c <= '9'
  }

  predicate AllDigits(s: string) {
    forall i :: 0 <= i < |s| ==> IsDigit(s[i])
  }

  function DigitValue(c: char): (d: nat)
    requires IsDigit(c)
    ensures d < 10
  {
    c as int - '0' as int
  }

  function DigitChar(d: nat): (c: char)
    requires d < 10
    ensures IsDigit(c) && DigitValue(c) == d
  {
    ('0' as int + d) as char
  }

  /** Drops leading white space (TrimString(…, start) in ECMA-262). */
  function TrimStart(s: string): (r: string)
    ensures |r| <= |s| && r == s[|s| - |r|..]
    ensures forall i :: 0 <= i < |s| - |r| ==> IsStrWhiteSpace(s[i])
    ensures r == [] || !IsStrWhiteSpace(r[0])
  {
    if |s| > 0 && IsStrWhiteSpace(s[0]) then TrimStart(s[1..]) else s
  }

  /** The longest prefix of `s` made of decimal digits. */
  function LeadingDigits(s: string): (d: string)
    ensures |d| <= |s| && d == s[..|d|]
    ensures AllDigits(d)
    ensures |d| == |s| || !IsDigit(s[|d|])
  {
    if |s| > 0 && IsDigit(s[0]) then [s[0]] + LeadingDigits(s[1..]) else []
  }

  /** The value of a string of decimal digits, most significant first. */
  function DigitsValue(d: string): nat
    requires AllDigits(d)
  {
    if |d| == 0 then 0 else DigitsValue(d[..|d| - 1]) * 10 + DigitValue(d[|d| - 1])
  }

  /**
   * `Number.parseInt(s, 10)`: skip white space, take an optional sign, read the
   * longest run of decimal digits; `None` is NaN (no digit at all). Minus zero
   * is the integer 0.
   */
  function ParseInt(s: string): Option<int> {
    ParseSigned(TrimStart(s))
  }

  /** The optional sign and the digits after it, once white space is skipped. */
  function ParseSigned(t: string): Option<int> {
    var negative := |t| > 0 && t[0] == '-';
    var u := if |t| > 0 && (t[0] == '-' || t[0] == '+') then t[1..] else t;
    var z := LeadingDigits(u);
    var v: int := if z == [] then 0 else DigitsValue(z);
    if z == [] then None else if negative then Some(-v) else Some(v)
  }

  /** Decimal digits of `n` without leading zeros. */
  function NatToString(n: nat): (s: string)
    ensures |s| > 0 && AllDigits(s)
    ensures DigitsValue(s) == n
    ensures s[0] == '0' ==> n == 0 && |s| == 1
  {
    if n < 10 then [DigitChar(n)]
    else
      var s := NatToString(n / 10) + [DigitChar(n % 10)];
      assert s[..|s| - 1] == NatToString(n / 10);
      s
  }

  /** `String(n)` for an integral Number: a minus sign for negatives, then the digits. */
  function IntToString(n: int): (s: string)
    ensures |s| > 0
    ensures s[0] == '-' <==> n < 0
    ensures s == [] || !IsStrWhiteSpace(s[0])
  {
    if n < 0 then "-" + NatToString(-n) else NatToString(n)
  }

  /** A run of digits followed by nothing or by a non-digit is read up to its end. */
  lemma {:induction false} LeadingDigitsOfDigits(d: string, rest: string)
    requires AllDigits(d)
    requires rest == [] || !IsDigit(rest[0])
    ensures LeadingDigits(d + rest) == d
  {
    if d != [] {
      assert (d + rest)[1..] == d[1..] + rest;
      LeadingDigitsOfDigits(d[1..], rest);
    }
  }

  /**
   * `parseInt` reads back what `String(n)` wrote, also when other text that
   * does not start with a digit follows it.
   */
  lemma {:induction false} ParseIntOfIntToString(n: int, rest: string)
    requires rest == [] || !IsDigit(rest[0])
    ensures ParseInt(IntToString(n) + rest) == Some(n)
  {
    var s := IntToString(n) + rest;
    assert s[0] == IntToString(n)[0];
    ParseIntWithoutLeadingSpace(s);
    if n < 0 {
      NegativeToString(n, rest);
    } else {
      NonNegativeToString(n, rest);
    }
  }

  /** `String(n)` of a negative `n` is a minus sign and the digits of `-n`. */
  lemma NegativeToString(n: int, rest: string)
    requires n < 0
    requires rest == [] || !IsDigit(rest[0])
    ensures ParseSigned(IntToString(n) + rest) == Some(n)
  {
    var digits := NatToString(-n);
    assert IntToString(n) + rest == "-" + (digits + rest);
    ParseSignedOfDigits(digits, rest);
  }

  /** `String(n)` of a non-negative `n` is just its digits. */
  lemma NonNegativeToString(n: int, rest: string)
    requires n >= 0
    requires rest == [] || !IsDigit(rest[0])
    ensures ParseSigned(IntToString(n) + rest) == Some(n)
  {
    ParseSignedOfDigits(NatToString(n), rest);
  }

  /** Text that does not start with white space is parsed from its first character. */
  lemma ParseIntWithoutLeadingSpace(s: string)
    requires s != [] && !IsStrWhiteSpace(s[0])
    ensures ParseInt(s) == ParseSigned(s)
  {
    assert TrimStart(s) == s;
  }

  /** A digit run, with or without a minus sign before it and a non-digit after it, reads as its value. */
  lemma {:induction false} ParseSignedOfDigits(digits: string, rest: string)
    requires digits != [] && AllDigits(digits)
    requires rest == [] || !IsDigit(rest[0])
    ensures ParseSigned(digits + rest) == Some(DigitsValue(digits))
    ensures ParseSigned("-" + (digits + rest)) == Some(-(DigitsValue(digits) as int))
  {
    LeadingDigitsOfDigits(digits, rest);
    var t := digits + rest;
    assert t[0] == digits[0];
    assert ("-" + t)[0] == '-' && ("-" + t)[1..] == t;
  }

  /** Leading white space never changes what `parseInt` reads. */
  lemma ParseIntSkipsWhiteSpace(w: string, s: string)
    requires forall i :: 0 <= i < |w| ==> IsStrWhiteSpace(w[i])
    ensures ParseInt(w + s) == ParseInt(s)
  {
    TrimStartSkipsWhiteSpace(w, s);
  }

  lemma {:induction false} TrimStartSkipsWhiteSpace(w: string, s: string)
    requires forall i :: 0 <= i < |w| ==> IsStrWhiteSpace(w[i])
    ensures TrimStart(w + s) == TrimStart(s)
  {
    if w != [] {
      var ws := w + s;
      assert ws[0] == w[0];
      assert IsStrWhiteSpace(ws[0]);
      assert TrimStart(ws) == TrimStart(ws[1..]);
      assert ws[1..] == w[1..] + s;
      TrimStartSkipsWhiteSpace(w[1..], s);
    } else {
      assert w + s == s;
    }
  }

  /** A string without a single decimal digit reads as NaN. */
  lemma ParseIntWithoutDigits(s: string)
    requires forall i :: 0 <= i < |s| ==> !IsDigit(s[i])
    ensures ParseInt(s) == None
  {
    var t := TrimStart(s);
    assert ParseInt(s) == ParseSigned(t);
    var u := if |t| > 0 && (t[0] == '-' || t[0] == '+') then t[1..] else t;
    if |u| > 0 {
      assert u[0] == s[|s| - |u|];
    }
  }
}
