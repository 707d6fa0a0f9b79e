/**
 * Decoding of the literal text of 'integer' and 'numeric' cells into exact numbers,
 * standing for Python's int(...) and decimal.Decimal(...). Integers are exact `int`s and
 * decimals exact `real`s (rationals); the accepted syntax is an optional minus sign
 * followed by digits, with a fractional part of at least one digit for decimals.
 */
module Literals {
  import opened Outcome
  import opened Text

  predicate IsDigit(c: char) {
    '0' <= c <= '9'
  }

  predicate AllDigits(s: string) {
    forall i :: 0 <= i < |s| ==> IsDigit(s[i])
  }

  /** A non-empty run of decimal digits. */
  predicate IsDigits(s: string) {
    |s| > 0 && AllDigits(s)
  }

  function DigitValue(c: char): (d: nat)
    requires IsDigit(c)
    ensures d < 10
  {
    (c as int - '0' as int) as nat
  }

  function DigitChar(d: nat): (c: char)
    requires d < 10
    ensures IsDigit(c) && DigitValue(c) == d
  {
    ('0' as int + d) as char
  }

  /** The value of a digit string read in base ten, most significant digit first. */
  function DigitsValue(s: string): nat
    requires AllDigits(s)
  {
    if |s| == 0 then 0 else DigitsValue(s[..|s| - 1]) * 10 + DigitValue(s[|s| - 1])
  }

  function Pow10(n: nat): (p: nat)
    ensures p >= 1
  {
    if n == 0 then 1 else 10 * Pow10(n - 1)
  }

  /** int(text): an optional minus sign, then one or more digits. */
  function ParseInt(text: string): Option<int> {
    if |text| > 0 && text[0] == '-' then
      if IsDigits(text[1..]) then Some(-(DigitsValue(text[1..]) as int)) else None
    else if IsDigits(text) then Some(DigitsValue(text))
    else None
  }

  /** The value of the decimal whole.fraction. */
  function PointValue(whole: string, fraction: string): real
    requires AllDigits(whole) && AllDigits(fraction)
  {
    DigitsValue(whole) as real + DigitsValue(fraction) as real / Pow10(|fraction|) as real
  }

  /** Decimal(text) without a sign: digits, optionally a point and more digits. */
  function ParseUnsignedDecimal(text: string): Option<real> {
    if '.' in text then
      var k := IndexOf(text, '.');
      var whole, fraction := text[..k], text[k + 1..];
      if IsDigits(whole) && IsDigits(fraction) then
        Some(PointValue(whole, fraction))
      else None
    else if IsDigits(text) then Some(DigitsValue(text) as real)
    else None
  }

  /** Decimal(text): an optional minus sign, then an unsigned decimal. */
  function ParseDecimal(text: string): Option<real> {
    if |text| > 0 && text[0] == '-' then
      match ParseUnsignedDecimal(text[1..])
      case Some(v) => Some(-v)
      case None => None
    else ParseUnsignedDecimal(text)
  }

  /** str(n) for a natural number: its shortest decimal representation. */
  function ShowNat(n: nat): (s: string)
    ensures IsDigits(s)
  {
    if n < 10 then [DigitChar(n)] else ShowNat(n / 10) + [DigitChar(n % 10)]
  }

  /** str(n): a minus sign for negative numbers, then the digits of |n|. */
  function ShowInt(n: int): string {
    if n < 0 then "-" + ShowNat(-n) else ShowNat(n)
  }

  lemma {:induction false} ShowNatValue(n: nat)
    ensures DigitsValue(ShowNat(n)) == n
  {
    if n >= 10 {
      ShowNatValue(n / 10);
      var s := ShowNat(n);
      assert s[..|s| - 1] == ShowNat(n / 10);
    }
  }

  /** Reading back what str(n) prints gives n: the integer decoder inverts the printer. */
  lemma IntRoundTrip(n: int)
    ensures ParseInt(ShowInt(n)) == Some(n)
  {
    if n < 0 {
      ShowNatValue(-n);
      var s := ShowInt(n);
      assert s[1..] == ShowNat(-n);
    } else {
      ShowNatValue(n);
    }
  }

  /** Leading zeros do not change the value of a digit string: 07 and 7 are the same integer. */
  lemma {:induction false} LeadingZero(d: string)
    requires AllDigits(d)
    ensures AllDigits("0" + d) && DigitsValue("0" + d) == DigitsValue(d)
    decreases |d|
  {
    if |d| > 0 {
      var z := "0" + d;
      assert z[..|z| - 1] == "0" + d[..|d| - 1];
      LeadingZero(d[..|d| - 1]);
    }
  }

  /** A leading zero is not visible to the integer decoder, with or without a minus sign: -07 is -7. */
  lemma IntLeadingZero(sign: string, d: string)
    requires sign == "" || sign == "-"
    requires IsDigits(d)
    ensures ParseInt(sign + "0" + d) == ParseInt(sign + d)
    ensures ParseInt(sign + d) == Some(if sign == "" then DigitsValue(d) as int else -(DigitsValue(d) as int))
  {
    LeadingZero(d);
    assert sign + "0" + d == sign + ("0" + d);
    SignedInt(sign, d);
    SignedInt(sign, "0" + d);
  }

  /** A minus sign in front of a digit string negates its value. */
  lemma SignedInt(sign: string, d: string)
    requires sign == "" || sign == "-"
    requires IsDigits(d)
    ensures ParseInt(sign + d) == Some(if sign == "" then DigitsValue(d) as int else -(DigitsValue(d) as int))
  {
    assert d[0] != '-' by { assert IsDigit(d[0]); }
    if sign == "-" {
      assert (sign + d)[0] == '-' && (sign + d)[1..] == d;
    } else {
      assert sign + d == d;
    }
  }

  /** A 'numeric' cell holding an integer literal decodes to the same value as an 'integer' cell. */
  lemma DecimalExtendsInt(text: string)
    requires ParseInt(text).Some?
    ensures ParseDecimal(text) == Some(ParseInt(text).value as real)
  {
    if |text| > 0 && text[0] == '-' {
      assert '.' !in text[1..] by { assert AllDigits(text[1..]); }
    } else {
      assert '.' !in text by { assert AllDigits(text); }
    }
  }

  lemma {:induction false} AppendZero(f: string)
    requires AllDigits(f)
    ensures AllDigits(f + "0") && DigitsValue(f + "0") == 10 * DigitsValue(f)
  {
    var g := f + "0";
    assert g[..|g| - 1] == f;
  }

  /** A trailing zero in the fraction does not change a decimal's value: 1.5 and 1.50 are equal. */
  lemma UnsignedTrailingZero(whole: string, fraction: string)
    requires IsDigits(whole) && IsDigits(fraction)
    ensures ParseUnsignedDecimal(whole + "." + fraction + "0").Some?
    ensures ParseUnsignedDecimal(whole + "." + fraction + "0") == ParseUnsignedDecimal(whole + "." + fraction)
  {
    PointValueZero(whole, fraction);
    DecimalOf(whole, fraction);
    DecimalOf(whole, fraction + "0");
    assert whole + "." + fraction + "0" == whole + "." + (fraction + "0");
  }

  /** With or without a minus sign, a trailing zero does not change a decimal: -1.50 is -1.5. */
  lemma TrailingZero(sign: string, whole: string, fraction: string)
    requires sign == "" || sign == "-"
    requires IsDigits(whole) && IsDigits(fraction)
    ensures ParseDecimal(sign + (whole + "." + fraction + "0")).Some?
    ensures ParseDecimal(sign + (whole + "." + fraction + "0")) == ParseDecimal(sign + (whole + "." + fraction))
  {
    var u, v := whole + "." + fraction, whole + "." + fraction + "0";
    UnsignedTrailingZero(whole, fraction);
    assert u[0] == whole[0] && v[0] == whole[0];
    SameUnsignedSameSigned(sign, v, u);
  }

  /** Texts the unsigned decoder reads alike are read alike behind the same sign. */
  lemma SameUnsignedSameSigned(sign: string, u: string, v: string)
    requires sign == "" || sign == "-"
    requires |u| > 0 && |v| > 0 && IsDigit(u[0]) && IsDigit(v[0])
    requires ParseUnsignedDecimal(u) == ParseUnsignedDecimal(v)
    ensures ParseDecimal(sign + u) == ParseDecimal(sign + v)
    ensures ParseUnsignedDecimal(u).Some? ==> ParseDecimal(sign + u).Some?
  {
    if sign == "-" {
      assert (sign + u)[0] == '-' && (sign + u)[1..] == u;
      assert (sign + v)[0] == '-' && (sign + v)[1..] == v;
    } else {
      assert sign + u == u && sign + v == v;
    }
  }

  /** Appending a zero to the fraction multiplies both its digits and its scale by ten. */
  lemma PointValueZero(whole: string, fraction: string)
    requires AllDigits(whole) && AllDigits(fraction)
    ensures AllDigits(fraction + "0") && PointValue(whole, fraction + "0") == PointValue(whole, fraction)
  {
    AppendZero(fraction);
    var a, p := DigitsValue(fraction) as real, Pow10(|fraction|) as real;
    assert |fraction + "0"| == |fraction| + 1;
    assert Pow10(|fraction + "0"|) as real == 10.0 * p;
    assert DigitsValue(fraction + "0") as real == 10.0 * a;
    assert (10.0 * a) / (10.0 * p) == a / p;
  }

  /** A point between two digit strings is read as the whole part and the fraction. */
  lemma DecimalOf(whole: string, fraction: string)
    requires IsDigits(whole) && IsDigits(fraction)
    ensures ParseUnsignedDecimal(whole + "." + fraction) == Some(PointValue(whole, fraction))
  {
    var s := whole + ['.'] + fraction;
    assert '.' !in whole by { assert AllDigits(whole); }
    IndexAfter(whole, '.', fraction);
    var k := IndexOf(s, '.');
    assert s[..k] == whole;
    assert s[k + 1..] == fraction;
    assert whole + "." + fraction == s;
  }
}
