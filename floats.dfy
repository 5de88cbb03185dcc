/**
 * Python's `float(field)` on the fields of an ink-coverage line, as an exact
 * decimal value: an optional sign, digits with an optional decimal point
 * (at least one digit), and an optional exponent `e`/`E` with an optional
 * sign and at least one digit. Anything else makes Python raise ValueError,
 * here `None`. Rounding to the nearest double is not modelled.
 */
module Floats {
  import opened Wrappers

  predicate IsDigit(c: char)
  {
    '0' <= c <= '9'
  }

  predicate AllDigits(s: string)
    decreases |s|
  {
    s == [] || (IsDigit(s[0]) && AllDigits(s[1..]))
  }

  /** The number `acc` followed by the decimal digits `s` denotes. */
  function DigitsValueFrom(acc: nat, s: string): nat
    requires AllDigits(s)
    decreases |s|
  {
    if s == [] then acc else DigitsValueFrom(acc * 10 + (s[0] as int - '0' as int), s[1..])
  }

  /** The number a string of decimal digits denotes. */
  function DigitsValue(s: string): nat
    requires AllDigits(s)
  {
    DigitsValueFrom(0, s)
  }

  function Pow10(n: nat): (r: nat)
    ensures r >= 1
  {
    if n == 0 then 1 else 10 * Pow10(n - 1)
  }

  /**
   * A decimal literal as read: `digits * 10^exponent`, negated when
   * `negative`. Parsing stays in integers; only `Value` divides.
   */
  datatype Decimal = Decimal(negative: bool, digits: nat, exponent: int) {
    function Value(): real
    {
      var magnitude := if exponent >= 0 then (digits * Pow10(exponent)) as real
                       else digits as real / Pow10(-exponent) as real;
      if negative then -magnitude else magnitude
    }
  }

  /** Index of the first '.', or |s| when there is none. */
  function FindDot(s: string): (r: nat)
    ensures r <= |s|
    decreases |s|
  {
    if s == [] then 0 else if s[0] == '.' then 0 else 1 + FindDot(s[1..])
  }

  predicate IsExponentMark(c: char)
  {
    c == 'e' || c == 'E'
  }

  /** Index of the first 'e' or 'E', or |s| when there is none. */
  function FindExponent(s: string): (r: nat)
    ensures r <= |s|
    decreases |s|
  {
    if s == [] then 0 else if IsExponentMark(s[0]) then 0 else 1 + FindExponent(s[1..])
  }

  /**
   * Digits around an optional decimal point, with at least one digit: the
   * digits as one number, and how many of them follow the point.
   */
  function ParseMantissa(s: string): Option<(nat, nat)>
  {
    var d := FindDot(s);
    var whole := s[..d];
    var frac := if d < |s| then s[d + 1..] else [];
    if whole == [] && frac == [] then None
    else if !AllDigits(whole + frac) then None
    else Some((DigitsValue(whole + frac), |frac|))
  }

  /** An optional sign followed by at least one digit. */
  function ParseExponent(s: string): Option<int>
  {
    var neg := |s| > 0 && s[0] == '-';
    var digits := if |s| > 0 && (s[0] == '+' || s[0] == '-') then s[1..] else s;
    if digits == [] || !AllDigits(digits) then None
    else
      var magnitude: int := DigitsValue(digits);
      Some(if neg then -magnitude else magnitude)
  }

  /** The literal `float` reads, None where it raises ValueError. */
  function ParseDecimal(s: string): Option<Decimal>
  {
    var neg := |s| > 0 && s[0] == '-';
    var body := if |s| > 0 && (s[0] == '+' || s[0] == '-') then s[1..] else s;
    var e := FindExponent(body);
    var mantissa := ParseMantissa(body[..e]);
    var exponent := if e < |body| then ParseExponent(body[e + 1..]) else Some(0);
    if mantissa.None? || exponent.None? then None
    else Some(Decimal(neg, mantissa.value.0, exponent.value - mantissa.value.1))
  }

  /** `float(s)`, None where Python raises ValueError. */
  function ParseReal(s: string): Option<real>
  {
    match ParseDecimal(s)
    case None => None
    case Some(d) => Some(d.Value())
  }

  lemma {:induction false} AllDigitsAppend(a: string, b: string)
    requires AllDigits(a) && AllDigits(b)
    ensures AllDigits(a + b)
    decreases |a|
  {
    if a == [] {
      assert a + b == b;
    } else {
      assert (a + b)[0] == a[0];
      assert (a + b)[1..] == a[1..] + b;
      AllDigitsAppend(a[1..], b);
    }
  }

  /** Leading digits hold no decimal point. */
  lemma {:induction false} FindDotAfterDigits(a: string, rest: string)
    requires AllDigits(a)
    ensures FindDot(a + rest) == |a| + FindDot(rest)
    decreases |a|
  {
    if a == [] {
      assert a + rest == rest;
    } else {
      assert (a + rest)[0] == a[0];
      assert (a + rest)[1..] == a[1..] + rest;
      FindDotAfterDigits(a[1..], rest);
    }
  }

  /** Leading digits hold no exponent mark. */
  lemma {:induction false} FindExponentAfterDigits(a: string, rest: string)
    requires AllDigits(a)
    ensures FindExponent(a + rest) == |a| + FindExponent(rest)
    decreases |a|
  {
    if a == [] {
      assert a + rest == rest;
    } else {
      assert (a + rest)[0] == a[0];
      assert (a + rest)[1..] == a[1..] + rest;
      FindExponentAfterDigits(a[1..], rest);
    }
  }

  /** Digits, a decimal point and digits: all the digits, and the fraction's length. */
  lemma MantissaFixedPoint(whole: string, frac: string)
    requires whole != [] && AllDigits(whole) && AllDigits(frac)
    ensures AllDigits(whole + frac)
    ensures ParseMantissa(whole + "." + frac) == Some((DigitsValue(whole + frac), |frac|))
  {
    var body := whole + "." + frac;
    assert body == whole + ("." + frac);
    FindDotAfterDigits(whole, "." + frac);
    assert FindDot(body) == |whole|;
    assert body[..|whole|] == whole;
    assert body[|whole| + 1..] == frac;
    AllDigitsAppend(whole, frac);
  }

  /** Without a sign or an exponent a literal reads as its mantissa. */
  lemma ParseDecimalUnsigned(body: string, digits: nat, decimals: nat)
    requires body != [] && body[0] != '+' && body[0] != '-'
    requires FindExponent(body) == |body|
    requires ParseMantissa(body) == Some((digits, decimals))
    ensures ParseDecimal(body) == Some(Decimal(false, digits, -(decimals as int)))
  {
    assert body[..|body|] == body;
  }

  /** Digits, a point and digits, with no exponent mark anywhere. */
  lemma FixedPointHasNoExponent(whole: string, frac: string)
    requires AllDigits(whole) && AllDigits(frac)
    ensures FindExponent(whole + "." + frac) == |whole + "." + frac|
  {
    assert whole + "." + frac == whole + ("." + frac);
    FindExponentAfterDigits(whole, "." + frac);
    assert ("." + frac)[1..] == frac;
    FindExponentAfterDigits(frac, []);
    assert frac + [] == frac;
  }

  /**
   * The fixed-point form the ink-coverage device prints ("0.02381") reads
   * as all its digits over ten to the length of the fraction.
   */
  lemma ParseFixedPoint(whole: string, frac: string)
    requires whole != [] && AllDigits(whole) && AllDigits(frac)
    ensures AllDigits(whole + frac)
    ensures ParseDecimal(whole + "." + frac) == Some(Decimal(false, DigitsValue(whole + frac), -|frac|))
  {
    var body := whole + "." + frac;
    assert body[0] == whole[0] && IsDigit(whole[0]);
    FixedPointHasNoExponent(whole, frac);
    MantissaFixedPoint(whole, frac);
    ParseDecimalUnsigned(body, DigitsValue(whole + frac), |frac|);
  }
}
