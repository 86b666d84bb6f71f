/**
 * The JavaScript values the profile editor stores in its records, with the
 * three operations the editor applies to them: truthiness (`if (x)`,
 * `x || y`), strict equality (`===`) and numeric conversion (`Number(x)`).
 * Numbers are integers here; fractional numbers are not modelled.
 */
module JsValue {
  import opened Wrappers
  import opened JsText
  import opened Decimal

  datatype Value = Str(s: string) | Num(n: int) | NaN

  /** Truthiness of a possibly-undefined value: `undefined`, `""`, `0` and `NaN` are falsy. */
  predicate Truthy(v: Option<Value>) {
    match v
    case None => false
    case Some(Str(s)) => s != ""
    case Some(Num(n)) => n != 0
    case Some(NaN) => false
  }

  /** `a === b` on possibly-undefined values: `NaN` equals nothing, not even itself. */
  predicate StrictEquals(a: Option<Value>, b: Option<Value>) {
    a == b && a != Some(NaN)
  }

  /** An optional sign followed by one or more decimal digits. */
  predicate IsSignedInteger(t: string) {
    || (|t| >= 1 && AllDigits(t))
    || (|t| >= 2 && (t[0] == '-' || t[0] == '+') && AllDigits(t[1..]))
  }

  /**
   * `Number(s)` for a string: white space around the number is ignored, a
   * blank string is 0, a signed decimal integer is its value, anything else
   * is NaN.
   */
  function ParseNumber(s: string): (r: Value)
    ensures r.Num? || r.NaN?
    ensures r.NaN? <==> Trim(s) != [] && !IsSignedInteger(Trim(s))
  {
    var t := Trim(s);
    if t == [] then Num(0)
    else if |t| >= 1 && AllDigits(t) then Num(ValueOf(t))
    else if |t| >= 2 && t[0] == '-' && AllDigits(t[1..]) then Num(-(ValueOf(t[1..]) as int))
    else if |t| >= 2 && t[0] == '+' && AllDigits(t[1..]) then Num(ValueOf(t[1..]))
    else NaN
  }

  /** `Number(v)` for a possibly-undefined value: `Number(undefined)` is NaN. */
  function ToNumber(v: Option<Value>): (r: Value)
    ensures r.Num? || r.NaN?
    ensures v.Some? && v.value.Num? ==> r == v.value
  {
    match v
    case None => NaN
    case Some(Num(n)) => Num(n)
    case Some(NaN) => NaN
    case Some(Str(s)) => ParseNumber(s)
  }

  /** What a number input holding a decimal integer yields: `Number` reads back the integer. */
  lemma ParseNumberShow(n: nat)
    ensures ParseNumber(Show(n)) == Num(n)
  {
    ValueOfShow(n);
    ShowIsTrimmed(n);
  }

  /** With a minus sign in front, `Number` reads back the negated integer. */
  lemma ParseNumberShowNegative(n: nat)
    ensures ParseNumber("-" + Show(n)) == Num(-(n as int))
  {
    ValueOfShow(n);
    ParseNegativeDigits(Show(n), n);
  }

  /** Decimal digits, leading zeros included, read back as their value. */
  lemma ParseDigits(s: string, v: nat)
    requires |s| >= 1 && AllDigits(s) && ValueOf(s) == v
    ensures ParseNumber(s) == Num(v)
  {
    DigitIsNotWhitespace(s[0]);
    DigitIsNotWhitespace(s[|s| - 1]);
    TrimUntouched(s);
  }

  /** A plus sign followed by decimal digits reads back as the value of the digits. */
  lemma ParsePlusDigits(s: string, v: nat)
    requires |s| >= 1 && AllDigits(s) && ValueOf(s) == v
    ensures ParseNumber("+" + s) == Num(v)
  {
    var m := "+" + s;
    assert m[1..] == s;
    assert m[|m| - 1] == s[|s| - 1];
    DigitIsNotWhitespace(s[|s| - 1]);
    assert !IsWhitespace(m[0]);
    TrimUntouched(m);
    assert !AllDigits(m) by {
      assert !IsDigit(m[0]);
    }
  }

  /** A minus sign followed by decimal digits reads back as the negated value of the digits. */
  lemma ParseNegativeDigits(s: string, v: nat)
    requires |s| >= 1 && AllDigits(s) && ValueOf(s) == v
    ensures ParseNumber("-" + s) == Num(-(v as int))
  {
    var m := "-" + s;
    assert m[1..] == s;
    assert m[|m| - 1] == s[|s| - 1];
    DigitIsNotWhitespace(s[|s| - 1]);
    assert !IsWhitespace(m[0]);
    TrimUntouched(m);
    assert !AllDigits(m) by {
      assert !IsDigit(m[0]);
    }
  }

  lemma ShowIsTrimmed(n: nat)
    ensures Trim(Show(n)) == Show(n)
  {
    var s := Show(n);
    DigitIsNotWhitespace(s[0]);
    DigitIsNotWhitespace(s[|s| - 1]);
    TrimUntouched(s);
  }

  lemma DigitIsNotWhitespace(c: char)
    requires IsDigit(c)
    ensures !IsWhitespace(c)
  {
  }
}
