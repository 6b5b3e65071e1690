/**
 * The decimal-number reader that `pd.to_numeric(..., errors='coerce')`
 * applies to a cleaned price string, restricted to finite decimals: an
 * optional sign, digits, and an optional fractional part after a point.
 * Anything else reads as missing.
 */
module Decimal {

  import opened Wrappers
  import opened Text

  datatype Sign = Unsigned | Plus | Minus

  /** The value of the digits after the decimal point: "25" is 0.25. */
  function FracValue(f: string): (v: real)
    requires AllDigits(f)
  {
    if f == [] then 0.0 else (DigitValue(f[0]) as real + FracValue(f[1..])) / 10.0
  }

  /** The fraction digits denote a value in [0, 1). */
  lemma {:induction false} FracValueBound(f: string)
    requires AllDigits(f)
    ensures 0.0 <= FracValue(f) < 1.0
  {
    if f != [] {
      FracValueBound(f[1..]);
    }
  }

  /** An unsigned decimal: digits, optionally a point and more digits, at least one digit in all. */
  function ParseUnsigned(t: string): (r: Option<real>)
    ensures r.Some? ==> 0.0 <= r.value && t != []
  {
    var i := Span(t, IsDigit);
    var rest := t[i..];
    if rest == [] then
      if i > 0 then Some(DigitsValue(t[..i]) as real) else None
    else if rest[0] == '.' && AllDigits(rest[1..]) && i + |rest| > 1 then
      FracValueBound(rest[1..]);
      Some(DigitsValue(t[..i]) as real + FracValue(rest[1..]))
    else None
  }

  /** The sign a literal starts with, if any. */
  function SignOf(s: string): Sign {
    if s != [] && s[0] == '-' then Minus
    else if s != [] && s[0] == '+' then Plus
    else Unsigned
  }

  /** The literal without its sign. */
  function Unsign(s: string): string {
    if SignOf(s) == Unsigned then s else s[1..]
  }

  /** `s` read as a signed decimal number, or None when it is not one. */
  function ParseDecimal(s: string): (r: Option<real>)
    ensures r.Some? ==> s != []
    ensures r.Some? && SignOf(s) == Minus ==> r.value <= 0.0
    ensures r.Some? && SignOf(s) != Minus ==> r.value >= 0.0
  {
    match ParseUnsigned(Unsign(s))
    case None => None
    case Some(v) => Some(if SignOf(s) == Minus then -v else v)
  }

  // An independent description of the accepted literals: a sign, the
  // integer digits, whether there is a point, and the fractional digits.

  function SignText(sg: Sign): string {
    match sg
    case Unsigned => ""
    case Plus => "+"
    case Minus => "-"
  }

  function Render(sg: Sign, a: string, dot: bool, f: string): string {
    SignText(sg) + a + (if dot then "." + f else "")
  }

  predicate WellFormed(a: string, dot: bool, f: string) {
    AllDigits(a) && AllDigits(f) && |a| + |f| > 0 && (!dot ==> f == [])
  }

  function Value(sg: Sign, a: string, f: string): real
    requires AllDigits(a) && AllDigits(f)
  {
    var v := DigitsValue(a) as real + FracValue(f);
    if sg == Minus then -v else v
  }

  /** Digits alone read as the integer they write. */
  lemma ParseInteger(a: string)
    requires AllDigits(a) && a != []
    ensures ParseUnsigned(a) == Some(DigitsValue(a) as real)
  {
    SpanPrefix(a, "", IsDigit);
    assert a + "" == a;
    assert a[..|a|] == a;
  }

  /** Digits, a point and digits read as the integer part plus the fraction. */
  lemma ParseFraction(a: string, f: string)
    requires AllDigits(a) && AllDigits(f) && |a| + |f| > 0
    ensures ParseUnsigned(a + ("." + f)) == Some(DigitsValue(a) as real + FracValue(f))
  {
    var rest := "." + f;
    var t := a + rest;
    SpanPrefix(a, rest, IsDigit);
    assert t[..|a|] == a;
    assert t[|a|..] == rest;
    assert rest[1..] == f;
  }

  /** The unsigned part of a well-formed literal reads as its unsigned value. */
  lemma ParseUnsignedRender(a: string, dot: bool, f: string)
    requires WellFormed(a, dot, f)
    ensures ParseUnsigned(Render(Unsigned, a, dot, f)) == Some(DigitsValue(a) as real + FracValue(f))
  {
    if dot {
      assert Render(Unsigned, a, dot, f) == a + ("." + f);
      ParseFraction(a, f);
    } else {
      assert Render(Unsigned, a, dot, f) == a;
      ParseInteger(a);
    }
  }

  /** A literal is its sign followed by the rest. */
  lemma SignSplit(s: string)
    ensures s == SignText(SignOf(s)) + Unsign(s)
  {
    if SignOf(s) != Unsigned {
      assert s == [s[0]] + s[1..];
    }
  }

  /** A well-formed unsigned literal is not empty and starts with a digit or the point, never a sign. */
  lemma UnsignedStart(a: string, dot: bool, f: string)
    requires WellFormed(a, dot, f)
    ensures var t := Render(Unsigned, a, dot, f); t != [] && t[0] != '-' && t[0] != '+'
  {
    var t := Render(Unsigned, a, dot, f);
    if a != [] {
      assert t[0] == a[0];
    } else {
      assert t == "." + f;
    }
  }

  lemma RenderSigned(sg: Sign, a: string, dot: bool, f: string)
    ensures Render(sg, a, dot, f) == SignText(sg) + Render(Unsigned, a, dot, f)
  {
    var rest := if dot then "." + f else "";
    assert SignText(sg) + a + rest == SignText(sg) + (a + rest);
    assert "" + a == a;
  }

  /** The sign and the unsigned part of a well-formed literal are the ones it was rendered from. */
  lemma RenderSign(sg: Sign, a: string, dot: bool, f: string)
    requires WellFormed(a, dot, f)
    ensures SignOf(Render(sg, a, dot, f)) == sg
    ensures Unsign(Render(sg, a, dot, f)) == Render(Unsigned, a, dot, f)
  {
    var t := Render(Unsigned, a, dot, f);
    var s := Render(sg, a, dot, f);
    UnsignedStart(a, dot, f);
    RenderSigned(sg, a, dot, f);
    if sg == Unsigned {
      assert s == t;
    } else {
      assert s[0] == SignText(sg)[0];
      assert s[1..] == t;
    }
  }

  /** Every well-formed literal reads as its value. */
  lemma ParseRender(sg: Sign, a: string, dot: bool, f: string)
    requires WellFormed(a, dot, f)
    ensures ParseDecimal(Render(sg, a, dot, f)) == Some(Value(sg, a, f))
  {
    ParseUnsignedRender(a, dot, f);
    RenderSign(sg, a, dot, f);
  }

  /** An unsigned reading comes from a well-formed unsigned literal of that value. */
  lemma ParseUnsignedSound(t: string, v: real) returns (a: string, dot: bool, f: string)
    requires ParseUnsigned(t) == Some(v)
    ensures WellFormed(a, dot, f) && t == Render(Unsigned, a, dot, f)
    ensures v == DigitsValue(a) as real + FracValue(f)
  {
    var i := Span(t, IsDigit);
    a := t[..i];
    var rest := t[i..];
    dot := rest != [];
    f := if dot then rest[1..] else "";
    if dot {
      assert rest == "." + f;
    }
    assert t == a + rest;
  }

  /** Whatever reads as a number is a well-formed literal of that value. */
  lemma ParseSound(s: string, v: real) returns (sg: Sign, a: string, dot: bool, f: string)
    requires ParseDecimal(s) == Some(v)
    ensures WellFormed(a, dot, f) && s == Render(sg, a, dot, f) && v == Value(sg, a, f)
  {
    sg := SignOf(s);
    var u := ParseUnsigned(Unsign(s)).value;
    a, dot, f := ParseUnsignedSound(Unsign(s), u);
    SignSplit(s);
    RenderSigned(sg, a, dot, f);
  }

  /** The reading of "1.5" is 1.5. */
  lemma ParseOnePointFive()
    ensures ParseDecimal("1.5") == Some(1.5)
  {
    ParseRender(Unsigned, "1", true, "5");
    assert Render(Unsigned, "1", true, "5") == "1.5";
  }

  /** The reading of "-1.5" is -1.5. */
  lemma ParseMinusOnePointFive()
    ensures ParseDecimal("-1.5") == Some(-1.5)
  {
    ParseRender(Minus, "1", true, "5");
    assert Render(Minus, "1", true, "5") == "-1.5";
  }

  /** Neither the empty string nor "nan" is a number. */
  lemma ParseNonNumbers()
    ensures ParseDecimal("") == None
    ensures ParseDecimal("nan") == None
  {
    assert Span("nan", IsDigit) == 0;
  }

  /** Text after the number spoils it: "1.5oe" is not a number. */
  lemma ParseTrailingJunk()
    ensures ParseDecimal("1.5oe") == None
  {
    assert Span("1.5oe", IsDigit) == 1;
    assert "1.5oe"[1..] == ".5oe";
    assert !IsDigit(".5oe"[1..][1]);
  }
}
