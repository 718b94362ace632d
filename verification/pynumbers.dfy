/**
 * Python's `int(text)` and `float(text)`, the two conversions the latency
 * proxy's address and route parsers apply to command-line text.
 */
module PyNumbers {
  import opened Wrappers
  import opened Text

  /** A run of decimal digits in which a single underscore may stand between
      two digits, as Python's numeric syntax allows. */
  predicate IsDigitPart(s: string) {
    |s| > 0 && IsDigit(s[0]) && (|s| == 1 || IsDigitPart(if s[1] == '_' then s[2..] else s[1..]))
  }

  /** The decimal digits of `s`, in order; underscores (and anything else) dropped. */
  function Digits(s: string): (d: string)
    ensures AllDigits(d) && |d| <= |s|
  {
    if s == [] then []
    else if IsDigit(s[|s| - 1]) then Digits(s[..|s| - 1]) + [s[|s| - 1]]
    else Digits(s[..|s| - 1])
  }

  lemma {:induction false} DigitsOfAllDigits(s: string)
    requires AllDigits(s)
    ensures Digits(s) == s
  {
    if s != [] {
      DigitsOfAllDigits(s[..|s| - 1]);
      assert s[..|s| - 1] + [s[|s| - 1]] == s;
    }
  }

  /** Every non-empty run of plain digits is a digit part. */
  lemma {:induction false} DigitPartOfAllDigits(s: string)
    requires |s| > 0 && AllDigits(s)
    ensures IsDigitPart(s)
  {
    if |s| > 1 {
      DigitPartOfAllDigits(s[1..]);
    }
  }

  function DigitPartValue(s: string): nat {
    DigitsValue(Digits(s))
  }

  /** An optional sign followed by a digit part: what remains of `int()`'s
      argument once the surrounding whitespace is stripped, and the exponent
      of a `float()` literal. */
  function SignedDigitPart(t: string): Option<int> {
    if |t| > 0 && (t[0] == '+' || t[0] == '-') then
      if IsDigitPart(t[1..]) then
        Some(if t[0] == '-' then -(DigitPartValue(t[1..]) as int) else DigitPartValue(t[1..]))
      else None
    else if IsDigitPart(t) then Some(DigitPartValue(t))
    else None
  }

  /** The default of `sys.get_int_max_str_digits()`: `int()` refuses decimal
      text of more digits than this. */
  const IntMaxStrDigits: nat := 4300

  /** Python's `int(text)`: surrounding whitespace (the `Numeric` set, not
      all of `str.isspace`) is stripped, then an
      optional sign and a digit part must make up the rest, of no more than
      `IntMaxStrDigits` digits (underscores and the sign not counted). */
  function ParseInt(text: string): (r: Option<int>)
    ensures r.Some? ==> |Digits(Strip(text, Numeric))| <= IntMaxStrDigits
  {
    var t := Strip(text, Numeric);
    if |Digits(t)| > IntMaxStrDigits then None else SignedDigitPart(t)
  }

  /** Digits carry no surrounding whitespace, so stripping keeps them. */
  lemma StripOfDigits(s: string)
    requires |s| > 0 && AllDigits(s)
    ensures Strip(s, Numeric) == s
  {
    StripKeeps(s, Numeric);
  }

  /** `int()` of a non-empty run of plain digits is the number they spell,
      up to the digit limit, and refused beyond it. */
  lemma ParseIntOfDigits(s: string)
    requires |s| > 0 && AllDigits(s)
    ensures ParseInt(s) == if |s| <= IntMaxStrDigits then Some(DigitsValue(s)) else None
  {
    StripOfDigits(s);
    DigitsOfAllDigits(s);
    assert Digits(Strip(s, Numeric)) == s;
    if |s| <= IntMaxStrDigits {
      DigitPartOfAllDigits(s);
      assert s[0] != '+' && s[0] != '-';
      assert SignedDigitPart(s) == Some(DigitPartValue(s));
    }
  }

  /** `int(str(n)) == n` for every natural number of at most
      `IntMaxStrDigits` digits; a longer one is refused. */
  lemma ParseIntOfNatString(n: nat)
    ensures ParseInt(NatToString(n)) == if |NatToString(n)| <= IntMaxStrDigits then Some(n) else None
  {
    ParseIntOfDigits(NatToString(n));
    NatToStringRoundTrip(n);
  }

  /** Text without any decimal digit is never an integer. */
  lemma ParseIntNeedsDigit(text: string)
    requires forall i :: 0 <= i < |text| ==> !IsDigit(text[i])
    ensures ParseInt(text) == None
  {
    var t := Strip(text, Numeric);
    StripWithin(text, Numeric);
    if |t| > 0 {
      assert !IsDigit(t[0]);
      if |t| > 1 {
        assert !IsDigit(t[1]);
      }
    }
  }

  /** The information separators U+001C to U+001F count as whitespace for
      `str.strip()` but not for `int()`: a number text that starts with one
      is refused. */
  lemma SeparatorNotSkipped(c: char, rest: string)
    requires '\U{1C}' <= c <= '\U{1F}'
    ensures IsSpace(Python, c) && !IsSpace(Numeric, c)
    ensures ParseInt([c] + rest) == None
  {
    var s := [c] + rest;
    assert TrimStart(s, Numeric) == s;
    TrimEndPrefix(s, Numeric);
    var t := Strip(s, Numeric);
    assert |t| > 0 && t[0] == c;
  }

  /** The value of a Python float: a real number (binary64 rounding is not
      modelled), an infinity, or not-a-number. */
  datatype Float = Finite(value: real) | Infinite(negative: bool) | NaN

  /** Python's `x < 0` on a float: false for NaN and for -0.0. */
  predicate IsNegative(f: Float) {
    (f.Finite? && f.value < 0.0) || (f.Infinite? && f.negative)
  }

  function Pow10(n: nat): (r: real)
    ensures r >= 1.0
  {
    if n == 0 then 1.0 else 10.0 * Pow10(n - 1)
  }

  /** The number `whole.fraction` where `fraction` is written with `places` digits. */
  function Decimal(whole: nat, fraction: nat, places: nat): real {
    whole as real + fraction as real / Pow10(places)
  }

  /** `x` times ten to the power `e`. */
  function Scale(x: real, e: int): real {
    if e >= 0 then x * Pow10(e) else x / Pow10(-e)
  }

  /** Digits with an optional decimal point: an integer part, a fraction, or
      both, at least one of them present. */
  function MantissaValue(m: string): Option<real> {
    match SplitFirst(m, '.')
    case None =>
      if IsDigitPart(m) then Some(DigitPartValue(m) as real) else None
    case Some((whole, fraction)) =>
      if (whole == [] || IsDigitPart(whole)) && (fraction == [] || IsDigitPart(fraction))
         && !(whole == [] && fraction == [])
      then Some(Decimal(DigitPartValue(whole), DigitPartValue(fraction), |Digits(fraction)|))
      else None
  }

  /** Python's `float(text)`: surrounding `Numeric` whitespace stripped, an optional
      sign, then "inf", "infinity" or "nan" in any ASCII case, or a decimal
      literal with an optional exponent. */
  function ParseFloat(text: string): (r: Option<Float>)
    ensures r.Some? ==> Strip(text, Numeric) != []
  {
    var t := Strip(text, Numeric);
    var signed := |t| > 0 && (t[0] == '+' || t[0] == '-');
    FloatBody(AsciiLower(if signed then t[1..] else t), signed && t[0] == '-')
  }

  /** The rest of `float()`'s argument once the sign is taken off, in lower case. */
  function FloatBody(body: string, negative: bool): Option<Float> {
    if body == "inf" || body == "infinity" then Some(Infinite(negative))
    else if body == "nan" then Some(NaN)
    else
      match DecimalValue(body)
      case Some(x) => Some(Finite(if negative then -x else x))
      case None => None
  }

  /** An unsigned decimal literal with an optional exponent. */
  function DecimalValue(body: string): Option<real> {
    match SplitFirst(body, 'e')
    case None => MantissaValue(body)
    case Some((m, e)) =>
      match (MantissaValue(m), SignedDigitPart(e))
      case (Some(x), Some(k)) => Some(Scale(x, k))
      case _ => None
  }

  /** "nan" is a float, and it is not negative. */
  lemma NanIsNotNegative()
    ensures ParseFloat("nan") == Some(NaN) && !IsNegative(NaN)
  {
    StripKeeps("nan", Numeric);
    assert AsciiLower("nan") == "nan";
  }

  /** The mantissa `w.f` of plain digit strings is the decimal fraction they spell. */
  lemma MantissaOfDigits(m: string, w: string, f: string)
    requires SplitFirst(m, '.') == Some((w, f))
    requires |w| > 0 && AllDigits(w) && AllDigits(f)
    ensures MantissaValue(m) == Some(Decimal(DigitsValue(w), DigitsValue(f), |f|))
  {
    DigitPartOfAllDigits(w);
    if f != [] { DigitPartOfAllDigits(f); }
    DigitsOfAllDigits(w);
    DigitsOfAllDigits(f);
  }

  /** Text that starts with a digit and has no exponent is read as a plain mantissa. */
  lemma FloatBodyOfMantissa(t: string)
    requires |t| > 0 && IsDigit(t[0]) && 'e' !in t
    ensures FloatBody(t, false) == if MantissaValue(t).Some? then Some(Finite(MantissaValue(t).value)) else None
  {
    assert t != "inf" && t != "infinity" && t != "nan" by {
      assert IsDigit(t[0]);
    }
  }

  /** Text that starts and ends with a digit reaches the body unchanged: no
      whitespace, no sign, and lower-casing leaves it alone when it holds no
      capital letter. */
  lemma ParseFloatOfUnsigned(t: string)
    requires |t| > 0 && IsDigit(t[0]) && !IsSpace(Numeric, t[|t| - 1])
    requires forall i :: 0 <= i < |t| ==> !('A' <= t[i] <= 'Z')
    ensures ParseFloat(t) == FloatBody(t, false)
  {
    StripKeeps(t, Numeric);
    assert AsciiLower(t) == t;
  }

  /** What `w + "." + f` looks like when `w` (not empty) and `f` are digit strings. */
  lemma DecimalTextShape(w: string, f: string)
    requires |w| > 0 && AllDigits(w) && AllDigits(f)
    ensures SplitFirst(w + "." + f, '.') == Some((w, f))
    ensures IsDigit((w + "." + f)[0]) && !IsSpace(Numeric, (w + "." + f)[|w| + |f|])
    ensures 'e' !in w + "." + f
    ensures forall i :: 0 <= i < |w| + 1 + |f| ==> !('A' <= (w + "." + f)[i] <= 'Z')
  {
    var text := w + "." + f;
    assert text == w + ['.'] + f;
    SplitFirstOf(w, '.', f);
    assert text[0] == w[0];
    if f == [] { assert text[|text| - 1] == '.'; } else { assert text[|text| - 1] == f[|f| - 1]; }
    forall i | 0 <= i < |text|
      ensures text[i] == '.' || IsDigit(text[i])
    {
      if i < |w| { assert text[i] == w[i]; }
      else if i > |w| { assert text[i] == f[i - |w| - 1]; }
    }
  }

  /** `float(w + "." + f)` for digit strings `w` (not empty) and `f` is
      w + f / 10^|f|: the decimal fraction the text spells. */
  lemma ParseFloatOfDecimal(w: string, f: string)
    requires |w| > 0 && AllDigits(w) && AllDigits(f)
    ensures ParseFloat(w + "." + f) == Some(Finite(Decimal(DigitsValue(w), DigitsValue(f), |f|)))
  {
    DecimalTextShape(w, f);
    MantissaOfDigits(w + "." + f, w, f);
    FloatBodyOfMantissa(w + "." + f);
    ParseFloatOfUnsigned(w + "." + f);
  }

  /** "0.250", the latency of the default routes, is a quarter of a second. */
  lemma QuarterSecond()
    ensures ParseFloat("0.250") == Some(Finite(0.25))
  {
    var w, f := "0", "250";
    assert w + "." + f == "0.250";
    QuarterSecondValue();
    ParseFloatOfDecimal(w, f);
  }

  lemma QuarterSecondValue()
    ensures Decimal(DigitsValue("0"), DigitsValue("250"), 3) == 0.25
  {
    assert DigitsValue("250") == 250 by {
      assert "250"[..2] == "25" && "25"[..1] == "2" && "2"[..0] == "";
    }
    assert Pow10(3) == 1000.0;
  }
}
