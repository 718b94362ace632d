/**
 * Character classes, decimal digits, trimming and splitting: the string
 * primitives that Python's `str`/`int`/`float` and Rust's `str` methods
 * provide to the parsers of this model.
 */
module Text {
  import opened Wrappers

  predicate IsDigit(c: char) { '0' <= c <= '9' }

  predicate AllDigits(s: string) { forall i :: 0 <= i < |s| ==> IsDigit(s[i]) }

  function DigitValue(c: char): (d: nat)
    requires IsDigit(c)
    ensures d < 10
  {
    c as int - '0' as int
  }

  function DigitChar(d: nat): (c: char)
    requires d < 10
    ensures IsDigit(c) && DigitValue(c) == d
  {
    (d + '0' as int) as char
  }

  /** The number a string of decimal digits denotes, most significant digit first. */
  function DigitsValue(s: string): nat
    requires AllDigits(s)
  {
    if s == [] then 0 else DigitsValue(s[..|s| - 1]) * 10 + DigitValue(s[|s| - 1])
  }

  /** A character that is not a digit does not occur in a digit string. */
  lemma NotInDigits(s: string, c: char)
    requires AllDigits(s) && !IsDigit(c)
    ensures c !in s
  {
  }

  /** Decimal text of a natural number, with no sign and no leading zero
      (Python's `str(n)`, Rust's `{}` formatting). */
  function NatToString(n: nat): (s: string)
    ensures |s| > 0 && AllDigits(s)
    ensures |s| > 1 ==> s[0] != '0'
  {
    if n < 10 then [DigitChar(n)] else NatToString(n / 10) + [DigitChar(n % 10)]
  }

  /** Reading the digits back gives the number that was written. */
  lemma {:induction false} NatToStringRoundTrip(n: nat)
    ensures DigitsValue(NatToString(n)) == n
  {
    if n >= 10 {
      NatToStringRoundTrip(n / 10);
      var s := NatToString(n);
      assert s[..|s| - 1] == NatToString(n / 10);
    }
  }

  /** `10^k`. */
  function TenPower(k: nat): (p: nat)
    ensures p > 0
  {
    if k == 0 then 1 else 10 * TenPower(k - 1)
  }

  /** A number below `10^k` takes at most `k` digits (and one digit when it is 0). */
  lemma {:induction false} NatToStringLength(n: nat, k: nat)
    requires 0 < k && n < TenPower(k)
    ensures |NatToString(n)| <= k
  {
    if n >= 10 {
      assert TenPower(1) == 10;
      assert k >= 2;
      assert n / 10 < TenPower(k - 1);
      NatToStringLength(n / 10, k - 1);
    }
  }

  /** Decimal text of an integer: a '-' for negative values, then the digits. */
  function IntToString(i: int): (s: string)
    ensures |s| > 0 && (s[0] == '-' <==> i < 0)
  {
    if i < 0 then "-" + NatToString(-i) else NatToString(i)
  }

  /** Reads an optional '-' followed by at least one decimal digit. */
  function SignedValue(s: string): Option<int> {
    if |s| > 1 && s[0] == '-' && AllDigits(s[1..]) then Some(-(DigitsValue(s[1..]) as int))
    else if |s| > 0 && AllDigits(s) then Some(DigitsValue(s))
    else None
  }

  lemma IntToStringRoundTrip(i: int)
    ensures SignedValue(IntToString(i)) == Some(i)
  {
    if i < 0 {
      NatToStringRoundTrip(-i);
      assert IntToString(i)[1..] == NatToString(-i);
    } else {
      NatToStringRoundTrip(i);
    }
  }

  /** Rust's `char::is_whitespace`: the characters with the Unicode White_Space property. */
  predicate IsRustSpace(c: char) {
    || ('\t' <= c <= '\r')
    || c == ' ' || c == '\U{85}' || c == '\U{A0}' || c == '\U{1680}'
    || ('\U{2000}' <= c <= '\U{200A}')
    || c == '\U{2028}' || c == '\U{2029}' || c == '\U{202F}' || c == '\U{205F}' || c == '\U{3000}'
  }

  /** Python's `str.isspace`: the same set plus the separators U+001C to U+001F. */
  predicate IsPySpace(c: char) {
    IsRustSpace(c) || ('\U{1C}' <= c <= '\U{1F}')
  }

  /** Which whitespace set a trim uses: Python's `str.strip()`, Rust's
      `str::trim`, or the narrower set Python's `int()` and `float()` skip
      around a number. */
  datatype Whitespace = Python | Rust | Numeric

  /** `Numeric` is the ASCII whitespace of C's `isspace` (tab, line feed,
      vertical tab, form feed, carriage return, space) together with the
      non-ASCII characters `str.isspace` accepts: exactly the Unicode
      White_Space set. U+001C to U+001F are not skipped. */
  predicate IsSpace(space: Whitespace, c: char) {
    match space
    case Python => IsPySpace(c)
    case Rust => IsRustSpace(c)
    case Numeric => IsRustSpace(c)
  }

  /** Drops the leading whitespace. */
  function TrimStart(s: string, space: Whitespace): string {
    if s != [] && IsSpace(space, s[0]) then TrimStart(s[1..], space) else s
  }

  /** Drops the trailing whitespace. */
  function TrimEnd(s: string, space: Whitespace): string {
    if s != [] && IsSpace(space, s[|s| - 1]) then TrimEnd(s[..|s| - 1], space) else s
  }

  /** What is left after trimming the start is a suffix that does not start
      with whitespace, and everything dropped was whitespace. */
  lemma {:induction false} TrimStartSuffix(s: string, space: Whitespace)
    ensures var r := TrimStart(s, space);
      |r| <= |s| && r == s[|s| - |r|..] && (r == [] || !IsSpace(space, r[0]))
      && forall i :: 0 <= i < |s| - |r| ==> IsSpace(space, s[i])
  {
    if s != [] && IsSpace(space, s[0]) {
      TrimStartSuffix(s[1..], space);
      var r := TrimStart(s[1..], space);
      assert s[1..][|s| - 1 - |r|..] == s[|s| - |r|..];
      forall i | 1 <= i < |s| - |r|
        ensures IsSpace(space, s[i])
      {
        assert s[i] == s[1..][i - 1];
      }
    }
  }

  /** What is left after trimming the end is a prefix that does not end with
      whitespace, and everything dropped was whitespace. */
  lemma {:induction false} TrimEndPrefix(s: string, space: Whitespace)
    ensures var r := TrimEnd(s, space);
      |r| <= |s| && r == s[..|r|] && (r == [] || !IsSpace(space, r[|r| - 1]))
      && forall i :: |r| <= i < |s| ==> IsSpace(space, s[i])
  {
    if s != [] && IsSpace(space, s[|s| - 1]) {
      TrimEndPrefix(s[..|s| - 1], space);
      var r := TrimEnd(s[..|s| - 1], space);
      assert s[..|s| - 1][..|r|] == s[..|r|];
      forall i | |r| <= i < |s| - 1
        ensures IsSpace(space, s[i])
      {
        assert s[i] == s[..|s| - 1][i];
      }
    }
  }

  /** Python's `str.strip()` and Rust's `str::trim`: both ends trimmed. */
  function Strip(s: string, space: Whitespace): string {
    TrimEnd(TrimStart(s, space), space)
  }

  /** Text that neither starts nor ends with a space is left as it is. */
  lemma StripKeeps(s: string, space: Whitespace)
    requires s == [] || (!IsSpace(space, s[0]) && !IsSpace(space, s[|s| - 1]))
    ensures Strip(s, space) == s
  {
  }

  /** Every character that survives stripping comes from the original text. */
  lemma StripWithin(s: string, space: Whitespace)
    ensures forall i :: 0 <= i < |Strip(s, space)| ==> Strip(s, space)[i] in s
  {
    var t1 := TrimStart(s, space);
    var t := TrimEnd(t1, space);
    TrimStartSuffix(s, space);
    TrimEndPrefix(t1, space);
    forall i | 0 <= i < |t|
      ensures t[i] in s
    {
      assert t[i] == t1[i] == s[|s| - |t1| + i];
    }
  }

  /** Python's `s.split(sep, 1)` and Rust's `split_once`: the text before the
      first `sep` and the text after it, or None when `sep` does not occur. */
  function SplitFirst(s: string, sep: char): (r: Option<(string, string)>)
    ensures r.None? <==> sep !in s
    ensures r.Some? ==> s == r.value.0 + [sep] + r.value.1 && sep !in r.value.0
  {
    if s == [] then None
    else if s[0] == sep then Some(([], s[1..]))
    else match SplitFirst(s[1..], sep)
      case None => None
      case Some((a, b)) =>
        assert s == [s[0]] + s[1..];
        Some(([s[0]] + a, b))
  }

  /** Python's `s.rsplit(sep, 1)`: the text before the last `sep` and the text
      after it, or None when `sep` does not occur. */
  function SplitLast(s: string, sep: char): (r: Option<(string, string)>)
    ensures r.None? <==> sep !in s
    ensures r.Some? ==> s == r.value.0 + [sep] + r.value.1 && sep !in r.value.1
  {
    if s == [] then None
    else if s[|s| - 1] == sep then Some((s[..|s| - 1], []))
    else match SplitLast(s[..|s| - 1], sep)
      case None => None
      case Some((a, b)) =>
        assert s == s[..|s| - 1] + [s[|s| - 1]];
        Some((a, b + [s[|s| - 1]]))
  }

  /** The first-separator split of `a + [sep] + b` is (a, b) whenever `a` holds no `sep`. */
  lemma {:induction false} SplitFirstOf(a: string, sep: char, b: string)
    requires sep !in a
    ensures SplitFirst(a + [sep] + b, sep) == Some((a, b))
  {
    var s := a + [sep] + b;
    if a == [] {
      assert s[1..] == b;
    } else {
      assert s[1..] == a[1..] + [sep] + b;
      SplitFirstOf(a[1..], sep, b);
      assert [a[0]] + a[1..] == a;
    }
  }

  /** The last-separator split of `a + [sep] + b` is (a, b) whenever `b` holds no `sep`. */
  lemma {:induction false} SplitLastOf(a: string, sep: char, b: string)
    requires sep !in b
    ensures SplitLast(a + [sep] + b, sep) == Some((a, b))
  {
    var s := a + [sep] + b;
    if b == [] {
      assert s[..|s| - 1] == a;
    } else {
      var b0 := b[..|b| - 1];
      assert s[..|s| - 1] == a + [sep] + b0;
      SplitLastOf(a, sep, b0);
      assert b0 + [b[|b| - 1]] == b;
    }
  }

  /** How many times `c` occurs in `s` (Python's `s.count(c)`). */
  function Count(s: string, c: char): nat {
    if s == [] then 0 else (if s[0] == c then 1 else 0) + Count(s[1..], c)
  }

  lemma {:induction false} CountAppend(a: string, b: string, c: char)
    ensures Count(a + b, c) == Count(a, c) + Count(b, c)
  {
    if a != [] {
      assert (a + b)[1..] == a[1..] + b;
      CountAppend(a[1..], b, c);
    } else {
      assert a + b == b;
    }
  }

  /** A character occurs in `s` exactly when its count is positive. */
  lemma {:induction false} CountZero(s: string, c: char)
    ensures Count(s, c) == 0 <==> c !in s
  {
    if s != [] {
      CountZero(s[1..], c);
      assert s == [s[0]] + s[1..];
    }
  }

  function LowerAscii(c: char): char {
    if 'A' <= c <= 'Z' then (c as int + 32) as char else c
  }

  /** ASCII-only lower-casing; every other character is kept. */
  function AsciiLower(s: string): string {
    seq(|s|, i requires 0 <= i < |s| => LowerAscii(s[i]))
  }
}
