/**
 * The string handling the pipeline relies on: Python's whitespace, the
 * decimal-comma rewrite of numeric columns, and Python's `int(...)` and
 * `float(...)` conversions restricted to plain decimal notation (an optional
 * sign, ASCII digits and at most one decimal point). Exponents, "inf", "nan",
 * underscores and non-ASCII digits, which Python also accepts, are failures here.
 */
module Text {
  import opened Wrappers

  predicate IsDigit(c: char) {
    '0' <= c <= '9'
  }

  predicate AllDigits(s: string) {
    forall i :: 0 <= i < |s| ==> IsDigit(s[i])
  }

  function DigitChar(d: nat): (c: char)
    requires d < 10
    ensures IsDigit(c) && c as int - '0' as int == d
  {
    ('0' as int + d) as char
  }

  /** The value of a string of decimal digits, most significant digit first. */
  function DigitsValue(s: string): nat
    requires AllDigits(s)
  {
    if s == [] then 0 else 10 * DigitsValue(s[..|s| - 1]) + (s[|s| - 1] as int - '0' as int)
  }

  /** The decimal digits of `n` without leading zeros. */
  function NatToDigits(n: nat): (s: string)
    ensures |s| >= 1 && AllDigits(s)
  {
    if n < 10 then [DigitChar(n)] else NatToDigits(n / 10) + [DigitChar(n % 10)]
  }

  lemma {:induction false} DigitsRoundTrip(n: nat)
    ensures DigitsValue(NatToDigits(n)) == n
  {
    if n >= 10 {
      var s := NatToDigits(n / 10) + [DigitChar(n % 10)];
      assert s[..|s| - 1] == NatToDigits(n / 10);
      DigitsRoundTrip(n / 10);
    }
  }

  /** `n` written with exactly `width` digits, zero-padded on the left. */
  function Pad(n: nat, width: nat): (s: string)
    ensures |s| == width && AllDigits(s)
  {
    if width == 0 then [] else Pad(n / 10, width - 1) + [DigitChar(n % 10)]
  }

  lemma {:induction false} PadValue(n: nat, width: nat)
    requires n < Pow10(width)
    ensures DigitsValue(Pad(n, width)) == n
  {
    if width > 0 {
      var s := Pad(n, width);
      assert s[..width - 1] == Pad(n / 10, width - 1);
      PadValue(n / 10, width - 1);
    }
  }

  lemma {:induction false} PadOfDigits(t: string)
    requires AllDigits(t)
    ensures Pad(DigitsValue(t), |t|) == t
  {
    if t != [] {
      var init := t[..|t| - 1];
      PadOfDigits(init);
      var v := DigitsValue(t);
      assert v / 10 == DigitsValue(init) && v % 10 == t[|t| - 1] as int - '0' as int;
      assert t == init + [t[|t| - 1]];
    }
  }

  function Pow10(k: nat): (p: nat)
    ensures p >= 1
  {
    if k == 0 then 1 else 10 * Pow10(k - 1)
  }

  /** Every ',' of `s` becomes '.', every other character is kept in place. */
  function ReplaceCommas(s: string): (r: string)
    ensures |r| == |s|
    ensures forall i :: 0 <= i < |s| ==> r[i] == (if s[i] == ',' then '.' else s[i])
  {
    if s == [] then [] else [if s[0] == ',' then '.' else s[0]] + ReplaceCommas(s[1..])
  }

  /** Python's `str.isspace`, which is also what `\s` matches and what `int`/`float` strip. */
  predicate IsSpace(c: char) {
    '\t' <= c <= '\r' || '\U{1c}' <= c <= ' ' || c == '\U{85}' || c == '\U{a0}' || c == '\U{1680}'
    || '\U{2000}' <= c <= '\U{200a}' || c == '\U{2028}' || c == '\U{2029}' || c == '\U{202f}'
    || c == '\U{205f}' || c == '\U{3000}'
  }

  /** `s` matches the regular expression `^\s*$`: it is empty or all whitespace. */
  predicate IsBlank(s: string) {
    forall i :: 0 <= i < |s| ==> IsSpace(s[i])
  }

  function StripLeft(s: string): (r: string)
    ensures |r| <= |s| && r == s[|s| - |r|..]
    ensures IsBlank(s[..|s| - |r|])
    ensures r != [] ==> !IsSpace(r[0])
  {
    if s != [] && IsSpace(s[0]) then
      var r := StripLeft(s[1..]);
      assert IsBlank(s[1..][..|s| - 1 - |r|]);
      assert forall i :: 1 <= i < |s| - |r| ==> s[i] == s[1..][..|s| - 1 - |r|][i - 1];
      r
    else s
  }

  function StripRight(s: string): (r: string)
    ensures |r| <= |s| && r == s[..|r|]
    ensures IsBlank(s[|r|..])
    ensures r != [] ==> !IsSpace(r[|r| - 1])
  {
    if s != [] && IsSpace(s[|s| - 1]) then
      var r := StripRight(s[..|s| - 1]);
      assert s[..|s| - 1][..|r|] == s[..|r|];
      assert IsBlank(s[..|s| - 1][|r|..]);
      assert forall i :: |r| <= i < |s| - 1 ==> s[i] == s[..|s| - 1][|r|..][i - |r|];
      r
    else s
  }

  /** Python's `str.strip()` with no argument. */
  function Strip(s: string): string {
    StripRight(StripLeft(s))
  }

  /** `s` with an optional leading '+' or '-' split off: (is it negative, the rest). */
  function SplitSign(t: string): (bool, string) {
    if t != [] && (t[0] == '-' || t[0] == '+') then (t[0] == '-', t[1..]) else (false, t)
  }

  /** Python's `int(s)` for decimal digits with an optional sign and surrounding whitespace. */
  function ParseInt(s: string): Option<int> {
    var (negative, body) := SplitSign(Strip(s));
    if body != [] && AllDigits(body) then
      Some(if negative then -(DigitsValue(body) as int) else DigitsValue(body))
    else None
  }

  /** The index of the first '.' of `s`, or |s| when there is none. */
  function IndexOfDot(s: string): (k: nat)
    ensures k <= |s|
    ensures forall i :: 0 <= i < k ==> s[i] != '.'
    ensures k < |s| ==> s[k] == '.'
  {
    if s == [] then 0 else if s[0] == '.' then 0 else 1 + IndexOfDot(s[1..])
  }

  /** Digits with at most one '.', and at least one digit: "12", "12.", ".5", "12.50". */
  function ParseUnsignedDecimal(b: string): Option<real> {
    var k := IndexOfDot(b);
    if k == |b| then
      if b != [] && AllDigits(b) then Some(DigitsValue(b) as real) else None
    else
      var whole, fraction := b[..k], b[k + 1..];
      if AllDigits(whole) && AllDigits(fraction) && |whole| + |fraction| >= 1 then
        Some(DigitsValue(whole) as real + FractionValue(fraction))
      else None
  }

  /** The value of the digits after a decimal point: "05" is 0.05. */
  function FractionValue(fraction: string): real
    requires AllDigits(fraction)
  {
    DigitsValue(fraction) as real / Pow10(|fraction|) as real
  }

  /** Python's `float(s)` for plain decimal notation with an optional sign and surrounding whitespace. */
  function ParseDecimal(s: string): Option<real> {
    var (negative, body) := SplitSign(Strip(s));
    match ParseUnsignedDecimal(body)
    case Some(x) => Some(if negative then -x else x)
    case None => None
  }

  function FormatInt(i: int): string {
    if i < 0 then "-" + NatToDigits(-i) else NatToDigits(i)
  }

  /** A string with no whitespace at either end is left alone by `strip`. */
  lemma StripUnchanged(t: string)
    requires t != [] && !IsSpace(t[0]) && !IsSpace(t[|t| - 1])
    ensures Strip(t) == t
  {
    assert StripLeft(t) == t;
  }

  /** Integer keys written in decimal are read back by `int(...)`. */
  lemma ParseFormatInt(i: int)
    ensures ParseInt(FormatInt(i)) == Some(i)
  {
    var t := FormatInt(i);
    if i < 0 {
      var d := NatToDigits(-i);
      assert t == "-" + d && t[|t| - 1] == d[|d| - 1];
      StripUnchanged(t);
      assert t[1..] == d;
      assert SplitSign(Strip(t)) == (true, d);
      DigitsRoundTrip(-i);
    } else {
      StripUnchanged(t);
      assert SplitSign(Strip(t)) == (false, t);
      DigitsRoundTrip(i);
    }
  }

  /** The decimal-comma text of an amount of `cents`, such as "12,05". */
  function CommaCentsText(cents: nat): string {
    NatToDigits(cents / 100) + "," + [DigitChar(cents % 100 / 10), DigitChar(cents % 10)]
  }

  lemma ReplaceCommasKeepsDigits(s: string)
    requires AllDigits(s)
    ensures ReplaceCommas(s) == s
  {
  }

  lemma ReplaceCommasAppend(a: string, b: string)
    ensures ReplaceCommas(a + b) == ReplaceCommas(a) + ReplaceCommas(b)
  {
    var r := ReplaceCommas(a + b);
    assert forall i :: 0 <= i < |a + b| ==> r[i] == (ReplaceCommas(a) + ReplaceCommas(b))[i];
  }

  lemma TwoDigitsValue(d1: nat, d0: nat)
    requires d1 < 10 && d0 < 10
    ensures DigitsValue([DigitChar(d1), DigitChar(d0)]) == 10 * d1 + d0
  {
    var two := [DigitChar(d1), DigitChar(d0)];
    assert two[..1] == [DigitChar(d1)];
    assert [DigitChar(d1)][..0] == [];
    assert DigitsValue([DigitChar(d1)]) == 10 * DigitsValue([]) + d1;
    assert DigitsValue(two) == 10 * DigitsValue(two[..1]) + d0;
  }

  lemma FractionOfTwoDigits(d1: nat, d0: nat)
    requires d1 < 10 && d0 < 10
    ensures FractionValue([DigitChar(d1), DigitChar(d0)]) == (10 * d1 + d0) as real / 100.0
  {
    var two := [DigitChar(d1), DigitChar(d0)];
    TwoDigitsValue(d1, d0);
    assert Pow10(|two|) == 100;
  }

  lemma {:induction false} IndexOfDotAfterDigits(whole: string, rest: string)
    requires AllDigits(whole) && rest != [] && rest[0] == '.'
    ensures IndexOfDot(whole + rest) == |whole|
  {
    if whole != [] {
      assert (whole + rest)[1..] == whole[1..] + rest;
      IndexOfDotAfterDigits(whole[1..], rest);
    }
  }

  lemma UnsignedDecimalAtDot(s: string, k: nat)
    requires k < |s| && s[k] == '.' && IndexOfDot(s) == k
    requires k >= 1 && AllDigits(s[..k]) && AllDigits(s[k + 1..])
    ensures ParseUnsignedDecimal(s) == Some(DigitsValue(s[..k]) as real + FractionValue(s[k + 1..]))
  {
  }

  lemma UnsignedDecimalOfParts(s: string, whole: string, fraction: string)
    requires |whole| >= 1 && AllDigits(whole) && AllDigits(fraction)
    requires s == whole + "." + fraction
    ensures ParseUnsignedDecimal(s) == Some(DigitsValue(whole) as real + FractionValue(fraction))
  {
    SplitAtDot(s, whole, fraction);
    UnsignedDecimalAtDot(s, |whole|);
  }

  /** Where the whole part ends in `whole + "." + fraction`: the first dot, with each part on its side. */
  lemma SplitAtDot(s: string, whole: string, fraction: string)
    requires AllDigits(whole) && s == whole + "." + fraction
    ensures |whole| < |s| && s[|whole|] == '.' && IndexOfDot(s) == |whole|
    ensures s[..|whole|] == whole && s[|whole| + 1..] == fraction
  {
    assert s == whole + ("." + fraction);
    IndexOfDotAfterDigits(whole, "." + fraction);
  }

  lemma ParseDecimalUnsigned(s: string)
    requires s != [] && IsDigit(s[0]) && IsDigit(s[|s| - 1])
    ensures ParseDecimal(s) == ParseUnsignedDecimal(s)
  {
    StripUnchanged(s);
    assert SplitSign(Strip(s)) == (false, s);
  }

  /** The same amount written with a decimal point, such as "12.05". */
  function CentsDotText(cents: nat): string {
    NatToDigits(cents / 100) + "." + [DigitChar(cents % 100 / 10), DigitChar(cents % 10)]
  }

  lemma CentsTextRewritten(cents: nat)
    ensures ReplaceCommas(CommaCentsText(cents)) == CentsDotText(cents)
  {
    var whole := NatToDigits(cents / 100);
    var two := [DigitChar(cents % 100 / 10), DigitChar(cents % 10)];
    ReplaceCommasAppend(whole + ",", two);
    ReplaceCommasAppend(whole, ",");
    ReplaceCommasKeepsDigits(whole);
    ReplaceCommasKeepsDigits(two);
  }

  lemma CentsDotTextIsUnsigned(cents: nat)
    ensures ParseDecimal(CentsDotText(cents)) == ParseUnsignedDecimal(CentsDotText(cents))
  {
    var s := CentsDotText(cents);
    assert s[0] == NatToDigits(cents / 100)[0] && s[|s| - 1] == DigitChar(cents % 10);
    ParseDecimalUnsigned(s);
  }

  lemma CentsDotTextValue(cents: nat)
    ensures ParseUnsignedDecimal(CentsDotText(cents)) == Some(cents as real / 100.0)
  {
    var units, rest := cents / 100, cents % 100;
    var d1, d0 := rest / 10, cents % 10;
    CentsDigits(cents);
    var whole := NatToDigits(units);
    var two := [DigitChar(d1), DigitChar(d0)];
    assert CentsDotText(cents) == whole + "." + two;
    UnsignedDecimalOfParts(CentsDotText(cents), whole, two);
    DigitsRoundTrip(units);
    FractionOfTwoDigits(d1, d0);
    CentsSplit(cents, units, rest);
  }

  /** The tens and units digits of the cents make up the cents below one unit. */
  lemma CentsDigits(cents: nat)
    ensures 10 * (cents % 100 / 10) + cents % 10 == cents % 100
  {
    var q, r := cents / 100, cents % 100;
    assert cents == 100 * q + r && 0 <= r < 100;
    assert r == 10 * (r / 10) + r % 10 && 0 <= r % 10 < 10;
    assert cents == 10 * (10 * q + r / 10) + r % 10;
    DivOf(cents, 10, 10 * q + r / 10, r % 10);
    assert cents % 10 == cents - 10 * (cents / 10);
  }

  /** The quotient of `x` by `m` is `q` when `x` is `m * q` plus a remainder below `m`. */
  lemma DivOf(x: int, m: int, q: int, r: int)
    requires m > 0 && 0 <= r < m && x == m * q + r
    ensures x / m == q
  {
    var q', r' := x / m, x % m;
    assert x == m * q' + r' && 0 <= r' < m;
    assert m * (q' - q) == r - r';
    MultipleBetween(m, q' - q);
  }

  /** The only multiple of `m` strictly between `-m` and `m` is 0. */
  lemma MultipleBetween(m: int, k: int)
    requires m > 0 && -m < m * k < m
    ensures k == 0
  {
  }

  /** Whole units plus hundredths make up the amount in cents. */
  lemma CentsSplit(cents: nat, units: nat, rest: nat)
    requires cents == 100 * units + rest
    ensures units as real + rest as real / 100.0 == cents as real / 100.0
  {
    assert cents as real == 100.0 * units as real + rest as real;
  }

  /** A decimal-comma amount is read back as that amount once its comma is rewritten. */
  lemma ParseCommaCents(cents: nat)
    ensures ParseDecimal(ReplaceCommas(CommaCentsText(cents))) == Some(cents as real / 100.0)
  {
    CentsTextRewritten(cents);
    CentsDotTextIsUnsigned(cents);
    CentsDotTextValue(cents);
  }
}
