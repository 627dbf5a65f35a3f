/**
 * Base-10 integers as text: the value of an ASCII digit run, Python's
 * `int(text)` on ASCII input, and the decimal rendering `str(n)` that
 * `json.dumps` writes for an integer.
 */
module Decimal {
  import opened Options
  import opened Text

  function DigitValue(c: char): (d: nat)
    requires IsDigit(c)
    ensures d < 10
  {
    c as int - '0' as int
  }

  function DigitChar(d: nat): (c: char)
    requires d < 10
    ensures IsDigit(c) && DigitValue(c) == d
  {
    ('0' as int + d) as char
  }

  /** The number a string of ASCII digits denotes, most significant digit first. */
  function DecimalValue(s: string): nat
    requires AllDigits(s)
  {
    if s == [] then 0 else DecimalValue(s[..|s| - 1]) * 10 + DigitValue(s[|s| - 1])
  }

  /** The shortest decimal rendering of `n`, without leading zeros. */
  function Digits(n: nat): (s: string)
    ensures IsDigitRun(s)
    ensures |s| > 1 ==> s[0] != '0'
  {
    if n < 10 then [DigitChar(n)] else Digits(n / 10) + [DigitChar(n % 10)]
  }

  /** Rendering and reading back agree: what `str` writes for a natural number, the
      digit value of that text gives back. */
  lemma {:induction false} DigitsValue(n: nat)
    ensures DecimalValue(Digits(n)) == n
  {
    if n >= 10 {
      var s := Digits(n);
      assert s[..|s| - 1] == Digits(n / 10);
      DigitsValue(n / 10);
    }
  }

  /** Conversely, a digit run without leading zeros is the rendering of its value. */
  lemma {:induction false} ValueDigits(s: string)
    requires IsDigitRun(s)
    requires |s| > 1 ==> s[0] != '0'
    ensures Digits(DecimalValue(s)) == s
    decreases |s|
  {
    var init := s[..|s| - 1];
    if |s| > 1 {
      assert init[0] == s[0];
      assert |init| > 1 ==> init[0] != '0';
      ValueDigits(init);
      ValueAtLeast(init);
      assert DecimalValue(s) / 10 == DecimalValue(init);
      assert s == init + [s[|s| - 1]];
    }
  }

  /** A digit run of two or more digits without a leading zero is at least 10. */
  lemma {:induction false} ValueAtLeast(s: string)
    requires IsDigitRun(s) && s[0] != '0'
    ensures |s| > 1 ==> DecimalValue(s) >= 10
    ensures DecimalValue(s) >= 1
    decreases |s|
  {
    if |s| > 1 {
      ValueAtLeast(s[..|s| - 1]);
    }
  }

  /** `str(n)` for an int: a minus sign for a negative number, then the
      digits of its magnitude, which denote that magnitude. */
  function IntToString(n: int): (s: string)
    ensures |s| > 0 && (s[0] == '-' <==> n < 0)
    ensures n >= 0 ==> IsDigitRun(s) && DecimalValue(s) == n
    ensures n < 0 ==> IsDigitRun(s[1..]) && DecimalValue(s[1..]) == -n
  {
    if n < 0 then
      DigitsValue(-n);
      assert ("-" + Digits(-n))[1..] == Digits(-n);
      "-" + Digits(-n)
    else
      DigitsValue(n);
      Digits(n)
  }

  /** The most digits `int()` converts from a decimal string: CPython's
      `sys.int_info.default_max_str_digits`. Longer digit strings make it raise
      `ValueError` ("Exceeds the limit (4300 digits) for integer string
      conversion"). */
  const MAX_STR_DIGITS: nat := 4300

  /** The whitespace `int()` skips around a numeral: CPython's `Py_ISSPACE`,
      that is tab, line feed, vertical tab, form feed, carriage return and
      space. Unlike `str.strip()` it keeps the separators 0x1C-0x1F. */
  predicate IsIntSpace(c: char) {
    var n := c as int;
    n == 32 || 9 <= n <= 13
  }

  /** `s` without its leading `int()` whitespace. */
  function SkipLeading(s: string): (r: string)
    ensures |r| <= |s|
    ensures r != [] ==> !IsIntSpace(r[0])
  {
    if s != [] && IsIntSpace(s[0]) then SkipLeading(s[1..]) else s
  }

  /** `s` without its trailing `int()` whitespace. */
  function SkipTrailing(s: string): (r: string)
    ensures |r| <= |s| && r == s[..|r|]
    ensures forall k :: |r| <= k < |s| ==> IsIntSpace(s[k])
    ensures r != [] ==> !IsIntSpace(r[|r| - 1])
  {
    if s != [] && IsIntSpace(s[|s| - 1]) then SkipTrailing(s[..|s| - 1]) else s
  }

  /** The text `int()` reads once the surrounding `Py_ISSPACE` whitespace is
      skipped: it neither starts nor ends with such whitespace. */
  function IntTrim(s: string): (r: string)
    ensures |r| <= |s|
    ensures r != [] ==> !IsIntSpace(r[0]) && !IsIntSpace(r[|r| - 1])
  {
    var lead := SkipLeading(s);
    var r := SkipTrailing(lead);
    assert r != [] ==> r[0] == lead[0];
    r
  }

  lemma {:induction false} SkipLeadingExact(s: string, a: nat)
    requires a <= |s| && forall k :: 0 <= k < a ==> IsIntSpace(s[k])
    requires a < |s| ==> !IsIntSpace(s[a])
    ensures SkipLeading(s) == s[a..]
    decreases a
  {
    if a > 0 {
      SkipLeadingExact(s[1..], a - 1);
      assert s[1..][a - 1..] == s[a..];
    }
  }

  lemma {:induction false} SkipTrailingExact(s: string, b: nat)
    requires b <= |s| && forall k :: b <= k < |s| ==> IsIntSpace(s[k])
    requires b > 0 ==> !IsIntSpace(s[b - 1])
    ensures SkipTrailing(s) == s[..b]
    decreases |s| - b
  {
    if b < |s| {
      SkipTrailingExact(s[..|s| - 1], b);
      assert s[..|s| - 1][..b] == s[..b];
    }
  }

  lemma {:induction false} SuffixPrefix(s: string, a: nat, b: nat)
    requires a <= b <= |s|
    ensures s[a..][..b - a] == s[a..b]
  {
  }

  /** `IntTrim` removes exactly the surrounding `int()` whitespace: any split
      of `s` into such whitespace, a trimmed middle and such whitespace
      determines the result. */
  lemma {:induction false} IntTrimExact(s: string, a: nat, b: nat)
    requires a <= b <= |s|
    requires forall k :: 0 <= k < a ==> IsIntSpace(s[k])
    requires forall k :: b <= k < |s| ==> IsIntSpace(s[k])
    requires a < b ==> !IsIntSpace(s[a]) && !IsIntSpace(s[b - 1])
    ensures IntTrim(s) == s[a..b]
  {
    if a == b {
      SkipLeadingExact(s, |s|);
      assert s[a..b] == [];
    } else {
      SkipLeadingExact(s, a);
      var lead := s[a..];
      SkipTrailingExact(lead, b - a);
      SuffixPrefix(s, a, b);
      assert IntTrim(s) == SkipTrailing(lead);
    }
  }

  /** `s` without its leading sign, if it has one. */
  function Unsigned(s: string): (u: string)
    ensures |u| <= |s|
  {
    if |s| > 0 && (s[0] == '+' || s[0] == '-') then s[1..] else s
  }

  /** What `int()` accepts once the surrounding whitespace is skipped: an
      optional sign, then between one and `MAX_STR_DIGITS` ASCII digits. */
  predicate Numeral(s: string) {
    IsDigitRun(Unsigned(s)) && |Unsigned(s)| <= MAX_STR_DIGITS
  }

  /** Python's `int(text)` on ASCII text: it succeeds exactly on a numeral
      between `Py_ISSPACE` whitespace, and its value is the value of the
      digits, negated after a minus sign. */
  function ParseInt(text: string): (r: Option<int>)
    ensures r.Some? <==> Numeral(IntTrim(text))
    ensures r.Some? ==>
      var s := IntTrim(text);
      r.value == if s[0] == '-' then -(DecimalValue(Unsigned(s)) as int) else DecimalValue(Unsigned(s))
  {
    var s := IntTrim(text);
    if s == [] then None
    else if (s[0] == '+' || s[0] == '-') && IsDigitRun(s[1..]) then
      if |s| - 1 > MAX_STR_DIGITS then None
      else
        var magnitude: int := DecimalValue(s[1..]);
        Some(if s[0] == '-' then -magnitude else magnitude)
    else if IsDigitRun(s) then
      if |s| > MAX_STR_DIGITS then None else Some(DecimalValue(s))
    else None
  }

  /** A captured run of digits converts exactly when it has at most
      `MAX_STR_DIGITS` digits, and then to the run's decimal value. */
  lemma {:induction false} ParseDigitRun(s: string)
    requires IsDigitRun(s)
    ensures |s| <= MAX_STR_DIGITS ==> ParseInt(s) == Some(DecimalValue(s))
    ensures |s| > MAX_STR_DIGITS ==> ParseInt(s).None?
  {
    IntTrimExact(s, 0, |s|);
    assert s[0..|s|] == s;
    assert IsDigit(s[0]) && Unsigned(s) == s;
  }

  /** `int()` skips fewer characters than `str.strip()`: an information
      separator before a digit makes it fail, although `strip()` removes it. */
  lemma {:induction false} SeparatorNotSkipped()
    ensures Strip([28 as char, '5']) == "5"
    ensures ParseInt([28 as char, '5']).None?
  {
    var t := [28 as char, '5'];
    assert AllIn(t, 0, 1, Space) && AllIn(t, 2, 2, Space);
    StripExact(t, 1, 2);
    assert t[1..2] == "5";
    IntTrimExact(t, 0, 2);
    assert t[0..2] == t && Unsigned(t) == t && !IsDigit(t[0]);
  }
}
