/**
 * Character classes and the small text operations the dispatcher relies on:
 * the regex classes `\s`, `\d`, `\w` and `.`, the `\b` and `$` assertions,
 * case-insensitive literal matching, and Python's `str.strip()`.
 * Everything is restricted to ASCII (see README, "Left out").
 */
module Text {

  /** Whitespace as Python's `str.isspace()` and the regex class `\s` see it,
      restricted to ASCII: tab, line feed, vertical tab, form feed, carriage
      return, the four information separators 0x1C-0x1F, and space. */
  predicate IsSpace(c: char) {
    var n := c as int;
    n == 32 || 9 <= n <= 13 || 28 <= n <= 31
  }

  /** `\d` and `[0-9]`. */
  predicate IsDigit(c: char) {
    '0' <= c <= '9'
  }

  /** `\w`: letters, digits and the underscore. */
  predicate IsWord(c: char) {
    IsDigit(c) || 'a' <= c <= 'z' || 'A' <= c <= 'Z' || c == '_'
  }

  /** The character classes that occur in the patterns. */
  datatype Class = Space | Digit | NotNewline

  predicate In(c: char, cls: Class) {
    match cls
    case Space => IsSpace(c)
    case Digit => IsDigit(c)
    case NotNewline => c != '\n'
  }

  /** Every character of `t[i..j]` is in `cls`. */
  predicate AllIn(t: string, i: nat, j: nat, cls: Class)
    requires i <= j <= |t|
    decreases j - i
  {
    i == j || (In(t[i], cls) && AllIn(t, i + 1, j, cls))
  }

  /** `AllIn` says of each character what its name says. */
  lemma AllInEvery(t: string, i: nat, j: nat, cls: Class)
    requires i <= j <= |t|
    ensures AllIn(t, i, j, cls) <==> forall k :: i <= k < j ==> In(t[k], cls)
    decreases j - i
  {
    if i < j {
      AllInEvery(t, i + 1, j, cls);
    }
  }

  lemma AllInAt(t: string, i: nat, j: nat, cls: Class, k: nat)
    requires i <= k < j <= |t| && AllIn(t, i, j, cls)
    ensures In(t[k], cls)
  {
    AllInEvery(t, i, j, cls);
  }

  /** A run splits at any point into two runs. */
  lemma AllInSplit(t: string, i: nat, j: nat, k: nat, cls: Class)
    requires i <= j <= k <= |t|
    ensures AllIn(t, i, k, cls) <==> AllIn(t, i, j, cls) && AllIn(t, j, k, cls)
    decreases j - i
  {
    if i < j {
      AllInSplit(t, i + 1, j, k, cls);
    }
  }

  predicate AllSpace(s: string) {
    forall k :: 0 <= k < |s| ==> IsSpace(s[k])
  }

  /** Every character of `s` is an ASCII digit. */
  predicate AllDigits(s: string) {
    forall k :: 0 <= k < |s| ==> IsDigit(s[k])
  }

  /** A non-empty run of ASCII digits: what a `\d+` group captures. */
  predicate IsDigitRun(s: string) {
    |s| > 0 && AllDigits(s)
  }

  /** The end of the longest run of `cls` characters starting at `i`:
      where a greedy `cls*` starting at `i` stops. */
  function Span(t: string, i: nat, cls: Class): (e: nat)
    requires i <= |t|
    ensures i <= e <= |t|
    ensures AllIn(t, i, e, cls)
    ensures e < |t| ==> !In(t[e], cls)
    decreases |t| - i
  {
    if i < |t| && In(t[i], cls) then Span(t, i + 1, cls) else i
  }

  /** `t[i..p]` is a run exactly when `p` does not pass the span. */
  lemma SpanCovers(t: string, i: nat, p: nat, cls: Class)
    requires i <= p <= |t|
    ensures AllIn(t, i, p, cls) <==> p <= Span(t, i, cls)
    decreases p - i
  {
    if i < p {
      SpanCovers(t, i + 1, p, cls);
    }
  }

  /** A run is maximal exactly when it ends at the span. */
  lemma SpanExact(t: string, i: nat, j: nat, cls: Class)
    requires i <= j <= |t|
    requires AllIn(t, i, j, cls)
    requires j < |t| ==> !In(t[j], cls)
    ensures Span(t, i, cls) == j
    decreases j - i
  {
    if i < j {
      SpanExact(t, i + 1, j, cls);
    }
  }

  /** The ASCII lower-case form used for case-insensitive comparison. */
  function Lower(c: char): (r: char)
    ensures 'A' <= c <= 'Z' ==> 'a' <= r <= 'z' && r as int == c as int + 32
    ensures !('A' <= c <= 'Z') ==> r == c
  {
    if 'A' <= c <= 'Z' then (c as int + 32) as char else c
  }

  /** The lower-case literal `lit` occurs at `i`, ignoring the case of `t`. */
  predicate LitAt(t: string, i: nat, lit: string) {
    i + |lit| <= |t| && forall k :: 0 <= k < |lit| ==> Lower(t[i + k]) == lit[k]
  }

  /** A literal that starts with a letter starts with a word character in the text. */
  lemma LitStartsWord(t: string, i: nat, lit: string)
    requires LitAt(t, i, lit) && |lit| > 0 && 'a' <= lit[0] <= 'z'
    ensures IsWord(t[i]) && !IsSpace(t[i]) && !IsDigit(t[i]) && Lower(t[i]) == lit[0]
  {
    assert Lower(t[i + 0]) == lit[0];
  }

  /** `\b`: the word-character status changes between `t[i-1]` and `t[i]`;
      outside the text counts as a non-word character. */
  predicate Boundary(t: string, i: nat)
    requires i <= |t|
  {
    (i > 0 && IsWord(t[i - 1])) != (i < |t| && IsWord(t[i]))
  }

  /** `$` without MULTILINE: the end of the text, or just before a final line feed. */
  predicate EndAt(t: string, p: nat) {
    p == |t| || (p + 1 == |t| && t[p] == '\n')
  }

  /** The start of the trailing whitespace of `t[lo..j]`. */
  function SpanSpaceBack(t: string, lo: nat, j: nat): (r: nat)
    requires lo <= j <= |t|
    ensures lo <= r <= j
    ensures AllIn(t, r, j, Space)
    ensures r > lo ==> !IsSpace(t[r - 1])
    decreases j
  {
    if lo < j && IsSpace(t[j - 1]) then
      var r := SpanSpaceBack(t, lo, j - 1);
      AllInSplit(t, r, j - 1, j, Space);
      r
    else j
  }

  lemma SpanSpaceBackExact(t: string, lo: nat, r: nat, j: nat)
    requires lo <= r <= j <= |t|
    requires AllIn(t, r, j, Space)
    requires r > lo ==> !IsSpace(t[r - 1])
    ensures SpanSpaceBack(t, lo, j) == r
    decreases j - r
  {
    if r < j {
      AllInSplit(t, r, j - 1, j, Space);
      SpanSpaceBackExact(t, lo, r, j - 1);
    }
  }

  /** Python's `str.strip()` with no argument. */
  function Strip(s: string): (r: string)
    ensures |r| <= |s|
    ensures r == [] <==> AllSpace(s)
    ensures r != [] ==> !IsSpace(r[0]) && !IsSpace(r[|r| - 1])
  {
    var a := Span(s, 0, Space);
    var b := SpanSpaceBack(s, a, |s|);
    AllInEvery(s, 0, |s|, Space);
    SpanCovers(s, 0, |s|, Space);
    s[a..b]
  }

  /** Strip removes exactly the surrounding whitespace and keeps the inside:
      any split of `s` into whitespace, a trimmed middle and whitespace
      determines the result. */
  lemma StripExact(s: string, a: nat, b: nat)
    requires a <= b <= |s|
    requires AllIn(s, 0, a, Space) && AllIn(s, b, |s|, Space)
    requires a < b ==> !IsSpace(s[a]) && !IsSpace(s[b - 1])
    ensures Strip(s) == s[a..b]
  {
    if a == b {
      AllInSplit(s, 0, a, |s|, Space);
      AllInEvery(s, 0, |s|, Space);
    } else {
      SpanExact(s, 0, a, Space);
      SpanSpaceBackExact(s, a, b, |s|);
    }
  }

  /** Stripping twice is stripping once. */
  lemma StripIdempotent(s: string)
    ensures Strip(Strip(s)) == Strip(s)
  {
    var r := Strip(s);
    StripExact(r, 0, |r|);
  }
}
