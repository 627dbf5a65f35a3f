/**
 * The five compiled patterns of the rule table and the relaxed ticket pattern,
 * each written as a dedicated matcher with Python `re` semantics
 * (case-insensitive, ASCII classes), and `re.search`: the leftmost start
 * position at which the matcher succeeds.
 *
 * Each matcher returns the captured groups of the match the backtracking
 * engine finds first at a given start. Where a quantifier is followed by
 * something its own class cannot match (`\s+` before a digit or a letter,
 * `\d+` before whitespace or `\b`), only its longest run can succeed, so the
 * matcher takes that run directly. Where the choice is real (the greedy
 * whitespace and greedy or lazy text before the room and the department),
 * the matcher tries the candidates in the engine's order. Every matcher has
 * a declarative "shape" beside it: its Sound lemma says that what it returns
 * is a decomposition of the text of that shape, and its Complete lemma that
 * whenever such a decomposition exists it succeeds, with the captures the
 * engine's priority selects.
 */
module Patterns {
  import opened Options
  import opened Text

  datatype Pattern =
    | StatusOfTicket    // rule 1: "status of ticket", whitespace, digits
    | ScheduleMeeting   // rule 2: "schedule a meeting on" date "at" clock "in" rest of line, end
    | ExpenseBalance    // rule 3: "expense balance for employee", whitespace, digits
    | PerformanceBonus  // rule 4: "performance bonus for employee" digits "for" four digits
    | OfficeIssue       // rule 5: "report [an |the ]office issue" digits "for the" text "department"
    | TicketFallback    // the relaxed pattern: "ticket", whitespace, digits

  const STATUS_OF_TICKET := "status of ticket"
  const SCHEDULE_A_MEETING_ON := "schedule a meeting on"
  const EXPENSE_BALANCE := "expense balance for employee"
  const PERFORMANCE_BONUS := "performance bonus for employee"
  const REPORT := "report "
  const OFFICE_ISSUE := "office issue"
  const FOR_THE := "for the"
  const DEPARTMENT := "department"
  const TICKET := "ticket"

  /** The number of capture groups each pattern has. */
  function GroupCount(p: Pattern): nat {
    match p
    case StatusOfTicket => 1
    case ScheduleMeeting => 3
    case ExpenseBalance => 1
    case PerformanceBonus => 2
    case OfficeIssue => 2
    case TicketFallback => 1
  }

  /** Group `k` of `p` is a `\d+` or `\d{4}` group. */
  predicate DigitGroup(p: Pattern, k: nat) {
    match p
    case ScheduleMeeting => false
    case PerformanceBonus => k < 2
    case _ => k == 0
  }

  /** Where a capture group matched: `t[lo..hi]`, what `m.span(k)` reports. */
  datatype Group = Group(lo: nat, hi: nat)

  /** The group matched a non-empty run of digits. */
  predicate DigitsAt(t: string, g: Group) {
    g.lo < g.hi <= |t| && AllIn(t, g.lo, g.hi, Digit)
  }

  lemma {:induction false} DigitSlice(t: string, a: nat, b: nat)
    requires a < b <= |t| && AllIn(t, a, b, Digit)
    ensures IsDigitRun(t[a..b])
  {
    AllInEvery(t, a, b, Digit);
    forall k | 0 <= k < b - a ensures IsDigit(t[a..b][k]) {
      assert t[a..b][k] == t[a + k];
    }
  }

  // ---------------------------------------------------------------------------
  // Rules 1 and 3: word boundary, phrase, whitespace, digits (group 1), word boundary.

  function NumberAfterAt(t: string, i: nat, lit: string): (r: Option<seq<Group>>)
    requires i <= |t|
    ensures r.Some? ==> |r.value| == 1 && DigitsAt(t, r.value[0])
  {
    if !(Boundary(t, i) && LitAt(t, i, lit)) then None
    else
      // The whitespace run must be the longest one: a digit has to follow it.
      var a := Span(t, i + |lit|, Space);
      // So must the digit run: `\b` never holds between two digits.
      var b := Span(t, a, Digit);
      if i + |lit| < a < b && Boundary(t, b) then
        Some([Group(a, b)])
      else None
  }

  ghost predicate NumberAfterShape(t: string, i: nat, lit: string, a: nat, b: nat) {
    i + |lit| < a < b <= |t| && Boundary(t, i) && LitAt(t, i, lit)
    && AllIn(t, i + |lit|, a, Space) && AllIn(t, a, b, Digit) && Boundary(t, b)
  }

  lemma {:induction false} NumberAfterSound(t: string, i: nat, lit: string) returns (a: nat, b: nat)
    requires i <= |t| && NumberAfterAt(t, i, lit).Some?
    ensures NumberAfterShape(t, i, lit, a, b) && NumberAfterAt(t, i, lit) == Some([Group(a, b)])
  {
    a := Span(t, i + |lit|, Space);
    b := Span(t, a, Digit);
  }

  lemma {:induction false} NumberAfterComplete(t: string, i: nat, lit: string, a: nat, b: nat)
    requires NumberAfterShape(t, i, lit, a, b)
    ensures NumberAfterAt(t, i, lit) == Some([Group(a, b)])
  {
    AllInAt(t, a, b, Digit, b - 1);
    SpanExact(t, i + |lit|, a, Space);
    SpanExact(t, a, b, Digit);
  }

  // ---------------------------------------------------------------------------
  // Rule 4: word boundary, phrase, whitespace, digits (group 1), whitespace, "for",
  // whitespace, exactly four digits (group 2), word boundary.

  function BonusAt(t: string, i: nat): (r: Option<seq<Group>>)
    requires i <= |t|
    ensures r.Some? ==> |r.value| == 2 && DigitsAt(t, r.value[0]) && DigitsAt(t, r.value[1])
  {
    if !(Boundary(t, i) && LitAt(t, i, PERFORMANCE_BONUS)) then None
    else
      var a := Span(t, i + |PERFORMANCE_BONUS|, Space);
      var b := Span(t, a, Digit);
      var c := Span(t, b, Space);
      if !(i + |PERFORMANCE_BONUS| < a < b < c && LitAt(t, c, "for")) then None
      else
        var d := Span(t, c + 3, Space);
        if c + 3 < d && d + 4 <= |t| && AllIn(t, d, d + 4, Digit) && Boundary(t, d + 4) then
            Some([Group(a, b), Group(d, d + 4)])
        else None
  }

  ghost predicate BonusShape(t: string, i: nat, a: nat, b: nat, c: nat, d: nat) {
    i + |PERFORMANCE_BONUS| < a < b < c && c + 3 < d && d + 4 <= |t|
    && Boundary(t, i) && LitAt(t, i, PERFORMANCE_BONUS)
    && AllIn(t, i + |PERFORMANCE_BONUS|, a, Space) && AllIn(t, a, b, Digit)
    && AllIn(t, b, c, Space) && LitAt(t, c, "for") && AllIn(t, c + 3, d, Space)
    && AllIn(t, d, d + 4, Digit) && Boundary(t, d + 4)
  }

  lemma {:induction false} BonusSound(t: string, i: nat) returns (a: nat, b: nat, c: nat, d: nat)
    requires i <= |t| && BonusAt(t, i).Some?
    ensures BonusShape(t, i, a, b, c, d) && BonusAt(t, i) == Some([Group(a, b), Group(d, d + 4)])
  {
    a := Span(t, i + |PERFORMANCE_BONUS|, Space);
    b := Span(t, a, Digit);
    c := Span(t, b, Space);
    d := Span(t, c + 3, Space);
  }

  lemma {:induction false} BonusComplete(t: string, i: nat, a: nat, b: nat, c: nat, d: nat)
    requires BonusShape(t, i, a, b, c, d)
    ensures BonusAt(t, i) == Some([Group(a, b), Group(d, d + 4)])
  {
    assert IsDigit(t[a]) && IsSpace(t[b]) && IsDigit(t[d]);
    LitStartsWord(t, c, "for");
    SpanExact(t, i + |PERFORMANCE_BONUS|, a, Space);
    SpanExact(t, a, b, Digit);
    SpanExact(t, b, c, Space);
    SpanExact(t, c + 3, d, Space);
  }

  // ---------------------------------------------------------------------------
  // Rule 2: word boundary, phrase, whitespace, a YYYY-MM-DD date (group 1),
  // whitespace, "at", whitespace, an H:MM or HH:MM clock (group 2), whitespace,
  // "in", whitespace, the rest of the line (group 3), end of text.

  /** Ten characters `dddd-dd-dd` at `a`. */
  predicate DateAt(t: string, a: nat) {
    a + 10 <= |t| && AllIn(t, a, a + 4, Digit) && t[a + 4] == '-'
    && AllIn(t, a + 5, a + 7, Digit) && t[a + 7] == '-' && AllIn(t, a + 8, a + 10, Digit)
  }

  /** A clock of `len` characters at `c`: `d:dd` (len 4) or `dd:dd` (len 5). */
  predicate ClockShape(t: string, c: nat, len: nat) {
    (len == 4 || len == 5) && c + len <= |t|
    && AllIn(t, c, c + len - 3, Digit) && t[c + len - 3] == ':'
    && AllIn(t, c + len - 2, c + len, Digit)
  }

  /** The hour takes two digits if it can, otherwise one; the two forms
      exclude each other, since the second character is a digit in one and
      the colon in the other. Zero: no clock at `c`. */
  function ClockLength(t: string, c: nat): (len: nat)
    ensures len != 0 ==> ClockShape(t, c, len)
    ensures len == 0 ==> !ClockShape(t, c, 4) && !ClockShape(t, c, 5)
  {
    if ClockShape(t, c, 5) then 5
    else if ClockShape(t, c, 4) then 4
    else 0
  }

  lemma {:induction false} ClockUnique(t: string, c: nat, len: nat)
    requires ClockShape(t, c, len)
    ensures ClockLength(t, c) == len
  {
    assert len == 4 ==> t[c + 1] == ':';
    if ClockShape(t, c, 5) {
      AllInAt(t, c, c + 2, Digit, c + 1);
    }
  }

  /** The room text `t[m..p]` runs to the end of its line and `$` holds at `p`. */
  predicate RoomWorks(t: string, m: nat, p: nat)
    requires m <= |t|
  {
    m < p <= Span(t, m, NotNewline) && EndAt(t, p)
  }

  /** The greedy `.+` from `m` gives back one character at a time, from `p`
      down, until `$` holds. */
  function LineEnd(t: string, m: nat, p: nat): (r: Option<nat>)
    requires m <= p <= |t|
    ensures r.Some? ==> m < r.value <= p && EndAt(t, r.value)
    decreases p
  {
    if p <= m then None else if EndAt(t, p) then Some(p) else LineEnd(t, m, p - 1)
  }

  /** `LineEnd` stops at the last position where `$` holds, and fails only
      when there is none. */
  lemma {:induction false} LineEndLast(t: string, m: nat, p: nat)
    requires m <= p <= |t|
    ensures LineEnd(t, m, p).Some? ==> forall q: nat :: LineEnd(t, m, p).value < q <= p ==> !EndAt(t, q)
    ensures LineEnd(t, m, p).None? ==> forall q: nat :: m < q <= p ==> !EndAt(t, q)
    decreases p
  {
    if m < p && !EndAt(t, p) {
      LineEndLast(t, m, p - 1);
    }
  }

  /** The greedy `\s+` after "in" (from `j`) gives back one character at a time, from
      `m` down to `j + 1`; at each split the room is tried as above. */
  function RoomFrom(t: string, j: nat, m: nat): (r: Option<(nat, nat)>)
    requires j <= m <= |t|
    ensures r.Some? ==> j < r.value.0 <= m && RoomWorks(t, r.value.0, r.value.1)
    decreases m
  {
    if m <= j then None
    else match LineEnd(t, m, Span(t, m, NotNewline)) {
      case Some(p) => Some((m, p))
      case None => RoomFrom(t, j, m - 1)
    }
  }

  /** The split `(m, p)` of `t[j..]` into whitespace and room that `RoomFrom` finds
      is the one the engine finds first: the largest `m`, then the largest `p`. */
  lemma {:induction false} RoomFromFirst(t: string, j: nat, m: nat)
    requires j <= m <= |t|
    ensures var r := RoomFrom(t, j, m);
      r.Some? ==> forall p: nat :: r.value.1 < p <= |t| ==> !RoomWorks(t, r.value.0, p)
    ensures var r := RoomFrom(t, j, m);
      r.Some? ==> forall q: nat, p: nat :: r.value.0 < q <= m ==> !RoomWorks(t, q, p)
    ensures RoomFrom(t, j, m).None? ==> forall q: nat, p: nat :: j < q <= m ==> !RoomWorks(t, q, p)
    decreases m
  {
    if j < m {
      var e := Span(t, m, NotNewline);
      LineEndLast(t, m, e);
      if LineEnd(t, m, e).None? {
        RoomFromFirst(t, j, m - 1);
      }
    }
  }

  /** Where the parts of rule 2 before the room lie: the date, the clock and its
      length, and the position just after "in". */
  datatype Head = Head(date: nat, clock: nat, clockLen: nat, rest: nat)

  /** Rule 2 up to and including "in". Each whitespace run in it is followed by a
      digit or a letter, so only its longest run can succeed. */
  function MeetingHead(t: string, i: nat): (r: Option<Head>)
    requires i <= |t|
    ensures r.Some? ==> r.value.date + 10 <= |t| && r.value.clock + r.value.clockLen <= |t|
    ensures r.Some? ==> r.value.rest <= |t|
  {
    if !(Boundary(t, i) && LitAt(t, i, SCHEDULE_A_MEETING_ON)) then None
    else
      var a := Span(t, i + |SCHEDULE_A_MEETING_ON|, Space);
      if !(i + |SCHEDULE_A_MEETING_ON| < a && DateAt(t, a)) then None
      else
        var b := Span(t, a + 10, Space);
        if !(a + 10 < b && LitAt(t, b, "at")) then None
        else
          var c := Span(t, b + 2, Space);
          var len := ClockLength(t, c);
          if !(b + 2 < c && len != 0) then None
          else
            var d := Span(t, c + len, Space);
            if !(c + len < d && LitAt(t, d, "in")) then None
            else Some(Head(a, c, len, d + 2))
  }

  /** Rule 2 up to and including "in", read declaratively. */
  ghost predicate HeadShape(t: string, i: nat, a: nat, b: nat, c: nat, len: nat, d: nat) {
    i + |SCHEDULE_A_MEETING_ON| < a && a + 10 < b && b + 2 < c && c + len < d && d + 2 <= |t|
    && Boundary(t, i) && LitAt(t, i, SCHEDULE_A_MEETING_ON)
    && AllIn(t, i + |SCHEDULE_A_MEETING_ON|, a, Space) && DateAt(t, a)
    && AllIn(t, a + 10, b, Space) && LitAt(t, b, "at")
    && AllIn(t, b + 2, c, Space) && ClockShape(t, c, len)
    && AllIn(t, c + len, d, Space) && LitAt(t, d, "in")
  }

  lemma {:induction false} HeadSound(t: string, i: nat) returns (b: nat, d: nat)
    requires i <= |t| && MeetingHead(t, i).Some?
    ensures var h := MeetingHead(t, i).value;
      HeadShape(t, i, h.date, b, h.clock, h.clockLen, d) && h.rest == d + 2
  {
    var a := Span(t, i + |SCHEDULE_A_MEETING_ON|, Space);
    b := Span(t, a + 10, Space);
    var c := Span(t, b + 2, Space);
    d := Span(t, c + ClockLength(t, c), Space);
  }

  lemma {:induction false} HeadComplete(t: string, i: nat, a: nat, b: nat, c: nat, len: nat, d: nat)
    requires HeadShape(t, i, a, b, c, len, d)
    ensures MeetingHead(t, i) == Some(Head(a, c, len, d + 2))
  {
    assert IsDigit(t[a]) && IsDigit(t[c]);
    LitStartsWord(t, b, "at");
    LitStartsWord(t, d, "in");
    SpanExact(t, i + |SCHEDULE_A_MEETING_ON|, a, Space);
    SpanExact(t, a + 10, b, Space);
    SpanExact(t, b + 2, c, Space);
    ClockUnique(t, c, len);
    SpanExact(t, c + len, d, Space);
  }

  function MeetingAt(t: string, i: nat): (r: Option<seq<Group>>)
    requires i <= |t|
    ensures r.Some? ==> |r.value| == 3 && forall k :: 0 <= k < 3 ==> r.value[k].lo <= r.value[k].hi <= |t|
  {
    match MeetingHead(t, i)
    case None => None
    case Some(h) =>
      match RoomFrom(t, h.rest, Span(t, h.rest, Space))
      case None => None
      case Some(mp) => Some([Group(h.date, h.date + 10), Group(h.clock, h.clock + h.clockLen), Group(mp.0, mp.1)])
  }

  /** `MeetingAt` put together from its two stages. */
  lemma {:induction false} MeetingAtStages(t: string, i: nat, h: Head, mp: (nat, nat))
    requires i <= |t| && MeetingHead(t, i) == Some(h)
    requires RoomFrom(t, h.rest, Span(t, h.rest, Space)) == Some(mp)
    ensures MeetingAt(t, i) == Some([Group(h.date, h.date + 10), Group(h.clock, h.clock + h.clockLen), Group(mp.0, mp.1)])
  {
  }

  /** The room after "in" (from `j`) read declaratively: whitespace, then text
      without a line feed, then `$`. */
  ghost predicate RoomShape(t: string, j: nat, m: nat, p: nat) {
    j < m < p <= |t| && AllIn(t, j, m, Space) && AllIn(t, m, p, NotNewline) && EndAt(t, p)
  }

  ghost predicate MeetingShape(t: string, i: nat, a: nat, b: nat, c: nat, len: nat, d: nat, m: nat, p: nat) {
    HeadShape(t, i, a, b, c, len, d) && RoomShape(t, d + 2, m, p)
  }

  lemma {:induction false} RoomSound(t: string, j: nat) returns (m: nat, p: nat)
    requires j <= |t| && RoomFrom(t, j, Span(t, j, Space)).Some?
    ensures RoomShape(t, j, m, p) && RoomFrom(t, j, Span(t, j, Space)) == Some((m, p))
  {
    var mp := RoomFrom(t, j, Span(t, j, Space)).value;
    m, p := mp.0, mp.1;
    SpanCovers(t, j, m, Space);
    SpanCovers(t, m, p, NotNewline);
  }

  /** Whenever the text after "in" has the room shape, the engine's split is the
      one with the longest whitespace and then the longest room. */
  lemma {:induction false} RoomComplete(t: string, j: nat, m: nat, p: nat) returns (ms: nat, ps: nat)
    requires RoomShape(t, j, m, p)
    ensures RoomShape(t, j, ms, ps) && RoomFrom(t, j, Span(t, j, Space)) == Some((ms, ps))
    ensures m < ms || (m == ms && p <= ps)
  {
    var m0 := Span(t, j, Space);
    SpanCovers(t, j, m, Space);
    SpanCovers(t, m, p, NotNewline);
    assert RoomWorks(t, m, p);
    RoomFromFirst(t, j, m0);
    var mp := RoomFrom(t, j, m0).value;
    ms, ps := mp.0, mp.1;
    SpanCovers(t, j, ms, Space);
    SpanCovers(t, ms, ps, NotNewline);
  }

  lemma {:induction false} MeetingSound(t: string, i: nat) returns (a: nat, b: nat, c: nat, len: nat, d: nat, m: nat, p: nat)
    requires i <= |t| && MeetingAt(t, i).Some?
    ensures MeetingShape(t, i, a, b, c, len, d, m, p)
    ensures MeetingAt(t, i) == Some([Group(a, a + 10), Group(c, c + len), Group(m, p)])
  {
    var h := MeetingHead(t, i).value;
    b, d := HeadSound(t, i);
    a, c, len := h.date, h.clock, h.clockLen;
    m, p := RoomSound(t, h.rest);
    MeetingAtStages(t, i, h, (m, p));
  }

  /** Whenever the text has the shape at `i`, the matcher succeeds there: the date
      and the clock are the ones of the shape, and the room is the split with the
      longest whitespace before it and then the longest room. */
  lemma {:induction false} MeetingComplete(t: string, i: nat, a: nat, b: nat, c: nat, len: nat, d: nat, m: nat, p: nat)
    returns (ms: nat, ps: nat)
    requires MeetingShape(t, i, a, b, c, len, d, m, p)
    ensures RoomShape(t, d + 2, ms, ps)
    ensures MeetingAt(t, i) == Some([Group(a, a + 10), Group(c, c + len), Group(ms, ps)])
    ensures m < ms || (m == ms && p <= ps)
  {
    HeadComplete(t, i, a, b, c, len, d);
    ms, ps := RoomComplete(t, d + 2, m, p);
    MeetingAtStages(t, i, Head(a, c, len, d + 2), (ms, ps));
  }

  // ---------------------------------------------------------------------------
  // Rule 5: word boundary, "report ", optionally "an " or "the ", "office issue",
  // whitespace, digits (group 1), whitespace, "for the", whitespace, the shortest
  // text (group 2), whitespace, "department", word boundary.

  /** What `department\b` after a whitespace run needs at `p`. */
  predicate DepartmentAt(t: string, p: nat)
    requires p <= |t|
  {
    var f := Span(t, p, Space);
    p < f && LitAt(t, f, DEPARTMENT) && Boundary(t, f + |DEPARTMENT|)
  }

  /** The department text `t[m..p]` stays on one line and the suffix holds at `p`. */
  predicate DepartmentWorks(t: string, m: nat, p: nat)
    requires m <= |t|
  {
    m < p <= Span(t, m, NotNewline) && DepartmentAt(t, p)
  }

  /** The lazy `.+?` takes one more character at a time, from `p` up to `n`. */
  function DepartmentEnd(t: string, p: nat, n: nat): (r: Option<nat>)
    requires p <= n + 1 && n <= |t|
    ensures r.Some? ==> p <= r.value <= n && DepartmentAt(t, r.value)
    decreases n + 1 - p
  {
    if p > n then None
    else if DepartmentAt(t, p) then Some(p)
    else DepartmentEnd(t, p + 1, n)
  }

  /** `DepartmentEnd` stops at the first position where the suffix holds, and
      fails only when there is none. */
  lemma {:induction false} DepartmentEndFirst(t: string, p: nat, n: nat)
    requires p <= n + 1 && n <= |t|
    ensures DepartmentEnd(t, p, n).Some? ==> forall q: nat :: p <= q < DepartmentEnd(t, p, n).value ==> !DepartmentAt(t, q)
    ensures DepartmentEnd(t, p, n).None? ==> forall q: nat :: p <= q <= n ==> !DepartmentAt(t, q)
    decreases n + 1 - p
  {
    if p <= n && !DepartmentAt(t, p) {
      DepartmentEndFirst(t, p + 1, n);
    }
  }

  /** The greedy `\s+` after "for the" (from `j`) gives back one character at a time,
      from `m` down to `j + 1`; at each split the lazy text is tried as above. */
  function DepartmentFrom(t: string, j: nat, m: nat): (r: Option<(nat, nat)>)
    requires j <= m <= |t|
    ensures r.Some? ==> j < r.value.0 <= m && DepartmentWorks(t, r.value.0, r.value.1)
    decreases m
  {
    if m <= j then None
    else match DepartmentEnd(t, m + 1, Span(t, m, NotNewline)) {
      case Some(p) => Some((m, p))
      case None => DepartmentFrom(t, j, m - 1)
    }
  }

  /** With the whitespace split at `m`, the lazy text stops at the first
      position where the suffix holds, and fails only when there is none. */
  lemma {:induction false} DepartmentEndAt(t: string, m: nat)
    requires m <= |t|
    ensures var r := DepartmentEnd(t, m + 1, Span(t, m, NotNewline));
      r.Some? ==> forall p: nat :: m < p < r.value ==> !DepartmentWorks(t, m, p)
    ensures DepartmentEnd(t, m + 1, Span(t, m, NotNewline)).None? ==> forall p: nat :: !DepartmentWorks(t, m, p)
  {
    DepartmentEndFirst(t, m + 1, Span(t, m, NotNewline));
  }

  /** With the split `DepartmentFrom` finds, no shorter text works. */
  lemma {:induction false} DepartmentFromShortest(t: string, j: nat, m: nat)
    requires j <= m <= |t|
    ensures var r := DepartmentFrom(t, j, m);
      r.Some? ==> forall p: nat :: r.value.0 < p < r.value.1 ==> !DepartmentWorks(t, r.value.0, p)
    decreases m
  {
    if j < m {
      DepartmentEndAt(t, m);
      if DepartmentEnd(t, m + 1, Span(t, m, NotNewline)).None? {
        DepartmentFromShortest(t, j, m - 1);
      }
    }
  }

  /** No split works from `lo + 1` up to `m - 1`, nor at `m`: none works up to `m`. */
  lemma {:induction false} NoDepartmentUpTo(t: string, lo: nat, m: nat)
    requires 0 < m <= |t|
    requires forall q: nat, p: nat :: lo < q <= m - 1 ==> !DepartmentWorks(t, q, p)
    requires forall p: nat :: !DepartmentWorks(t, m, p)
    ensures forall q: nat, p: nat :: lo < q <= m ==> !DepartmentWorks(t, q, p)
  {
  }

  /** No split with more whitespace than the one `DepartmentFrom` finds works. */
  lemma {:induction false} DepartmentFromLongest(t: string, j: nat, m: nat)
    requires j <= m <= |t|
    ensures var r := DepartmentFrom(t, j, m);
      r.Some? ==> forall q: nat, p: nat :: r.value.0 < q <= m ==> !DepartmentWorks(t, q, p)
    decreases m
  {
    if j < m {
      DepartmentEndAt(t, m);
      if DepartmentEnd(t, m + 1, Span(t, m, NotNewline)).None? {
        DepartmentFromLongest(t, j, m - 1);
        var r := DepartmentFrom(t, j, m - 1);
        if r.Some? {
          NoDepartmentUpTo(t, r.value.0, m);
        }
      }
    }
  }

  /** When `DepartmentFrom` finds no split, no split works. */
  lemma {:induction false} DepartmentFromNone(t: string, j: nat, m: nat)
    requires j <= m <= |t|
    ensures DepartmentFrom(t, j, m).None? ==> forall q: nat, p: nat :: j < q <= m ==> !DepartmentWorks(t, q, p)
    decreases m
  {
    if j < m {
      DepartmentEndAt(t, m);
      if DepartmentEnd(t, m + 1, Span(t, m, NotNewline)).None? {
        DepartmentFromNone(t, j, m - 1);
      }
    }
  }

  /** The split `DepartmentFrom` finds is the one the engine finds first: the
      largest `m`, then the smallest `p`. */
  lemma {:induction false} DepartmentFromFirst(t: string, j: nat, m: nat)
    requires j <= m <= |t|
    ensures var r := DepartmentFrom(t, j, m);
      r.Some? ==> forall p: nat :: r.value.0 < p < r.value.1 ==> !DepartmentWorks(t, r.value.0, p)
    ensures var r := DepartmentFrom(t, j, m);
      r.Some? ==> forall q: nat, p: nat :: r.value.0 < q <= m ==> !DepartmentWorks(t, q, p)
    ensures DepartmentFrom(t, j, m).None? ==> forall q: nat, p: nat :: j < q <= m ==> !DepartmentWorks(t, q, p)
  {
    DepartmentFromShortest(t, j, m);
    DepartmentFromLongest(t, j, m);
    DepartmentFromNone(t, j, m);
  }

  /** Where "office issue" starts after "report ": the optional group tries
      "an ", then "the ", then nothing; since "office issue" starts with neither
      letter, at most one of the three can succeed. */
  function ArticleEnd(t: string, k: nat): nat {
    if LitAt(t, k, "an ") then k + 3 else if LitAt(t, k, "the ") then k + 4 else k
  }

  /** The three ways the optional article can read. */
  predicate Article(t: string, k: nat, o: nat) {
    o == k || (o == k + 3 && LitAt(t, k, "an ")) || (o == k + 4 && LitAt(t, k, "the "))
  }

  /** Where the parts of rule 5 before the department lie: the issue number
      `t[number..numberEnd]`, and the position just after "for the". */
  datatype IssueHead = IssueHead(number: nat, numberEnd: nat, rest: nat)

  /** Rule 5 up to and including "for the". Each whitespace run in it is followed by
      a digit or a letter, and the digit run by whitespace, so only the longest runs
      can succeed. */
  function IssueHeadAt(t: string, i: nat): (r: Option<IssueHead>)
    requires i <= |t|
    ensures r.Some? ==> r.value.number < r.value.numberEnd <= r.value.rest <= |t|
    ensures r.Some? ==> AllIn(t, r.value.number, r.value.numberEnd, Digit)
  {
    if !(Boundary(t, i) && LitAt(t, i, REPORT)) then None
    else
      var o := ArticleEnd(t, i + |REPORT|);
      if !LitAt(t, o, OFFICE_ISSUE) then None
      else
        var a := Span(t, o + |OFFICE_ISSUE|, Space);
        var b := Span(t, a, Digit);
        var c := Span(t, b, Space);
        if !(o + |OFFICE_ISSUE| < a < b < c && LitAt(t, c, FOR_THE)) then None
        else Some(IssueHead(a, b, c + |FOR_THE|))
  }

  /** Rule 5 up to and including "for the", read declaratively. */
  ghost predicate IssueHeadShape(t: string, i: nat, o: nat, a: nat, b: nat, c: nat) {
    i + |REPORT| <= o && o + |OFFICE_ISSUE| < a < b < c && c + |FOR_THE| <= |t|
    && Boundary(t, i) && LitAt(t, i, REPORT) && Article(t, i + |REPORT|, o)
    && LitAt(t, o, OFFICE_ISSUE) && AllIn(t, o + |OFFICE_ISSUE|, a, Space)
    && AllIn(t, a, b, Digit) && AllIn(t, b, c, Space) && LitAt(t, c, FOR_THE)
  }

  lemma {:induction false} IssueHeadSound(t: string, i: nat) returns (o: nat, c: nat)
    requires i <= |t| && IssueHeadAt(t, i).Some?
    ensures var h := IssueHeadAt(t, i).value;
      IssueHeadShape(t, i, o, h.number, h.numberEnd, c) && h.rest == c + |FOR_THE|
  {
    o := ArticleEnd(t, i + |REPORT|);
    var a := Span(t, o + |OFFICE_ISSUE|, Space);
    var b := Span(t, a, Digit);
    c := Span(t, b, Space);
  }

  lemma {:induction false} IssueHeadComplete(t: string, i: nat, o: nat, a: nat, b: nat, c: nat)
    requires IssueHeadShape(t, i, o, a, b, c)
    ensures IssueHeadAt(t, i) == Some(IssueHead(a, b, c + |FOR_THE|))
  {
    var k := i + |REPORT|;
    LitStartsWord(t, o, OFFICE_ISSUE);
    if LitAt(t, k, "an ") {
      LitStartsWord(t, k, "an ");
    }
    if LitAt(t, k, "the ") {
      LitStartsWord(t, k, "the ");
    }
    assert ArticleEnd(t, k) == o;
    assert IsDigit(t[a]) && IsSpace(t[b]);
    LitStartsWord(t, c, FOR_THE);
    SpanExact(t, o + |OFFICE_ISSUE|, a, Space);
    SpanExact(t, a, b, Digit);
    SpanExact(t, b, c, Space);
  }

  function IssueAt(t: string, i: nat): (r: Option<seq<Group>>)
    requires i <= |t|
    ensures r.Some? ==> |r.value| == 2 && DigitsAt(t, r.value[0]) && r.value[1].lo <= r.value[1].hi <= |t|
  {
    match IssueHeadAt(t, i)
    case None => None
    case Some(h) =>
      match DepartmentFrom(t, h.rest, Span(t, h.rest, Space))
      case None => None
      case Some(mp) => Some([Group(h.number, h.numberEnd), Group(mp.0, mp.1)])
  }

  /** `IssueAt` put together from its two stages. */
  lemma {:induction false} IssueAtStages(t: string, i: nat, h: IssueHead, mp: (nat, nat))
    requires i <= |t| && IssueHeadAt(t, i) == Some(h)
    requires DepartmentFrom(t, h.rest, Span(t, h.rest, Space)) == Some(mp)
    ensures IssueAt(t, i) == Some([Group(h.number, h.numberEnd), Group(mp.0, mp.1)])
  {
  }

  /** The department after "for the" (from `j`) read declaratively: whitespace,
      text without a line feed, whitespace, "department", word boundary. */
  ghost predicate DepartmentShape(t: string, j: nat, m: nat, p: nat, f: nat) {
    j < m < p < f && f + |DEPARTMENT| <= |t|
    && AllIn(t, j, m, Space) && AllIn(t, m, p, NotNewline)
    && AllIn(t, p, f, Space) && LitAt(t, f, DEPARTMENT) && Boundary(t, f + |DEPARTMENT|)
  }

  ghost predicate IssueShape(t: string, i: nat, o: nat, a: nat, b: nat, c: nat, m: nat, p: nat, f: nat) {
    IssueHeadShape(t, i, o, a, b, c) && DepartmentShape(t, c + |FOR_THE|, m, p, f)
  }

  lemma {:induction false} DepartmentSound(t: string, j: nat) returns (m: nat, p: nat, f: nat)
    requires j <= |t| && DepartmentFrom(t, j, Span(t, j, Space)).Some?
    ensures DepartmentShape(t, j, m, p, f) && DepartmentFrom(t, j, Span(t, j, Space)) == Some((m, p))
  {
    var mp := DepartmentFrom(t, j, Span(t, j, Space)).value;
    m, p := mp.0, mp.1;
    f := Span(t, p, Space);
    SpanCovers(t, j, m, Space);
    SpanCovers(t, m, p, NotNewline);
  }

  /** Whenever the text after "for the" has the department shape, the engine's
      split is the one with the longest whitespace and then the shortest text. */
  lemma {:induction false} DepartmentComplete(t: string, j: nat, m: nat, p: nat, f: nat) returns (ms: nat, ps: nat, fs: nat)
    requires DepartmentShape(t, j, m, p, f)
    ensures DepartmentShape(t, j, ms, ps, fs) && DepartmentFrom(t, j, Span(t, j, Space)) == Some((ms, ps))
    ensures m < ms || (m == ms && ps <= p)
  {
    LitStartsWord(t, f, DEPARTMENT);
    SpanExact(t, p, f, Space);
    var m0 := Span(t, j, Space);
    SpanCovers(t, j, m, Space);
    SpanCovers(t, m, p, NotNewline);
    assert DepartmentWorks(t, m, p);
    DepartmentFromFirst(t, j, m0);
    var mp := DepartmentFrom(t, j, m0).value;
    ms, ps := mp.0, mp.1;
    fs := Span(t, ps, Space);
    SpanCovers(t, j, ms, Space);
    SpanCovers(t, ms, ps, NotNewline);
  }

  lemma {:induction false} IssueSound(t: string, i: nat) returns (o: nat, a: nat, b: nat, c: nat, m: nat, p: nat, f: nat)
    requires i <= |t| && IssueAt(t, i).Some?
    ensures IssueShape(t, i, o, a, b, c, m, p, f)
    ensures IssueAt(t, i) == Some([Group(a, b), Group(m, p)])
  {
    var h := IssueHeadAt(t, i).value;
    o, c := IssueHeadSound(t, i);
    a, b := h.number, h.numberEnd;
    m, p, f := DepartmentSound(t, h.rest);
    IssueAtStages(t, i, h, (m, p));
  }

  /** Whenever the text has the shape at `i`, the matcher succeeds there: the
      issue number is the one of the shape, and the department is the split with
      the longest whitespace before it and then the shortest text. */
  lemma {:induction false} IssueComplete(t: string, i: nat, o: nat, a: nat, b: nat, c: nat, m: nat, p: nat, f: nat)
    returns (ms: nat, ps: nat, fs: nat)
    requires IssueShape(t, i, o, a, b, c, m, p, f)
    ensures DepartmentShape(t, c + |FOR_THE|, ms, ps, fs)
    ensures IssueAt(t, i) == Some([Group(a, b), Group(ms, ps)])
    ensures m < ms || (m == ms && ps <= p)
  {
    IssueHeadComplete(t, i, o, a, b, c);
    var j := c + |FOR_THE|;
    ms, ps, fs := DepartmentComplete(t, j, m, p, f);
    IssueAtStages(t, i, IssueHead(a, b, j), (ms, ps));
  }

  // ---------------------------------------------------------------------------
  // The relaxed pattern: "ticket", whitespace, digits (group 1); no word boundary.

  function TicketAt(t: string, i: nat): (r: Option<seq<Group>>)
    requires i <= |t|
    ensures r.Some? ==> |r.value| == 1 && DigitsAt(t, r.value[0])
  {
    if !LitAt(t, i, TICKET) then None
    else
      var a := Span(t, i + |TICKET|, Space);
      var b := Span(t, a, Digit);
      if i + |TICKET| < a < b then
        Some([Group(a, b)])
      else None
  }

  ghost predicate TicketShape(t: string, i: nat, a: nat, b: nat) {
    i + |TICKET| < a < b <= |t| && LitAt(t, i, TICKET)
    && AllIn(t, i + |TICKET|, a, Space) && AllIn(t, a, b, Digit)
  }

  lemma {:induction false} TicketSound(t: string, i: nat) returns (a: nat, b: nat)
    requires i <= |t| && TicketAt(t, i).Some?
    ensures TicketShape(t, i, a, b) && TicketAt(t, i) == Some([Group(a, b)])
  {
    a := Span(t, i + |TICKET|, Space);
    b := Span(t, a, Digit);
  }

  /** Whenever the text has the shape at `i`, the match takes the longest digit run. */
  lemma {:induction false} TicketComplete(t: string, i: nat, a: nat, b: nat) returns (bs: nat)
    requires TicketShape(t, i, a, b)
    ensures TicketShape(t, i, a, bs) && TicketAt(t, i) == Some([Group(a, bs)]) && b <= bs
  {
    assert IsDigit(t[a]);
    SpanExact(t, i + |TICKET|, a, Space);
    bs := Span(t, a, Digit);
    SpanCovers(t, a, b, Digit);
  }

  // ---------------------------------------------------------------------------
  // Matching at a position, and searching.

  /** The groups of the match of `p` that starts at `i`, if there is one. */
  function MatchAt(p: Pattern, t: string, i: nat): (r: Option<seq<Group>>)
    requires i <= |t|
    ensures r.Some? ==> |r.value| == GroupCount(p)
    ensures r.Some? ==> forall k :: 0 <= k < |r.value| ==> r.value[k].lo <= r.value[k].hi <= |t|
    ensures r.Some? ==> forall k :: 0 <= k < |r.value| && DigitGroup(p, k) ==> DigitsAt(t, r.value[k])
  {
    match p
    case StatusOfTicket => NumberAfterAt(t, i, STATUS_OF_TICKET)
    case ScheduleMeeting => MeetingAt(t, i)
    case ExpenseBalance => NumberAfterAt(t, i, EXPENSE_BALANCE)
    case PerformanceBonus => BonusAt(t, i)
    case OfficeIssue => IssueAt(t, i)
    case TicketFallback => TicketAt(t, i)
  }

  /** A successful search: where the match starts, and `m.groups()`. */
  datatype Match = Match(start: nat, groups: seq<Group>)

  /** The scan `re.search` performs for any matcher `at` on a text of length `n`:
      the first start position from `i` on, in increasing order up to and
      including `n`, at which `at` succeeds. */
  function FirstFrom(n: nat, at: nat --> Option<seq<Group>>, i: nat): (r: Option<Match>)
    requires i <= n && forall k :: i <= k <= n ==> at.requires(k)
    ensures r.Some? ==> i <= r.value.start <= n && at(r.value.start) == Some(r.value.groups)
    ensures r.Some? ==> forall k :: i <= k < r.value.start ==> at(k).None?
    ensures r.None? ==> forall k :: i <= k <= n ==> at(k).None?
    decreases n - i
  {
    match at(i)
    case Some(g) => Some(Match(i, g))
    case None => if i == n then None else FirstFrom(n, at, i + 1)
  }

  /** `pattern.search(t)`: the leftmost match, if any. */
  function Search(p: Pattern, t: string): (r: Option<Match>)
    ensures r.Some? ==> r.value.start <= |t| && MatchAt(p, t, r.value.start) == Some(r.value.groups)
    ensures r.Some? ==> forall k :: 0 <= k < r.value.start ==> MatchAt(p, t, k).None?
    ensures r.None? ==> forall k :: 0 <= k <= |t| ==> MatchAt(p, t, k).None?
  {
    var at := (k: nat) requires k <= |t| => MatchAt(p, t, k);
    assert forall k: nat :: k <= |t| ==> at(k) == MatchAt(p, t, k);
    FirstFrom(|t|, at, 0)
  }

  /** The search result is determined by the leftmost start: a match at `s`
      with none before it is what `re.search` returns. */
  lemma {:induction false} SearchAt(p: Pattern, t: string, s: nat, gs: seq<Group>)
    requires s <= |t| && MatchAt(p, t, s) == Some(gs)
    requires forall k :: 0 <= k < s ==> MatchAt(p, t, k).None?
    ensures Search(p, t) == Some(Match(s, gs))
  {
  }

  /** `m.groups()`: the text each group matched. */
  function Captured(t: string, gs: seq<Group>): (r: seq<string>)
    requires forall k :: 0 <= k < |gs| ==> gs[k].lo <= gs[k].hi <= |t|
    ensures |r| == |gs|
    ensures forall k :: 0 <= k < |gs| ==> r[k] == t[gs[k].lo..gs[k].hi]
    ensures forall k :: 0 <= k < |gs| && DigitsAt(t, gs[k]) ==> IsDigitRun(r[k])
  {
    forall k | 0 <= k < |gs| && DigitsAt(t, gs[k]) ensures IsDigitRun(t[gs[k].lo..gs[k].hi]) {
      DigitSlice(t, gs[k].lo, gs[k].hi);
    }
    seq(|gs|, k requires 0 <= k < |gs| => t[gs[k].lo..gs[k].hi])
  }

  /** No pattern matches the empty text: each one begins with a non-empty phrase. */
  lemma {:induction false} SearchEmpty(p: Pattern)
    ensures Search(p, "").None?
  {
    assert MatchAt(p, "", 0).None?;
  }

  /** The phrase every match of `p` begins with, compared case-insensitively. */
  function Lead(p: Pattern): string {
    match p
    case StatusOfTicket => STATUS_OF_TICKET
    case ScheduleMeeting => SCHEDULE_A_MEETING_ON
    case ExpenseBalance => EXPENSE_BALANCE
    case PerformanceBonus => PERFORMANCE_BONUS
    case OfficeIssue => REPORT
    case TicketFallback => TICKET
  }

  /** No pattern matches at a position where its leading phrase does not start. */
  lemma {:induction false} LeadNeeded(p: Pattern, t: string, i: nat)
    requires i <= |t| && !LitAt(t, i, Lead(p))
    ensures MatchAt(p, t, i).None?
  {
    match p
    case ScheduleMeeting => assert MeetingHead(t, i).None?;
    case OfficeIssue => assert IssueHeadAt(t, i).None?;
    case _ =>
  }

  /** A pattern is not found in a text none of whose characters, lower-cased,
      is the `c`-th character of the pattern's leading phrase. */
  lemma {:induction false} AbsentLead(p: Pattern, t: string, c: nat)
    requires c < |Lead(p)|
    requires forall j :: 0 <= j < |t| ==> Lower(t[j]) != Lead(p)[c]
    ensures Search(p, t).None?
  {
    var lit := Lead(p);
    forall i | 0 <= i <= |t| ensures MatchAt(p, t, i).None? {
      assert !LitAt(t, i, lit) by {
        if i + |lit| <= |t| {
          assert Lower(t[i + c]) != lit[c];
        }
      }
      LeadNeeded(p, t, i);
    }
  }
}
