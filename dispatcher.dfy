/**
 * The query dispatcher: the ordered rule table, the first-match dispatch of
 * `execute`, the coercion of the captures into an insertion-ordered argument
 * dictionary, the relaxed ticket fallback, and the error outcomes.
 *
 * `Route` is the specification: a function from the optional query string to
 * an `Outcome`. `Execute` is the handler as the source writes it, a loop over
 * the rule table with an early return and an inner loop that fills the
 * argument dictionary one key at a time; it is proved to return what `Route`
 * prescribes, turned into a response by `Respond`. The lemmas state what the
 * dispatcher promises about `Route`.
 */
module Dispatcher {
  import opened Options
  import opened Text
  import opened Decimal
  import opened Patterns
  import opened Json

  // ---------------------------------------------------------------------------
  // The rule table.

  /** How a capture is coerced: `int(val)` or `val.strip()`. */
  datatype Kind = IntKind | StrKind

  /** One entry of the table: the function name, the pattern, the parameter
      names in signature order and their kinds. */
  datatype Rule = Rule(name: string, pattern: Pattern, argKeys: seq<string>, argTypes: seq<Kind>)

  const TICKET_STATUS := "get_ticket_status"
  const TICKET_ID := "ticket_id"

  /** The five templated rules, in the order they are tried. */
  const RULES: seq<Rule> := [
    Rule(TICKET_STATUS, StatusOfTicket, [TICKET_ID], [IntKind]),
    Rule("schedule_meeting", ScheduleMeeting, ["date", "time", "meeting_room"], [StrKind, StrKind, StrKind]),
    Rule("get_expense_balance", ExpenseBalance, ["employee_id"], [IntKind]),
    Rule("calculate_performance_bonus", PerformanceBonus, ["employee_id", "current_year"], [IntKind, IntKind]),
    Rule("report_office_issue", OfficeIssue, ["issue_code", "department"], [IntKind, StrKind])
  ]

  const MISSING_Q := "Missing query parameter q"
  const GROUP_COUNT_MISMATCH := "Parsing error: group count mismatch"
  /** The detail of the final 400, written in three pieces so that the
      verifier can see its first characters. */
  const NO_MATCH := "Could not map query to any " + "pre-defined function. Make sure the question " + "follows one of the templated formats."
  /** What the server answers when an exception escapes the handler. */
  const INTERNAL_ERROR := "Internal Server Error"

  function InvalidInteger(key: string): string {
    "Invalid integer for " + key
  }

  /** No name occurs twice: each one differs from all before it. */
  predicate Distinct(s: seq<string>)
    decreases |s|
  {
    |s| <= 1 || (s[|s| - 1] !in s[..|s| - 1] && Distinct(s[..|s| - 1]))
  }

  lemma {:induction false} DistinctAt(s: seq<string>, i: nat)
    requires Distinct(s) && i < |s|
    ensures s[i] !in s[..i]
    decreases |s|
  {
    if i < |s| - 1 {
      var init := s[..|s| - 1];
      DistinctAt(init, i);
      assert init[..i] == s[..i];
    }
  }

  /** Every rule names one parameter kind per parameter and one parameter per
      capture group, never names a parameter twice, and declares `int` only
      for groups that capture digits. */
  predicate WellFormed(rule: Rule) {
    && |rule.argKeys| == |rule.argTypes| == GroupCount(rule.pattern)
    && Distinct(rule.argKeys)
    && forall k :: 0 <= k < |rule.argTypes| && rule.argTypes[k] == IntKind ==> DigitGroup(rule.pattern, k)
  }

  lemma {:induction false} TableWellFormed()
    ensures forall j :: 0 <= j < |RULES| ==> WellFormed(RULES[j])
  {
    assert WellFormed(RULES[0]);
    assert WellFormed(RULES[1]) by {
      var keys := RULES[1].argKeys;
      assert keys[0] != keys[1] && keys[0] != keys[2] && keys[1] != keys[2];
    }
    assert WellFormed(RULES[2]);
    assert WellFormed(RULES[3]) by {
      assert RULES[3].argKeys[0] != RULES[3].argKeys[1];
    }
    assert WellFormed(RULES[4]) by {
      assert RULES[4].argKeys[0] != RULES[4].argKeys[1];
    }
  }

  // ---------------------------------------------------------------------------
  // The argument dictionary.

  /** The keys of a dictionary, in insertion order. */
  function Keys(ms: Members): (ks: seq<string>)
    ensures |ks| == |ms|
  {
    if ms == [] then [] else [ms[0].0] + Keys(ms[1..])
  }

  lemma {:induction false} KeysAppend(ms: Members, e: (string, Value))
    ensures Keys(ms + [e]) == Keys(ms) + [e.0]
    decreases |ms|
  {
    if ms != [] {
      assert (ms + [e])[1..] == ms[1..] + [e];
      KeysAppend(ms[1..], e);
    }
  }

  /** `d[key]` for a dictionary, `None` when the key is absent. */
  function Get(ms: Members, key: string): (r: Option<Value>)
    ensures r.None? <==> key !in Keys(ms)
  {
    if ms == [] then None else if ms[0].0 == key then Some(ms[0].1) else Get(ms[1..], key)
  }

  /** `d[key] = v` on an `OrderedDict`: a present key keeps its position and
      takes the new value, a new key goes at the end. */
  function Put(ms: Members, key: string, v: Value): (r: Members)
    ensures Get(r, key) == Some(v)
    ensures forall other :: other != key ==> Get(r, other) == Get(ms, other)
    ensures key in Keys(ms) ==> Keys(r) == Keys(ms)
    ensures key !in Keys(ms) ==> r == ms + [(key, v)]
  {
    if ms == [] then [(key, v)]
    else if ms[0].0 == key then [(key, v)] + ms[1..]
    else
      var r := [ms[0]] + Put(ms[1..], key, v);
      assert Keys(r) == [ms[0].0] + Keys(Put(ms[1..], key, v));
      assert key !in Keys(ms) ==> r == [ms[0]] + (ms[1..] + [(key, v)]) == ms + [(key, v)];
      r
  }

  // ---------------------------------------------------------------------------
  // Coercing the captures.

  /** What the inner loop produces: the filled dictionary, or the key whose
      capture `int()` rejected. */
  datatype Coerced = Args(ms: Members) | BadInt(key: string)

  /** A capture that `int()` converts when its kind asks for it: a digit run
      within the digit limit, or any text for `str`. */
  predicate Converts(kind: Kind, val: string) {
    kind == IntKind ==> IsDigitRun(val) && |val| <= MAX_STR_DIGITS
  }

  /** An `int` capture with more digits than `int()` accepts. */
  predicate TooLong(kind: Kind, val: string) {
    kind == IntKind && |val| > MAX_STR_DIGITS
  }

  /** One capture coerced by its kind. */
  function CoerceValue(kind: Kind, val: string): (r: Option<Value>)
    ensures kind == StrKind ==> r == Some(Str(Strip(val)))
    ensures kind == IntKind && IsDigitRun(val) && |val| <= MAX_STR_DIGITS ==> r == Some(Int(DecimalValue(val)))
    ensures kind == IntKind && IsDigitRun(val) && |val| > MAX_STR_DIGITS ==> r.None?
    ensures Converts(kind, val) ==> r.Some?
  {
    assert IsDigitRun(val) ==>
        (|val| <= MAX_STR_DIGITS ==> ParseInt(val) == Some(DecimalValue(val))) && (|val| > MAX_STR_DIGITS ==> ParseInt(val).None?) by {
      if IsDigitRun(val) {
        ParseDigitRun(val);
      }
    }
    match kind
    case IntKind =>
      (match ParseInt(val)
       case Some(n) => Some(Int(n))
       case None => None)
    case StrKind => Some(Str(Strip(val)))
  }

  /** The number of steps of `zip(keys, kinds, vals)`: the shortest length. */
  function ZipLength(keys: seq<string>, kinds: seq<Kind>, vals: seq<string>): (n: nat)
    ensures n <= |keys| && n <= |kinds| && n <= |vals|
    ensures n == |keys| || n == |kinds| || n == |vals|
  {
    if |keys| <= |kinds| && |keys| <= |vals| then |keys|
    else if |kinds| <= |vals| then |kinds|
    else |vals|
  }

  /** The inner loop from step `i` on, with `acc` filled so far: each step
      stores one coerced capture, and the first capture `int()` rejects
      stops the loop with its key, one of the keys. */
  function CoerceFrom(keys: seq<string>, kinds: seq<Kind>, vals: seq<string>, i: nat, acc: Members): (r: Coerced)
    requires i <= ZipLength(keys, kinds, vals)
    ensures r.BadInt? ==> r.key in keys
    decreases ZipLength(keys, kinds, vals) - i
  {
    if i == ZipLength(keys, kinds, vals) then Args(acc)
    else
      match CoerceValue(kinds[i], vals[i])
      case None => BadInt(keys[i])
      case Some(v) => CoerceFrom(keys, kinds, vals, i + 1, Put(acc, keys[i], v))
  }

  function Coerce(keys: seq<string>, kinds: seq<Kind>, vals: seq<string>): Coerced {
    CoerceFrom(keys, kinds, vals, 0, [])
  }

  /** The dictionary the inner loop builds when every coercion succeeds: one
      entry per key, in order, holding its coerced capture. */
  function Entries(keys: seq<string>, kinds: seq<Kind>, vals: seq<string>): (es: Members)
    requires |keys| == |kinds| == |vals|
    requires forall k :: 0 <= k < |keys| ==> Converts(kinds[k], vals[k])
    ensures |es| == |keys|
  {
    seq(|keys|, k requires 0 <= k < |keys| => (keys[k], CoerceValue(kinds[k], vals[k]).value))
  }

  /** The first step from `i` on whose `int` capture is too long for `int()`,
      or `|vals|` when there is none. */
  function FirstTooLong(kinds: seq<Kind>, vals: seq<string>, i: nat): (k: nat)
    requires |kinds| == |vals| && i <= |vals|
    ensures i <= k <= |vals|
    ensures forall n :: i <= n < k ==> !TooLong(kinds[n], vals[n])
    ensures k < |vals| ==> TooLong(kinds[k], vals[k])
    decreases |vals| - i
  {
    if i == |vals| || TooLong(kinds[i], vals[i]) then i else FirstTooLong(kinds, vals, i + 1)
  }

  lemma {:induction false} TakeNext(es: Members, i: nat)
    requires i < |es|
    ensures es[..i] + [es[i]] == es[..i + 1]
  {
  }

  /** One step of the inner loop that stores a value. */
  lemma {:induction false} CoerceFromStep(keys: seq<string>, kinds: seq<Kind>, vals: seq<string>, i: nat, acc: Members, v: Value)
    requires i < ZipLength(keys, kinds, vals) && CoerceValue(kinds[i], vals[i]) == Some(v)
    ensures CoerceFrom(keys, kinds, vals, i, acc) == CoerceFrom(keys, kinds, vals, i + 1, Put(acc, keys[i], v))
  {
  }

  /** Filling the keys in order: the next key is new, so it is appended. */
  lemma {:induction false} PutNext(keys: seq<string>, i: nat, acc: Members, v: Value)
    requires i < |keys| && Distinct(keys) && Keys(acc) == keys[..i]
    ensures Put(acc, keys[i], v) == acc + [(keys[i], v)]
    ensures Keys(acc + [(keys[i], v)]) == keys[..i + 1]
  {
    DistinctAt(keys, i);
    KeysAppend(acc, (keys[i], v));
    assert keys[..i] + [keys[i]] == keys[..i + 1];
  }

  /** With distinct keys, one kind per key, and every capture convertible by
      its kind, the loop that has stored the first `i` entries goes on to
      store all of them. */
  lemma {:induction false} CoerceFromValid(keys: seq<string>, kinds: seq<Kind>, vals: seq<string>, i: nat)
    requires |keys| == |kinds| == |vals| && i <= |keys| && Distinct(keys)
    requires forall k :: 0 <= k < |keys| ==> Converts(kinds[k], vals[k])
    requires Keys(Entries(keys, kinds, vals)[..i]) == keys[..i]
    ensures CoerceFrom(keys, kinds, vals, i, Entries(keys, kinds, vals)[..i]) == Args(Entries(keys, kinds, vals))
    ensures Keys(Entries(keys, kinds, vals)) == keys
    decreases |keys| - i
  {
    var es := Entries(keys, kinds, vals);
    if i == |keys| {
      assert es[..i] == es && keys[..i] == keys;
    } else {
      var e := es[i];
      assert e == (keys[i], CoerceValue(kinds[i], vals[i]).value);
      CoerceFromStep(keys, kinds, vals, i, es[..i], e.1);
      PutNext(keys, i, es[..i], e.1);
      TakeNext(es, i);
      CoerceFromValid(keys, kinds, vals, i + 1);
    }
  }

  /** The loop as a whole, when every capture converts. */
  lemma {:induction false} CoerceValid(keys: seq<string>, kinds: seq<Kind>, vals: seq<string>)
    requires |keys| == |kinds| == |vals| && Distinct(keys)
    requires forall k :: 0 <= k < |keys| ==> Converts(kinds[k], vals[k])
    ensures Coerce(keys, kinds, vals) == Args(Entries(keys, kinds, vals))
    ensures Keys(Entries(keys, kinds, vals)) == keys
  {
    var es := Entries(keys, kinds, vals);
    assert es[..0] == [] && keys[..0] == [];
    CoerceFromValid(keys, kinds, vals, 0);
  }

  /** The first capture from step `i` on that `int()` rejects stops the loop
      with its key, whatever was stored before. */
  lemma {:induction false} CoerceFromFails(keys: seq<string>, kinds: seq<Kind>, vals: seq<string>, i: nat, k: nat)
    requires |keys| == |kinds| == |vals| && i <= k < |keys|
    requires forall n :: i <= n < k ==> CoerceValue(kinds[n], vals[n]).Some?
    requires CoerceValue(kinds[k], vals[k]).None?
    ensures forall acc :: CoerceFrom(keys, kinds, vals, i, acc) == BadInt(keys[k])
    decreases k - i
  {
    if i < k {
      CoerceFromFails(keys, kinds, vals, i + 1, k);
      forall acc ensures CoerceFrom(keys, kinds, vals, i, acc) == BadInt(keys[k]) {
        CoerceFromStep(keys, kinds, vals, i, acc, CoerceValue(kinds[i], vals[i]).value);
      }
    }
  }

  /** With digit runs wherever `int` is asked for, the loop stops at the
      first capture that is too long, with its key. */
  lemma {:induction false} CoerceTooLong(keys: seq<string>, kinds: seq<Kind>, vals: seq<string>)
    requires |keys| == |kinds| == |vals|
    requires forall n :: 0 <= n < |vals| && kinds[n] == IntKind ==> IsDigitRun(vals[n])
    requires FirstTooLong(kinds, vals, 0) < |vals|
    ensures Coerce(keys, kinds, vals) == BadInt(keys[FirstTooLong(kinds, vals, 0)])
  {
    var k := FirstTooLong(kinds, vals, 0);
    forall n | 0 <= n < k ensures CoerceValue(kinds[n], vals[n]).Some? {
      assert !TooLong(kinds[n], vals[n]);
    }
    CoerceFromFails(keys, kinds, vals, 0, k);
  }

  // ---------------------------------------------------------------------------
  // The outcome of a query.

  /** What the handler produces: a call descriptor, or an error with an HTTP
      status and a detail message. */
  datatype Outcome = Ok(name: string, args: Members) | Err(code: nat, detail: string)

  /** The invalid-integer detail differs from every fixed detail. */
  lemma {:induction false} InvalidIntegerDetail(key: string)
    ensures InvalidInteger(key) != MISSING_Q && InvalidInteger(key) != NO_MATCH
    ensures InvalidInteger(key) != INTERNAL_ERROR && InvalidInteger(key) != GROUP_COUNT_MISMATCH
  {
    assert InvalidInteger(key)[2] == 'v';
    assert MISSING_Q[2] == 's' && NO_MATCH[2] == 'u' && INTERNAL_ERROR[2] == 't' && GROUP_COUNT_MISMATCH[2] == 'r';
  }

  /** A matched rule: count the groups, then coerce them. A count mismatch is
      the only 500; otherwise the result is the rule's descriptor or a 400
      naming one of its keys, never one of the other fixed errors. */
  function ApplyRule(rule: Rule, vals: seq<string>): (r: Outcome)
    ensures r.Ok? ==> r.name == rule.name
    ensures |vals| != |rule.argKeys| ==> r == Err(500, GROUP_COUNT_MISMATCH)
    ensures r.Err? ==> (r.code == 500 <==> |vals| != |rule.argKeys|)
    ensures r.Err? && r.code == 400 ==> exists key :: key in rule.argKeys && r.detail == InvalidInteger(key)
    ensures r.Err? ==> r.detail != MISSING_Q && r.detail != NO_MATCH && r.detail != INTERNAL_ERROR
  {
    if |vals| != |rule.argKeys| then Err(500, GROUP_COUNT_MISMATCH)
    else
      match Coerce(rule.argKeys, rule.argTypes, vals)
      case BadInt(key) =>
        InvalidIntegerDetail(key);
        Err(400, InvalidInteger(key))
      case Args(ms) => Ok(rule.name, ms)
  }

  /** The captures of a successful search, as `m.groups()` returns them: no
      longer than the text, and digit runs for the digit groups. */
  function Groups(p: Pattern, text: string, m: Match): (vals: seq<string>)
    requires Search(p, text) == Some(m)
    ensures |vals| == GroupCount(p)
    ensures forall k :: 0 <= k < |vals| ==> |vals[k]| <= |text|
    ensures forall k :: 0 <= k < |vals| && DigitGroup(p, k) ==> IsDigitRun(vals[k])
  {
    Captured(text, m.groups)
  }

  /** The relaxed `ticket\s+(\d+)` search, and then the "could not map" error.
      Its only argument is `ticket_id`; it answers "could not map" exactly
      when the relaxed pattern is absent, and 500 only when the captured
      digits are too many for `int()`. */
  function Fallback(text: string): (r: Outcome)
    ensures r.Ok? ==> r.name == TICKET_STATUS && Keys(r.args) == [TICKET_ID]
    ensures r == Err(400, NO_MATCH) <==> Search(TicketFallback, text).None?
    ensures r.Err? && Search(TicketFallback, text).Some? ==>
      r == Err(500, INTERNAL_ERROR) && |Groups(TicketFallback, text, Search(TicketFallback, text).value)[0]| > MAX_STR_DIGITS
  {
    match Search(TicketFallback, text)
    case Some(m) =>
      ParseDigitRun(Groups(TicketFallback, text, m)[0]);
      (match ParseInt(Groups(TicketFallback, text, m)[0])
       case Some(n) => Ok(TICKET_STATUS, [(TICKET_ID, Int(n))])
       case None => Err(500, INTERNAL_ERROR))
    case None => Err(400, NO_MATCH)
  }

  /** The rules from index `j` on, then the fallback. The missing-parameter
      error never comes from here: it belongs to the check before the rules. */
  function TryRules(text: string, j: nat): (r: Outcome)
    requires j <= |RULES|
    ensures r.Err? ==> r.detail != MISSING_Q
    decreases |RULES| - j
  {
    if j == |RULES| then Fallback(text)
    else
      match Search(RULES[j].pattern, text)
      case Some(m) => ApplyRule(RULES[j], Groups(RULES[j].pattern, text, m))
      case None => TryRules(text, j + 1)
  }

  /** The whole handler: the emptiness check on the raw parameter, then the
      rules on the stripped text. "Missing query parameter q" is answered
      exactly when `q` is absent or empty, before any stripping. */
  function Route(q: Option<string>): (r: Outcome)
    ensures r == Err(400, MISSING_Q) <==> q.None? || q.value == []
  {
    if q.None? || q.value == [] then Err(400, MISSING_Q)
    else TryRules(Strip(q.value), 0)
  }

  // ---------------------------------------------------------------------------
  // Responses.

  datatype Response = Descriptor(name: string, arguments: string) | HttpError(status: nat, detail: string)

  /** `build_response`: the name, and the arguments as a JSON object text
      that reads back as exactly the given keys and values, in order. */
  function BuildResponse(name: string, ms: Members): (r: Response)
    ensures r.Descriptor? && r.name == name
    ensures DecodeObject(r.arguments) == Some(ms)
  {
    DecodeEncode(ms);
    Descriptor(name, EncodeObject(ms))
  }

  /** What the handler returns for an outcome: `build_response` for a call,
      or the `HTTPException` it raises, with the same status and detail. */
  function Respond(o: Outcome): (r: Response)
    ensures r.Descriptor? <==> o.Ok?
    ensures o.Ok? ==> r.name == o.name && DecodeObject(r.arguments) == Some(o.args)
    ensures o.Err? ==> r.status == o.code && r.detail == o.detail
  {
    match o
    case Ok(name, ms) => BuildResponse(name, ms)
    case Err(code, detail) => HttpError(code, detail)
  }

  /** The body of the rule loop once a rule's pattern is found: the group
      count check, then the inner loop that fills the argument dictionary
      in place, returning early on the first capture `int()` rejects. */
  method Answer(rule: Rule, groups: seq<string>) returns (r: Response)
    ensures r == Respond(ApplyRule(rule, groups))
  {
    if |groups| != |rule.argKeys| {
      return HttpError(500, GROUP_COUNT_MISMATCH);
    }
    var ordered: Members := [];
    var n := ZipLength(rule.argKeys, rule.argTypes, groups);
    var i := 0;
    while i < n
      invariant i <= n
      invariant CoerceFrom(rule.argKeys, rule.argTypes, groups, i, ordered) == Coerce(rule.argKeys, rule.argTypes, groups)
    {
      var key := rule.argKeys[i];
      if rule.argTypes[i] == IntKind {
        var value := ParseInt(groups[i]);
        if value.None? {
          assert CoerceFrom(rule.argKeys, rule.argTypes, groups, i, ordered) == BadInt(key);
          assert ApplyRule(rule, groups) == Err(400, InvalidInteger(key));
          return HttpError(400, InvalidInteger(key));
        }
        CoerceFromStep(rule.argKeys, rule.argTypes, groups, i, ordered, Int(value.value));
        ordered := Put(ordered, key, Int(value.value));
      } else {
        CoerceFromStep(rule.argKeys, rule.argTypes, groups, i, ordered, Str(Strip(groups[i])));
        ordered := Put(ordered, key, Str(Strip(groups[i])));
      }
      i := i + 1;
    }
    assert CoerceFrom(rule.argKeys, rule.argTypes, groups, n, ordered) == Args(ordered);
    assert ApplyRule(rule, groups) == Ok(rule.name, ordered);
    return BuildResponse(rule.name, ordered);
  }

  /** The `/execute` handler as written: the rules in order with an early
      return on the first match, then the relaxed ticket pattern. */
  method Execute(q: Option<string>) returns (r: Response)
    ensures r == Respond(Route(q))
  {
    if q.None? || q.value == [] {
      return HttpError(400, MISSING_Q);
    }
    var text := Strip(q.value);
    var j := 0;
    while j < |RULES|
      invariant j <= |RULES|
      invariant TryRules(text, j) == Route(q)
    {
      var rule := RULES[j];
      var found := Search(rule.pattern, text);
      if found.Some? {
        r := Answer(rule, Groups(rule.pattern, text, found.value));
        return;
      }
      j := j + 1;
    }
    var fallback := Search(TicketFallback, text);
    if fallback.Some? {
      var ticket := ParseInt(Groups(TicketFallback, text, fallback.value)[0]);
      if ticket.None? {
        return HttpError(500, INTERNAL_ERROR);
      }
      return BuildResponse(TICKET_STATUS, [(TICKET_ID, Int(ticket.value))]);
    }
    return HttpError(400, NO_MATCH);
  }


  // ---------------------------------------------------------------------------
  // What the dispatcher promises.

  /** A well-formed rule whose pattern is found: its group count matches and
      every `int` capture is a digit run. When no `int` capture is too long,
      the result is the rule's name with the full dictionary of coerced
      captures, keys in signature order; otherwise it is "Invalid integer
      for" the key of the first capture that is too long. */
  lemma {:induction false} ApplyWellFormed(rule: Rule, text: string, m: Match)
    requires WellFormed(rule) && Search(rule.pattern, text) == Some(m)
    ensures var vals := Groups(rule.pattern, text, m);
      && |vals| == |rule.argKeys| == |rule.argTypes|
      && (forall k :: 0 <= k < |vals| && rule.argTypes[k] == IntKind ==> IsDigitRun(vals[k]))
    ensures var vals := Groups(rule.pattern, text, m);
      var k := FirstTooLong(rule.argTypes, vals, 0);
      k == |vals| ==>
        && ApplyRule(rule, vals) == Ok(rule.name, Entries(rule.argKeys, rule.argTypes, vals))
        && Keys(Entries(rule.argKeys, rule.argTypes, vals)) == rule.argKeys
    ensures var vals := Groups(rule.pattern, text, m);
      var k := FirstTooLong(rule.argTypes, vals, 0);
      k < |vals| ==> ApplyRule(rule, vals) == Err(400, InvalidInteger(rule.argKeys[k]))
  {
    var vals := Groups(rule.pattern, text, m);
    var k := FirstTooLong(rule.argTypes, vals, 0);
    if k == |vals| {
      CoerceValid(rule.argKeys, rule.argTypes, vals);
    } else {
      CoerceTooLong(rule.argKeys, rule.argTypes, vals);
    }
  }

  /** In a text of at most `MAX_STR_DIGITS` characters no capture is too long. */
  lemma {:induction false} ShortTextFits(p: Pattern, text: string, m: Match, kinds: seq<Kind>)
    requires Search(p, text) == Some(m) && |text| <= MAX_STR_DIGITS
    requires |kinds| == |Groups(p, text, m)|
    ensures FirstTooLong(kinds, Groups(p, text, m), 0) == |kinds|
  {
  }

  /** A found rule of this table never yields the group-count 500; in a text
      within the digit limit it yields its descriptor. */
  lemma {:induction false} ApplyTableRule(j: nat, text: string, m: Match)
    requires j < |RULES| && Search(RULES[j].pattern, text) == Some(m)
    ensures ApplyRule(RULES[j], Groups(RULES[j].pattern, text, m)).Err? ==> ApplyRule(RULES[j], Groups(RULES[j].pattern, text, m)).code == 400
    ensures |text| <= MAX_STR_DIGITS ==> ApplyRule(RULES[j], Groups(RULES[j].pattern, text, m)).Ok?
  {
    TableWellFormed();
    ApplyWellFormed(RULES[j], text, m);
    if |text| <= MAX_STR_DIGITS {
      ShortTextFits(RULES[j].pattern, text, m, RULES[j].argTypes);
    }
  }

  /** A ticket number too long for `int()` in "status of ticket ...": the
      first rule answers "Invalid integer for ticket_id". */
  lemma {:induction false} TooLongRejected(d: string)
    requires IsDigitRun(d) && |d| > MAX_STR_DIGITS
    ensures ApplyRule(RULES[0], [d]) == Err(400, InvalidInteger(TICKET_ID))
  {
    assert CoerceValue(IntKind, d).None?;
  }

  /** Rules that are not found are passed over. */
  lemma {:induction false} TryRulesSkip(text: string, i: nat, j: nat)
    requires i <= j <= |RULES|
    requires forall k :: i <= k < j ==> Search(RULES[k].pattern, text).None?
    ensures TryRules(text, i) == TryRules(text, j)
    decreases j - i
  {
    if i < j {
      TryRulesSkip(text, i + 1, j);
    }
  }

  /** First match wins: when rule `j` is the first rule whose pattern is found
      in the stripped query, rule `j` alone decides; no later rule and not
      the fallback is consulted, and the group-count error cannot occur.
      When every `int` capture is within the digit limit, the result is rule
      `j`'s name with exactly its parameters, in order, each coerced by its
      kind (the decimal value of an `int` capture, the stripped text of a
      `str` capture). Otherwise it is "Invalid integer for" the key of the
      first capture that is too long. */
  lemma {:induction false} RuleFires(q: string, j: nat, m: Match)
    requires q != [] && j < |RULES|
    requires forall k :: 0 <= k < j ==> Search(RULES[k].pattern, Strip(q)).None?
    requires Search(RULES[j].pattern, Strip(q)) == Some(m)
    ensures var rule := RULES[j];
      var vals := Groups(rule.pattern, Strip(q), m);
      FirstTooLong(rule.argTypes, vals, 0) == |vals| ==>
      var o := Route(Some(q));
      && o.Ok? && o.name == rule.name && Keys(o.args) == rule.argKeys
      && |o.args| == |vals| == |rule.argTypes|
      && (forall k :: 0 <= k < |o.args| && rule.argTypes[k] == IntKind ==>
            IsDigitRun(vals[k]) && o.args[k].1 == Int(DecimalValue(vals[k])))
      && (forall k :: 0 <= k < |o.args| && rule.argTypes[k] == StrKind ==> o.args[k].1 == Str(Strip(vals[k])))
    ensures var rule := RULES[j];
      var vals := Groups(rule.pattern, Strip(q), m);
      var k := FirstTooLong(rule.argTypes, vals, 0);
      k < |vals| ==> Route(Some(q)) == Err(400, InvalidInteger(rule.argKeys[k]))
  {
    var text := Strip(q);
    var rule := RULES[j];
    TableWellFormed();
    TryRulesSkip(text, 0, j);
    ApplyWellFormed(rule, text, m);
  }

  /** "status of ticket" followed by more digits than `int()` accepts: the
      first rule is found, and its coercion answers "Invalid integer for
      ticket_id" instead of a descriptor. */
  lemma {:induction false} StatusTooLong(d: string)
    requires IsDigitRun(d) && |d| > MAX_STR_DIGITS
    ensures Route(Some("status of ticket " + d)) == Err(400, InvalidInteger(TICKET_ID))
  {
    var q := STATUS_OF_TICKET + " " + d;
    var a := |STATUS_OF_TICKET| + 1;
    var n := |q|;
    assert q == "status of ticket " + d;
    forall k | a <= k < n ensures q[k] == d[k - a] && IsDigit(q[k]) { }
    assert Strip(q) == q by {
      assert AllIn(q, 0, 0, Space) && AllIn(q, n, n, Space);
      StripExact(q, 0, n);
      assert q[0..n] == q;
    }
    assert LitAt(q, 0, STATUS_OF_TICKET) by {
      forall k | 0 <= k < |STATUS_OF_TICKET| ensures Lower(q[k]) == STATUS_OF_TICKET[k] {
        assert q[k] == STATUS_OF_TICKET[k];
      }
    }
    assert AllIn(q, a - 1, a, Space);
    AllInEvery(q, a, n, Digit);
    NumberAfterComplete(q, 0, STATUS_OF_TICKET, a, n);
    var m := Match(0, [Group(a, n)]);
    SearchAt(StatusOfTicket, q, 0, [Group(a, n)]);
    assert Groups(StatusOfTicket, q, m) == [d] by {
      assert q[a..n] == d;
    }
    RuleFires(q, 0, m);
  }

  /** None of the five rules is found in "ticket" followed by digits: each
      leading phrase has a letter that such a query lacks. */
  lemma {:induction false} NoRuleInTicket(d: string)
    requires AllDigits(d)
    ensures forall k :: 0 <= k < |RULES| ==> Search(RULES[k].pattern, "ticket " + d).None?
  {
    var q := "ticket " + d;
    forall j | 0 <= j < |q|
      ensures Lower(q[j]) != 's' && Lower(q[j]) != 'x' && Lower(q[j]) != 'p' && Lower(q[j]) != 'r'
    {
      if j >= 7 {
        assert q[j] == d[j - 7];
      }
    }
    forall k | 0 <= k < |RULES| ensures Search(RULES[k].pattern, q).None? {
      var p := RULES[k].pattern;
      if p == ExpenseBalance {
        AbsentLead(p, q, 1);
      } else {
        AbsentLead(p, q, 0);
      }
    }
  }

  /** The relaxed pattern's uncaught `int()` error, for a whole query: no
      rule is found in "ticket" followed by more than 4300 digits, so the
      fallback captures them all and the answer is the 500. */
  lemma {:induction false} FallbackTooLong(d: string)
    requires IsDigitRun(d) && |d| > MAX_STR_DIGITS
    ensures Route(Some("ticket " + d)) == Err(500, INTERNAL_ERROR)
  {
    var q := TICKET + " " + d;
    var a := |TICKET| + 1;
    var n := |q|;
    assert q == "ticket " + d;
    forall k | a <= k < n ensures q[k] == d[k - a] && IsDigit(q[k]) { }
    assert Strip(q) == q by {
      assert AllIn(q, 0, 0, Space) && AllIn(q, n, n, Space);
      StripExact(q, 0, n);
      assert q[0..n] == q;
    }
    NoRuleInTicket(d);
    assert LitAt(q, 0, TICKET) by {
      forall k | 0 <= k < |TICKET| ensures Lower(q[k]) == TICKET[k] {
        assert q[k] == TICKET[k];
      }
    }
    assert AllIn(q, a - 1, a, Space);
    AllInEvery(q, a, n, Digit);
    var bs := TicketComplete(q, 0, a, n);
    var m := Match(0, [Group(a, n)]);
    SearchAt(TicketFallback, q, 0, [Group(a, n)]);
    assert Groups(TicketFallback, q, m) == [d] by {
      assert q[a..n] == d;
    }
    FallbackFires(q);
  }

  /** When none of the five rules is found, the relaxed ticket pattern
      decides: its digits become the only argument, `ticket_id`, of
      `get_ticket_status`, unless they are too many for `int()`, whose
      uncaught error makes the answer a 500; without the pattern the query
      cannot be mapped. */
  lemma {:induction false} FallbackFires(q: string)
    requires q != []
    requires forall k :: 0 <= k < |RULES| ==> Search(RULES[k].pattern, Strip(q)).None?
    ensures var text := Strip(q);
      Route(Some(q)) ==
        match Search(TicketFallback, text)
        case Some(m) =>
          var d := Groups(TicketFallback, text, m)[0];
          if |d| <= MAX_STR_DIGITS then Ok(TICKET_STATUS, [(TICKET_ID, Int(DecimalValue(d)))])
          else Err(500, INTERNAL_ERROR)
        case None => Err(400, NO_MATCH)
  {
    var text := Strip(q);
    TryRulesSkip(text, 0, |RULES|);
    match Search(TicketFallback, text)
    case Some(m) =>
      ParseDigitRun(Groups(TicketFallback, text, m)[0]);
    case None =>
  }

  /** The rule at `j`, once found, decides: its outcome is `ApplyRule`'s,
      which is neither "could not map" nor the fallback's 500. */
  lemma {:induction false} FoundHere(text: string, j: nat)
    requires j < |RULES| && Search(RULES[j].pattern, text).Some?
    ensures TryRules(text, j) != Err(400, NO_MATCH) && TryRules(text, j) != Err(500, INTERNAL_ERROR)
  {
    var o := ApplyRule(RULES[j], Groups(RULES[j].pattern, text, Search(RULES[j].pattern, text).value));
    assert TryRules(text, j) == o;
  }

  /** A rule whose pattern is not found is passed over. */
  lemma {:induction false} SkipOne(text: string, j: nat)
    requires j < |RULES| && Search(RULES[j].pattern, text).None?
    ensures TryRules(text, j) == TryRules(text, j + 1)
  {
  }

  /** Once rule `k`, or an earlier one from `i` on, is found, the fallback is
      not reached: the answer is neither "could not map" nor the fallback's
      500. */
  lemma {:induction false} FoundRuleDecides(text: string, i: nat, k: nat)
    requires i <= k < |RULES| && Search(RULES[k].pattern, text).Some?
    ensures TryRules(text, i) != Err(400, NO_MATCH) && TryRules(text, i) != Err(500, INTERNAL_ERROR)
    decreases k - i
  {
    if i == k || Search(RULES[i].pattern, text).Some? {
      FoundHere(text, i);
    } else {
      SkipOne(text, i);
      FoundRuleDecides(text, i + 1, k);
    }
  }

  /** In a text within the digit limit, the rules and the fallback always
      produce a descriptor or the "could not map" error. */
  lemma {:induction false} TryRulesOutcome(text: string, j: nat)
    requires j <= |RULES| && |text| <= MAX_STR_DIGITS
    ensures TryRules(text, j).Ok? || TryRules(text, j) == Err(400, NO_MATCH)
    decreases |RULES| - j
  {
    if j == |RULES| {
      match Search(TicketFallback, text)
      case Some(m) =>
      case None =>
    } else {
      match Search(RULES[j].pattern, text)
      case Some(m) =>
        ApplyTableRule(j, text, m);
      case None =>
        TryRulesOutcome(text, j + 1);
    }
  }

  /** Trying the rules of this table never gives the group-count error. */
  lemma {:induction false} TryRulesCountMatches(text: string, j: nat)
    requires j <= |RULES|
    ensures TryRules(text, j).Err? ==> TryRules(text, j).code == 400 || TryRules(text, j) == Err(500, INTERNAL_ERROR)
    decreases |RULES| - j
  {
    if j < |RULES| {
      match Search(RULES[j].pattern, text)
      case Some(m) =>
        ApplyTableRule(j, text, m);
      case None =>
        TryRulesCountMatches(text, j + 1);
    }
  }

  /** The group-count 500 is unreachable for this table: every answer with
      status 500 is the fallback's uncaught `int()` error. */
  lemma {:induction false} GroupCountUnreachable(q: Option<string>)
    ensures Route(q) != Err(500, GROUP_COUNT_MISMATCH)
    ensures Route(q).Err? && Route(q).code == 500 ==> Route(q) == Err(500, INTERNAL_ERROR)
  {
    if q.Some? && q.value != [] {
      TryRulesCountMatches(Strip(q.value), 0);
      assert INTERNAL_ERROR != GROUP_COUNT_MISMATCH;
    }
  }

  /** A query of at most `MAX_STR_DIGITS` characters can only fail with a
      400: the missing parameter or the unmapped query. The invalid-integer
      error and the fallback's 500 need a capture longer than that. */
  lemma {:induction false} ErrorsAre400(q: Option<string>)
    ensures q.Some? && |q.value| <= MAX_STR_DIGITS && Route(q).Err? ==>
      Route(q) == Err(400, MISSING_Q) || Route(q) == Err(400, NO_MATCH)
  {
    if q.Some? && q.value != [] && |q.value| <= MAX_STR_DIGITS {
      TryRulesOutcome(Strip(q.value), 0);
    }
  }

  /** A query of whitespace only passes the emptiness check, strips to the
      empty text, where no pattern is found, and ends with "could not map". */
  lemma {:induction false} WhitespaceOnly(q: string)
    requires q != [] && AllSpace(q)
    ensures Route(Some(q)) == Err(400, NO_MATCH)
  {
    assert Strip(q) == "";
    forall k | 0 <= k < |RULES| ensures Search(RULES[k].pattern, "").None? {
      SearchEmpty(RULES[k].pattern);
    }
    SearchEmpty(TicketFallback);
    FallbackFires(q);
  }

  /** The "could not map" error is given exactly when the query is present
      and non-empty and neither a rule pattern nor the relaxed ticket pattern
      is found in the stripped text. */
  lemma {:induction false} NoMatchIff(q: Option<string>)
    ensures Route(q) == Err(400, NO_MATCH) <==>
      && q.Some? && q.value != []
      && (forall k :: 0 <= k < |RULES| ==> Search(RULES[k].pattern, Strip(q.value)).None?)
      && Search(TicketFallback, Strip(q.value)).None?
  {
    if q.Some? && q.value != [] {
      var text := Strip(q.value);
      if forall k :: 0 <= k < |RULES| ==> Search(RULES[k].pattern, text).None? {
        TryRulesSkip(text, 0, |RULES|);
      } else {
        var k :| 0 <= k < |RULES| && Search(RULES[k].pattern, text).Some?;
        FoundRuleDecides(text, 0, k);
      }
    } else {
      assert MISSING_Q != NO_MATCH;
    }
  }
}
