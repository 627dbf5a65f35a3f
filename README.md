# TechNova assistant function router — a Dafny model

The router answers `GET /execute?q=...`. It maps a templated question to a
call descriptor `{"name": ..., "arguments": "<JSON object text>"}`, or to an
HTTP error. It works in four steps:

1. It checks the raw parameter for presence and emptiness.
2. It strips surrounding whitespace from the query.
3. It tries five case-insensitive patterns in a fixed order. Each pattern has
   a function name and typed parameter names. The first pattern found
   anywhere in the text decides the result: its captures are coerced to
   `int` or stripped `str` and collected in an insertion-ordered dictionary.
   `build_response` then encodes that dictionary as JSON.
4. If no pattern is found, a relaxed `ticket\s+(\d+)` pattern is tried. If
   that also fails, the router answers 400 "Could not map query ...".

The model has six modules:

- `Options`: the `Option` datatype.
- `Text`: ASCII character classes, `\b` and `$`, case-insensitive literals,
  and `str.strip()`.
- `Decimal`: digit values, `int()` on ASCII text, and `str(n)`.
- `Patterns`: the six compiled patterns as dedicated matchers with the
  backtracking engine's priorities, and the leftmost `re.search`. Each
  matcher has a declarative shape, a soundness lemma and a completeness
  lemma.
- `Json`: `json.dumps(..., ensure_ascii=False)` for dictionaries of string
  and integer values, plus a decoder for that subset. They are linked by a
  round-trip lemma.
- `Dispatcher`: the rule table, the specification function `Route`, the
  handler `Execute`, and what the handler promises.

`Execute` is written the way the handler works:

- a loop over the rule table that returns on the first match;
- for the rule found, `Answer`: the group-count check and an inner loop that
  fills the argument dictionary one key at a time, with `OrderedDict`
  assignment semantics.

It is proved to return `Respond(Route(q))`. The properties are lemmas about
`Route`.

`int()` is modelled with CPython's limit on the length of a decimal string,
`sys.int_info.default_max_str_digits` (4300). A capture of more digits makes
`int()` raise `ValueError`. In a rule this becomes the 400 "Invalid integer
for <key>". In the fallback the exception is not caught and the server
answers 500.

## Model

| member | source | states |
|---|---|---|
| Dispatcher.Execute | main.py:87-128 | The handler's answer is the one the specification `Route` prescribes. This covers the emptiness check on the raw `q`, the strip, the rule loop with early return, the relaxed ticket fallback with its uncaught `int()` error, and the final 400. |
| Dispatcher.Answer | main.py:96-115 | The handling of a found rule: the group-count check, then the inner loop that converts each capture in place and returns early with "Invalid integer for <key>" at the first capture `int()` rejects. Its answer is the one `ApplyRule` prescribes. |
| Dispatcher.Route | main.py:89-92 | "Missing query parameter q" is answered if and only if `q` is absent or the empty string, before any stripping. |
| Dispatcher.TryRules | main.py:94-128 | The rules from a given index on, then the fallback, never give the missing-parameter error. |
| Dispatcher.ApplyRule | main.py:97-115 | A found rule gives its own name when it succeeds. It gives exactly the 500 "Parsing error: group count mismatch" when the group count differs from the number of parameter names, and no 500 otherwise. Its 400 is "Invalid integer for" one of the rule's own keys. No other fixed error comes from it. |
| Dispatcher.Fallback | main.py:117-128 | The relaxed search gives `get_ticket_status` with the single key `ticket_id`. It gives "could not map" exactly when `ticket\s+(\d+)` is not found. When the pattern is found, its only error is the 500 for more digits than `int()` accepts. |
| Dispatcher.TableWellFormed | main.py:36-84 | In every rule of the table, the pattern has exactly as many groups as there are parameter names and kinds. The parameter names are distinct. Every `int` parameter is captured by a `\d+` or `\d{4}` group. |
| Dispatcher.RuleFires | main.py:94-115 | First match wins: when rule `j` is the first rule found in the stripped query, rule `j` alone decides. If every `int` capture has at most 4300 digits, the result is rule `j`'s name with exactly its parameter names, in order. An `int` argument is then the decimal value of its digit capture, and a `str` argument is its capture stripped. Otherwise the result is "Invalid integer for" the key of the first capture that is too long. |
| Dispatcher.StatusTooLong | main.py:94-111 | "status of ticket " followed by more than 4300 digits is answered with the 400 "Invalid integer for ticket_id". |
| Dispatcher.ApplyWellFormed | main.py:97-115 | For any well-formed rule whose pattern is found, the group count matches and every `int` capture is a digit run. With no capture over the digit limit, the result is the rule's name with one entry per parameter, keys in signature order. Otherwise the result is "Invalid integer for" the key of the first capture over the limit. |
| Dispatcher.ApplyTableRule | main.py:99-115 | A found rule of this table never gives the group-count 500: its only error is a 400. In a text of at most 4300 characters it always gives its descriptor. |
| Dispatcher.TooLongRejected | main.py:107-111 | An `int` capture of more than 4300 digits for `ticket_id` is answered with "Invalid integer for ticket_id". |
| Dispatcher.TryRulesSkip | main.py:94-96 | Rules whose patterns are not found are passed over without effect. |
| Dispatcher.FoundRuleDecides | main.py:94-115 | Once any remaining rule is found, the fallback is not reached: the answer is neither "could not map" nor the fallback's 500. |
| Dispatcher.FallbackFires | main.py:117-128 | When none of the five rules is found, the search for `ticket\s+(\d+)` alone decides. A match of at most 4300 digits gives `get_ticket_status` with the single argument `ticket_id`, the decimal value of the captured digits. A longer match gives the 500 of the uncaught `int()` error. No match gives the 400 "could not map" error. |
| Dispatcher.NoRuleInTicket | main.py:94-96 | None of the five rules is found in "ticket " followed by digits. |
| Dispatcher.FallbackTooLong | main.py:117-128 | "ticket " followed by more than 4300 digits is answered with the 500 of the fallback's uncaught `int()` error. |
| Patterns.LeadNeeded | main.py:36-84 | A pattern matches only at a position where its leading phrase starts, in any letter case. |
| Patterns.AbsentLead | main.py:36-84 | A pattern is not found in a text that lacks, in every letter case, one of the characters of its leading phrase. |
| Dispatcher.TryRulesOutcome | main.py:94-128 | In a text of at most 4300 characters, trying the rules and then the fallback always ends in a descriptor or in the 400 "could not map" error. |
| Dispatcher.TryRulesCountMatches | main.py:99-101 | With this table, trying the rules never ends in the group-count error: every error is a 400 or the fallback's 500. |
| Dispatcher.GroupCountUnreachable | main.py:99-101 | The 500 "Parsing error: group count mismatch" is never answered. The only 500 is the escaped `int()` error of the fallback. |
| Dispatcher.ErrorsAre400 | main.py:89-128 | For a query of at most 4300 characters, every error is a 400: either "Missing query parameter q" or "Could not map ...". |
| Dispatcher.WhitespaceOnly | main.py:89-92 | A non-empty query of whitespace only passes the emptiness check, strips to the empty text, and ends in "Could not map ...". |
| Dispatcher.NoMatchIff | main.py:117-128 | "Could not map ..." is answered if and only if `q` is present and non-empty, and neither a rule pattern nor the relaxed ticket pattern is found in the stripped text. |
| Dispatcher.Respond | main.py:87-128 | An outcome becomes a descriptor exactly when it succeeded; the descriptor has its name and its arguments decode back to its argument list. An error keeps its status code and detail text. |
| Dispatcher.BuildResponse | main.py:20-31 | The descriptor carries the given function name. Its `arguments` text decodes back to exactly the given keys and values, in insertion order. |
| Dispatcher.Put | main.py:109-113 | `OrderedDict` assignment: afterwards the key maps to the new value and every other key is unchanged. An existing key keeps its position. A new key is appended at the end. |
| Dispatcher.Get | main.py:104-113 | A key is absent exactly when it is not among the dictionary's keys. |
| Dispatcher.CoerceValue | main.py:107-113 | A `str` capture becomes its stripped text. An `int` capture that is a digit run becomes its decimal value when it has at most 4300 digits, and is rejected when it has more. |
| Dispatcher.CoerceFrom | main.py:105-111 | When the inner loop stops with "Invalid integer for" a key, that key is one of the rule's keys. |
| Dispatcher.FirstTooLong | main.py:105-111 | The first `int` capture with more than 4300 digits from a given step on: none before it is too long, and it is, when there is one. |
| Dispatcher.CoerceValid | main.py:104-113 | With distinct keys and every capture convertible by its kind, the coercion loop yields one entry per key, in key order, each value coerced by its kind. |
| Dispatcher.CoerceFromFails | main.py:107-111 | The first capture that `int()` rejects stops the coercion with "Invalid integer for" that capture's key, whatever was stored before. |
| Dispatcher.CoerceTooLong | main.py:105-111 | With digit runs for the `int` captures, the loop stops with the key of the first capture of more than 4300 digits. |
| Dispatcher.ZipLength | main.py:105 | `zip` stops at the shortest of the keys, the kinds and the captures. |
| Dispatcher.Groups | main.py:98 | `m.groups()` has as many captures as the pattern has groups, none longer than the text, and every digit group captures a non-empty run of ASCII digits. |
| Patterns.MatchAt | main.py:40-78 | A match at a position has the pattern's number of groups, within the text. Its digit groups span digits only. |
| Patterns.Search | main.py:95 | `pattern.search(text)` returns the leftmost start at which the pattern matches, with that match's groups. No earlier position matches. When it returns nothing, no position matches. |
| Patterns.SearchAt | main.py:95 | A match at `s` with no match before it is exactly what the search returns. |
| Patterns.Captured | main.py:98 | Each capture is the text between its group's bounds. A digit-only group captures a digit run. |
| Patterns.SearchEmpty | main.py:40-78 | No pattern is found in the empty text. |
| Patterns.NumberAfterSound | main.py:40 | When `\bstatus of ticket\s+(\d+)\b` (and rule 3's pattern, with another phrase) matches at a position, the text has that shape there, and the group is its digit run. |
| Patterns.NumberAfterComplete | main.py:59 | Whenever the text has the shape of `\b<phrase>\s+(\d+)\b` at a position, the matcher succeeds there and captures that digit run. |
| Patterns.MeetingSound | main.py:49 | A rule-2 match has the declared shape: a date `dddd-dd-dd`, a clock `d:dd` or `dd:dd`, and a room that runs from after the whitespace to the end of the text, or to just before a final line feed. |
| Patterns.MeetingComplete | main.py:49 | Whenever the text has rule 2's shape, the matcher succeeds with the engine's captures: the same date and clock. The room is the split with the longest whitespace before it and then the longest room, so trailing punctuation such as "Room A." stays in the capture. |
| Patterns.ClockUnique | main.py:49 | `[0-9]{1,2}:[0-9]{2}` has at most one reading at a position. |
| Patterns.RoomFromFirst | main.py:49 | The greedy `\s+` and greedy `.+` with `$` are resolved as the engine does: the largest whitespace split first, then the longest room. |
| Patterns.BonusSound | main.py:68 | A rule-4 match has the declared shape: the employee digits, whitespace, "for", whitespace, exactly four digits, then a word boundary. |
| Patterns.BonusComplete | main.py:68 | Whenever the text has rule 4's shape, the matcher succeeds with those two groups. |
| Patterns.IssueSound | main.py:78 | A rule-5 match has the declared shape: an optional "an " or "the ", the issue digits, "for the", the department text on one line, whitespace, then "department" at a word boundary. |
| Patterns.IssueComplete | main.py:78 | Whenever the text has rule 5's shape, the matcher succeeds. The issue number is the shape's, and the department is the split with the longest whitespace before it and then the shortest text (lazy `.+?`). |
| Patterns.DepartmentFromFirst | main.py:78 | The lazy `.+?` before `\s+department\b` is resolved as the engine does: the largest whitespace split first, then the shortest text. |
| Patterns.TicketSound | main.py:119 | A relaxed-ticket match is "ticket", whitespace, then a digit run. It needs no word boundary. |
| Patterns.TicketComplete | main.py:119 | Whenever the text has the relaxed-ticket shape at a position, the matcher succeeds there with the longest digit run. |
| Json.EncodeObject | main.py:30 | `json.dumps` of a dictionary is text between braces, and it is `{}` exactly when the dictionary is empty. |
| Json.DecodeEncode | main.py:30 | Reading back the JSON object text written for an argument dictionary gives the same keys, in the same order, with the same values. |
| Json.EncodeInjective | main.py:30 | Different argument dictionaries are written as different JSON texts. |
| Json.ParseStringQuote | main.py:30 | A string written with the `json` module's escapes, non-ASCII characters unescaped, reads back as itself. |
| Json.ParseNumberInt | main.py:30 | Every integer written in decimal reads back as itself. |
| Text.StripExact | main.py:92 | `strip()` removes exactly the leading and trailing whitespace and keeps the inside. |
| Text.StripIdempotent | main.py:92 | Stripping twice gives the same text as stripping once. |
| Text.Strip | main.py:92 | The stripped text is no longer than the input. It is empty exactly when the input is all whitespace. Otherwise it neither starts nor ends with whitespace. |
| Decimal.ParseInt | main.py:109 | `int(text)` succeeds exactly when the text, with `int()`'s own whitespace (tab, line feed, vertical tab, form feed, carriage return, space) removed from both ends, is an optional sign followed by one to 4300 ASCII digits. Its value is then exactly the value of those digits, negated after a minus sign. |
| Decimal.IntTrimExact | main.py:109 | `int()` ignores exactly the leading and trailing whitespace of its own kind and reads the inside. |
| Decimal.SeparatorNotSkipped | main.py:109 | `int()` skips less than `strip()`: the file separator U+001C before a digit is removed by `strip()` but makes `int()` fail. |
| Decimal.ParseDigitRun | main.py:107-111 | `int()` of a captured ASCII digit run succeeds exactly when the run has at most 4300 digits, and then gives the run's decimal value. |
| Decimal.IntToString | main.py:30 | `str(n)` begins with a minus sign exactly for a negative `n`, and its digits denote the magnitude of `n`. |
| Decimal.DigitsValue | main.py:30 | The decimal text written for a natural number has that number as its value. |
| Decimal.ValueDigits | main.py:30 | A digit run without a leading zero is the decimal text of its own value. |

## Left out

- Unicode: `\s`, `\d`, `\w`, `\b`, IGNORECASE and `str.strip()` are modelled on ASCII only. Python applies them to all of Unicode, for example non-ASCII digits and case folding of non-ASCII letters.
- Decimal.ParseInt: models `int()` on ASCII text with an optional sign, its own whitespace set and the 4300-digit limit. Underscores between digits, non-ASCII digits and non-ASCII whitespace (which CPython turns into ASCII before parsing) are not accepted; the patterns never capture any of them, and only digit runs reach `int()`. The limit is the interpreter's default; a program or environment that changes it is not modelled.
- Decimal.IntToString: does not model the `ValueError` that `str()` raises for an integer of more than 4300 digits. Every integer the router encodes comes from `int()` of at most 4300 digits, so that error cannot occur here.
- The web layer is not modelled: the FastAPI application, the route decorator, `Query` parameter parsing, the CORS middleware and the HTTP serialisation of the descriptor. `HTTPException` becomes the `HttpError` value with a status and a detail.
- Dispatcher.Fallback: the `ValueError` that escapes `int()` in the fallback, for a relaxed-ticket capture of more than 4300 digits, reaches the server as an unhandled exception. It is modelled as a 500 whose detail is "Internal Server Error"; the server's own error page is not modelled.
- A general regular-expression engine is not modelled. Each of the six patterns is a dedicated matcher that reproduces the engine's priority for that pattern.
- Json: only the values the router produces, integers and strings, are encoded. The decoder reads only that subset; it does not combine `\u` surrogate pairs and does not skip insignificant whitespace.
