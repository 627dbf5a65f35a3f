/**
 * What `json.dumps(ordered_args, ensure_ascii=False)` writes for the argument
 * dictionaries the dispatcher builds: an object whose keys are strings and
 * whose values are integers or strings, with the default separators ", " and
 * ": ", keys in insertion order, and the escapes the `json` module uses when
 * non-ASCII output is allowed.
 *
 * Beside the encoder sits a decoder for the same subset of JSON (objects of
 * string and integer members). The round-trip lemma `DecodeEncode` says that
 * the encoded text determines the arguments: reading it back gives the same
 * keys, in the same order, with the same values.
 */
module Json {
  import opened Options
  import opened Text
  import opened Decimal

  /** A value the dispatcher puts in an argument dictionary. */
  datatype Value = Int(n: int) | Str(text: string)

  /** An argument dictionary: its members in insertion order. */
  type Members = seq<(string, Value)>

  // ---------------------------------------------------------------------------
  // Encoding.

  function HexDigit(d: nat): (c: char)
    requires d < 16
  {
    if d < 10 then ('0' as int + d) as char else ('a' as int + d - 10) as char
  }

  /** How one character of a string is written: the quote, the backslash and
      the control characters are escaped (backspace, form feed, line feed,
      carriage return and tab by name, the others as `\u00xx` in lower-case
      hexadecimal); every other character, non-ASCII ones included, is
      written as it is. */
  function EscapeChar(c: char): (r: string)
    ensures |r| > 0 && r[0] != '"'
  {
    var n := c as int;
    if c == '"' then ['\\', '"']
    else if c == '\\' then ['\\', '\\']
    else if n == 8 then ['\\', 'b']
    else if n == 12 then ['\\', 'f']
    else if n == 10 then ['\\', 'n']
    else if n == 13 then ['\\', 'r']
    else if n == 9 then ['\\', 't']
    else if n < 32 then ['\\', 'u', '0', '0', HexDigit(n / 16), HexDigit(n % 16)]
    else [c]
  }

  function EscapeString(s: string): string {
    if s == [] then [] else EscapeChar(s[0]) + EscapeString(s[1..])
  }

  function Quote(s: string): string {
    ['"'] + EscapeString(s) + ['"']
  }

  function EncodeValue(v: Value): string {
    match v
    case Int(n) => IntToString(n)
    case Str(s) => Quote(s)
  }

  function EncodeMember(m: (string, Value)): string {
    Quote(m.0) + [':', ' '] + EncodeValue(m.1)
  }

  /** The texts `es` separated by ", ", as `", ".join(es)` writes them. */
  function Join(es: seq<string>): (r: string)
    ensures es != [] ==> |r| >= |es[0]|
  {
    if es == [] then []
    else if |es| == 1 then es[0]
    else es[0] + [',', ' '] + Join(es[1..])
  }

  /** `json.dumps` of an argument dictionary: its members, in order, between
      braces; `{}` when it is empty. */
  function EncodeObject(ms: Members): (r: string)
    ensures |r| >= 2 && r[0] == '{' && r[|r| - 1] == '}'
    ensures r == "{}" <==> ms == []
  {
    assert ms != [] ==> |Encodings(ms)[0]| > 0;
    ['{'] + Join(Encodings(ms)) + ['}']
  }

  /** Each member as `json.dumps` writes it. */
  function Encodings(ms: Members): (es: seq<string>)
    ensures |es| == |ms|
  {
    seq(|ms|, k requires 0 <= k < |ms| => EncodeMember(ms[k]))
  }

  // ---------------------------------------------------------------------------
  // Decoding. Each parser reads a prefix of its input and returns what it read
  // with the rest of the input.

  function HexValue(c: char): (r: Option<nat>)
    ensures r.Some? ==> r.value < 16
  {
    if '0' <= c <= '9' then Some(c as int - '0' as int)
    else if 'a' <= c <= 'f' then Some(c as int - 'a' as int + 10)
    else if 'A' <= c <= 'F' then Some(c as int - 'A' as int + 10)
    else None
  }

  /** The character a `\uXXXX` escape stands for; surrogates, which need a
      pair of escapes, are not read. */
  function CodePoint(s: string): (r: Option<char>)
    requires |s| == 4
  {
    match (HexValue(s[0]), HexValue(s[1]), HexValue(s[2]), HexValue(s[3]))
    case (Some(a), Some(b), Some(c), Some(d)) =>
      var n := ((a * 16 + b) * 16 + c) * 16 + d;
      if 0xD800 <= n < 0xE000 then None else Some(n as char)
    case _ => None
  }

  /** The escape after a backslash. */
  function Unescape(s: string): (r: Option<(char, string)>)
    ensures r.Some? ==> |r.value.1| < |s|
  {
    if s == [] then None
    else if s[0] == '"' || s[0] == '\\' || s[0] == '/' then Some((s[0], s[1..]))
    else if s[0] == 'b' then Some((8 as char, s[1..]))
    else if s[0] == 'f' then Some((12 as char, s[1..]))
    else if s[0] == 'n' then Some((10 as char, s[1..]))
    else if s[0] == 'r' then Some((13 as char, s[1..]))
    else if s[0] == 't' then Some((9 as char, s[1..]))
    else if s[0] == 'u' && |s| >= 5 then
      match CodePoint(s[1..5])
      case Some(c) => Some((c, s[5..]))
      case None => None
    else None
  }

  /** The characters of a string up to and including its closing quote; a raw
      control character is not allowed inside a string. */
  function ParseChars(s: string): (r: Option<(string, string)>)
    ensures r.Some? ==> |r.value.1| < |s|
    decreases |s|
  {
    if s == [] then None
    else if s[0] == '"' then Some(([], s[1..]))
    else if s[0] == '\\' then
      match Unescape(s[1..])
      case None => None
      case Some((c, rest)) =>
        match ParseChars(rest)
        case None => None
        case Some((d, after)) => Some(([c] + d, after))
    else if (s[0] as int) < 32 then None
    else
      match ParseChars(s[1..])
      case None => None
      case Some((d, after)) => Some(([s[0]] + d, after))
  }

  function ParseString(s: string): (r: Option<(string, string)>)
    ensures r.Some? ==> |r.value.1| < |s|
  {
    if s != [] && s[0] == '"' then ParseChars(s[1..]) else None
  }

  /** The length of the run of digits at the start of `s`. */
  function DigitPrefix(s: string): (k: nat)
    ensures k <= |s| && AllDigits(s[..k])
    ensures k < |s| ==> !IsDigit(s[k])
  {
    if s != [] && IsDigit(s[0]) then
      var k := 1 + DigitPrefix(s[1..]);
      assert s[..k] == [s[0]] + s[1..][..k - 1];
      k
    else 0
  }

  /** A JSON integer: an optional minus sign, then `0` or digits without a
      leading zero. */
  function ParseNumber(s: string): (r: Option<(int, string)>)
    ensures r.Some? ==> |r.value.1| < |s|
  {
    var neg := s != [] && s[0] == '-';
    var body := if neg then s[1..] else s;
    var k := DigitPrefix(body);
    if k == 0 || (k > 1 && body[0] == '0') then None
    else
      var magnitude: int := DecimalValue(body[..k]);
      Some((if neg then -magnitude else magnitude, body[k..]))
  }

  function ParseValue(s: string): (r: Option<(Value, string)>)
    ensures r.Some? ==> |r.value.1| < |s|
  {
    if s != [] && s[0] == '"' then
      match ParseString(s)
      case None => None
      case Some((text, rest)) => Some((Str(text), rest))
    else
      match ParseNumber(s)
      case None => None
      case Some((n, rest)) => Some((Int(n), rest))
  }

  function ParseMember(s: string): (r: Option<((string, Value), string)>)
    ensures r.Some? ==> |r.value.1| < |s|
  {
    match ParseString(s)
    case None => None
    case Some((key, rest)) =>
      if |rest| >= 2 && rest[0] == ':' && rest[1] == ' ' then
        match ParseValue(rest[2..])
        case None => None
        case Some((v, after)) => Some(((key, v), after))
      else None
  }

  /** Members separated by ", ", up to and including the closing brace. */
  function ParseMembers(s: string): (r: Option<(Members, string)>)
    ensures r.Some? ==> |r.value.1| < |s|
    decreases |s|
  {
    match ParseMember(s)
    case None => None
    case Some((m, rest)) =>
      if |rest| >= 2 && rest[0] == ',' && rest[1] == ' ' then
        match ParseMembers(rest[2..])
        case None => None
        case Some((ms, after)) => Some(([m] + ms, after))
      else if rest != [] && rest[0] == '}' then Some(([m], rest[1..]))
      else None
  }

  /** Reads back the whole text as an object with string and integer members. */
  function DecodeObject(s: string): (r: Option<Members>)
  {
    if s == ['{', '}'] then Some([])
    else if s != [] && s[0] == '{' then
      match ParseMembers(s[1..])
      case Some((ms, rest)) => if rest == [] then Some(ms) else None
      case None => None
    else None
  }

  // ---------------------------------------------------------------------------
  // Round trip.

  lemma {:induction false} HexRoundTrip(d: nat)
    requires d < 16
    ensures HexValue(HexDigit(d)) == Some(d)
  {
  }

  /** Reading one escaped character back. */
  lemma {:induction false} ParseCharsStep(c: char, rest: string)
    ensures ParseChars(EscapeChar(c) + rest) ==
      match ParseChars(rest)
      case None => None
      case Some((d, after)) => Some(([c] + d, after))
  {
    var e := EscapeChar(c);
    var s := e + rest;
    var n := c as int;
    if |e| == 2 {
      assert s[0] == '\\' && s[1..] == [e[1]] + rest;
      assert Unescape(s[1..]) == Some((c, rest));
    } else if |e| == 6 {
      HexRoundTrip(n / 16);
      HexRoundTrip(n % 16);
      assert s[1..] == ['u', '0', '0', HexDigit(n / 16), HexDigit(n % 16)] + rest;
      assert s[1..][1..5] == ['0', '0', HexDigit(n / 16), HexDigit(n % 16)];
      assert CodePoint(s[1..][1..5]) == Some(c);
      assert s[1..][5..] == rest;
    } else {
      assert s[0] == c && s[1..] == rest;
    }
  }

  lemma {:induction false} ParseCharsEscaped(x: string, rest: string)
    ensures ParseChars(EscapeString(x) + ['"'] + rest) == Some((x, rest))
    decreases |x|
  {
    if x == [] {
      assert EscapeString(x) + ['"'] + rest == ['"'] + rest;
    } else {
      ParseCharsEscaped(x[1..], rest);
      assert EscapeString(x) + ['"'] + rest == EscapeChar(x[0]) + (EscapeString(x[1..]) + ['"'] + rest);
      ParseCharsStep(x[0], EscapeString(x[1..]) + ['"'] + rest);
      assert [x[0]] + x[1..] == x;
    }
  }

  lemma {:induction false} ParseStringQuote(x: string, rest: string)
    ensures ParseString(Quote(x) + rest) == Some((x, rest))
  {
    var s := Quote(x) + rest;
    assert s[1..] == EscapeString(x) + ['"'] + rest;
    ParseCharsEscaped(x, rest);
  }

  lemma {:induction false} DigitPrefixOf(d: string, rest: string)
    requires AllDigits(d)
    requires rest != [] ==> !IsDigit(rest[0])
    ensures DigitPrefix(d + rest) == |d|
    decreases |d|
  {
    if d != [] {
      assert (d + rest)[1..] == d[1..] + rest;
      DigitPrefixOf(d[1..], rest);
    }
  }

  /** A digit run without a leading zero, optionally after a minus sign, is
      read as its value. */
  lemma {:induction false} ParseNumberDigits(d: string, rest: string)
    requires IsDigitRun(d) && (|d| > 1 ==> d[0] != '0')
    requires rest != [] ==> !IsDigit(rest[0])
    ensures ParseNumber(d + rest) == Some((DecimalValue(d), rest))
    ensures ParseNumber(['-'] + (d + rest)) == Some((-(DecimalValue(d) as int), rest))
  {
    var body := d + rest;
    DigitPrefixOf(d, rest);
    assert body[0] != '-';
    assert (['-'] + body)[1..] == body;
    assert body[..|d|] == d && body[|d|..] == rest;
  }

  lemma {:induction false} NegativeText(d: string, rest: string)
    ensures "-" + d + rest == ['-'] + (d + rest)
  {
  }

  lemma {:induction false} ParseNumberInt(n: int, rest: string)
    requires rest != [] ==> !IsDigit(rest[0])
    ensures ParseNumber(IntToString(n) + rest) == Some((n, rest))
  {
    if n < 0 {
      var d := Digits(-n);
      DigitsValue(-n);
      ParseNumberDigits(d, rest);
      NegativeText(d, rest);
    } else {
      DigitsValue(n);
      ParseNumberDigits(Digits(n), rest);
    }
  }

  lemma {:induction false} ParseValueEncode(v: Value, rest: string)
    requires rest != [] ==> !IsDigit(rest[0])
    ensures ParseValue(EncodeValue(v) + rest) == Some((v, rest))
  {
    match v
    case Int(n) =>
      ParseNumberInt(n, rest);
      var d := Digits(if n < 0 then -n else n);
      assert (EncodeValue(v) + rest)[0] != '"' by {
        if n >= 0 {
          assert IsDigit(d[0]);
        }
      }
    case Str(x) =>
      ParseStringQuote(x, rest);
  }

  /** A key, the key separator and a value make a member. */
  lemma {:induction false} ParseMemberOf(s: string, key: string, x: string, v: Value, rest: string)
    requires ParseString(s) == Some((key, [':', ' '] + x))
    requires ParseValue(x) == Some((v, rest))
    ensures ParseMember(s) == Some(((key, v), rest))
  {
    var after := [':', ' '] + x;
    assert after[0] == ':' && after[1] == ' ' && after[2..] == x;
  }

  lemma {:induction false} ParseMemberEncode(m: (string, Value), rest: string)
    requires rest != [] ==> !IsDigit(rest[0])
    ensures ParseMember(EncodeMember(m) + rest) == Some((m, rest))
  {
    var x := EncodeValue(m.1) + rest;
    var s := EncodeMember(m) + rest;
    assert s == Quote(m.0) + ([':', ' '] + x);
    ParseStringQuote(m.0, [':', ' '] + x);
    ParseValueEncode(m.1, rest);
    ParseMemberOf(s, m.0, x, m.1, rest);
  }

  /** The last member is followed by the closing brace. */
  lemma {:induction false} ParseMembersLast(s: string, m: (string, Value), rest: string)
    requires ParseMember(s) == Some((m, ['}'] + rest))
    ensures ParseMembers(s) == Some(([m], rest))
  {
    var tail := ['}'] + rest;
    assert tail[0] == '}' && tail[1..] == rest;
  }

  /** A member followed by the item separator and further members. */
  lemma {:induction false} ParseMembersMore(s: string, m: (string, Value), next: string, ms: Members, rest: string)
    requires ParseMember(s) == Some((m, [',', ' '] + next))
    requires ParseMembers(next) == Some((ms, rest))
    ensures ParseMembers(s) == Some(([m] + ms, rest))
  {
    var tail := [',', ' '] + next;
    assert tail[0] == ',' && tail[1] == ' ' && tail[2..] == next;
  }

  /** `e` is read back as the member `m`, whatever follows it, as long as
      what follows cannot continue a number. */
  ghost predicate ReadsBack(e: string, m: (string, Value)) {
    forall tail: string {:trigger ParseMember(e + tail)} :: tail != [] && !IsDigit(tail[0]) ==> ParseMember(e + tail) == Some((m, tail))
  }

  lemma {:induction false} ReadsBackEncoded(m: (string, Value))
    ensures ReadsBack(EncodeMember(m), m)
  {
    forall tail: string | tail != [] && !IsDigit(tail[0])
      ensures ParseMember(EncodeMember(m) + tail) == Some((m, tail))
    {
      ParseMemberEncode(m, tail);
    }
  }

  /** Texts that each read back as a member, joined by the item separator
      and closed by a brace, read back as the list of those members. */
  lemma {:induction false} ParseJoined(es: seq<string>, ms: Members, rest: string)
    requires |es| == |ms| > 0
    requires forall k :: 0 <= k < |es| ==> ReadsBack(es[k], ms[k])
    ensures ParseMembers(Join(es) + ['}'] + rest) == Some((ms, rest))
    decreases |es|
  {
    var s := Join(es) + ['}'] + rest;
    assert ReadsBack(es[0], ms[0]);
    if |es| == 1 {
      var tail := ['}'] + rest;
      assert s == es[0] + tail;
      assert ParseMember(es[0] + tail) == Some((ms[0], tail));
      ParseMembersLast(s, ms[0], rest);
      assert [ms[0]] == ms;
    } else {
      var next := Join(es[1..]) + ['}'] + rest;
      var tail := [',', ' '] + next;
      assert s == es[0] + tail;
      assert ParseMember(es[0] + tail) == Some((ms[0], tail));
      ParseJoined(es[1..], ms[1..], rest);
      ParseMembersMore(s, ms[0], next, ms[1..], rest);
      assert [ms[0]] + ms[1..] == ms;
    }
  }

  /** An opening brace and members that end exactly at the end of the text. */
  lemma {:induction false} DecodeObjectOf(s: string, ms: Members)
    requires |s| > 2 && s[0] == '{'
    requires ParseMembers(s[1..]) == Some((ms, []))
    ensures DecodeObject(s) == Some(ms)
  {
  }

  lemma {:induction false} EncodingsReadBack(ms: Members)
    ensures forall k :: 0 <= k < |ms| ==> ReadsBack(Encodings(ms)[k], ms[k])
  {
    forall k | 0 <= k < |ms| ensures ReadsBack(Encodings(ms)[k], ms[k]) {
      ReadsBackEncoded(ms[k]);
    }
  }

  lemma {:induction false} DropBrace(inner: string)
    ensures (['{'] + inner + ['}'])[1..] == inner + ['}'] + []
  {
    var t := ['{'] + inner + ['}'];
    assert |t[1..]| == |inner + ['}'] + []|;
    forall k | 0 <= k < |t[1..]| ensures t[1..][k] == (inner + ['}'] + [])[k] {
      assert t[1..][k] == t[k + 1];
    }
  }

  lemma {:induction false} EncodeObjectShape(ms: Members)
    requires ms != []
    ensures |EncodeObject(ms)| > 2 && EncodeObject(ms)[0] == '{'
    ensures EncodeObject(ms)[1..] == Join(Encodings(ms)) + ['}'] + []
  {
    var inner := Join(Encodings(ms));
    assert EncodeObject(ms) == ['{'] + inner + ['}'];
    DropBrace(inner);
  }

  /** Reading back what `json.dumps` wrote gives the same members in the same
      order: the encoding loses nothing. */
  lemma {:induction false} DecodeEncode(ms: Members)
    ensures DecodeObject(EncodeObject(ms)) == Some(ms)
  {
    if ms != [] {
      EncodingsReadBack(ms);
      EncodeObjectShape(ms);
      ParseJoined(Encodings(ms), ms, []);
      DecodeObjectOf(EncodeObject(ms), ms);
    }
  }

  /** Two argument dictionaries with the same encoding are the same. */
  lemma {:induction false} EncodeInjective(a: Members, b: Members)
    requires EncodeObject(a) == EncodeObject(b)
    ensures a == b
  {
    DecodeEncode(a);
    DecodeEncode(b);
  }
}
