/**
 * json.loads on texts without insignificant whitespace (RFC 8259): the inverse of the canonical dump.
 * The value of a number is a function of its text.
 */
module JsonParser {
  import opened Wrappers
  import opened Decimal
  import opened Json

  predicate NumberChar(c: char) { IsDigit(c) || c in {'-', '+', '.', 'e', 'E'} }

  predicate IsInteger(s: string) { s != "" && AllDigits(s) && (s[0] == '0' ==> |s| == 1) }

  predicate IsFraction(s: string) { |s| > 1 && s[0] == '.' && AllDigits(s[1..]) }

  predicate IsExponent(s: string) {
    && |s| > 1 && s[0] in {'e', 'E'}
    && var digits := if s[1] in {'+', '-'} then s[2..] else s[1..]; digits != "" && AllDigits(digits)
  }

  // int, then an optional fraction, then an optional exponent.
  predicate IsUnsigned(s: string) {
    exists i, j :: 0 < i <= j <= |s| && SplitsAt(s, i, j)
  }

  predicate SplitsAt(s: string, i: nat, j: nat)
    requires 0 < i <= j <= |s|
  {
    IsInteger(s[..i]) && (i == j || IsFraction(s[i..j])) && (j == |s| || IsExponent(s[j..]))
  }

  predicate IsNumberText(s: string) { s != "" && IsUnsigned(if s[0] == '-' then s[1..] else s) }

  function NumberRun(s: string): (r: (string, string))
    ensures r.0 + r.1 == s && |r.1| == |s| - |r.0|
  {
    if s != "" && NumberChar(s[0]) then
      var (run, rest) := NumberRun(s[1..]);
      ([s[0]] + run, rest)
    else ("", s)
  }

  function HexValue(c: char): Option<nat> {
    if '0' <= c <= '9' then Some((c - '0') as nat)
    else if 'a' <= c <= 'f' then Some((c - 'a') as nat + 10)
    else if 'A' <= c <= 'F' then Some((c - 'A') as nat + 10)
    else None
  }

  // The four digits after \u; a surrogate is not a character of its own.
  function CodeUnit(s: string): Option<char>
    requires |s| == 4
  {
    var (a, b, c, d) := (HexValue(s[0]), HexValue(s[1]), HexValue(s[2]), HexValue(s[3]));
    if a.None? || b.None? || c.None? || d.None? then None
    else
      var n := 4096 * a.value + 256 * b.value + 16 * c.value + d.value;
      if 0xD800 <= n < 0xE000 || n >= 0x10000 then None else Some(n as char)
  }

  // What follows a backslash.
  function Unescape(s: string): (r: Option<(char, string)>)
    ensures r.Some? ==> |r.value.1| < |s|
  {
    if s == "" then None
    else if s[0] in {'"', '\\', '/'} then Some((s[0], s[1..]))
    else if s[0] == 'n' then Some(('\n', s[1..]))
    else if s[0] == 'r' then Some(('\r', s[1..]))
    else if s[0] == 't' then Some(('\t', s[1..]))
    else if s[0] == 'b' then Some((8 as char, s[1..]))
    else if s[0] == 'f' then Some((12 as char, s[1..]))
    else if s[0] == 'u' && |s| >= 5 then
      match CodeUnit(s[1..5])
      case Some(c) => Some((c, s[5..]))
      case None => None
    else None
  }

  // The characters up to the closing quote.
  function ParseString(s: string): (r: Option<(string, string)>)
    ensures r.Some? ==> |r.value.1| < |s|
    decreases |s|
  {
    if s == "" || s[0] < ' ' then None
    else if s[0] == '"' then Some(("", s[1..]))
    else
      var first := if s[0] == '\\' then Unescape(s[1..]) else Some((s[0], s[1..]));
      match first
      case None => None
      case Some((c, rest)) =>
        match ParseString(rest)
        case None => None
        case Some((t, after)) => Some(([c] + t, after))
  }

  function ParseNumber(s: string, valueOf: string -> real): (r: Option<(Json, string)>)
    ensures r.Some? ==> |r.value.1| < |s|
  {
    var (run, rest) := NumberRun(s);
    if IsNumberText(run) then Some((Num(valueOf(run), run), rest)) else None
  }

  function ParseValue(s: string, valueOf: string -> real): (r: Option<(Json, string)>)
    ensures r.Some? ==> |r.value.1| < |s|
    decreases |s|, 0
  {
    if s == "" then None
    else if "null" <= s then Some((Null, s[4..]))
    else if "true" <= s then Some((Bool(true), s[4..]))
    else if "false" <= s then Some((Bool(false), s[5..]))
    else if s[0] == '"' then
      match ParseString(s[1..])
      case None => None
      case Some((t, rest)) => Some((Str(t), rest))
    else if s[0] == '[' then
      if |s| > 1 && s[1] == ']' then Some((Arr([]), s[2..]))
      else
        match ParseItems(s[1..], valueOf)
        case None => None
        case Some((items, rest)) => Some((Arr(items), rest))
    else if s[0] == '{' then
      if |s| > 1 && s[1] == '}' then Some((Obj([]), s[2..]))
      else
        match ParseMembers(s[1..], valueOf)
        case None => None
        case Some((fields, rest)) => Some((Obj(fields), rest))
    else ParseNumber(s, valueOf)
  }

  // One or more items and the closing bracket.
  function ParseItems(s: string, valueOf: string -> real): (r: Option<(seq<Json>, string)>)
    ensures r.Some? ==> |r.value.1| < |s|
    decreases |s|, 1
  {
    match ParseValue(s, valueOf)
    case None => None
    case Some((item, rest)) =>
      if rest == "" then None
      else if rest[0] == ']' then Some(([item], rest[1..]))
      else if rest[0] == ',' then
        match ParseItems(rest[1..], valueOf)
        case None => None
        case Some((items, after)) => Some(([item] + items, after))
      else None
  }

  // One member: a name, a colon and a value.
  function ParseMember(s: string, valueOf: string -> real): (r: Option<(Field, string)>)
    ensures r.Some? ==> |r.value.1| < |s|
    decreases |s|, 1
  {
    if s == "" || s[0] != '"' then None
    else
      match ParseString(s[1..])
      case None => None
      case Some((name, rest)) =>
        if rest == "" || rest[0] != ':' then None
        else
          match ParseValue(rest[1..], valueOf)
          case None => None
          case Some((value, after)) => Some((Field(name, value), after))
  }

  // One or more members and the closing brace.
  function ParseMembers(s: string, valueOf: string -> real): (r: Option<(seq<Field>, string)>)
    ensures r.Some? ==> |r.value.1| < |s|
    decreases |s|, 2
  {
    match ParseMember(s, valueOf)
    case None => None
    case Some((field, rest)) =>
      if rest == "" then None
      else if rest[0] == '}' then Some(([field], rest[1..]))
      else if rest[0] == ',' then
        match ParseMembers(rest[1..], valueOf)
        case None => None
        case Some((fields, after)) => Some(([field] + fields, after))
      else None
  }

  // A whole text.
  function Loads(s: string, valueOf: string -> real): Option<Json> {
    match ParseValue(s, valueOf)
    case None => None
    case Some((j, rest)) => if rest == "" then Some(j) else None
  }
}
