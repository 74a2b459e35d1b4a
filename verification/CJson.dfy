/**
The text side of cJSON (tools/cJSON/cJSON.c): what the printer writes, what the
recursive-descent parser reads, and what the minifier leaves, as functions on
strings. One `char` stands for one byte. A C string ends at its terminator, so
`At(s)` is NUL once `s` is used up.
*/
module CJson {
  import opened CBuffer
  import opened Utf8

  datatype Json =
    | Null
    | False
    | True
    | Number(mantissa: int, exponent: int)  // mantissa * 10^exponent
    | String(str: string)
    | Array(items: seq<Json>)
    | Object(members: seq<Member>)

  datatype Member = Member(key: string, value: Json)

  const INT_MIN: int := -0x8000_0000
  const INT_MAX: int := 0x7FFF_FFFF

  /** Trees without references whose strings are C strings and whose numbers are `int`s. */
  predicate Printable(j: Json) {
    match j
    case Number(m, e) => e == 0 && INT_MIN <= m <= INT_MAX
    case String(s) => NulFree(s)
    case Array(items) => forall i | 0 <= i < |items| :: Printable(items[i])
    case Object(ms) => forall i | 0 <= i < |ms| :: NulFree(ms[i].key) && Printable(ms[i].value)
    case _ => true
  }

  predicate PrintableItems(items: seq<Json>) {
    forall i | 0 <= i < |items| :: Printable(items[i])
  }

  predicate PrintableMembers(ms: seq<Member>) {
    forall i | 0 <= i < |ms| :: NulFree(ms[i].key) && Printable(ms[i].value)
  }

  // ----- Printing -----

  function Tabs(n: nat): string {
    if n == 0 then "" else "\t" + Tabs(n - 1)
  }

  function PrintInt(n: int): string {
    if n < 0 then "-" + Decimal(-n) else Decimal(n)
  }

  /** The letter after the backslash, or NUL for bytes that have no short escape. */
  function ShortEscape(c: char): char {
    match c
    case '\\' => '\\'
    case '\"' => '\"'
    case '\U{8}' => 'b'
    case '\U{C}' => 'f'
    case '\n' => 'n'
    case '\r' => 'r'
    case '\t' => 't'
    case _ => '\0'
  }

  function EscapeChar(c: char): string {
    if c as int > 31 && c != '\"' && c != '\\' then [c]
    else if ShortEscape(c) != '\0' then ['\\', ShortEscape(c)]
    else "\\u00" + HexByte(c as int % 256)
  }

  function Escape(s: string): string {
    if s == "" then "" else EscapeChar(s[0]) + Escape(s[1..])
  }

  function Quote(s: string): string {
    "\"" + Escape(s) + "\""
  }

  // The blanks that only the formatted printer writes.
  function Nl(fmt: bool): string { if fmt then "\n" else "" }
  function Tab(fmt: bool): string { if fmt then "\t" else "" }
  function Space(fmt: bool): string { if fmt then " " else "" }
  function Indent(n: int, fmt: bool): string { if fmt && n > 0 then Tabs(n) else "" }

  /** `print_value` at a given depth; `fmt` selects cJSON_Print over cJSON_PrintUnformatted. */
  function Print(j: Json, depth: nat, fmt: bool): string
    decreases j, 1
  {
    match j
    case Null => "null"
    case False => "false"
    case True => "true"
    case Number(m, _) => PrintInt(m)
    case String(s) => Quote(s)
    case Array(items) => "[" + PrintItems(items, depth + 1, fmt) + "]"
    case Object(ms) =>
      if ms == [] then
        "{" + Nl(fmt) + Indent(depth - 1, fmt) + "}"
      else
        "{" + Nl(fmt) + PrintMembers(ms, depth + 1, fmt) + Indent(depth, fmt) + "}"
  }

  function PrintItems(items: seq<Json>, depth: nat, fmt: bool): string
    decreases items, 0
  {
    if items == [] then ""
    else if |items| == 1 then Print(items[0], depth, fmt)
    else Print(items[0], depth, fmt) + "," + Space(fmt) + PrintItems(items[1..], depth, fmt)
  }

  function PrintMember(m: Member, depth: nat, fmt: bool): string
    decreases m, 2
  {
    Indent(depth, fmt) + Quote(m.key) + ":" + Tab(fmt) + Print(m.value, depth, fmt)
  }

  function PrintMembers(ms: seq<Member>, depth: nat, fmt: bool): string
    decreases ms, 0
  {
    if ms == [] then ""
    else
      PrintMember(ms[0], depth, fmt) + (if |ms| > 1 then "," else "") + Nl(fmt)
      + PrintMembers(ms[1..], depth, fmt)
  }

  // ----- Parsing -----

  /** Parsing stops with a value and the text after it, fails with the text that
      cJSON_GetErrorPtr would point at, or meets an escape whose characters are missing or run over a quote or backslash. */
  datatype Parsed<T> = Ok(value: T, rest: string) | Err(at: string) | Malformed

  function At(s: string): char {
    if s == "" then '\0' else s[0]
  }

  predicate IsDigit(c: char) { '0' <= c <= '9' }

  function Skip(s: string): (r: string)
    ensures |r| <= |s|
  {
    if s != "" && s[0] != '\0' && s[0] as int <= 32 then Skip(s[1..]) else s
  }

  function Digits(n: nat, s: string): (r: (nat, string))
    ensures |r.1| <= |s| && (IsDigit(At(s)) ==> |r.1| < |s|)
    decreases |s|
  {
    if IsDigit(At(s)) then Digits(n * 10 + (s[0] as int - '0' as int), s[1..]) else (n, s)
  }

  /** The digits before and after the point, and the scale the latter make. */
  function Mantissa(s: string): (r: (nat, int, string))
    ensures |r.2| <= |s| && (IsDigit(At(s)) ==> |r.2| < |s|)
  {
    var s2 := if At(s) == '0' then s[1..] else s;
    var (n, s3) := if '1' <= At(s2) <= '9' then Digits(0, s2) else (0, s2);
    if At(s3) == '.' && IsDigit(At(s3[1..])) then
      var (m, s4) := Digits(n, s3[1..]);
      (m, |s4| - |s3| + 1, s4)
    else (n, 0, s3)
  }

  function Exponent(s: string): (r: (int, string))
    ensures |r.1| <= |s|
  {
    if At(s) == 'e' || At(s) == 'E' then
      var negative := At(s[1..]) == '-';
      var (n, s6) := Digits(0, if negative || At(s[1..]) == '+' then s[2..] else s[1..]);
      (if negative then 0 - n else n, s6)
    else (0, s)
  }

  function ParseNumber(s: string): (r: Parsed<Json>)
    ensures r.Ok? && |r.rest| <= |s|
    ensures At(s) == '-' || IsDigit(At(s)) ==> |r.rest| < |s|
  {
    var (m, scale, s4) := Mantissa(if At(s) == '-' then s[1..] else s);
    var (e, s6) := Exponent(s4);
    Ok(Number(if At(s) == '-' then 0 - m else m, scale + e), s6)
  }

  function Prepend(t: string, p: Parsed<string>): Parsed<string> {
    if p.Ok? then Ok(t + p.value, p.rest) else p
  }

  /** The loop of `parse_string`, started after the opening quote. */
  function Unescape(s: string): (r: Parsed<string>)
    ensures r.Ok? ==> |r.rest| <= |s|
    ensures !r.Err?
    decreases |s|, 1
  {
    if At(s) == '\"' then Ok("", s[1..])
    else if At(s) == '\0' then Ok("", s)
    else if s[0] != '\\' then Prepend([s[0]], Unescape(s[1..]))
    else if At(s[1..]) == '\0' then Malformed
    else if s[1] == 'u' then UnescapeUnicode(s)
    else Prepend([LongEscape(s[1])], Unescape(s[2..]))
  }

  function LongEscape(c: char): char {
    match c
    case 'b' => '\U{8}'
    case 'f' => '\U{C}'
    case 'n' => '\n'
    case 'r' => '\r'
    case 't' => '\t'
    case _ => c
  }

  /** Four characters that parse_hex4 can read and be passed over: with a quote or a backslash among them, or
      too few, the two passes of parse_string come apart. */
  predicate FourPlain(s: string) {
    |s| >= 4 && forall i | 0 <= i < 4 :: s[i] != '\"' && s[i] != '\\' && s[i] != '\0'
  }

  /** parse_hex4: 0 unless all four are hexadecimal digits. */
  function HexOrZero(s: string): (h: nat)
    requires |s| >= 4
    ensures h < 0x10000 && (IsHex4(s) ==> h == ParseHex4(s))
  {
    if IsHex4(s) then ParseHex4(s) else 0
  }

  /** `\uXXXX`, alone or as the first half of a surrogate pair. */
  function UnescapeUnicode(s: string): (r: Parsed<string>)
    requires |s| >= 2
    ensures r.Ok? ==> |r.rest| <= |s|
    ensures !r.Err?
    decreases |s|, 0
  {
    if !FourPlain(s[2..]) then Malformed
    else
      var uc := HexOrZero(s[2..]);
      if 0xDC00 <= uc <= 0xDFFF || uc == 0 then Unescape(s[6..])
      else if 0xD800 <= uc <= 0xDBFF then
        if At(s[6..]) != '\\' || At(s[7..]) != 'u' then Unescape(s[6..])
        else if !FourPlain(s[8..]) then Malformed
        else
          var uc2 := HexOrZero(s[8..]);
          if uc2 < 0xDC00 || uc2 > 0xDFFF then Unescape(s[12..])
          else Prepend(Encode(Combine(uc, uc2)), Unescape(s[12..]))
      else Prepend(Encode(uc), Unescape(s[6..]))
  }

  function ParseString(s: string): (r: Parsed<string>)
    ensures r.Ok? ==> |r.rest| < |s|
  {
    if At(s) != '\"' then Err(s) else Unescape(s[1..])
  }

  function ParseValue(s: string): (r: Parsed<Json>)
    ensures r.Ok? ==> |r.rest| < |s|
    decreases |s|, 2
  {
    if "null" <= s then Ok(Null, s[4..])
    else if "false" <= s then Ok(False, s[5..])
    else if "true" <= s then Ok(True, s[4..])
    else if At(s) == '\"' then
      match ParseString(s)
      case Ok(t, rest) => Ok(String(t), rest)
      case Err(at) => Err(at)
      case Malformed => Malformed
    else if At(s) == '-' || IsDigit(At(s)) then ParseNumber(s)
    else if At(s) == '[' then
      var s1 := Skip(s[1..]);
      if At(s1) == ']' then Ok(Array([]), s1[1..]) else ParseItems(s1, [])
    else if At(s) == '{' then
      var s1 := Skip(s[1..]);
      if At(s1) == '}' then Ok(Object([]), s1[1..]) else ParseMembers(s1, [])
    else Err(s)
  }

  /** One turn of the loop in `parse_array`, with the elements read so far. */
  function ParseItems(s: string, items: seq<Json>): (r: Parsed<Json>)
    ensures r.Ok? ==> |r.rest| < |s|
    decreases |s|, 3
  {
    match ParseValue(Skip(s))
    case Err(at) => Err(at)
    case Malformed => Malformed
    case Ok(v, rest) =>
      var s1 := Skip(rest);
      if At(s1) == ',' then ParseItems(s1[1..], items + [v])
      else if At(s1) == ']' then Ok(Array(items + [v]), s1[1..])
      else Err(s1)
  }

  /** One turn of the loop in `parse_object`, with the members read so far. */
  function ParseMembers(s: string, ms: seq<Member>): (r: Parsed<Json>)
    ensures r.Ok? ==> |r.rest| < |s|
    decreases |s|, 3
  {
    match ParseString(Skip(s))
    case Err(at) => Err(at)
    case Malformed => Malformed
    case Ok(key, rest) =>
      var s1 := Skip(rest);
      if At(s1) != ':' then Err(s1)
      else
        match ParseValue(Skip(s1[1..]))
        case Err(at) => Err(at)
        case Malformed => Malformed
        case Ok(v, rest') =>
          var s2 := Skip(rest');
          if At(s2) == ',' then ParseMembers(s2[1..], ms + [Member(key, v)])
          else if At(s2) == '}' then Ok(Object(ms + [Member(key, v)]), s2[1..])
          else Err(s2)
  }

  /** cJSON_ParseWithOpts. */
  function Parse(s: string, requireEnd: bool): Parsed<Json> {
    var r := ParseValue(Skip(s));
    if r.Ok? && requireEnd then
      var end := Skip(r.rest);
      if At(end) != '\0' then Err(end) else Ok(r.value, end)
    else r
  }
}
