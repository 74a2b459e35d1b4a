/**
What tools/jsoncpp reads and writes, as token lists. A text is a spaced sequence of tokens;
both writers produce one for the same tokens, and the reader only sees the tokens.
*/
module JsonCpp {
  import opened CBuffer
  import opened Utf8

  /** Value without comments; an object lists its members, reals are kept as text. */
  datatype Value =
    | Null
    | Bool(b: bool)
    | Int(i: int)
    | UInt(u: nat)
    | Real(text: string)
    | String(s: string)
    | Array(items: seq<Value>)
    | Object(members: seq<Member>)

  datatype Member = Member(name: string, value: Value)

  const MAX_INT: int := 0x7FFF_FFFF

  // ----- Token texts -----

  lemma {:induction false} DecimalStarts(n: nat)
    ensures Decimal(n) != "" && forall i | 0 <= i < |Decimal(n)| :: '0' <= Decimal(n)[i] <= '9'
  {
    if n >= 10 {
      DecimalStarts(n / 10);
    }
  }

  predicate NumberChar(c: char) { '0' <= c <= '9' || c == '.' || c == 'e' || c == 'E' || c == '+' || c == '-' }

  function UpperHexDigit(d: nat): (c: char)
    requires d < 16
    ensures HexValue(c) == d && c != '\"' && c != '\\'
  {
    if d < 10 then DigitChar(d) else ('A' as int + (d - 10)) as char
  }

  predicate IsControl(c: char) { 0 < c as int <= 0x1F }

  function ShortEscape(c: char): char {
    match c
    case '\"' => '\"'
    case '\\' => '\\'
    case '\U{8}' => 'b'
    case '\U{C}' => 'f'
    case '\n' => 'n'
    case '\r' => 'r'
    case '\t' => 't'
    case _ => '\0'
  }

  function EscapeChar(c: char): string {
    if ShortEscape(c) != '\0' then ['\\', ShortEscape(c)]
    else if IsControl(c) then "\\u00" + [UpperHexDigit(c as int / 16), UpperHexDigit(c as int % 16)]
    else [c]
  }

  function Escape(s: string): string {
    if s == "" then "" else EscapeChar(s[0]) + Escape(s[1..])
  }

  /** valueToQuotedString. */
  function Quote(s: string): string { "\"" + Escape(s) + "\"" }

  /** The text of a value that is no container. */
  function Scalar(v: Value): string
    requires !v.Array? && !v.Object?
  {
    match v
    case Null => "null"
    case Bool(b) => if b then "true" else "false"
    case Int(i) => if i < 0 then "-" + Decimal(-i) else Decimal(i)
    case UInt(u) => Decimal(u)
    case Real(text) => text
    case String(s) => Quote(s)
  }

  // ----- Token lists, in front of the tokens k that follow -----

  function Tokens(v: Value, k: seq<string>): seq<string>
    decreases v, 1
  {
    match v
    case Array(items) => ["["] + ItemTokens(items, ["]"] + k)
    case Object(ms) => ["{"] + MemberTokens(ms, ["}"] + k)
    case _ => [Scalar(v)] + k
  }

  function ItemTokens(items: seq<Value>, k: seq<string>): seq<string>
    decreases items, 0
  {
    if items == [] then k
    else Tokens(items[0], if |items| > 1 then [","] + ItemTokens(items[1..], k) else k)
  }

  function MemberTokens(ms: seq<Member>, k: seq<string>): seq<string>
    decreases ms, 0
  {
    if ms == [] then k
    else [Quote(ms[0].name), ":"] + Tokens(ms[0].value, if |ms| > 1 then [","] + MemberTokens(ms[1..], k) else k)
  }

  predicate IsSpace(c: char) { c == ' ' || c == '\t' || c == '\r' || c == '\n' }

  function SkipSpaces(s: string): (r: string)
    ensures |r| <= |s|
  {
    if s != "" && IsSpace(s[0]) then SkipSpaces(s[1..]) else s
  }

  /** The text is these tokens with any white space before, between and after them. */
  predicate Spaced(s: string, toks: seq<string>)
    decreases |toks|
  {
    var r := SkipSpaces(s);
    if toks == [] then r == ""
    else toks[0] <= r && Spaced(r[|toks[0]|..], toks[1..])
  }

  predicate Spaces(b: string) { forall i | 0 <= i < |b| :: IsSpace(b[i]) }

  lemma {:induction false} SkipMore(b: string, s: string)
    requires Spaces(b)
    ensures SkipSpaces(b + s) == SkipSpaces(s)
  {
    if b == "" {
      assert b + s == s;
    } else {
      SkipMore(b[1..], s);
      assert (b + s)[1..] == b[1..] + s;
    }
  }

  lemma SpacedMore(b: string, s: string, toks: seq<string>)
    requires Spaces(b)
    ensures Spaced(b + s, toks) <==> Spaced(s, toks)
  {
    SkipMore(b, s);
  }

  lemma SpacedToken(t: string, s: string, k: seq<string>)
    requires t != "" && !IsSpace(t[0]) && Spaced(s, k)
    ensures Spaced(t + s, [t] + k)
  {
    assert SkipSpaces(t + s) == t + s && (t + s)[|t|..] == s && ([t] + k)[1..] == k;
  }

  /** A text that stands for a value wherever it is put. */
  ghost predicate Renders(t: string, v: Value) {
    forall s, k | Spaced(s, k) :: Spaced(t + s, Tokens(v, k))
  }

  // ----- Erasing white space outside strings -----

  function Strip(s: string): string
    decreases |s|
  {
    if s == "" then ""
    else if IsSpace(s[0]) then Strip(s[1..])
    else if s[0] == '\"' then "\"" + StripString(s[1..])
    else [s[0]] + Strip(s[1..])
  }

  /** Inside a string literal everything is kept. */
  function StripString(s: string): string
    decreases |s|
  {
    if s == "" then ""
    else if s[0] == '\"' then "\"" + Strip(s[1..])
    else if s[0] == '\\' && |s| > 1 then s[..2] + StripString(s[2..])
    else [s[0]] + StripString(s[1..])
  }

  function Concat(toks: seq<string>): string {
    if toks == [] then "" else toks[0] + Concat(toks[1..])
  }

  /** A token that erasing leaves alone and that ends where it ends. */
  ghost predicate Solid(t: string) {
    t != "" && !IsSpace(t[0]) && forall s :: Strip(t + s) == t + Strip(s)
  }

  lemma {:induction false} StripSpaced(s: string, toks: seq<string>)
    requires Spaced(s, toks) && forall i | 0 <= i < |toks| :: Solid(toks[i])
    ensures Strip(s) == Concat(toks)
    decreases |toks|, |s|
  {
    if s != "" && IsSpace(s[0]) {
      assert SkipSpaces(s) == SkipSpaces(s[1..]);
      StripSpaced(s[1..], toks);
    } else if toks != [] {
      var t := toks[0];
      var rest := s[|t|..];
      assert s == t + rest;
      StripSpaced(rest, toks[1..]);
    }
  }

  // ----- Printable values -----

  predicate Printable(v: Value)
  {
    match v
    case Int(i) => -2147483639 <= i <= MAX_INT
    case UInt(u) => u <= 4294967289
    case Real(_) => false
    case String(s) => NulFree(s)
    case Array(items) => forall i | 0 <= i < |items| :: Printable(items[i])
    case Object(ms) => forall i | 0 <= i < |ms| :: NulFree(ms[i].name) && Printable(ms[i].value)
    case _ => true
  }

  /** Objects have their members in name order and each name once, as a map keeps them. */
  predicate InOrder(v: Value) {
    match v
    case Array(items) => forall i | 0 <= i < |items| :: InOrder(items[i])
    case Object(ms) => Sorted(ms) && forall i | 0 <= i < |ms| :: InOrder(ms[i].value)
    case _ => true
  }

  predicate Sorted(ms: seq<Member>) { forall i, j | 0 <= i < j < |ms| :: Less(ms[i].name, ms[j].name) }

  /** The order of member names, as strcmp gives it. */
  predicate Less(a: string, b: string) {
    b != "" && (a == "" || a[0] < b[0] || (a[0] == b[0] && Less(a[1..], b[1..])))
  }
}
