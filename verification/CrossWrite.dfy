/**
The writers of tools/jsoncpp and the parser of tools/cJSON: the tokens jsoncpp writes, with any white space
between them, are read by cJSON_Parse as the same tree.
*/
module CrossWrite {
  import opened CBuffer
  import opened JsonCpp
  import opened JsonCppLex
  import opened JsonCppGrammar
  import opened Utf8
  import CJson
  import CJsonRoundTrip
  import JsonCppWriter
  import JsonCppStyled
  import JsonCppRoundTrip

  /** The cJSON tree that says the same; members stay in the order in which they are written. */
  function Tree(v: Value): CJson.Json
    requires Printable(v)
    decreases v, 1
  {
    match v
    case Null => CJson.Null
    case Bool(b) => if b then CJson.True else CJson.False
    case Int(i) => CJson.Number(i, 0)
    case UInt(u) => CJson.Number(u, 0)
    case String(s) => CJson.String(s)
    case Array(items) => CJson.Array(Trees(items))
    case Object(ms) => CJson.Object(Members(ms))
  }

  function Trees(items: seq<Value>): (ts: seq<CJson.Json>)
    requires PrintableItems(items)
    decreases items, 0
  {
    if items == [] then [] else [Tree(items[0])] + Trees(items[1..])
  }

  function Members(ms: seq<Member>): seq<CJson.Member>
    requires PrintableMembers(ms)
    decreases ms, 0
  {
    if ms == [] then [] else [CJson.Member(ms[0].name, Tree(ms[0].value))] + Members(ms[1..])
  }

  // ----- White space and tokens -----

  lemma {:induction false} SkipsSame(s: string)
    requires SkipSpaces(s) == "" || SkipSpaces(s)[0] as int > 32
    ensures CJson.Skip(s) == SkipSpaces(s)
  {
    if s != "" && IsSpace(s[0]) {
      SkipsSame(s[1..]);
    }
  }

  /** The next token, and what is left. */
  lemma Next(s: string, t: string, k: seq<string>) returns (rest: string)
    requires t != "" && t[0] as int > 32 && Spaced(s, [t] + k)
    ensures CJson.Skip(s) == t + rest && Spaced(rest, k)
  {
    var r := SkipSpaces(s);
    assert ([t] + k)[1..] == k && t <= r;
    rest := r[|t|..];
    SkipsSame(s);
    assert r == t + rest;
  }

  /** A mark of one character. */
  lemma NextMark(s: string, c: char, k: seq<string>)
    requires c as int > 32 && Spaced(s, [[c]] + k)
    ensures var r := CJson.Skip(s); CJson.At(r) == c && r != "" && Spaced(r[1..], k)
  {
    var rest := Next(s, [c], k);
    assert ([c] + rest)[1..] == rest;
  }

  lemma NumberEnds(rest: string, k: seq<string>)
    requires Spaced(rest, k) && Follows(k)
    ensures CJsonRoundTrip.EndsNumber(rest)
  {
    var r := SkipSpaces(rest);
    if rest != "" && !IsSpace(rest[0]) {
      assert r == rest;
      assert k != [] && k[0] <= r && r[0] == k[0][0];
    }
  }

  // ----- Literals -----

  lemma CharRead(c: char, rest: string)
    requires c != '\0'
    ensures CJson.Unescape(EscapeChar(c) + rest) == CJson.Prepend([c], CJson.Unescape(rest))
  {
    hide CJson.Unescape, CJson.LongEscape;
    if ShortEscape(c) != '\0' {
      ShortRead(c);
      CJsonRoundTrip.UnescapePair(ShortEscape(c), rest);
    } else if IsControl(c) {
      ControlRead(c as int, rest);
    } else {
      CJsonRoundTrip.UnescapeRaw(c, rest);
    }
  }

  lemma ShortRead(c: char)
    requires ShortEscape(c) != '\0'
    ensures CJson.LongEscape(ShortEscape(c)) == c && ShortEscape(c) != 'u'
  {
  }

  lemma ControlRead(b: nat, rest: string)
    requires 0 < b < 32
    ensures CJson.Unescape("\\u00" + [UpperHexDigit(b / 16), UpperHexDigit(b % 16)] + rest) == CJson.Prepend([b as char], CJson.Unescape(rest))
  {
    var hex := [UpperHexDigit(b / 16), UpperHexDigit(b % 16)];
    var s := "\\u00" + hex + rest;
    assert s[1] == 'u' && s[1..][0] == 'u' && s[6..] == rest && s[2..] == "00" + hex + rest;
    assert s[2..][2] == hex[0] && s[2..][3] == hex[1];
    assert IsHex4(s[2..]) && ParseHex4(s[2..]) == b && CJson.FourPlain(s[2..]);
    hide IsHex4, ParseHex4;
    assert CJson.Unescape(s) == CJson.UnescapeUnicode(s);
  }

  lemma {:induction false} LiteralRead(x: string, rest: string)
    requires NulFree(x)
    ensures CJson.Unescape(Escape(x) + ("\"" + rest)) == CJson.Ok(x, rest)
  {
    hide EscapeChar;
    if x == "" {
      assert Escape(x) + ("\"" + rest) == "\"" + rest && ("\"" + rest)[1..] == rest;
    } else {
      var tail := Escape(x[1..]) + ("\"" + rest);
      assert Escape(x) + ("\"" + rest) == EscapeChar(x[0]) + tail;
      LiteralRead(x[1..], rest);
      hide CJson.Unescape, Escape;
      CharRead(x[0], tail);
      assert [x[0]] + x[1..] == x;
    }
  }

  lemma QuoteRead(x: string, rest: string)
    requires NulFree(x)
    ensures CJson.ParseString(Quote(x) + rest) == CJson.Ok(x, rest)
    ensures CJson.ParseValue(Quote(x) + rest) == CJson.Ok(CJson.String(x), rest)
  {
    hide CJson.Unescape, Escape, CJson.ParseValue;
    LiteralRead(x, rest);
    var s := Quote(x) + rest;
    assert s[0] == '\"' && s[1..] == Escape(x) + ("\"" + rest);
    StringFirst(s);
  }

  lemma StringFirst(s: string)
    requires CJson.At(s) == '\"' && CJson.ParseString(s).Ok?
    ensures CJson.ParseValue(s) == CJson.Ok(CJson.String(CJson.ParseString(s).value), CJson.ParseString(s).rest)
  {
    hide CJson.ParseString, CJson.ParseItems, CJson.ParseMembers, CJson.ParseNumber, CJson.Skip;
  }

  // ----- Values -----

  lemma ScalarRead(v: Value, rest: string, k: seq<string>)
    requires Printable(v) && !v.Array? && !v.Object? && Spaced(rest, k) && Follows(k)
    ensures CJson.ParseValue(Scalar(v) + rest) == CJson.Ok(Tree(v), rest)
  {
    match v
    case String(s) => QuoteRead(s, rest);
    case Int(i) =>
      NumberEnds(rest, k);
      IntRead(i, rest);
    case UInt(u) =>
      NumberEnds(rest, k);
      IntRead(u, rest);
    case _ => WordRead(v, rest);
  }

  lemma WordRead(v: Value, rest: string)
    requires v.Null? || v.Bool?
    ensures CJson.ParseValue(Scalar(v) + rest) == CJson.Ok(Tree(v), rest)
  {
    hide CJson.ParseNumber, CJson.ParseString, CJson.ParseItems, CJson.ParseMembers, CJson.Skip;
    var t := Scalar(v);
    assert (t + rest)[|t|..] == rest && t <= t + rest && (t + rest)[0] == t[0];
  }

  lemma IntRead(i: int, rest: string)
    requires CJsonRoundTrip.EndsNumber(rest)
    ensures CJson.ParseValue(CJson.PrintInt(i) + rest) == CJson.Ok(CJson.Number(i, 0), rest)
  {
    CJsonRoundTrip.ParsePrintInt(i, rest);
    DecimalStarts(if i < 0 then -i else i);
    hide CJson.ParseNumber, CJson.ParseString, CJson.ParseItems, CJson.ParseMembers, CJson.Skip, Decimal;
    assert (CJson.PrintInt(i) + rest)[0] == CJson.PrintInt(i)[0];
  }

  /** A value, from its first token on. */
  lemma {:induction false} TreeRead(s: string, v: Value, k: seq<string>) returns (rest: string)
    requires Printable(v) && Follows(k) && Spaced(s, Tokens(v, k))
    ensures CJson.ParseValue(CJson.Skip(s)) == CJson.Ok(Tree(v), rest) && Spaced(rest, k)
    decreases v, 1
  {
    hide Spaced, CJson.Skip, CJson.ParseItems, CJson.ParseMembers, ItemTokens, MemberTokens, Trees, Members;
    match v
    case Array(items) =>
      var after := Next(s, "[", ItemTokens(items, ["]"] + k));
      rest := ArrayRead(after, items, k);
    case Object(ms) =>
      var after := Next(s, "{", MemberTokens(ms, ["}"] + k));
      rest := ObjectRead(after, ms, k);
    case _ => rest := ScalarTree(s, v, k);
  }

  lemma ScalarTree(s: string, v: Value, k: seq<string>) returns (rest: string)
    requires Printable(v) && !v.Array? && !v.Object? && Follows(k) && Spaced(s, Tokens(v, k))
    ensures CJson.ParseValue(CJson.Skip(s)) == CJson.Ok(Tree(v), rest) && Spaced(rest, k)
  {
    SolidScalar(v);
    hide Spaced, CJson.Skip, CJson.ParseValue, Scalar, Follows;
    rest := Next(s, Scalar(v), k);
    ScalarRead(v, rest, k);
  }

  lemma SolidScalar(v: Value)
    requires Printable(v) && !v.Array? && !v.Object?
    ensures Scalar(v) != "" && Scalar(v)[0] as int > 32
  {
    if v.Int? { DecimalStarts(if v.i < 0 then -v.i else v.i); }
    if v.UInt? { DecimalStarts(v.u); }
  }

  lemma {:induction false} ArrayRead(s: string, items: seq<Value>, k: seq<string>) returns (rest: string)
    requires PrintableItems(items) && Spaced(s, ItemTokens(items, ["]"] + k))
    ensures CJson.ParseValue("[" + s) == CJson.Ok(CJson.Array(Trees(items)), rest) && Spaced(rest, k)
    decreases items, 3
  {
    CJsonRoundTrip.ParseArrayText(s);
    hide Spaced, CJson.Skip, CJson.ParseItems, CJson.ParseValue, Tokens, Tree;
    if items == [] {
      NextMark(s, ']', k);
      rest := CJson.Skip(s)[1..];
    } else {
      NotClosing(s, items, k);
      CJsonRoundTrip.SkipTwice(s);
      rest := ItemsTree(s, CJson.Skip(s), [], items, k);
      assert [] + Trees(items) == Trees(items);
    }
  }

  lemma NotClosing(s: string, items: seq<Value>, k: seq<string>)
    requires items != [] && PrintableItems(items) && Spaced(s, ItemTokens(items, ["]"] + k))
    ensures CJson.At(CJson.Skip(s)) != ']'
  {
    var v, after := items[0], AfterFirst(items, k);
    FirstToken(v, after);
    SolidFirst(v);
    hide Spaced, ItemTokens, Tokens, First, Behind;
    var rest := Next(s, First(v), Behind(v, after));
  }

  lemma SolidFirst(v: Value)
    requires Printable(v)
    ensures First(v) != "" && First(v)[0] as int > 32
  {
    if !v.Array? && !v.Object? { SolidScalar(v); }
  }

  /** From one element on; `at` begins like s once white space is skipped. */
  lemma {:induction false} ItemsTree(s: string, at: string, done: seq<CJson.Json>, items: seq<Value>, k: seq<string>) returns (rest: string)
    requires items != [] && PrintableItems(items) && Spaced(s, ItemTokens(items, ["]"] + k)) && CJson.Skip(at) == CJson.Skip(s)
    ensures CJson.ParseItems(at, done) == CJson.Ok(CJson.Array(done + Trees(items)), rest) && Spaced(rest, k)
    decreases items, 2
  {
    hide Spaced, CJson.Skip, CJson.ParseValue, Tokens, Tree, ItemTokens;
    var after := TreeRead(s, items[0], AfterFirst(items, k));
    var t := Tree(items[0]);
    if |items| > 1 {
      NextMark(after, ',', ItemTokens(items[1..], ["]"] + k));
      var next := CJson.Skip(after)[1..];
      rest := ItemsTree(next, next, done + [t], items[1..], k);
      assert done + [t] + Trees(items[1..]) == done + Trees(items);
    } else {
      NextMark(after, ']', k);
      rest := CJson.Skip(after)[1..];
      assert Trees(items) == [t];
    }
  }

  lemma {:induction false} ObjectRead(s: string, ms: seq<Member>, k: seq<string>) returns (rest: string)
    requires PrintableMembers(ms) && Spaced(s, MemberTokens(ms, ["}"] + k))
    ensures CJson.ParseValue("{" + s) == CJson.Ok(CJson.Object(Members(ms)), rest) && Spaced(rest, k)
    decreases ms, 4
  {
    CJsonRoundTrip.ParseObjectText(s);
    hide Spaced, CJson.Skip, CJson.ParseMembers, CJson.ParseValue, Tokens, Tree, Quote;
    if ms == [] {
      NextMark(s, '}', k);
      rest := CJson.Skip(s)[1..];
    } else {
      var tail := FirstName(s, ms, k);
      CJsonRoundTrip.SkipTwice(s);
      rest := MembersTree(s, CJson.Skip(s), [], ms, k);
      assert [] + Members(ms) == Members(ms);
    }
  }

  lemma FirstName(s: string, ms: seq<Member>, k: seq<string>) returns (rest: string)
    requires ms != [] && Spaced(s, MemberTokens(ms, ["}"] + k))
    ensures CJson.Skip(s) == Quote(ms[0].name) + rest && CJson.At(CJson.Skip(s)) == '\"'
    ensures Spaced(rest, [":"] + Tokens(ms[0].value, AfterValue(ms, k)))
  {
    MemberTokensFirst(ms, k);
    hide Spaced, MemberTokens, Tokens;
    assert Quote(ms[0].name)[0] == '\"';
    rest := Next(s, Quote(ms[0].name), [":"] + Tokens(ms[0].value, AfterValue(ms, k)));
  }

  lemma {:induction false} MembersTree(s: string, at: string, done: seq<CJson.Member>, ms: seq<Member>, k: seq<string>) returns (rest: string)
    requires ms != [] && PrintableMembers(ms) && Spaced(s, MemberTokens(ms, ["}"] + k)) && CJson.Skip(at) == CJson.Skip(s)
    ensures CJson.ParseMembers(at, done) == CJson.Ok(CJson.Object(done + Members(ms)), rest) && Spaced(rest, k)
    decreases ms, 3
  {
    hide Spaced, CJson.Skip, CJson.ParseValue, CJson.ParseString, Tokens, Tree, MemberTokens, Quote;
    var behind := FirstName(s, ms, k);
    QuoteRead(ms[0].name, behind);
    NextMark(behind, ':', Tokens(ms[0].value, AfterValue(ms, k)));
    var after := TreeRead(CJson.Skip(behind)[1..], ms[0].value, AfterValue(ms, k));
    var m := CJson.Member(ms[0].name, Tree(ms[0].value));
    if |ms| > 1 {
      NextMark(after, ',', MemberTokens(ms[1..], ["}"] + k));
      var next := CJson.Skip(after)[1..];
      rest := MembersTree(next, next, done + [m], ms[1..], k);
      assert done + [m] + Members(ms[1..]) == done + Members(ms);
    } else {
      NextMark(after, '}', k);
      rest := CJson.Skip(after)[1..];
      assert Members(ms) == [m];
    }
  }

  /** cJSON_Parse reads what either writer of jsoncpp writes, all of it. */
  lemma WrittenParsed(text: string, v: Value)
    requires Printable(v) && Spaced(text, Tokens(v, []))
    ensures CJson.Parse(text, true) == CJson.Ok(Tree(v), "")
  {
    var rest := TreeRead(text, v, []);
    SkipsSame(rest);
    hide CJson.ParseValue, CJson.Skip, Tree;
    assert CJson.Skip(rest) == "";
  }

  /** So it is with the text of either writer: FastWriter's and, line breaks and all, StyledWriter's. */
  method WriteAndParse(v: Value, styled: bool) returns (text: string)
    requires Printable(v)
    ensures CJson.Parse(text, true) == CJson.Ok(Tree(v), "")
  {
    hide CJson.Parse, Spaced, Tokens, Tree, Printable, JsonCppWriter.Writable;
    JsonCppRoundTrip.PrintableIsWritable(v);
    if styled {
      var writer := new JsonCppStyled.StyledWriter();
      text := writer.Write(v);
    } else {
      var writer := new JsonCppWriter.FastWriter();
      text := writer.Write(v);
      JsonCppWriter.FastRenders(v);
      JsonCppStyled.RendersSpaced(JsonCppWriter.Fast(v), v, "\n");
    }
    WrittenParsed(text, v);
  }
}
