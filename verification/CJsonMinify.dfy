/**
cJSON_Minify: the text without blanks and comments, computed in place, and the
bridge it makes between the two print modes.
*/
module CJsonMinify {
  import opened CBuffer
  import opened CJson
  import opened CJsonRoundTrip
  import opened Utf8

  /** The text that is left, or running past the terminator (unterminated string or comment). */
  datatype Minified = Rest(t: string) | PastEnd

  function Cat(t: string, m: Minified): Minified {
    if m.Rest? then Rest(t + m.t) else m
  }

  predicate IsSpace(c: char) { c == ' ' || c == '\t' || c == '\r' || c == '\n' }

  function SkipLine(s: string): (r: string)
    ensures |r| <= |s|
  {
    if At(s) != '\0' && s[0] != '\n' then SkipLine(s[1..]) else s
  }

  function SkipBlock(s: string): (r: string)
    ensures |r| <= |s|
    ensures At(r) != '\0' ==> |r| >= 2
  {
    if At(s) != '\0' && !(s[0] == '*' && At(s[1..]) == '/') then SkipBlock(s[1..]) else s
  }

  function Minify(s: string): Minified
    decreases |s|
  {
    if At(s) == '\0' then Rest("")
    else if IsSpace(s[0]) then Minify(s[1..])
    else if s[0] == '/' && At(s[1..]) == '/' then Minify(SkipLine(s[2..]))
    else if s[0] == '/' && At(s[1..]) == '*' then
      var close := SkipBlock(s[1..]);
      if At(close) == '\0' then PastEnd else Minify(close[2..])
    else if s[0] == '\"' then Cat("\"", CopyString(s[1..]))
    else Cat([s[0]], Minify(s[1..]))
  }

  /** From inside a string literal: copied up to the closing quote, then on as usual. */
  function CopyString(s: string): Minified
    decreases |s|
  {
    if At(s) == '\0' then PastEnd
    else if s[0] == '\"' then Cat("\"", Minify(s[1..]))
    else if s[0] == '\\' then
      if At(s[1..]) == '\0' then PastEnd else Cat(s[..2], CopyString(s[2..]))
    else Cat([s[0]], CopyString(s[1..]))
  }

  // ----- Minify on printed text -----

  lemma CatCat(a: string, b: string, m: Minified)
    ensures Cat(a, Cat(b, m)) == Cat(a + b, m)
  {
    assert m.Rest? ==> a + (b + m.t) == a + b + m.t;
  }

  predicate Spaces(b: string) { forall i | 0 <= i < |b| :: IsSpace(b[i]) }

  lemma {:induction false} MinifySpaces(b: string, rest: string)
    requires Spaces(b)
    ensures Minify(b + rest) == Minify(rest)
  {
    if b == "" {
      assert b + rest == rest;
    } else {
      MinifySpaces(b[1..], rest);
      assert (b + rest)[1..] == b[1..] + rest;
    }
  }

  lemma {:induction false} SpacesIndent(n: int, fmt: bool)
    ensures Spaces(Indent(n, fmt))
    decreases n
  {
    if fmt && n > 0 {
      SpacesIndent(n - 1, fmt);
      assert Tabs(n) == "\t" + Indent(n - 1, fmt);
    }
  }

  predicate Plain(t: string) {
    forall i | 0 <= i < |t| :: t[i] as int > 32 && t[i] != '/' && t[i] != '\"'
  }

  lemma {:induction false} MinifyPlain(t: string, rest: string)
    requires Plain(t)
    ensures Minify(t + rest) == Cat(t, Minify(rest))
  {
    if t == "" {
      assert t + rest == rest;
      assert Minify(rest).Rest? ==> "" + Minify(rest).t == Minify(rest).t;
    } else {
      MinifyPlain(t[1..], rest);
      assert (t + rest)[1..] == t[1..] + rest;
      CatCat([t[0]], t[1..], Minify(rest));
      assert [t[0]] + t[1..] == t;
    }
  }

  lemma CopyEscapeChar(c: char, rest: string)
    requires c != '\0'
    ensures CopyString(EscapeChar(c) + rest) == Cat(EscapeChar(c), CopyString(rest))
  {
    var e := EscapeChar(c);
    var s := e + rest;
    if |e| == 1 {
      assert s[1..] == rest;
    } else if |e| == 2 {
      assert s[..2] == e && s[2..] == rest;
    } else {
      var h := HexDigits(c);
      assert e == "\\u" + h;
      assert s[..2] == "\\u" && s[2..] == h + rest;
      CopyPlain(h, rest);
      CatCat("\\u", h, CopyString(rest));
    }
  }

  function HexDigits(c: char): string { "00" + Utf8.HexByte(c as int % 256) }

  lemma {:induction false} CopyPlain(t: string, rest: string)
    requires forall i | 0 <= i < |t| :: t[i] != '\0' && t[i] != '\"' && t[i] != '\\'
    ensures CopyString(t + rest) == Cat(t, CopyString(rest))
  {
    if t == "" {
      assert t + rest == rest;
      assert CopyString(rest).Rest? ==> "" + CopyString(rest).t == CopyString(rest).t;
    } else {
      CopyPlain(t[1..], rest);
      assert (t + rest)[1..] == t[1..] + rest;
      CatCat([t[0]], t[1..], CopyString(rest));
      assert [t[0]] + t[1..] == t;
    }
  }

  lemma {:induction false} CopyEscape(str: string, rest: string)
    requires NulFree(str)
    ensures CopyString(Escape(str) + ("\"" + rest)) == Cat(Escape(str) + "\"", Minify(rest))
  {
    if str == "" {
      assert Escape(str) + ("\"" + rest) == "\"" + rest;
      assert ("\"" + rest)[1..] == rest;
      assert Escape(str) + "\"" == "\"";
    } else {
      var e, tail := EscapeChar(str[0]), Escape(str[1..]);
      CopyEscape(str[1..], rest);
      CopyEscapeChar(str[0], tail + ("\"" + rest));
      assert Escape(str) + ("\"" + rest) == e + (tail + ("\"" + rest));
      CatCat(e, tail + "\"", Minify(rest));
      assert e + (tail + "\"") == Escape(str) + "\"";
    }
  }

  lemma MinifyQuote(str: string, rest: string)
    requires NulFree(str)
    ensures Minify(Quote(str) + rest) == Cat(Quote(str), Minify(rest))
  {
    var s := Quote(str) + rest;
    assert s[1..] == Escape(str) + ("\"" + rest);
    CopyEscape(str, rest);
    CatCat("\"", Escape(str) + "\"", Minify(rest));
    assert "\"" + (Escape(str) + "\"") == Quote(str);
  }

  lemma {:induction false} PlainDecimal(n: nat)
    ensures Plain(Decimal(n))
  {
    if n >= 10 {
      PlainDecimal(n / 10);
    }
  }

  /** Minifying a printed value leaves its unformatted print, whatever comes after it. */
  lemma {:induction false} MinifyValue(j: Json, depth: nat, depth': nat, fmt: bool, rest: string)
    requires Printable(j)
    ensures Minify(Print(j, depth, fmt) + rest) == Cat(Print(j, depth', false), Minify(rest))
    decreases j, 1
  {
    match j
    case String(s) => MinifyQuote(s, rest);
    case Number(m, _) =>
      PlainDecimal(if m < 0 then -m else m);
      MinifyPlain(PrintInt(m), rest);
    case Array(items) =>
      var close := "]" + rest;
      Nest3("[", PrintItems(items, depth + 1, fmt), "]", rest);
      MinifyPlain("[", PrintItems(items, depth + 1, fmt) + close);
      MinifyItems(items, depth + 1, depth' + 1, fmt, close);
      MinifyPlain("]", rest);
      CatCat(PrintItems(items, depth' + 1, false), "]", Minify(rest));
      CatCat("[", PrintItems(items, depth' + 1, false) + "]", Minify(rest));
      assert "[" + (PrintItems(items, depth' + 1, false) + "]") == Print(j, depth', false);
    case Object(ms) => MinifyObject(ms, depth, depth', fmt, rest);
    case _ => MinifyPlain(Print(j, depth, fmt), rest);
  }

  lemma {:induction false} MinifyItems(items: seq<Json>, depth: nat, depth': nat, fmt: bool, rest: string)
    requires PrintableItems(items)
    ensures Minify(PrintItems(items, depth, fmt) + rest) == Cat(PrintItems(items, depth', false), Minify(rest))
    decreases items, 0
  {
    if items == [] {
      MinifyPlain("", rest);
    } else if |items| == 1 {
      MinifyValue(items[0], depth, depth', fmt, rest);
    } else {
      var tail := PrintItems(items[1..], depth, fmt) + rest;
      var first', tail' := Print(items[0], depth', false), PrintItems(items[1..], depth', false);
      Nest4(Print(items[0], depth, fmt), ",", Space(fmt), PrintItems(items[1..], depth, fmt), rest);
      MinifyValue(items[0], depth, depth', fmt, "," + (Space(fmt) + tail));
      MinifyPlain(",", Space(fmt) + tail);
      MinifySpaces(Space(fmt), tail);
      MinifyItems(items[1..], depth, depth', fmt, rest);
      CatCat(",", tail', Minify(rest));
      CatCat(first', "," + tail', Minify(rest));
      assert first' + ("," + tail') == first' + "," + "" + tail';
    }
  }

  lemma {:induction false} MinifyObject(ms: seq<Member>, depth: nat, depth': nat, fmt: bool, rest: string)
    requires PrintableMembers(ms)
    ensures Minify(Print(Object(ms), depth, fmt) + rest) == Cat(Print(Object(ms), depth', false), Minify(rest))
    decreases ms, 4
  {
    var n := if ms == [] then depth - 1 else depth;
    var close := Indent(n, fmt) + ("}" + rest);
    var inner' := PrintMembers(ms, depth' + 1, false);
    if ms == [] {
      Nest4("{", Nl(fmt), Indent(n, fmt), "}", rest);
      assert PrintMembers(ms, depth + 1, fmt) + close == close;
    } else {
      PrintObjectText(ms, depth, fmt, rest);
    }
    MinifyPlain("{", Nl(fmt) + (PrintMembers(ms, depth + 1, fmt) + close));
    MinifySpaces(Nl(fmt), PrintMembers(ms, depth + 1, fmt) + close);
    MinifyMembers(ms, depth + 1, depth' + 1, fmt, close);
    SpacesIndent(n, fmt);
    MinifySpaces(Indent(n, fmt), "}" + rest);
    MinifyPlain("}", rest);
    CatCat(inner', "}", Minify(rest));
    CatCat("{", inner' + "}", Minify(rest));
    ObjectUnformatted(ms, depth');
  }

  lemma ObjectUnformatted(ms: seq<Member>, depth: nat)
    ensures Print(Object(ms), depth, false) == "{" + (PrintMembers(ms, depth + 1, false) + "}")
  {
    var inner := PrintMembers(ms, depth + 1, false);
    assert "{" + "" + inner + "" + "}" == "{" + (inner + "}");
    assert ms == [] ==> "{" + "" + "" + "}" == "{" + ("" + "}");
  }

  lemma {:induction false} MinifyMembers(ms: seq<Member>, depth: nat, depth': nat, fmt: bool, rest: string)
    requires PrintableMembers(ms)
    ensures Minify(PrintMembers(ms, depth, fmt) + rest) == Cat(PrintMembers(ms, depth', false), Minify(rest))
    decreases ms, 3
  {
    if ms == [] {
      MinifyPlain("", rest);
    } else {
      var comma := if |ms| > 1 then "," else "";
      var tail := PrintMembers(ms[1..], depth, fmt) + rest;
      var first', tail' := PrintMember(ms[0], depth', false), PrintMembers(ms[1..], depth', false);
      Nest4(PrintMember(ms[0], depth, fmt), comma, Nl(fmt), PrintMembers(ms[1..], depth, fmt), rest);
      MinifyMember(ms[0], depth, depth', fmt, comma + (Nl(fmt) + tail));
      MinifyPlain(comma, Nl(fmt) + tail);
      MinifySpaces(Nl(fmt), tail);
      MinifyMembers(ms[1..], depth, depth', fmt, rest);
      CatCat(comma, tail', Minify(rest));
      CatCat(first', comma + tail', Minify(rest));
      assert first' + (comma + tail') == first' + comma + "" + tail';
    }
  }

  lemma {:induction false} MinifyMember(m: Member, depth: nat, depth': nat, fmt: bool, rest: string)
    requires NulFree(m.key) && Printable(m.value)
    ensures Minify(PrintMember(m, depth, fmt) + rest) == Cat(PrintMember(m, depth', false), Minify(rest))
    decreases m, 2
  {
    var value, value' := Print(m.value, depth, fmt) + rest, Print(m.value, depth', false);
    Nest5(Indent(depth, fmt), Quote(m.key), ":", Tab(fmt), Print(m.value, depth, fmt), rest);
    SpacesIndent(depth, fmt);
    MinifySpaces(Indent(depth, fmt), Quote(m.key) + (":" + (Tab(fmt) + value)));
    MinifyQuote(m.key, ":" + (Tab(fmt) + value));
    MinifyPlain(":", Tab(fmt) + value);
    MinifySpaces(Tab(fmt), value);
    MinifyValue(m.value, depth, depth', fmt, rest);
    CatCat(":", value', Minify(rest));
    CatCat(Quote(m.key), ":" + value', Minify(rest));
    MemberUnformatted(m, depth');
  }

  lemma MemberUnformatted(m: Member, depth: nat)
    ensures PrintMember(m, depth, false) == Quote(m.key) + (":" + Print(m.value, depth, false))
  {
    var key, value := Quote(m.key), Print(m.value, depth, false);
    assert "" + key + ":" + "" + value == key + (":" + value);
  }

  /** The bridge: minifying cJSON_Print's text gives cJSON_PrintUnformatted's, byte for byte. */
  lemma MinifyPrint(j: Json, fmt: bool)
    requires Printable(j)
    ensures Minify(Print(j, 0, fmt)) == Rest(Print(j, 0, false))
  {
    MinifyValue(j, 0, 0, fmt, "");
    assert Print(j, 0, fmt) + "" == Print(j, 0, fmt) && Print(j, 0, false) + "" == Print(j, 0, false);
  }

  // ----- The in-place loop -----

  lemma CopyStep(out: string, s: string, i: nat)
    requires i < |s| && s[i] != '\0' && s[i] != '\"'
    ensures s[i] != '\\' ==> Cat(out, CopyString(s[i..])) == Cat(out + [s[i]], CopyString(s[i + 1..]))
    ensures s[i] == '\\' && i + 1 < |s| && s[i + 1] != '\0' ==>
              Cat(out, CopyString(s[i..])) == Cat(out + [s[i]] + [s[i + 1]], CopyString(s[i + 2..]))
    ensures s[i] == '\\' && i + 1 == |s| ==> CopyString(s[i..]) == PastEnd
  {
    var rest := s[i..];
    assert rest[1..] == s[i + 1..];
    if s[i] != '\\' {
      CatCat(out, [s[i]], CopyString(s[i + 1..]));
    } else if i + 1 < |s| && s[i + 1] != '\0' {
      assert rest[2..] == s[i + 2..] && rest[..2] == [s[i]] + [s[i + 1]];
      CatCat(out, [s[i]] + [s[i + 1]], CopyString(s[i + 2..]));
      assert out + ([s[i]] + [s[i + 1]]) == out + [s[i]] + [s[i + 1]];
    }
  }

  lemma QuoteStep(out: string, s: string, i: nat)
    requires i < |s| && s[i] == '\"'
    ensures Cat(out, CopyString(s[i..])) == Cat(out + [s[i]], Minify(s[i + 1..]))
  {
    assert s[i..][1..] == s[i + 1..];
    CatCat(out, [s[i]], Minify(s[i + 1..]));
  }

  lemma MinifyEnds(s: string)
    ensures Minify("") == Rest("") && CopyString("") == PastEnd
    ensures Minify(s) == Cat("", Minify(s[0..])) && s[|s|..] == ""
  {
    assert s[0..] == s && (Minify(s).Rest? ==> "" + Minify(s).t == Minify(s).t);
  }

  /** One turn of the main loop, branch by branch. */
  lemma MinifyStep(out: string, s: string, i: nat)
    requires i < |s| && NulFree(s)
    ensures var next := if i + 1 < |s| then s[i + 1] else '\0';
            if IsSpace(s[i]) then Minify(s[i..]) == Minify(s[i + 1..])
            else if s[i] == '/' && next == '/' then Minify(s[i..]) == Minify(SkipLine(s[i + 2..]))
            else if s[i] == '/' && next == '*' then
              var close := SkipBlock(s[i + 1..]);
              Minify(s[i..]) == if |close| < 2 then PastEnd else Minify(close[2..])
            else if s[i] == '\"' then Cat(out, Minify(s[i..])) == Cat(out + [s[i]], CopyString(s[i + 1..]))
            else Cat(out, Minify(s[i..])) == Cat(out + [s[i]], Minify(s[i + 1..]))
  {
    var rest := s[i..];
    assert rest[1..] == s[i + 1..];
    assert i + 1 < |s| ==> rest[2..] == s[i + 2..] && rest[1] == s[i + 1];
    BlockNulFree(s[i + 1..]);
    CatCat(out, [s[i]], CopyString(s[i + 1..]));
    CatCat(out, [s[i]], Minify(s[i + 1..]));
  }

  lemma {:induction false} BlockNulFree(s: string)
    requires NulFree(s)
    ensures SkipBlock(s) == "" || At(SkipBlock(s)) != '\0'
  {
    if s != "" {
      BlockNulFree(s[1..]);
    }
  }

  /** The string-literal branch, entered after the opening quote has been copied. */
  method CopyLiteral(a: array<char>, n: nat, ghost s: string, from: nat, to: nat, ghost out: string)
    returns (ok: bool, json: nat, into: nat, ghost out': string)
    requires to <= from <= n < a.Length && a[n] == '\0'
    requires |s| == n && NulFree(s) && forall k | from <= k < n :: a[k] == s[k]
    requires |out| == to && Written(a, out)
    modifies a
    ensures into <= json <= n && |out'| == into && Written(a, out')
    ensures forall k | json <= k < a.Length :: a[k] == old(a[k])
    ensures !ok ==> CopyString(s[from..]) == PastEnd
    ensures ok ==> json > from && Cat(out, CopyString(s[from..])) == Cat(out', Minify(s[json..]))
  {
    hide CopyString, Minify;
    json, into, out' := from, to, out;
    while a[json] != '\0' && a[json] != '\"'
      invariant from <= json && into <= json <= n
      invariant forall k | json <= k < a.Length :: a[k] == old(a[k])
      invariant |out'| == into && Written(a, out')
      invariant Cat(out, CopyString(s[from..])) == Cat(out', CopyString(s[json..]))
      decreases n - json
    {
      CopyStep(out', s, json);
      if a[json] == '\\' {
        if a[json + 1] == '\0' { return false, json, into, out'; }
        out' := Put(a, into, a[json], out');
        json, into := json + 1, into + 1;
      }
      out' := Put(a, into, a[json], out');
      json, into := json + 1, into + 1;
    }
    if a[json] == '\0' { MinifyEnds(s); return false, json, into, out'; }
    QuoteStep(out', s, json);
    out' := Put(a, into, a[json], out');
    return true, json + 1, into + 1, out';
  }

  /** Reading `json` and writing `into` the same buffer, whose text ends at the terminator `a[n]`.
      Returns false where the C code would read or write past that terminator. */
  method MinifyInPlace(a: array<char>, n: nat) returns (ok: bool)
    requires n < a.Length && a[n] == '\0' && NulFree(a[..n])
    modifies a
    ensures ok <==> Minify(old(a[..n])).Rest?
    ensures ok ==> var t := Minify(old(a[..n])).t; |t| <= n && a[..|t| + 1] == t + ['\0']
    ensures a[n + 1..] == old(a[n + 1..])
  {
    hide Minify, CopyString, SkipLine, SkipBlock;
    ghost var s, out := a[..n], "";
    var json, into := 0, 0;
    MinifyEnds(s);
    while a[json] != '\0'
      invariant into <= json <= n  // the write pointer never passes the read pointer
      invariant forall k | json <= k < a.Length :: a[k] == old(a[k])
      invariant |out| == into && Written(a, out)
      invariant Minify(s) == Cat(out, Minify(s[json..]))
      decreases n - json
    {
      MinifyStep(out, s, json);
      if IsSpace(a[json]) {
        json := json + 1;
      } else if a[json] == '/' && a[json + 1] == '/' {
        json := EndOfLine(a, n, s, json + 2);
      } else if a[json] == '/' && a[json + 1] == '*' {
        json := EndOfBlock(a, n, s, json + 1);
        if a[json] == '\0' { return false; }
        json := json + 2;
      } else if a[json] == '\"' {
        out := Put(a, into, a[json], out);
        ok, json, into, out := CopyLiteral(a, n, s, json + 1, into + 1, out);
        if !ok { return; }
      } else {
        out := Put(a, into, a[json], out);
        json, into := json + 1, into + 1;
      }
    }
    a[into] := '\0';
    ok := true;
  }

  method EndOfLine(a: array<char>, n: nat, ghost s: string, from: nat) returns (json: nat)
    requires from <= n < a.Length && a[n] == '\0'
    requires |s| == n && NulFree(s) && forall k | from <= k < n :: a[k] == s[k]
    ensures from <= json <= n && s[json..] == SkipLine(s[from..])
  {
    json := from;
    while a[json] != '\0' && a[json] != '\n'
      invariant from <= json <= n
      invariant SkipLine(s[json..]) == SkipLine(s[from..])
      decreases n - json
    {
      json := json + 1;
    }
  }

  method EndOfBlock(a: array<char>, n: nat, ghost s: string, from: nat) returns (json: nat)
    requires from <= n < a.Length && a[n] == '\0'
    requires |s| == n && NulFree(s) && forall k | from <= k < n :: a[k] == s[k]
    ensures from <= json <= n && s[json..] == SkipBlock(s[from..])
    ensures a[json] != '\0' ==> json + 2 <= n
  {
    json := from;
    while a[json] != '\0' && !(a[json] == '*' && a[json + 1] == '/')
      invariant from <= json <= n
      invariant SkipBlock(s[json..]) == SkipBlock(s[from..])
      decreases n - json
    {
      json := json + 1;
    }
  }
}
