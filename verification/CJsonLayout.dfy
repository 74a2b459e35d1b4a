/**
Where cJSON_Print of tools/cJSON/cJSON.c puts blanks: the formatted text is the unformatted one with blanks
put in by a rule that looks at one mark at a time.
*/
module CJsonLayout {
  import opened CBuffer
  import opened CJson
  import opened CJsonRoundTrip
  import opened Utf8

  /** So many tabs; none for a negative number. */
  function Deep(n: int): (t: string)
    ensures |t| == (if n > 0 then n else 0) && forall i | 0 <= i < |t| :: t[i] == '\t'
  {
    if n > 0 then seq(n, _ => '\t') else ""
  }

  /** One container for each level, true for objects. A member starts a line, one tab in for each level; so does
      the closing brace, at the level outside, or one further out if the object is empty. Elements have a blank
      between them, and names a tab behind their colon. Literals stay as they are. */
  function Spread(s: string, levels: seq<bool>): string
    decreases |s|
  {
    if s == "" then ""
    else
      var n, rest := |levels|, s[1..];
      match s[0]
      case '\"' => "\"" + SpreadLiteral(rest, levels)
      case '{' =>
        if At(rest) == '}' then "{\n" + Deep(n - 1) + "}" + Spread(rest[1..], levels)
        else "{\n" + Deep(n + 1) + Spread(rest, levels + [true])
      case '}' => "\n" + Deep(n - 1) + "}" + Spread(rest, Outer(levels))
      case '[' => "[" + Spread(rest, levels + [false])
      case ']' => "]" + Spread(rest, Outer(levels))
      case ',' => (if levels != [] && levels[n - 1] then ",\n" + Deep(n) else ", ") + Spread(rest, levels)
      case ':' => ":\t" + Spread(rest, levels)
      case c => [c] + Spread(rest, levels)
  }

  /** From inside a literal on. */
  function SpreadLiteral(s: string, levels: seq<bool>): string
    decreases |s|
  {
    if s == "" then ""
    else if s[0] == '\"' then "\"" + Spread(s[1..], levels)
    else if s[0] == '\\' && |s| > 1 then s[..2] + SpreadLiteral(s[2..], levels)
    else [s[0]] + SpreadLiteral(s[1..], levels)
  }

  function Outer(levels: seq<bool>): seq<bool> { if levels == [] then [] else levels[..|levels| - 1] }

  // ----- Pieces -----

  lemma {:induction false} DeepIsTabs(n: nat)
    ensures Deep(n) == Tabs(n)
  {
    if n > 0 {
      DeepIsTabs(n - 1);
      assert Deep(n) == "\t" + Deep(n - 1);
    }
  }

  lemma DeepIsIndent(n: int)
    ensures Deep(n) == Indent(n, true) && Indent(n, false) == ""
  {
    if n > 0 { DeepIsTabs(n); }
  }

  predicate Plain(t: string) { forall i | 0 <= i < |t| :: t[i] !in "\"{}[],:" }

  lemma {:induction false} SpreadPlain(t: string, rest: string, levels: seq<bool>)
    requires Plain(t)
    ensures Spread(t + rest, levels) == t + Spread(rest, levels)
  {
    if t == "" {
      assert t + rest == rest && "" + Spread(rest, levels) == Spread(rest, levels);
    } else {
      assert (t + rest)[1..] == t[1..] + rest;
      SpreadPlain(t[1..], rest, levels);
      assert [t[0]] + (t[1..] + Spread(rest, levels)) == t + Spread(rest, levels);
    }
  }

  lemma {:induction false} LiteralPlain(t: string, rest: string, levels: seq<bool>)
    requires forall i | 0 <= i < |t| :: t[i] != '\"' && t[i] != '\\'
    ensures SpreadLiteral(t + rest, levels) == t + SpreadLiteral(rest, levels)
  {
    if t == "" {
      assert t + rest == rest && "" + SpreadLiteral(rest, levels) == SpreadLiteral(rest, levels);
    } else {
      assert (t + rest)[1..] == t[1..] + rest;
      LiteralPlain(t[1..], rest, levels);
      assert [t[0]] + (t[1..] + SpreadLiteral(rest, levels)) == t + SpreadLiteral(rest, levels);
    }
  }

  lemma LiteralChar(c: char, rest: string, levels: seq<bool>)
    ensures SpreadLiteral(EscapeChar(c) + rest, levels) == EscapeChar(c) + SpreadLiteral(rest, levels)
  {
    var e := EscapeChar(c);
    var s := e + rest;
    if |e| == 1 {
      assert s[1..] == rest;
    } else {
      assert s[..2] == e[..2] && s[2..] == e[2..] + rest;
      LiteralPlain(e[2..], rest, levels);
      assert e[..2] + (e[2..] + SpreadLiteral(rest, levels)) == e + SpreadLiteral(rest, levels);
    }
  }

  lemma {:induction false} LiteralEscape(str: string, rest: string, levels: seq<bool>)
    ensures SpreadLiteral(Escape(str) + ("\"" + rest), levels) == Escape(str) + ("\"" + Spread(rest, levels))
  {
    if str == "" {
      assert Escape(str) + ("\"" + rest) == "\"" + rest && ("\"" + rest)[1..] == rest;
      assert Escape(str) + ("\"" + Spread(rest, levels)) == "\"" + Spread(rest, levels);
    } else {
      var e, tail := EscapeChar(str[0]), Escape(str[1..]);
      LiteralEscape(str[1..], rest, levels);
      LiteralChar(str[0], tail + ("\"" + rest), levels);
      hide EscapeChar, Escape, Spread, SpreadLiteral;
      EscapeFirst(str);
      Nest2(e, tail, "\"" + rest);
      Nest2(e, tail, "\"" + Spread(rest, levels));
    }
  }

  lemma EscapeFirst(str: string)
    requires str != ""
    ensures Escape(str) == EscapeChar(str[0]) + Escape(str[1..])
  {
  }

  lemma SpreadQuote(str: string, rest: string, levels: seq<bool>)
    ensures Spread(Quote(str) + rest, levels) == Quote(str) + Spread(rest, levels)
  {
    var e := Escape(str);
    LiteralEscape(str, rest, levels);
    Nest3("\"", e, "\"", rest);
    Nest3("\"", e, "\"", Spread(rest, levels));
    QuoteOpens(e + ("\"" + rest), levels);
    hide Escape, Spread, SpreadLiteral;
  }

  lemma QuoteOpens(text: string, levels: seq<bool>)
    ensures Spread("\"" + text, levels) == "\"" + SpreadLiteral(text, levels)
  {
    assert ("\"" + text)[1..] == text;
  }

  lemma Nest2(a: string, b: string, c: string)
    ensures a + b + c == a + (b + c)
  {
  }

  lemma {:induction false} PlainDecimal(n: nat)
    ensures Plain(Decimal(n))
  {
    if n >= 10 {
      PlainDecimal(n / 10);
    }
  }

  // ----- Values -----

  lemma {:induction false} SpreadValue(j: Json, levels: seq<bool>, rest: string)
    requires Printable(j)
    ensures Spread(Print(j, |levels|, false) + rest, levels) == Print(j, |levels|, true) + Spread(rest, levels)
    decreases j, 1
  {
    match j
    case String(s) => SpreadQuote(s, rest, levels);
    case Number(m, _) =>
      PlainDecimal(if m < 0 then -m else m);
      SpreadPlain(PrintInt(m), rest, levels);
    case Array(items) => SpreadArray(items, levels, rest);
    case Object(ms) => SpreadObject(ms, levels, rest);
    case _ => SpreadPlain(Print(j, |levels|, false), rest, levels);
  }

  lemma {:induction false} SpreadArray(items: seq<Json>, levels: seq<bool>, rest: string)
    requires PrintableItems(items)
    ensures Spread(Print(Array(items), |levels|, false) + rest, levels) == Print(Array(items), |levels|, true) + Spread(rest, levels)
    decreases items, 3
  {
    hide PrintItems;
    var n, inner := |levels|, levels + [false];
    var body, body' := PrintItems(items, n + 1, false), PrintItems(items, n + 1, true);
    SpreadItems(items, inner, "]" + rest);
    assert Outer(inner) == levels && ("]" + rest)[1..] == rest;
    Nest3("[", body, "]", rest);
    assert ("[" + (body + ("]" + rest)))[1..] == body + ("]" + rest);
    Nest3("[", body', "]", Spread(rest, levels));
  }

  lemma {:induction false} SpreadItems(items: seq<Json>, levels: seq<bool>, rest: string)
    requires PrintableItems(items) && levels != [] && !levels[|levels| - 1]
    ensures Spread(PrintItems(items, |levels|, false) + rest, levels) == PrintItems(items, |levels|, true) + Spread(rest, levels)
    decreases items, 2
  {
    var n := |levels|;
    if items == [] {
      assert "" + rest == rest && "" + Spread(rest, levels) == Spread(rest, levels);
    } else if |items| == 1 {
      SpreadValue(items[0], levels, rest);
    } else {
      hide Print;
      var tail, tail' := PrintItems(items[1..], n, false), PrintItems(items[1..], n, true);
      SpreadItems(items[1..], levels, rest);
      SpreadValue(items[0], levels, "," + (tail + rest));
      assert ("," + (tail + rest))[1..] == tail + rest;
      Nest4(Print(items[0], n, false), ",", "", tail, rest);
      assert "" + (tail + rest) == tail + rest;
      Nest4(Print(items[0], n, true), ",", " ", tail', Spread(rest, levels));
      assert "," + (" " + (tail' + Spread(rest, levels))) == ", " + (tail' + Spread(rest, levels));
    }
  }

  lemma {:induction false} SpreadObject(ms: seq<Member>, levels: seq<bool>, rest: string)
    requires PrintableMembers(ms)
    ensures Spread(Print(Object(ms), |levels|, false) + rest, levels) == Print(Object(ms), |levels|, true) + Spread(rest, levels)
    decreases ms, 5
  {
    var n := |levels|;
    DeepIsIndent(n);
    DeepIsIndent(n - 1);
    if ms == [] {
      EmptySpread(levels, rest);
      assert Print(Object(ms), n, false) == "{}" && Print(Object(ms), n, true) == "{\n" + Deep(n - 1) + "}";
    } else {
      var inner, text := levels + [true], PrintMembers(ms, n + 1, false) + ("}" + rest);
      FirstQuote(ms, n + 1);
      assert Print(Object(ms), n, false) + rest == "{" + text;
      hide Print, PrintMembers, Lined;
      OpenSpread(text, levels);
      SpreadMembers(ms, inner, rest);
      assert Outer(inner) == levels && |inner| == n + 1;
      ObjectWhole(ms, n, Spread(rest, levels));
    }
  }

  lemma EmptySpread(levels: seq<bool>, rest: string)
    ensures Spread("{}" + rest, levels) == "{\n" + Deep(|levels| - 1) + "}" + Spread(rest, levels)
  {
    var t := "}" + rest;
    assert t[1..] == rest && "{}" + rest == "{" + t;
    ClosesAtOnce(t, levels);
    hide Spread;
  }

  lemma ClosesAtOnce(t: string, levels: seq<bool>)
    requires At(t) == '}'
    ensures Spread("{" + t, levels) == "{\n" + Deep(|levels| - 1) + "}" + Spread(t[1..], levels)
  {
    assert ("{" + t)[1..] == t;
  }

  lemma OpenSpread(text: string, levels: seq<bool>)
    requires At(text) != '}'
    ensures Spread("{" + text, levels) == "{\n" + Deep(|levels| + 1) + Spread(text, levels + [true])
  {
    assert ("{" + text)[1..] == text;
  }

  lemma FirstQuote(ms: seq<Member>, n: nat)
    requires ms != []
    ensures PrintMembers(ms, n, false) != "" && PrintMembers(ms, n, false)[0] == '\"'
  {
    assert PrintMember(ms[0], n, false)[0] == '\"';
  }

  lemma ObjectWhole(ms: seq<Member>, n: nat, rest: string)
    requires ms != [] && Indent(n, true) == Deep(n)
    ensures "{\n" + Deep(n + 1) + Lined(ms, n + 1) + (Deep(n) + "}" + rest) == Print(Object(ms), n, true) + rest
  {
    DeepIsIndent(n + 1);
    LinedIs(ms, n + 1);
    hide PrintMembers, Lined;
    assert "{" + "\n" + PrintMembers(ms, n + 1, true) + Deep(n) + "}" + rest
        == "{\n" + PrintMembers(ms, n + 1, true) + (Deep(n) + "}" + rest);
    assert "{\n" + (Deep(n + 1) + Lined(ms, n + 1)) == "{\n" + Deep(n + 1) + Lined(ms, n + 1);
  }

  /** The member lines but for the tabs the first begins with. */
  function Lined(ms: seq<Member>, n: nat): string
    requires ms != []
  {
    Quote(ms[0].key) + ":\t" + Print(ms[0].value, n, true)
    + if |ms| > 1 then ",\n" + Deep(n) + Lined(ms[1..], n) else "\n"
  }

  lemma {:induction false} LinedIs(ms: seq<Member>, n: nat)
    requires ms != []
    ensures PrintMembers(ms, n, true) == Deep(n) + Lined(ms, n)
  {
    hide Print, Quote;
    DeepIsIndent(n);
    var name, value := Quote(ms[0].key), Print(ms[0].value, n, true);
    assert PrintMember(ms[0], n, true) == Deep(n) + name + ":" + "\t" + value;
    if |ms| > 1 {
      LinedIs(ms[1..], n);
      LineJoins(Deep(n), name, value, Lined(ms[1..], n));
    } else {
      LineEnds(Deep(n), name, value);
    }
  }

  lemma LineJoins(d: string, name: string, value: string, more: string)
    ensures d + name + ":" + "\t" + value + "," + "\n" + (d + more) == d + (name + ":\t" + value + (",\n" + d + more))
  {
  }

  lemma LineEnds(d: string, name: string, value: string)
    ensures d + name + ":" + "\t" + value + "" + "\n" + "" == d + (name + ":\t" + value + "\n")
  {
  }

  lemma {:induction false} SpreadMembers(ms: seq<Member>, levels: seq<bool>, rest: string)
    requires ms != [] && PrintableMembers(ms) && levels != [] && levels[|levels| - 1]
    ensures Spread(PrintMembers(ms, |levels|, false) + ("}" + rest), levels)
         == Lined(ms, |levels|) + (Deep(|levels| - 1) + "}" + Spread(rest, Outer(levels)))
    decreases ms, 4
  {
    hide Print, Quote;
    var n, end := |levels|, "}" + rest;
    var m, end' := ms[0], Deep(n - 1) + "}" + Spread(rest, Outer(levels));
    var name, value, value' := Quote(m.key), Print(m.value, n, false), Print(m.value, n, true);
    assert PrintMember(m, n, false) == name + (":" + value) by {
      assert "" + name + ":" + "" + value == name + (":" + value);
    }
    var after := if |ms| > 1 then "," + (PrintMembers(ms[1..], n, false) + end) else end;
    MembersText(ms, n, end);
    SpreadQuote(m.key, ":" + (value + after), levels);
    assert (":" + (value + after))[1..] == value + after;
    SpreadValue(m.value, levels, after);
    assert after[1..] == if |ms| > 1 then PrintMembers(ms[1..], n, false) + end else rest;
    if |ms| > 1 {
      SpreadMembers(ms[1..], levels, rest);
      LineThen(name, value', Deep(n), Lined(ms[1..], n), end');
    } else {
      LastThen(name, value', Deep(n - 1), Spread(rest, Outer(levels)));
    }
  }

  lemma MembersText(ms: seq<Member>, n: nat, end: string)
    requires ms != []
    ensures var name, value := Quote(ms[0].key), Print(ms[0].value, n, false);
            var after := if |ms| > 1 then "," + (PrintMembers(ms[1..], n, false) + end) else end;
            PrintMembers(ms, n, false) + end == name + (":" + (value + after))
  {
    hide Print, Quote;
    var name, value := Quote(ms[0].key), Print(ms[0].value, n, false);
    var more := PrintMembers(ms[1..], n, false);
    if |ms| > 1 {
      assert "" + name + ":" + "" + value + "," + "" + more + end == name + (":" + (value + ("," + (more + end))));
    } else {
      assert more == "";
      assert "" + name + ":" + "" + value + "" + "" + "" + end == name + (":" + (value + end));
    }
  }

  lemma LineThen(name: string, value: string, d: string, more: string, end: string)
    ensures name + (":\t" + (value + (",\n" + d + (more + end)))) == name + ":\t" + value + (",\n" + d + more) + end
  {
  }

  lemma LastThen(name: string, value: string, d: string, rest: string)
    ensures name + (":\t" + (value + ("\n" + d + "}" + rest))) == name + ":\t" + value + "\n" + (d + "}" + rest)
  {
  }

  /** The formatted text of a tree is the unformatted one, spread. */
  lemma FormattedIsSpread(j: Json)
    requires Printable(j)
    ensures Print(j, 0, true) == Spread(Print(j, 0, false), [])
  {
    SpreadValue(j, [], "");
    assert Print(j, 0, false) + "" == Print(j, 0, false) && Print(j, 0, true) + "" == Print(j, 0, true);
  }
}
