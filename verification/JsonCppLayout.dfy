/**
Where StyledWriter of tools/jsoncpp/json_writer.cpp puts blanks and ends of lines: its text is FastWriter's with
blanks put in by a rule that looks at one mark at a time.
*/
module JsonCppLayout {
  import opened JsonCpp
  import opened JsonCppWriter
  import opened JsonCppStyled
  import opened Utf8

  /** What a mark stands in: an object, an array of which each element has its line, or an array on one line. */
  datatype Level = Braces | Lines | OneLine

  /** Three blanks for each level. */
  function Margin(n: int): (t: string)
    ensures |t| == (if n > 0 then 3 * n else 0) && forall i | 0 <= i < |t| :: t[i] == ' '
  {
    if n > 0 then seq(3 * n, _ => ' ') else ""
  }

  function At(s: string): char { if s == "" then '\0' else s[0] }

  function Outer(levels: seq<Level>): seq<Level> { if levels == [] then [] else levels[..|levels| - 1] }

  predicate InRow(levels: seq<Level>) { levels != [] && levels[|levels| - 1] == OneLine }

  /** Members, and elements that have a line each, start a line at the margin of their level, closing marks at the
      margin outside. An array on one line has a blank inside each bracket and behind each comma. A colon has a blank
      on either side. Nothing is put into empty containers and literals. For each array that is not empty, in the
      order of their brackets, `plan` says whether its elements have a line each. */
  function Spread(s: string, levels: seq<Level>, plan: seq<bool>): string
    decreases |s|
  {
    if s == "" then ""
    else
      var n, rest := |levels|, s[1..];
      match s[0]
      case '\"' => "\"" + SpreadLiteral(rest, levels, plan)
      case '{' =>
        if At(rest) == '}' then "{}" + Spread(rest[1..], levels, plan)
        else "{\n" + Margin(n + 1) + Spread(rest, levels + [Braces], plan)
      case '}' => "\n" + Margin(n - 1) + "}" + Spread(rest, Outer(levels), plan)
      case '[' =>
        if At(rest) == ']' then "[]" + Spread(rest[1..], levels, plan)
        else if plan != [] && plan[0] then "[\n" + Margin(n + 1) + Spread(rest, levels + [Lines], plan[1..])
        else "[ " + Spread(rest, levels + [OneLine], if plan == [] then [] else plan[1..])
      case ']' => (if InRow(levels) then " ]" else "\n" + Margin(n - 1) + "]") + Spread(rest, Outer(levels), plan)
      case ',' => (if InRow(levels) then ", " else ",\n" + Margin(n)) + Spread(rest, levels, plan)
      case ':' => " : " + Spread(rest, levels, plan)
      case c => [c] + Spread(rest, levels, plan)
  }

  /** From inside a literal on. */
  function SpreadLiteral(s: string, levels: seq<Level>, plan: seq<bool>): string
    decreases |s|
  {
    if s == "" then ""
    else if s[0] == '\"' then "\"" + Spread(s[1..], levels, plan)
    else if s[0] == '\\' && |s| > 1 then s[..2] + SpreadLiteral(s[2..], levels, plan)
    else [s[0]] + SpreadLiteral(s[1..], levels, plan)
  }

  /** Elements have a line each if a container with something in it is among them, if there are 25 of them, or if
      the line they would share would have 74 characters. */
  predicate Broken(items: seq<Value>) {
    || (exists i | 0 <= i < |items| :: (items[i].Array? && items[i].items != []) || (items[i].Object? && items[i].members != []))
    || |items| >= 25
    || |Fast(Array(items))| + |items| + 1 >= 74
  }

  function Plan(v: Value): seq<bool>
    decreases v, 1
  {
    match v
    case Array(items) => if items == [] then [] else [Broken(items)] + ItemPlans(items)
    case Object(ms) => MemberPlans(ms)
    case _ => []
  }

  function ItemPlans(items: seq<Value>): seq<bool>
    decreases items, 0
  {
    if items == [] then [] else Plan(items[0]) + ItemPlans(items[1..])
  }

  function MemberPlans(ms: seq<Member>): seq<bool>
    decreases ms, 0
  {
    if ms == [] then [] else Plan(ms[0].value) + MemberPlans(ms[1..])
  }

  predicate Unmarked(t: string) { forall i | 0 <= i < |t| :: t[i] !in "\"{}[],:" }

  /** No real is written as nothing, or with a mark of the notation in it. */
  predicate PlainReals(v: Value) {
    match v
    case Real(text) => text != "" && Unmarked(text)
    case Array(items) => PlainItems(items)
    case Object(ms) => PlainMembers(ms)
    case _ => true
  }

  predicate PlainItems(items: seq<Value>) { forall i | 0 <= i < |items| :: PlainReals(items[i]) }

  predicate PlainMembers(ms: seq<Member>) { forall i | 0 <= i < |ms| :: PlainReals(ms[i].value) }

  // ----- Pieces -----

  lemma {:induction false} SpreadUnmarked(t: string, rest: string, levels: seq<Level>, plan: seq<bool>)
    requires Unmarked(t)
    ensures Spread(t + rest, levels, plan) == t + Spread(rest, levels, plan)
  {
    if t == "" {
      assert t + rest == rest && "" + Spread(rest, levels, plan) == Spread(rest, levels, plan);
    } else {
      assert (t + rest)[1..] == t[1..] + rest;
      SpreadUnmarked(t[1..], rest, levels, plan);
      assert [t[0]] + (t[1..] + Spread(rest, levels, plan)) == t + Spread(rest, levels, plan);
    }
  }

  lemma {:induction false} LiteralUnmarked(t: string, rest: string, levels: seq<Level>, plan: seq<bool>)
    requires forall i | 0 <= i < |t| :: t[i] != '\"' && t[i] != '\\'
    ensures SpreadLiteral(t + rest, levels, plan) == t + SpreadLiteral(rest, levels, plan)
  {
    if t == "" {
      assert t + rest == rest && "" + SpreadLiteral(rest, levels, plan) == SpreadLiteral(rest, levels, plan);
    } else {
      assert (t + rest)[1..] == t[1..] + rest;
      LiteralUnmarked(t[1..], rest, levels, plan);
      assert [t[0]] + (t[1..] + SpreadLiteral(rest, levels, plan)) == t + SpreadLiteral(rest, levels, plan);
    }
  }

  lemma LiteralChar(c: char, rest: string, levels: seq<Level>, plan: seq<bool>)
    ensures SpreadLiteral(EscapeChar(c) + rest, levels, plan) == EscapeChar(c) + SpreadLiteral(rest, levels, plan)
  {
    var e := EscapeChar(c);
    var s := e + rest;
    if |e| == 1 {
      assert s[1..] == rest;
    } else {
      assert s[..2] == e[..2] && s[2..] == e[2..] + rest;
      LiteralUnmarked(e[2..], rest, levels, plan);
      assert e[..2] + (e[2..] + SpreadLiteral(rest, levels, plan)) == e + SpreadLiteral(rest, levels, plan);
    }
  }

  lemma {:induction false} LiteralEscape(str: string, rest: string, levels: seq<Level>, plan: seq<bool>)
    ensures SpreadLiteral(Escape(str) + ("\"" + rest), levels, plan) == Escape(str) + ("\"" + Spread(rest, levels, plan))
  {
    if str == "" {
      assert Escape(str) + ("\"" + rest) == "\"" + rest && ("\"" + rest)[1..] == rest;
      assert Escape(str) + ("\"" + Spread(rest, levels, plan)) == "\"" + Spread(rest, levels, plan);
    } else {
      var e, tail := EscapeChar(str[0]), Escape(str[1..]);
      LiteralEscape(str[1..], rest, levels, plan);
      LiteralChar(str[0], tail + ("\"" + rest), levels, plan);
      EscapeFirst(str);
      hide EscapeChar, Escape, Spread, SpreadLiteral;
      Apart2(e, tail, "\"" + rest);
      Apart2(e, tail, "\"" + Spread(rest, levels, plan));
    }
  }

  lemma EscapeFirst(str: string)
    requires str != ""
    ensures Escape(str) == EscapeChar(str[0]) + Escape(str[1..])
  {
  }

  lemma SpreadQuote(str: string, rest: string, levels: seq<Level>, plan: seq<bool>)
    ensures Spread(Quote(str) + rest, levels, plan) == Quote(str) + Spread(rest, levels, plan)
  {
    var e := Escape(str);
    LiteralEscape(str, rest, levels, plan);
    Apart3("\"", e, "\"", rest);
    Apart3("\"", e, "\"", Spread(rest, levels, plan));
    QuoteOpens(e + ("\"" + rest), levels, plan);
    hide Escape, Spread, SpreadLiteral;
  }

  lemma QuoteOpens(text: string, levels: seq<Level>, plan: seq<bool>)
    ensures Spread("\"" + text, levels, plan) == "\"" + SpreadLiteral(text, levels, plan)
  {
    assert ("\"" + text)[1..] == text;
  }

  lemma Apart2(a: string, b: string, c: string)
    ensures a + b + c == a + (b + c)
  {
  }

  lemma Apart3(a: string, b: string, c: string, d: string)
    ensures a + b + c + d == a + (b + (c + d))
  {
  }

  lemma {:induction false} DecimalUnmarked(n: nat)
    ensures Unmarked(Decimal(n))
  {
    if n >= 10 {
      DecimalUnmarked(n / 10);
    }
  }

  lemma MarginDeeper(n: nat)
    ensures Margin(n) + INDENT == Margin(n + 1)
  {
  }

  // ----- Values that nothing is nested in -----

  lemma SpreadScalar(v: Value, levels: seq<Level>, plan: seq<bool>, rest: string)
    requires PlainReals(v) && !v.Array? && !v.Object?
    ensures Spread(Scalar(v) + rest, levels, plan) == Scalar(v) + Spread(rest, levels, plan)
  {
    match v
    case String(s) => SpreadQuote(s, rest, levels, plan);
    case Int(i) =>
      DecimalUnmarked(if i < 0 then -i else i);
      SpreadUnmarked(Scalar(v), rest, levels, plan);
    case UInt(u) =>
      DecimalUnmarked(u);
      SpreadUnmarked(Scalar(v), rest, levels, plan);
    case Real(text) => SpreadUnmarked(text, rest, levels, plan);
    case Bool(_) => SpreadUnmarked(Scalar(v), rest, levels, plan);
    case Null => SpreadUnmarked("null", rest, levels, plan);
  }

  lemma EmptySpread(levels: seq<Level>, plan: seq<bool>, rest: string)
    ensures Spread("[]" + rest, levels, plan) == "[]" + Spread(rest, levels, plan)
    ensures Spread("{}" + rest, levels, plan) == "{}" + Spread(rest, levels, plan)
  {
    assert ("[]" + rest)[1..] == "]" + rest && ("]" + rest)[1..] == rest;
    assert ("{}" + rest)[1..] == "}" + rest && ("}" + rest)[1..] == rest;
  }

  lemma SpreadLeaf(v: Value, levels: seq<Level>, plan: seq<bool>, rest: string)
    requires PlainReals(v) && !Nested(v)
    ensures Fast(v) == Leaf(v) && Plan(v) == []
    ensures Spread(Leaf(v) + rest, levels, plan) == Leaf(v) + Spread(rest, levels, plan)
  {
    if v.Array? || v.Object? {
      EmptySpread(levels, plan, rest);
    } else {
      SpreadScalar(v, levels, plan, rest);
    }
  }

  /** The elements of an array on one line. */
  lemma {:induction false} SpreadRow(items: seq<Value>, levels: seq<Level>, plan: seq<bool>, rest: string)
    requires PlainItems(items) && !AnyNested(items) && InRow(levels)
    ensures Spread(FastItems(items) + rest, levels, plan) == Row(Leaves(items)) + Spread(rest, levels, plan)
    ensures ItemPlans(items) == []
  {
    if items == [] {
      assert "" + rest == rest && "" + Spread(rest, levels, plan) == Spread(rest, levels, plan);
    } else {
      var more := items[1..];
      assert forall i | 0 <= i < |more| :: more[i] == items[i + 1];
      SpreadRow(more, levels, plan, rest);
      assert Leaves(items)[1..] == Leaves(more);
      assert PlainReals(items[0]) && !Nested(items[0]);
      hide Spread, Row, FastItems, Leaf, Fast, Plan, Nested, PlainReals;
      var after := (if |items| > 1 then "," else "") + (FastItems(more) + rest);
      SpreadLeaf(items[0], levels, plan, after);
      RowText(items, rest);
      CommaInRow(FastItems(more) + rest, levels, plan);
      RowApart(items, Spread(rest, levels, plan));
      assert |items| == 1 ==> after == FastItems(more) + rest;
      assert "" + (Row(Leaves(more)) + Spread(rest, levels, plan)) == Row(Leaves(more)) + Spread(rest, levels, plan);
    }
  }

  lemma RowText(items: seq<Value>, rest: string)
    requires items != []
    ensures FastItems(items) + rest == Fast(items[0]) + ((if |items| > 1 then "," else "") + (FastItems(items[1..]) + rest))
  {
    hide Fast;
    Apart3(Fast(items[0]), if |items| > 1 then "," else "", FastItems(items[1..]), rest);
  }

  lemma CommaInRow(text: string, levels: seq<Level>, plan: seq<bool>)
    requires InRow(levels)
    ensures Spread("," + text, levels, plan) == ", " + Spread(text, levels, plan)
  {
    assert ("," + text)[1..] == text;
  }

  lemma RowApart(items: seq<Value>, rest: string)
    requires items != [] && !AnyNested(items)
    ensures var texts := Leaves(items);
            Row(texts) + rest == Leaf(items[0]) + ((if |items| > 1 then ", " else "") + (Row(texts[1..]) + rest))
  {
    hide Leaf;
    var texts := Leaves(items);
    Apart3(texts[0], if |items| > 1 then ", " else "", Row(texts[1..]), rest);
  }

  /** What isMultineArray adds up is the length of that line. */
  lemma BrokenIsMultiline(items: seq<Value>)
    requires items != []
    ensures Broken(items) == Multiline(items)
  {
    if !AnyNested(items) {
      assert forall i | 0 <= i < |items| :: !Nested(items[i]);
      FastLength(items, |items|);
      assert items[..|items|] == items;
      assert 3 * |items| >= RIGHT_MARGIN <==> |items| >= 25;
    } else {
      var i :| 0 <= i < |items| && Nested(items[i]);
      assert (items[i].Array? && items[i].items != []) || (items[i].Object? && items[i].members != []);
    }
  }

  lemma {:induction false} FastLength(items: seq<Value>, n: nat)
    requires 0 < n <= |items| && !AnyNested(items)
    ensures |FastItems(items[..n])| == LeafLengths(items, n) + n - 1
  {
    var v := items[n - 1];
    assert !Nested(v);
    FastLeaf(v);
    assert items[..n] == items[..n - 1] + [v];
    if n > 1 {
      FastLength(items, n - 1);
      FastItemsMore(items[..n - 1], v);
    } else {
      assert items[..1] == [v];
      FastItemsOne(v);
    }
  }

  lemma FastLeaf(v: Value)
    requires !Nested(v)
    ensures Fast(v) == Leaf(v)
  {
  }

  lemma FastItemsOne(v: Value)
    ensures FastItems([v]) == Fast(v)
  {
    assert [v][1..] == [];
    assert FastItems([]) == "";
    assert FastItems([v]) == Fast([v][0]) + "" + FastItems([v][1..]);
  }

  lemma {:induction false} FastItemsMore(items: seq<Value>, v: Value)
    requires items != []
    ensures FastItems(items + [v]) == FastItems(items) + "," + Fast(v)
  {
    hide Fast;
    assert (items + [v])[1..] == items[1..] + [v];
    FastItemsOne(v);
    if |items| == 1 {
      assert items[1..] == [] && [] + [v] == [v] && items == [items[0]];
      FastItemsOne(items[0]);
    } else {
      FastItemsMore(items[1..], v);
    }
  }

  // ----- Values -----

  lemma {:induction false} SpreadValue(v: Value, levels: seq<Level>, plan: seq<bool>, rest: string)
    requires PlainReals(v) && !InRow(levels)
    ensures Spread(Fast(v) + rest, levels, Plan(v) + plan) == Layout(v, Margin(|levels|)) + Spread(rest, levels, plan)
    decreases v, 1
  {
    if !Nested(v) {
      SpreadLeaf(v, levels, plan, rest);
      assert [] + plan == plan;
    } else if v.Array? {
      SpreadArray(v.items, levels, plan, rest);
    } else {
      SpreadObject(v.members, levels, plan, rest);
    }
  }

  lemma {:induction false} SpreadArray(items: seq<Value>, levels: seq<Level>, plan: seq<bool>, rest: string)
    requires items != [] && PlainItems(items) && !InRow(levels)
    ensures var v := Array(items);
            Spread(Fast(v) + rest, levels, Plan(v) + plan) == Layout(v, Margin(|levels|)) + Spread(rest, levels, plan)
    decreases items, 3
  {
    hide Broken, Multiline, Fast, Spread, Layout;
    BrokenIsMultiline(items);
    FastArray(items, rest);
    FirstItem(items, "]" + rest);
    var text, plans := FastItems(items) + ("]" + rest), ItemPlans(items) + plan;
    ArrayPlan(items, plan);
    OpensArray(text, levels, Broken(items), plans);
    var inner := levels + [if Broken(items) then Lines else OneLine];
    assert Outer(inner) == levels && |inner| == |levels| + 1;
    ClosesArray(rest, inner, plan);
    if Broken(items) {
      SpreadLines(items, inner, plan, "]" + rest);
      LinesWhole(items, |levels|, Spread(rest, levels, plan));
    } else {
      NotBroken(items);
      SpreadRow(items, inner, plan, "]" + rest);
      assert ItemPlans(items) + plan == plan;
      RowWhole(items, Margin(|levels|), Spread(rest, levels, plan));
    }
  }

  lemma FastArray(items: seq<Value>, rest: string)
    ensures Fast(Array(items)) + rest == "[" + (FastItems(items) + ("]" + rest))
  {
    hide FastItems;
    Apart3("[", FastItems(items), "]", rest);
  }

  lemma ArrayPlan(items: seq<Value>, plan: seq<bool>)
    requires items != []
    ensures Plan(Array(items)) + plan == [Broken(items)] + (ItemPlans(items) + plan)
  {
  }

  lemma NotBroken(items: seq<Value>)
    requires !Multiline(items)
    ensures !AnyNested(items)
  {
  }

  lemma FirstItem(items: seq<Value>, rest: string)
    requires items != [] && PlainItems(items)
    ensures At(FastItems(items) + rest) != ']'
  {
    hide Fast;
    FastStarts(items[0]);
  }

  lemma FastStarts(v: Value)
    requires PlainReals(v)
    ensures Fast(v) != "" && Fast(v)[0] != ']'
  {
    match v
    case Int(i) => DecimalStarts(if i < 0 then -i else i);
    case UInt(u) => DecimalStarts(u);
    case _ =>
  }

  lemma OpensArray(text: string, levels: seq<Level>, broken: bool, plans: seq<bool>)
    requires At(text) != ']'
    ensures Spread("[" + text, levels, [broken] + plans)
         == if broken then "[\n" + Margin(|levels| + 1) + Spread(text, levels + [Lines], plans)
            else "[ " + Spread(text, levels + [OneLine], plans)
  {
    assert ("[" + text)[1..] == text && ([broken] + plans)[1..] == plans;
  }

  lemma ClosesArray(rest: string, levels: seq<Level>, plan: seq<bool>)
    ensures Spread("]" + rest, levels, plan)
         == (if InRow(levels) then " ]" else "\n" + Margin(|levels| - 1) + "]") + Spread(rest, Outer(levels), plan)
  {
    assert ("]" + rest)[1..] == rest;
  }

  lemma RowWhole(items: seq<Value>, margin: string, rest: string)
    requires items != [] && !Multiline(items) && !AnyNested(items)
    ensures "[ " + (Row(Leaves(items)) + (" ]" + rest)) == Layout(Array(items), margin) + rest
  {
    hide Row, Multiline;
    Apart3("[ ", Row(Leaves(items)), " ]", rest);
  }

  lemma LinesWhole(items: seq<Value>, n: nat, rest: string)
    requires items != [] && Multiline(items)
    ensures "[\n" + Margin(n + 1) + (Itemised(items, Margin(n + 1)) + ("\n" + Margin(n) + "]" + rest)) == Layout(Array(items), Margin(n)) + rest
  {
    hide Multiline;
    MarginDeeper(n);
    LinesAre(items, Margin(n + 1));
    hide Itemised, ItemLines, Margin;
    var a, b, m := Itemised(items, Margin(n + 1)), Margin(n + 1), Margin(n);
    assert "[\n" + b + (a + ("\n" + m + "]" + rest)) == "[" + ("\n" + b + a) + ("\n" + m + "]") + rest;
  }

  /** The lines of the elements but for how the first begins. */
  function Itemised(items: seq<Value>, margin: string): string
    requires items != []
  {
    Layout(items[0], margin) + if |items| > 1 then ",\n" + margin + Itemised(items[1..], margin) else ""
  }

  lemma {:induction false} LinesAre(items: seq<Value>, margin: string)
    requires items != []
    ensures ItemLines(items, margin) == "\n" + margin + Itemised(items, margin)
  {
    hide Layout;
    var value := Layout(items[0], margin);
    if |items| > 1 {
      LinesAre(items[1..], margin);
      var more := Itemised(items[1..], margin);
      assert "\n" + margin + value + "," + ("\n" + margin + more) == "\n" + margin + (value + (",\n" + margin + more));
    } else {
      assert ItemLines(items[1..], margin) == "";
      assert "\n" + margin + value + "" + "" == "\n" + margin + (value + "");
    }
  }

  /** Elements that have a line each. */
  lemma {:induction false} SpreadLines(items: seq<Value>, levels: seq<Level>, plan: seq<bool>, rest: string)
    requires items != [] && PlainItems(items) && levels != [] && levels[|levels| - 1] == Lines
    ensures Spread(FastItems(items) + rest, levels, ItemPlans(items) + plan)
         == Itemised(items, Margin(|levels|)) + Spread(rest, levels, plan)
    decreases items, 2
  {
    hide Fast, Layout, Spread;
    var more, margin := items[1..], Margin(|levels|);
    var after := (if |items| > 1 then "," else "") + (FastItems(more) + rest);
    RowText(items, rest);
    PlansApart(Plan(items[0]), ItemPlans(more), plan);
    SpreadValue(items[0], levels, ItemPlans(more) + plan, after);
    if |items| > 1 {
      SpreadLines(more, levels, plan, rest);
      CommaOutside(FastItems(more) + rest, levels, ItemPlans(more) + plan);
      LineApart(Layout(items[0], margin), margin, Itemised(more, margin), Spread(rest, levels, plan));
    } else {
      assert more == [] && after == rest && ItemPlans(more) + plan == plan;
    }
  }

  lemma PlansApart(a: seq<bool>, b: seq<bool>, c: seq<bool>)
    ensures a + b + c == a + (b + c)
  {
  }

  lemma CommaOutside(text: string, levels: seq<Level>, plan: seq<bool>)
    requires !InRow(levels)
    ensures Spread("," + text, levels, plan) == ",\n" + Margin(|levels|) + Spread(text, levels, plan)
  {
    assert ("," + text)[1..] == text;
  }

  lemma LineApart(value: string, margin: string, more: string, rest: string)
    ensures value + (",\n" + margin + (more + rest)) == value + (",\n" + margin + more) + rest
  {
  }

  // ----- Objects -----

  lemma {:induction false} SpreadObject(ms: seq<Member>, levels: seq<Level>, plan: seq<bool>, rest: string)
    requires ms != [] && PlainMembers(ms) && !InRow(levels)
    ensures var v := Object(ms);
            Spread(Fast(v) + rest, levels, Plan(v) + plan) == Layout(v, Margin(|levels|)) + Spread(rest, levels, plan)
    decreases ms, 3
  {
    hide Fast, Spread, Layout;
    FastObject(ms, rest);
    FirstMember(ms, "}" + rest);
    var text, plans := FastMembers(ms) + ("}" + rest), MemberPlans(ms) + plan;
    OpensObject(text, levels, plans);
    var inner := levels + [Braces];
    assert Outer(inner) == levels && |inner| == |levels| + 1;
    ClosesObject(rest, inner, plan);
    SpreadMembers(ms, inner, plan, "}" + rest);
    MembersWhole(ms, |levels|, Spread(rest, levels, plan));
  }

  lemma FastObject(ms: seq<Member>, rest: string)
    ensures Fast(Object(ms)) + rest == "{" + (FastMembers(ms) + ("}" + rest))
  {
    hide FastMembers;
    Apart3("{", FastMembers(ms), "}", rest);
  }

  lemma FirstMember(ms: seq<Member>, rest: string)
    requires ms != []
    ensures At(FastMembers(ms) + rest) != '}'
  {
    hide Fast;
    assert Quote(ms[0].name)[0] == '\"';
  }

  lemma OpensObject(text: string, levels: seq<Level>, plan: seq<bool>)
    requires At(text) != '}'
    ensures Spread("{" + text, levels, plan) == "{\n" + Margin(|levels| + 1) + Spread(text, levels + [Braces], plan)
  {
    assert ("{" + text)[1..] == text;
  }

  lemma ClosesObject(rest: string, levels: seq<Level>, plan: seq<bool>)
    ensures Spread("}" + rest, levels, plan) == "\n" + Margin(|levels| - 1) + "}" + Spread(rest, Outer(levels), plan)
  {
    assert ("}" + rest)[1..] == rest;
  }

  /** The member lines but for how the first begins. */
  function Listed(ms: seq<Member>, margin: string): string
    requires ms != []
  {
    Quote(ms[0].name) + " : " + Layout(ms[0].value, margin)
    + if |ms| > 1 then ",\n" + margin + Listed(ms[1..], margin) else ""
  }

  lemma {:induction false} MembersAre(ms: seq<Member>, margin: string)
    requires ms != []
    ensures MemberLines(ms, margin) == "\n" + margin + Listed(ms, margin)
  {
    hide Layout, Quote;
    var name, value := Quote(ms[0].name), Layout(ms[0].value, margin);
    if |ms| > 1 {
      MembersAre(ms[1..], margin);
      var more := Listed(ms[1..], margin);
      assert "\n" + margin + name + " : " + value + "," + ("\n" + margin + more)
          == "\n" + margin + (name + " : " + value + (",\n" + margin + more));
    } else {
      assert MemberLines(ms[1..], margin) == "";
      assert "\n" + margin + name + " : " + value + "" + "" == "\n" + margin + (name + " : " + value + "");
    }
  }

  lemma MembersWhole(ms: seq<Member>, n: nat, rest: string)
    requires ms != []
    ensures "{\n" + Margin(n + 1) + (Listed(ms, Margin(n + 1)) + ("\n" + Margin(n) + "}" + rest)) == Layout(Object(ms), Margin(n)) + rest
  {
    MarginDeeper(n);
    MembersAre(ms, Margin(n + 1));
    hide Listed, MemberLines, Margin;
    var a, b, m := Listed(ms, Margin(n + 1)), Margin(n + 1), Margin(n);
    assert "{\n" + b + (a + ("\n" + m + "}" + rest)) == "{" + ("\n" + b + a) + ("\n" + m + "}") + rest;
  }

  lemma {:induction false} SpreadMembers(ms: seq<Member>, levels: seq<Level>, plan: seq<bool>, rest: string)
    requires ms != [] && PlainMembers(ms) && levels != [] && levels[|levels| - 1] == Braces
    ensures Spread(FastMembers(ms) + rest, levels, MemberPlans(ms) + plan)
         == Listed(ms, Margin(|levels|)) + Spread(rest, levels, plan)
    decreases ms, 2
  {
    hide Fast, Layout, Spread, Quote;
    var more, margin := ms[1..], Margin(|levels|);
    var value, plans := Fast(ms[0].value), MemberPlans(more) + plan;
    var after := (if |ms| > 1 then "," else "") + (FastMembers(more) + rest);
    MemberText(ms, rest);
    PlansApart(Plan(ms[0].value), MemberPlans(more), plan);
    SpreadQuote(ms[0].name, ":" + (value + after), levels, Plan(ms[0].value) + plans);
    ColonSpread(value + after, levels, Plan(ms[0].value) + plans);
    SpreadValue(ms[0].value, levels, plans, after);
    var name, value' := Quote(ms[0].name), Layout(ms[0].value, margin);
    if |ms| > 1 {
      SpreadMembers(more, levels, plan, rest);
      CommaOutside(FastMembers(more) + rest, levels, plans);
      MemberApart(name, value', ",\n" + margin, Listed(more, margin), Spread(rest, levels, plan));
    } else {
      assert more == [] && after == rest && plans == plan;
      LastApart(name, value', Spread(rest, levels, plan));
    }
  }

  lemma MemberText(ms: seq<Member>, rest: string)
    requires ms != []
    ensures FastMembers(ms) + rest
         == Quote(ms[0].name) + (":" + (Fast(ms[0].value) + ((if |ms| > 1 then "," else "") + (FastMembers(ms[1..]) + rest))))
  {
    hide Fast, Quote;
    var name, value, comma, more := Quote(ms[0].name), Fast(ms[0].value), if |ms| > 1 then "," else "", FastMembers(ms[1..]);
    assert FastMembers(ms) == name + ":" + value + comma + more;
    Apart3(name + ":" + value, comma, more, rest);
    Apart3(name, ":", value, comma + (more + rest));
  }

  lemma ColonSpread(text: string, levels: seq<Level>, plan: seq<bool>)
    ensures Spread(":" + text, levels, plan) == " : " + Spread(text, levels, plan)
  {
    assert (":" + text)[1..] == text;
  }

  lemma MemberApart(name: string, value: string, comma: string, more: string, rest: string)
    ensures name + (" : " + (value + (comma + (more + rest)))) == name + " : " + value + (comma + more) + rest
  {
  }

  lemma LastApart(name: string, value: string, rest: string)
    ensures name + (" : " + (value + rest)) == name + " : " + value + "" + rest
  {
  }

  /** The styled text of a value is the fast one, spread. */
  lemma StyledIsSpread(v: Value)
    requires PlainReals(v)
    ensures Layout(v, "") == Spread(Fast(v), [], Plan(v))
  {
    SpreadValue(v, [], [], "");
    assert Margin(0) == "" && Fast(v) + "" == Fast(v) && Plan(v) + [] == Plan(v);
    assert Layout(v, "") + "" == Layout(v, "");
  }
}
