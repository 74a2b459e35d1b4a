/**
StyledWriter of tools/jsoncpp/json_writer.cpp, for values without comments. Deciding whether an
array fits on one line leaves the texts of its elements in a list shared by the whole recursion.
*/
module JsonCppStyled {
  import opened JsonCpp
  import opened JsonCppWriter

  const RIGHT_MARGIN := 74
  const INDENT := "   "

  predicate Nested(v: Value) {
    (v.Array? && v.items != []) || (v.Object? && v.members != [])
  }

  /** The text of a value that nothing is nested in. */
  function Leaf(v: Value): string
    requires !Nested(v)
  {
    match v
    case Array(_) => "[]"
    case Object(_) => "{}"
    case _ => Scalar(v)
  }

  /** Some element is a container with something in it. */
  predicate AnyNested(items: seq<Value>) { exists i | 0 <= i < |items| :: Nested(items[i]) }

  function LeafLengths(items: seq<Value>, n: nat): nat
    requires n <= |items| && !AnyNested(items)
  {
    if n == 0 then 0 else LeafLengths(items, n - 1) + |Leaf(items[n - 1])|
  }

  /** An array is broken over lines if it is long, has structure, or its line would be too wide. */
  predicate Multiline(items: seq<Value>) {
    || |items| * 3 >= RIGHT_MARGIN
    || AnyNested(items)
    || 4 + (|items| - 1) * 2 + LeafLengths(items, |items|) >= RIGHT_MARGIN
  }

  // ----- The text, line by line -----

  /** What is written for a value where the lines are indented by `indent`. */
  function Layout(v: Value, indent: string): string
    decreases v, 1
  {
    if !Nested(v) then Leaf(v)
    else if v.Object? then "{" + MemberLines(v.members, indent + INDENT) + ("\n" + indent + "}")
    else if Multiline(v.items) then "[" + ItemLines(v.items, indent + INDENT) + ("\n" + indent + "]")
    else "[ " + Row(Leaves(v.items)) + " ]"
  }

  /** One member a line. */
  function MemberLines(ms: seq<Member>, indent: string): string
    decreases ms, 0
  {
    if ms == [] then "" else MemberLine(ms[0], indent, Comma(ms)) + MemberLines(ms[1..], indent)
  }

  function MemberLine(m: Member, indent: string, comma: string): string
    decreases m, 2
  {
    "\n" + indent + Quote(m.name) + " : " + Layout(m.value, indent) + comma
  }

  /** One element a line. */
  function ItemLines(items: seq<Value>, indent: string): string
    decreases items, 0
  {
    if items == [] then "" else ItemLine(items[0], indent, Comma(items)) + ItemLines(items[1..], indent)
  }

  function ItemLine(v: Value, indent: string, comma: string): string
    decreases v, 2
  {
    "\n" + indent + Layout(v, indent) + comma
  }

  function Comma<T>(s: seq<T>): string { if |s| > 1 then "," else "" }

  /** All elements on one line. */
  function Row(texts: seq<string>): string {
    if texts == [] then "" else texts[0] + (if |texts| > 1 then ", " else "") + Row(texts[1..])
  }

  function Leaves(items: seq<Value>): (texts: seq<string>)
    requires !AnyNested(items)
    ensures |texts| == |items| && forall i | 0 <= i < |items| :: texts[i] == Leaf(items[i])
  {
    seq(|items|, i requires 0 <= i < |items| => Leaf(items[i]))
  }

  /** The text ends in something that a new line has to be begun after. */
  predicate Ended(s: string) { s != "" && s[|s| - 1] != ' ' && s[|s| - 1] != '\n' }

  lemma LayoutEnds(v: Value, indent: string)
    requires Writable(v)
    ensures Ended(Layout(v, indent))
  {
    if v.Int? {
      DecimalStarts(if v.i < 0 then -v.i else v.i);
    } else if v.UInt? {
      DecimalStarts(v.u);
    }
  }

  class StyledWriter {
    var document: string
    var indentString: string
    var childValues: seq<string>
    var addChildValues: bool

    constructor ()
      ensures !addChildValues
    {
      document, indentString, childValues, addChildValues := "", "", [], false;
    }

    /** StyledWriter::write: the text is the value's layout; without the white space it is the fast text. */
    method Write(root: Value) returns (text: string)
      requires Writable(root)
      modifies this
      ensures text == Layout(root, "") + "\n"
      ensures Spaced(text, Tokens(root, [])) && Strip(text) == Fast(root)
    {
      hide Layout;
      document := "";
      addChildValues := false;
      indentString := "";
      WriteValue(root);
      assert document == Layout(root, "");
      document := document + "\n";
      text := document;
      LayoutRenders(root, "");
      RendersSpaced(Layout(root, ""), root, "\n");
      SpacedIsFast(text, root);
    }

    /** A value starts on the line begun for it. */
    ghost predicate AtValue()
      reads this`document, this`indentString
    {
      BeginsHere(document, indentString)
    }

    /** The text of the value goes to the document or, where texts are collected, to the list. */
    method WriteValue(value: Value)
      requires Writable(value) && if addChildValues then !Nested(value) else AtValue()
      modifies this
      ensures indentString == old(indentString) && addChildValues == old(addChildValues)
      ensures document == if addChildValues then old(document) else old(document) + Layout(value, indentString)
      ensures addChildValues ==> childValues == old(childValues) + [Leaf(value)]
      decreases value, 3
    {
      match value
      case Array(items) =>
        WriteArrayValue(value);
      case Object(ms) =>
        if ms == [] {
          PushValue("{}");
        } else {
          WriteMembers(value);
        }
      case _ =>
        var text := ScalarText(value);
        PushValue(text);
    }

    method WriteMembers(value: Value)
      requires Writable(value) && value.Object? && value.members != [] && !addChildValues && AtValue()
      modifies this
      ensures indentString == old(indentString) && !addChildValues
      ensures document == old(document) + Layout(value, indentString)
      decreases value, 1
    {
      hide MemberLines, Layout;
      var ms := value.members;
      WriteWithIndent("{");
      Indent();
      ghost var start, all := document, MemberLines(ms, indentString);
      assert ms[0..] == ms;
      for index := 0 to |ms|
        invariant !addChildValues && indentString == old(indentString) + INDENT && Ended(document)
        invariant document + MemberLines(ms[index..], indentString) == start + all
      {
        MemberLinesStep(document, ms, index, indentString);
        WriteMember(value, index);
      }
      NoMemberLines(ms, indentString);
      assert document + "" == document;
      Unindent();
      WriteWithIndent("}");
      ObjectLayout(old(document), value, indentString);
    }

    /** One round of the loop over the members. */
    method WriteMember(value: Value, index: nat)
      requires Writable(value) && value.Object? && index < |value.members| && !addChildValues && Ended(document)
      modifies this
      ensures indentString == old(indentString) && !addChildValues && Ended(document)
      ensures document == old(document) + MemberLine(value.members[index], indentString, Comma(value.members[index..]))
      decreases value, 0
    {
      hide Layout, Quote;
      var m := value.members[index];
      var name := ValueToQuotedString(m.name);
      WriteWithIndent(name);
      document := document + " : ";
      WriteValue(m.value);
      LayoutEnds(m.value, indentString);
      var comma := if index + 1 < |value.members| then "," else "";
      document := document + comma;
      MemberAppended(old(document), indentString, Quote(m.name), Layout(m.value, indentString), comma);
    }

    method WriteArrayValue(value: Value)
      requires Writable(value) && value.Array? && if addChildValues then !Nested(value) else AtValue()
      modifies this
      ensures indentString == old(indentString) && addChildValues == old(addChildValues)
      ensures document == if addChildValues then old(document) else old(document) + Layout(value, indentString)
      ensures addChildValues ==> childValues == old(childValues) + [Leaf(value)]
      decreases value, 2
    {
      if value.items == [] {
        PushValue("[]");
      } else {
        var isMultiline := IsMultilineArray(value);
        if isMultiline {
          WriteLines(value);
        } else {
          WriteOneLine(value);
        }
      }
    }

    /** The branch of writeArrayValue that puts one element on a line. */
    method WriteLines(value: Value)
      requires Writable(value) && value.Array? && value.items != [] && Multiline(value.items) && !addChildValues && AtValue()
      requires childValues == [] || Collected(value.items, |value.items|)
      modifies this
      ensures indentString == old(indentString) && !addChildValues
      ensures document == old(document) + Layout(value, indentString)
      decreases value, 1
    {
      hide ItemLines, Layout, Multiline, Leaf, Collected;
      var items := value.items;
      WriteWithIndent("[");
      Indent();
      var hasChildValue := childValues != [];
      ghost var start, all := document, ItemLines(items, indentString);
      assert items[0..] == items;
      for index := 0 to |items|
        invariant !addChildValues && indentString == old(indentString) + INDENT && Ended(document)
        invariant hasChildValue ==> Collected(items, |items|)
        invariant document + ItemLines(items[index..], indentString) == start + all
      {
        ItemLinesStep(document, items, index, indentString);
        WriteElement(value, index, hasChildValue);
      }
      NoItemLines(items, indentString);
      assert document + "" == document;
      Unindent();
      WriteWithIndent("]");
      LinesLayout(old(document), value, indentString);
    }

    /** One round of the loop over the elements. */
    method WriteElement(value: Value, index: nat, hasChildValue: bool)
      requires Writable(value) && value.Array? && index < |value.items| && !addChildValues && Ended(document)
      requires |indentString| >= |INDENT| && indentString[|indentString| - 1] == ' '
      requires hasChildValue ==> Collected(value.items, |value.items|)
      modifies this
      ensures indentString == old(indentString) && !addChildValues && Ended(document)
      ensures hasChildValue ==> childValues == old(childValues)
      ensures document == old(document) + ItemLine(value.items[index], indentString, Comma(value.items[index..]))
      decreases value, 0
    {
      var v := value.items[index];
      LayoutEnds(v, indentString);
      if hasChildValue {
        LeafLayout(value.items, index, indentString);
        hide Layout, Leaf;
        WriteWithIndent(childValues[index]);
      } else {
        hide Layout;
        WriteIndent();
        WriteValue(v);
      }
      var comma := if index + 1 < |value.items| then "," else "";
      document := document + comma;
      ItemAppended(old(document), indentString, Layout(v, indentString), comma);
    }

    /** The branch of writeArrayValue that puts all elements on one line. */
    method WriteOneLine(value: Value)
      requires Writable(value) && value.Array? && value.items != [] && !Multiline(value.items) && !addChildValues
      requires Collected(value.items, |value.items|)
      modifies this`document
      ensures document == old(document) + Layout(value, indentString)
    {
      hide Leaf, Layout, Multiline, Row, AnyNested;
      var items := value.items;
      document := document + "[ ";
      ghost var start := document;
      for index := 0 to |items|
        invariant document == FirstOfRow(start, childValues, index)
      {
        if index > 0 {
          document := document + ", ";
        }
        document := document + childValues[index];
      }
      document := document + " ]";
      RowFrom(start, childValues, 0);
      assert childValues[0..] == childValues;
      RowLayout(old(document), value, childValues, indentString);
    }

    /** The list holds the texts of the first n elements, and no element has structure. */
    ghost predicate Collected(items: seq<Value>, n: nat)
      reads this`childValues
    {
      n <= |items| && !AnyNested(items) && |childValues| == n && forall i | 0 <= i < n :: childValues[i] == Leaf(items[i])
    }

    /** isMultineArray: whatever the list held before, it is left empty or with the texts of this array. */
    method IsMultilineArray(value: Value) returns (multi: bool)
      requires Writable(value) && value.Array? && value.items != [] && !addChildValues
      modifies this
      ensures document == old(document) && indentString == old(indentString) && !addChildValues
      ensures multi == Multiline(value.items)
      ensures if |value.items| * 3 >= RIGHT_MARGIN || AnyNested(value.items) then childValues == []
              else Collected(value.items, |value.items|)
      decreases value, 1
    {
      hide Leaf, Layout;
      var items := value.items;
      var size := |items|;
      multi := size * 3 >= RIGHT_MARGIN;
      childValues := [];
      var index := 0;
      while index < size && !multi
        invariant 0 <= index <= size
        invariant multi <==> size * 3 >= RIGHT_MARGIN || exists i | 0 <= i < index :: Nested(items[i])
      {
        multi := multi || Nested(items[index]);
        index := index + 1;
      }
      if !multi {
        addChildValues := true;
        var lineLength := 4 + (size - 1) * 2;
        index := 0;
        while index < size
          invariant 0 <= index <= size && addChildValues
          invariant document == old(document) && indentString == old(indentString)
          invariant Collected(items, index) && lineLength == 4 + (size - 1) * 2 + LeafLengths(items, index)
        {
          WriteValue(items[index]);
          lineLength := lineLength + |childValues[index]|;
          index := index + 1;
        }
        addChildValues := false;
        multi := lineLength >= RIGHT_MARGIN;
      }
    }

    method PushValue(value: string)
      modifies this`document, this`childValues
      ensures document == if addChildValues then old(document) else old(document) + value
      ensures childValues == if addChildValues then old(childValues) + [value] else old(childValues)
    {
      if addChildValues {
        childValues := childValues + [value];
      } else {
        document := document + value;
      }
    }

    /** Nothing after a blank; otherwise the indentation, on a new line unless the document is empty or at one. */
    method WriteIndent()
      modifies this`document
      ensures var doc := old(document);
              document == if doc == "" || doc[|doc| - 1] == '\n' then doc + indentString
                          else if doc[|doc| - 1] == ' ' then doc
                          else doc + ("\n" + indentString)
    {
      if document != "" {
        var last := document[|document| - 1];
        if last == ' ' {
          return;
        }
        if last != '\n' {
          document := document + "\n";
        }
      }
      document := document + indentString;
    }

    method WriteWithIndent(value: string)
      modifies this`document
      ensures BeginsHere(old(document), indentString) ==> document == old(document) + value
      ensures Ended(old(document)) ==> document == old(document) + ("\n" + indentString) + value
    {
      WriteIndent();
      document := document + value;
    }

    method Indent()
      modifies this`indentString
      ensures indentString == old(indentString) + INDENT
    {
      indentString := indentString + INDENT;
    }

    method Unindent()
      requires |indentString| >= |INDENT|
      modifies this`indentString
      ensures indentString == old(indentString)[..|old(indentString)| - |INDENT|]
    {
      indentString := indentString[..|indentString| - |INDENT|];
    }
  }

  // ----- The steps of its loops -----

  predicate BeginsHere(document: string, indent: string) {
    if document == "" then indent == "" else document[|document| - 1] == ' '
  }

  lemma MemberLinesStep(doc: string, ms: seq<Member>, i: nat, indent: string)
    requires i < |ms|
    ensures doc + MemberLines(ms[i..], indent)
         == doc + MemberLine(ms[i], indent, Comma(ms[i..])) + MemberLines(ms[i + 1..], indent)
  {
    hide MemberLine;
    assert ms[i..][1..] == ms[i + 1..];
  }

  lemma ItemLinesStep(doc: string, items: seq<Value>, i: nat, indent: string)
    requires i < |items|
    ensures doc + ItemLines(items[i..], indent)
         == doc + ItemLine(items[i], indent, Comma(items[i..])) + ItemLines(items[i + 1..], indent)
  {
    hide ItemLine;
    assert items[i..][1..] == items[i + 1..];
  }

  lemma NoMemberLines(ms: seq<Member>, indent: string)
    ensures MemberLines(ms[|ms|..], indent) == ""
  {
  }

  lemma NoItemLines(items: seq<Value>, indent: string)
    ensures ItemLines(items[|items|..], indent) == ""
  {
  }

  lemma MemberAppended(doc: string, indent: string, name: string, text: string, comma: string)
    ensures doc + ("\n" + indent) + name + " : " + text + comma == doc + ("\n" + indent + name + " : " + text + comma)
  {
  }

  lemma ItemAppended(doc: string, indent: string, text: string, comma: string)
    ensures doc + ("\n" + indent) + text + comma == doc + ("\n" + indent + text + comma)
  {
  }

  lemma ObjectLayout(doc: string, v: Value, indent: string)
    requires v.Object? && v.members != []
    ensures doc + "{" + MemberLines(v.members, indent + INDENT) + ("\n" + indent) + "}" == doc + Layout(v, indent)
  {
    hide MemberLines;
  }

  lemma LinesLayout(doc: string, v: Value, indent: string)
    requires v.Array? && v.items != [] && Multiline(v.items)
    ensures doc + "[" + ItemLines(v.items, indent + INDENT) + ("\n" + indent) + "]" == doc + Layout(v, indent)
  {
    hide ItemLines, Multiline;
  }

  lemma RowLayout(doc: string, value: Value, texts: seq<string>, indent: string)
    requires value.Array? && value.items != [] && !Multiline(value.items) && !AnyNested(value.items)
    requires |texts| == |value.items| && forall i | 0 <= i < |texts| :: texts[i] == Leaf(value.items[i])
    ensures doc + "[ " + Row(texts) + " ]" == doc + Layout(value, indent)
  {
    hide Leaf, Row;
    assert texts == Leaves(value.items);
    assert doc + "[ " + Row(texts) + " ]" == doc + ("[ " + Row(texts) + " ]");
  }

  lemma LeafLayout(items: seq<Value>, i: nat, indent: string)
    requires i < |items| && !AnyNested(items)
    ensures Layout(items[i], indent) == Leaf(items[i])
  {
  }

  /** The document once the loop of the single-line branch has put the first n texts behind doc. */
  ghost function FirstOfRow(doc: string, texts: seq<string>, n: nat): string
    requires n <= |texts|
  {
    if n == 0 then doc
    else
      var before := FirstOfRow(doc, texts, n - 1);
      (if n > 1 then before + ", " else before) + texts[n - 1]
  }

  lemma {:induction false} RowFrom(doc: string, texts: seq<string>, n: nat)
    requires n <= |texts|
    ensures FirstOfRow(doc, texts, |texts|)
         == FirstOfRow(doc, texts, n) + (if 0 < n < |texts| then ", " else "") + Row(texts[n..])
    decreases |texts| - n
  {
    if n < |texts| {
      RowFrom(doc, texts, n + 1);
      RowStep(texts, n);
      hide Row;
      Nested4(FirstOfRow(doc, texts, n) + (if 0 < n then ", " else ""), texts[n], if n + 1 < |texts| then ", " else "", Row(texts[n + 1..]));
    }
  }

  lemma RowStep(texts: seq<string>, n: nat)
    requires n < |texts|
    ensures Row(texts[n..]) == texts[n] + (if n + 1 < |texts| then ", " else "") + Row(texts[n + 1..])
  {
    assert texts[n..][1..] == texts[n + 1..];
  }

  // ----- The layout stands for its value -----

  lemma LeafRenders(v: Value)
    requires !Nested(v) && Writable(v)
    ensures Renders(Leaf(v), v)
  {
    match v {
      case Array(items) =>
        FastRenders(v);
        assert Fast(v) == "[]";
      case Object(ms) =>
        FastRenders(v);
        assert Fast(v) == "{}";
      case _ => ScalarRenders(v);
    }
  }

  lemma ArrayGap(t: string, items: seq<Value>, i: nat, gap: string)
    requires i <= |items| && ArrayPart(t, items, i) && Spaces(gap)
    ensures ArrayPart(t + gap, items, i)
  {
    hide Tokens, ItemTokens, Spaced;
    forall s, k | Spaced(s, ItemTokens(items[i..], ["]"] + k)) ensures Spaced(t + gap + s, Tokens(Array(items), k)) {
      SpacedMore(gap, s, ItemTokens(items[i..], ["]"] + k));
      assert t + gap + s == t + (gap + s);
    }
  }

  lemma RendersSpaced(t: string, v: Value, s: string)
    requires Renders(t, v) && Spaces(s)
    ensures Spaced(t + s, Tokens(v, []))
  {
    SkipMore(s, "");
    assert s + "" == s;
  }

  lemma {:induction false} LayoutRenders(v: Value, indent: string)
    requires Writable(v) && Spaces(indent)
    ensures Renders(Layout(v, indent), v)
    decreases v, 1
  {
    hide Renders, ArrayPart, ObjectPart, Leaf, ItemLines, MemberLines, Row, Multiline;
    if !Nested(v) {
      LeafRenders(v);
    } else if v.Object? {
      ObjectOpen(v.members);
      MemberLinesRender("{", v.members, 0, indent + INDENT);
      assert v.members[0..] == v.members;
      ObjectClose("{" + MemberLines(v.members, indent + INDENT), v.members, "\n" + indent);
      Closed("{" + MemberLines(v.members, indent + INDENT), "\n" + indent, "}");
    } else if Multiline(v.items) {
      ArrayOpen(v.items);
      ItemLinesRender("[", v.items, 0, indent + INDENT);
      assert v.items[0..] == v.items;
      ArrayClose("[" + ItemLines(v.items, indent + INDENT), v.items, "\n" + indent);
      Closed("[" + ItemLines(v.items, indent + INDENT), "\n" + indent, "]");
    } else {
      FewAreFlat(v.items);
      ArrayOpen(v.items);
      ArrayGap("[", v.items, 0, " ");
      assert v.items[0..] == v.items && "[" + " " == "[ ";
      var row := Row(Leaves(v.items));
      RowRenders("[ ", v.items, 0);
      assert Leaves(v.items)[0..] == Leaves(v.items);
      ArrayClose("[ " + row, v.items, " ");
      Closed("[ " + row, " ", "]");
      assert " " + "]" == " ]";
    }
  }

  lemma FewAreFlat(items: seq<Value>)
    requires !Multiline(items)
    ensures !AnyNested(items)
  {
  }

  lemma Closed(t: string, ws: string, end: string)
    ensures t + ws + end == t + (ws + end)
  {
  }

  lemma {:induction false} MemberLinesRender(t: string, ms: seq<Member>, i: nat, indent: string)
    requires i <= |ms| && ObjectPart(t, ms, i) && Writable(Object(ms)) && Spaces(indent)
    ensures ObjectPart(t + MemberLines(ms[i..], indent), ms, |ms|)
    decreases ms, 0, |ms| - i
  {
    hide Layout, Quote, ObjectPart, Renders, MemberLines;
    if i == |ms| {
      NoMemberLines(ms, indent);
      assert t + "" == t;
    } else {
      var text := Layout(ms[i].value, indent);
      LayoutRenders(ms[i].value, indent);
      ObjectMember(t, ms, i, "\n" + indent, " : ", text);
      MemberAppended(t, indent, Quote(ms[i].name), text, Comma(ms[i..]));
      MemberLinesStep(t, ms, i, indent);
      MemberLinesRender(t + MemberLine(ms[i], indent, Comma(ms[i..])), ms, i + 1, indent);
    }
  }

  lemma {:induction false} ItemLinesRender(t: string, items: seq<Value>, i: nat, indent: string)
    requires i <= |items| && ArrayPart(t, items, i) && Writable(Array(items)) && Spaces(indent)
    ensures ArrayPart(t + ItemLines(items[i..], indent), items, |items|)
    decreases items, 0, |items| - i
  {
    hide Layout, ArrayPart, Renders, ItemLines;
    if i == |items| {
      NoItemLines(items, indent);
      assert t + "" == t;
    } else {
      var text := Layout(items[i], indent);
      LayoutRenders(items[i], indent);
      ArrayElement(t, items, i, "\n" + indent, text, "");
      ItemAppended(t, indent, text, Comma(items[i..]));
      assert t + ("\n" + indent) + text + Comma(items[i..]) + "" == t + ("\n" + indent) + text + Comma(items[i..]);
      ItemLinesStep(t, items, i, indent);
      ItemLinesRender(t + ItemLine(items[i], indent, Comma(items[i..])), items, i + 1, indent);
    }
  }

  lemma {:induction false} RowRenders(t: string, items: seq<Value>, i: nat)
    requires i <= |items| && ArrayPart(t, items, i) && Writable(Array(items)) && !AnyNested(items)
    ensures ArrayPart(t + Row(Leaves(items)[i..]), items, |items|)
    decreases |items| - i
  {
    hide Leaf, ArrayPart, Renders, Row;
    var texts := Leaves(items);
    if i == |items| {
      EmptyRow(texts);
      assert t + "" == t;
    } else {
      var sep := if i + 1 < |items| then ", " else "";
      LeafRenders(items[i]);
      OneLineElement(t, items, i, texts[i]);
      RowRenders(t + texts[i] + sep, items, i + 1);
      RowStep(texts, i);
      Appended(t, texts[i], sep, Row(texts[i + 1..]));
    }
  }

  lemma EmptyRow(texts: seq<string>)
    ensures Row(texts[|texts|..]) == ""
  {
  }

  lemma Appended(t: string, text: string, sep: string, rest: string)
    ensures t + text + sep + rest == t + (text + sep + rest)
  {
  }

  lemma OneLineElement(t: string, items: seq<Value>, i: nat, text: string)
    requires i < |items| && ArrayPart(t, items, i) && Renders(text, items[i])
    ensures ArrayPart(t + text + (if i + 1 < |items| then ", " else ""), items, i + 1)
  {
    hide ArrayPart, Renders;
    var comma := if i + 1 < |items| then "," else "";
    var after := if i + 1 < |items| then " " else "";
    ArrayElement(t, items, i, "", text, after);
    assert t + "" + text + comma + after == t + text + (if i + 1 < |items| then ", " else "");
  }

  // ----- The two writers agree -----

  lemma {:induction false} ConcatTokens(v: Value, k: seq<string>)
    ensures Concat(Tokens(v, k)) == Fast(v) + Concat(k)
    decreases v, 1
  {
    hide ItemTokens, MemberTokens, FastItems, FastMembers, Scalar;
    match v
    case Array(items) =>
      var inner := ItemTokens(items, ["]"] + k);
      ConcatItems(items, ["]"] + k);
      ConcatFirst("[", inner);
      ConcatFirst("]", k);
      Nested4("[", FastItems(items), "]", Concat(k));
    case Object(ms) =>
      var inner := MemberTokens(ms, ["}"] + k);
      ConcatMembers(ms, ["}"] + k);
      ConcatFirst("{", inner);
      ConcatFirst("}", k);
      Nested4("{", FastMembers(ms), "}", Concat(k));
    case _ =>
      ConcatFirst(Scalar(v), k);
  }

  lemma Nested4(a: string, b: string, c: string, d: string)
    ensures a + (b + (c + d)) == a + b + c + d
  {
  }

  lemma ConcatFirst(t: string, k: seq<string>)
    ensures Concat([t] + k) == t + Concat(k)
  {
    assert ([t] + k)[1..] == k;
  }

  lemma {:induction false} ConcatItems(items: seq<Value>, k: seq<string>)
    ensures Concat(ItemTokens(items, k)) == FastItems(items) + Concat(k)
    decreases items, 0
  {
    hide Fast, Tokens;
    if items != [] {
      var rest := ItemTokens(items[1..], k);
      if |items| > 1 {
        ConcatTokens(items[0], [","] + rest);
        ConcatFirst(",", rest);
        ConcatItems(items[1..], k);
      } else {
        ConcatTokens(items[0], k);
        assert items[1..] == [];
      }
    }
  }

  lemma {:induction false} ConcatMembers(ms: seq<Member>, k: seq<string>)
    ensures Concat(MemberTokens(ms, k)) == FastMembers(ms) + Concat(k)
    decreases ms, 0
  {
    hide Fast, Tokens, Quote;
    if ms != [] {
      var rest := MemberTokens(ms[1..], k);
      var after := if |ms| > 1 then [","] + rest else k;
      var name, value := Quote(ms[0].name), Tokens(ms[0].value, after);
      ConcatTokens(ms[0].value, after);
      if |ms| > 1 {
        ConcatFirst(",", rest);
        ConcatMembers(ms[1..], k);
      } else {
        assert ms[1..] == [];
      }
      ConcatFirst(":", value);
      ConcatFirst(name, [":"] + value);
      assert [name, ":"] + value == [name] + ([":"] + value);
    }
  }

  // ----- Erasing white space finds the tokens -----

  ghost predicate AllSolid(toks: seq<string>) { forall i | 0 <= i < |toks| :: Solid(toks[i]) }

  predicate Plain(c: char) { !IsSpace(c) && c != '\"' }

  lemma {:induction false} StripPlain(t: string, s: string)
    requires forall i | 0 <= i < |t| :: Plain(t[i])
    ensures Strip(t + s) == t + Strip(s)
  {
    if t == "" {
      assert t + s == s;
    } else {
      StripPlain(t[1..], s);
      assert (t + s)[1..] == t[1..] + s;
    }
  }

  lemma PlainSolid(t: string)
    requires t != "" && forall i | 0 <= i < |t| :: Plain(t[i])
    ensures Solid(t)
  {
    forall s ensures Strip(t + s) == t + Strip(s) {
      StripPlain(t, s);
    }
  }

  /** An escaped character passes through the inside of a string as it is. */
  lemma StripEscapeChar(c: char, s: string)
    ensures StripString(EscapeChar(c) + s) == EscapeChar(c) + StripString(s)
  {
    hide Strip, StripString;
    if ShortEscape(c) != '\0' {
      StripPair(ShortEscape(c), s);
    } else if IsControl(c) {
      StripUnicode([UpperHexDigit(c as int / 16), UpperHexDigit(c as int % 16)], s);
    } else {
      StripKept(c, s);
    }
  }

  lemma StripUnicode(hex: string, s: string)
    requires |hex| == 2 && forall i | 0 <= i < 2 :: hex[i] != '\"' && hex[i] != '\\'
    ensures StripString("\\u00" + hex + s) == "\\u00" + hex + StripString(s)
  {
    hide Strip, StripString;
    var s1 := [hex[1]] + s;
    var s2 := [hex[0]] + s1;
    var s3 := ['0'] + s2;
    StripKept(hex[1], s);
    StripKept(hex[0], s1);
    StripKept('0', s2);
    StripKept('0', s3);
    StripPair('u', ['0'] + s3);
    assert "\\u00" + hex + s == ['\\', 'u'] + (['0'] + s3);
  }

  lemma StripKept(c: char, s: string)
    requires c != '\"' && c != '\\'
    ensures StripString([c] + s) == [c] + StripString(s)
  {
    assert ([c] + s)[1..] == s;
  }

  lemma StripPair(c: char, s: string)
    ensures StripString(['\\', c] + s) == ['\\', c] + StripString(s)
  {
    var t := ['\\', c] + s;
    assert t[2..] == s && t[..2] == ['\\', c];
  }

  lemma {:induction false} StripEscape(x: string, s: string)
    ensures StripString(Escape(x) + ("\"" + s)) == Escape(x) + ("\"" + Strip(s))
  {
    hide EscapeChar;
    if x == "" {
      assert ("\"" + s)[1..] == s;
      assert Escape(x) + ("\"" + s) == "\"" + s;
    } else {
      StripEscape(x[1..], s);
      var rest := Escape(x[1..]) + ("\"" + s);
      StripEscapeChar(x[0], rest);
      assert Escape(x) + ("\"" + s) == EscapeChar(x[0]) + rest;
    }
  }

  lemma QuoteSolid(x: string)
    ensures Solid(Quote(x))
  {
    hide Escape, Quote;
    forall s ensures Strip(Quote(x) + s) == Quote(x) + Strip(s) {
      StripQuote(x, s);
    }
    QuoteStarts(x);
  }

  lemma QuoteStarts(x: string)
    ensures Quote(x) != "" && Quote(x)[0] == '\"'
  {
  }

  lemma StripQuote(x: string, s: string)
    ensures Strip(Quote(x) + s) == Quote(x) + Strip(s)
  {
    StripEscape(x, s);
    hide Escape, StripString;
    var rest := Escape(x) + ("\"" + s);
    assert Quote(x) + s == "\"" + rest && (Quote(x) + s)[1..] == rest;
  }

  lemma ScalarSolid(v: Value)
    requires !v.Array? && !v.Object? && Writable(v)
    ensures Solid(Scalar(v))
  {
    if v.String? {
      QuoteSolid(v.s);
    } else {
      if v.Int? {
        DecimalStarts(if v.i < 0 then -v.i else v.i);
      } else if v.UInt? {
        DecimalStarts(v.u);
      }
      PlainSolid(Scalar(v));
    }
  }

  lemma {:induction false} TokensSolid(v: Value, k: seq<string>)
    requires Writable(v) && AllSolid(k)
    ensures AllSolid(Tokens(v, k))
    decreases v, 1
  {
    hide Solid;
    match v
    case Array(items) =>
      PlainSolid("[");
      PlainSolid("]");
      ItemTokensSolid(items, ["]"] + k);
    case Object(ms) =>
      PlainSolid("{");
      PlainSolid("}");
      MemberTokensSolid(ms, ["}"] + k);
    case _ =>
      ScalarSolid(v);
  }

  lemma {:induction false} ItemTokensSolid(items: seq<Value>, k: seq<string>)
    requires Writable(Array(items)) && AllSolid(k)
    ensures AllSolid(ItemTokens(items, k))
    decreases items, 0
  {
    hide Solid, Tokens;
    if items != [] {
      if |items| > 1 {
        PlainSolid(",");
        ItemTokensSolid(items[1..], k);
        TokensSolid(items[0], [","] + ItemTokens(items[1..], k));
      } else {
        TokensSolid(items[0], k);
      }
    }
  }

  lemma {:induction false} MemberTokensSolid(ms: seq<Member>, k: seq<string>)
    requires Writable(Object(ms)) && AllSolid(k)
    ensures AllSolid(MemberTokens(ms, k))
    decreases ms, 0
  {
    hide Solid, Tokens, Quote;
    if ms != [] {
      PlainSolid(":");
      QuoteSolid(ms[0].name);
      if |ms| > 1 {
        PlainSolid(",");
        MemberTokensSolid(ms[1..], k);
        TokensSolid(ms[0].value, [","] + MemberTokens(ms[1..], k));
      } else {
        TokensSolid(ms[0].value, k);
      }
    }
  }

  /** Any text made of the tokens of a value is the fast text once the white space is erased. */
  lemma SpacedIsFast(text: string, v: Value)
    requires Writable(v) && Spaced(text, Tokens(v, []))
    ensures Strip(text) == Fast(v)
  {
    hide Tokens, Spaced, Fast;
    TokensSolid(v, []);
    ConcatTokens(v, []);
    StripSpaced(text, Tokens(v, []));
    assert Fast(v) + Concat([]) == Fast(v);
  }
}
