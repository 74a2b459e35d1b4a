/** FastWriter and StyledWriter of tools/jsoncpp/json_writer.cpp, for values without comments. */
module JsonCppWriter {
  import opened CBuffer
  import opened JsonCpp
  import opened Utf8

  // ----- Texts of tokens -----

  lemma {:induction false} EscapeAppend(s: string, i: nat)
    requires i < |s|
    ensures Escape(s[..i + 1]) == Escape(s[..i]) + EscapeChar(s[i])
  {
    if i == 0 {
      assert s[..1] == [s[0]] && s[..1][1..] == "";
    } else {
      EscapeAppend(s[1..], i - 1);
      assert s[..i + 1][1..] == s[1..][..i] && s[..i][1..] == s[1..][..i - 1];
    }
  }

  lemma {:induction false} NothingToEscape(s: string)
    requires forall i | 0 <= i < |s| :: ShortEscape(s[i]) == '\0' && !IsControl(s[i])
    ensures Escape(s) == s
  {
    if s != "" {
      NothingToEscape(s[1..]);
    }
  }

  /** valueToQuotedString: a plain copy if nothing needs escaping, else character by character. */
  method ValueToQuotedString(value: string) returns (result: string)
    requires NulFree(value)
    ensures result == Quote(value)
  {
    var special := false;
    for i := 0 to |value|
      invariant !special ==> forall k | 0 <= k < i :: ShortEscape(value[k]) == '\0' && !IsControl(value[k])
    {
      special := special || ShortEscape(value[i]) != '\0' || IsControl(value[i]);
    }
    if !special {
      NothingToEscape(value);
      return "\"" + value + "\"";
    }
    result := "\"";
    assert value[..0] == "";
    for i := 0 to |value|
      invariant result == "\"" + Escape(value[..i])
    {
      EscapeAppend(value, i);
      if ShortEscape(value[i]) != '\0' {
        result := result + ['\\', ShortEscape(value[i])];
      } else if IsControl(value[i]) {
        result := result + ("\\u00" + [UpperHexDigit(value[i] as int / 16), UpperHexDigit(value[i] as int % 16)]);
      } else {
        result := result + [value[i]];
      }
    }
    assert value[..|value|] == value;
    result := result + "\"";
  }

  /** uintToString: digits written from the back. */
  method UintToString(value: nat) returns (s: string)
    ensures s == Decimal(value)
  {
    var v := value;
    s := [DigitChar(v % 10)];
    v := v / 10;
    while v != 0
      invariant Decimal(value) == (if v == 0 then "" else Decimal(v)) + s
    {
      s := [DigitChar(v % 10)] + s;
      v := v / 10;
    }
  }

  /** valueToString and valueToQuotedString, by type. */
  method ScalarText(v: Value) returns (s: string)
    requires !v.Array? && !v.Object? && Writable(v)
    ensures s == Scalar(v)
  {
    match v
    case Null => s := "null";
    case Bool(b) => s := if b then "true" else "false";
    case Int(i) =>
      s := UintToString(if i < 0 then -i else i);
      if i < 0 { s := "-" + s; }
    case UInt(u) => s := UintToString(u);
    case Real(text) => s := text;
    case String(str) => s := ValueToQuotedString(str);
  }

  /** Strings are C strings, and the text of a real is made of the characters of a number. */
  predicate Writable(v: Value) {
    match v
    case Real(text) => text != "" && forall i | 0 <= i < |text| :: NumberChar(text[i])
    case String(s) => NulFree(s)
    case Array(items) => forall i | 0 <= i < |items| :: Writable(items[i])
    case Object(ms) => forall i | 0 <= i < |ms| :: NulFree(ms[i].name) && Writable(ms[i].value)
    case _ => true
  }

  // ----- FastWriter -----

  function Fast(v: Value): string
    decreases v, 1
  {
    match v
    case Array(items) => "[" + FastItems(items) + "]"
    case Object(ms) => "{" + FastMembers(ms) + "}"
    case _ => Scalar(v)
  }

  function FastItems(items: seq<Value>): string
    decreases items, 0
  {
    if items == [] then "" else Fast(items[0]) + (if |items| > 1 then "," else "") + FastItems(items[1..])
  }

  function FastMembers(ms: seq<Member>): string
    decreases ms, 0
  {
    if ms == [] then ""
    else Quote(ms[0].name) + ":" + Fast(ms[0].value) + (if |ms| > 1 then "," else "") + FastMembers(ms[1..])
  }

  class FastWriter {
    var document: string

    constructor ()
      ensures document == ""
    {
      document := "";
    }

    /** FastWriter::write. */
    method Write(root: Value) returns (text: string)
      requires Writable(root)
      modifies this
      ensures text == Fast(root) + "\n"
    {
      document := "";
      WriteValue(root);
      document := document + "\n";
      text := document;
    }

    method WriteValue(value: Value)
      requires Writable(value)
      modifies this
      ensures document == old(document) + Fast(value)
      decreases value, 1
    {
      match value
      case Array(items) =>
        WriteArray(value);
      case Object(ms) =>
        WriteObject(value);
      case _ =>
        var text := ScalarText(value);
        document := document + text;
    }

    method WriteArray(value: Value)
      requires Writable(value) && value.Array?
      modifies this
      ensures document == old(document) + Fast(value)
      decreases value, 0
    {
      hide Fast;
      var items := value.items;
      document := document + "[";
      ghost var start := document;
      for index := 0 to |items|
        invariant document == FastFirstItems(start, items, index)
      {
        if index > 0 {
          document := document + ",";
        }
        WriteValue(items[index]);
      }
      document := document + "]";
      FastArray(old(document), items);
    }

    method WriteObject(value: Value)
      requires Writable(value) && value.Object?
      modifies this
      ensures document == old(document) + Fast(value)
      decreases value, 0
    {
      hide Fast, Quote;
      var ms := value.members;
      document := document + "{";
      ghost var start := document;
      for index := 0 to |ms|
        invariant document == FastFirstMembers(start, ms, index)
      {
        if index > 0 {
          document := document + ",";
        }
        var name := ValueToQuotedString(ms[index].name);
        document := document + name;
        document := document + ":";
        WriteValue(ms[index].value);
      }
      document := document + "}";
      FastObject(old(document), ms);
    }
  }

  /** The document once the loop of the writer has put the first n elements behind doc. */
  ghost function FastFirstItems(doc: string, items: seq<Value>, n: nat): string
    requires n <= |items|
  {
    if n == 0 then doc
    else
      var before := FastFirstItems(doc, items, n - 1);
      (if n > 1 then before + "," else before) + Fast(items[n - 1])
  }

  ghost function FastFirstMembers(doc: string, ms: seq<Member>, n: nat): string
    requires n <= |ms|
  {
    if n == 0 then doc
    else
      var before := FastFirstMembers(doc, ms, n - 1);
      (if n > 1 then before + "," else before) + Quote(ms[n - 1].name) + ":" + Fast(ms[n - 1].value)
  }

  lemma {:induction false} FastItemsFrom(doc: string, items: seq<Value>, n: nat)
    requires n <= |items|
    ensures FastFirstItems(doc, items, |items|)
         == FastFirstItems(doc, items, n) + (if 0 < n < |items| then "," else "") + FastItems(items[n..])
    decreases |items| - n
  {
    hide Fast;
    if n < |items| {
      FastItemsFrom(doc, items, n + 1);
      assert items[n..][1..] == items[n + 1..];
    }
  }

  lemma {:induction false} FastMembersFrom(doc: string, ms: seq<Member>, n: nat)
    requires n <= |ms|
    ensures FastFirstMembers(doc, ms, |ms|)
         == FastFirstMembers(doc, ms, n) + (if 0 < n < |ms| then "," else "") + FastMembers(ms[n..])
    decreases |ms| - n
  {
    hide Fast, Quote;
    if n < |ms| {
      FastMembersFrom(doc, ms, n + 1);
      assert ms[n..][1..] == ms[n + 1..];
    }
  }

  lemma Wrapped(doc: string, open: string, inner: string, close: string)
    ensures doc + open + "" + inner + close == doc + (open + inner + close)
  {
  }

  lemma FastArray(doc: string, items: seq<Value>)
    ensures FastFirstItems(doc + "[", items, |items|) + "]" == doc + Fast(Array(items))
  {
    hide FastItems;
    FastItemsFrom(doc + "[", items, 0);
    assert items[0..] == items;
    Wrapped(doc, "[", FastItems(items), "]");
  }

  lemma FastObject(doc: string, ms: seq<Member>)
    ensures FastFirstMembers(doc + "{", ms, |ms|) + "}" == doc + Fast(Object(ms))
  {
    hide FastMembers;
    FastMembersFrom(doc + "{", ms, 0);
    assert ms[0..] == ms;
    Wrapped(doc, "{", FastMembers(ms), "}");
  }

  // ----- A text that renders an array or object, built from the front -----

  /** What is written so far of an array: it lacks the elements from i on and the closing bracket. */
  ghost predicate ArrayPart(t: string, items: seq<Value>, i: nat)
    requires i <= |items|
  {
    forall s, k | Spaced(s, ItemTokens(items[i..], ["]"] + k)) :: Spaced(t + s, Tokens(Array(items), k))
  }

  ghost predicate ObjectPart(t: string, ms: seq<Member>, i: nat)
    requires i <= |ms|
  {
    forall s, k | Spaced(s, MemberTokens(ms[i..], ["}"] + k)) :: Spaced(t + s, Tokens(Object(ms), k))
  }

  lemma ArrayOpen(items: seq<Value>)
    ensures ArrayPart("[", items, 0)
  {
    assert items[0..] == items;
    forall s, k | Spaced(s, ItemTokens(items[0..], ["]"] + k)) ensures Spaced("[" + s, Tokens(Array(items), k)) {
      SpacedToken("[", s, ItemTokens(items, ["]"] + k));
    }
  }

  lemma ArrayElement(t: string, items: seq<Value>, i: nat, before: string, text: string, after: string)
    requires i < |items| && ArrayPart(t, items, i) && Spaces(before) && Spaces(after) && Renders(text, items[i])
    ensures ArrayPart(t + before + text + (if i + 1 < |items| then "," else "") + after, items, i + 1)
  {
    hide Tokens, Renders, Spaced, ItemTokens;
    var comma := if i + 1 < |items| then "," else "";
    forall s, k | Spaced(s, ItemTokens(items[i + 1..], ["]"] + k))
      ensures Spaced(t + before + text + comma + after + s, Tokens(Array(items), k))
    {
      ElementSpaced(items, i, before, text, after, s, k);
      assert t + before + text + comma + after + s == t + (before + (text + (comma + (after + s))));
    }
  }

  lemma ElementSpaced(items: seq<Value>, i: nat, before: string, text: string, after: string, s: string, k: seq<string>)
    requires i < |items| && Spaces(before) && Spaces(after) && Renders(text, items[i])
    requires Spaced(s, ItemTokens(items[i + 1..], ["]"] + k))
    ensures Spaced(before + (text + ((if i + 1 < |items| then "," else "") + (after + s))),
                   ItemTokens(items[i..], ["]"] + k))
  {
    hide Tokens;
    var more := i + 1 < |items|;
    var rest := ItemTokens(items[i + 1..], ["]"] + k);
    var toks := if more then [","] + rest else ["]"] + k;
    var s' := (if more then "," else "") + (after + s);
    assert Spaced(s', toks) by {
      SpacedMore(after, s, rest);
      if more { SpacedToken(",", after + s, rest); } else { assert s' == after + s; }
    }
    assert Spaced(text + s', Tokens(items[i], toks));
    hide Spaced;
    SpacedMore(before, text + s', Tokens(items[i], toks));
    assert items[i..][1..] == items[i + 1..];
    assert ItemTokens(items[i..], ["]"] + k) == Tokens(items[i], toks);
  }

  lemma ArrayClose(t: string, items: seq<Value>, before: string)
    requires ArrayPart(t, items, |items|) && Spaces(before)
    ensures Renders(t + before + "]", Array(items))
  {
    forall s, k | Spaced(s, k) ensures Spaced(t + before + "]" + s, Tokens(Array(items), k)) {
      SpacedToken("]", s, k);
      SpacedMore(before, "]" + s, ["]"] + k);
      assert items[|items|..] == [];
      assert t + before + "]" + s == t + (before + ("]" + s));
    }
  }

  lemma ObjectOpen(ms: seq<Member>)
    ensures ObjectPart("{", ms, 0)
  {
    assert ms[0..] == ms;
    forall s, k | Spaced(s, MemberTokens(ms[0..], ["}"] + k)) ensures Spaced("{" + s, Tokens(Object(ms), k)) {
      SpacedToken("{", s, MemberTokens(ms, ["}"] + k));
    }
  }

  lemma ObjectMember(t: string, ms: seq<Member>, i: nat, before: string, colon: string, text: string)
    requires i < |ms| && ObjectPart(t, ms, i) && Spaces(before) && Renders(text, ms[i].value)
    requires colon == ":" || colon == " : "
    ensures ObjectPart(t + before + Quote(ms[i].name) + colon + text + (if i + 1 < |ms| then "," else ""), ms, i + 1)
  {
    hide Tokens, Renders, Quote, Spaced, MemberTokens;
    var name, comma := Quote(ms[i].name), if i + 1 < |ms| then "," else "";
    forall s, k | Spaced(s, MemberTokens(ms[i + 1..], ["}"] + k))
      ensures Spaced(t + before + name + colon + text + comma + s, Tokens(Object(ms), k))
    {
      MemberSpaced(ms, i, before, colon, text, s, k);
      Regroup(t, before, name, colon, text, comma, s);
    }
  }

  lemma Regroup(t: string, before: string, name: string, colon: string, text: string, comma: string, s: string)
    ensures t + before + name + colon + text + comma + s == t + (before + (name + (colon + (text + (comma + s)))))
  {
  }

  lemma MemberSpaced(ms: seq<Member>, i: nat, before: string, colon: string, text: string, s: string, k: seq<string>)
    requires i < |ms| && Spaces(before) && Renders(text, ms[i].value) && (colon == ":" || colon == " : ")
    requires Spaced(s, MemberTokens(ms[i + 1..], ["}"] + k))
    ensures Spaced(before + (Quote(ms[i].name) + (colon + (text + ((if i + 1 < |ms| then "," else "") + s)))),
                   MemberTokens(ms[i..], ["}"] + k))
  {
    hide Tokens;
    var more := i + 1 < |ms|;
    var name := Quote(ms[i].name);
    var rest := MemberTokens(ms[i + 1..], ["}"] + k);
    var toks := if more then [","] + rest else ["}"] + k;
    var s' := (if more then "," else "") + s;
    assert Spaced(s', toks) by {
      if more { SpacedToken(",", s, rest); } else { assert s' == s; }
    }
    assert Spaced(text + s', Tokens(ms[i].value, toks));
    hide Spaced;
    ColonAfter(name, colon, text + s', Tokens(ms[i].value, toks));
    SpacedMore(before, name + (colon + (text + s')), [name, ":"] + Tokens(ms[i].value, toks));
    assert ms[i..][1..] == ms[i + 1..];
    assert MemberTokens(ms[i..], ["}"] + k) == [name, ":"] + Tokens(ms[i].value, toks);
  }

  lemma ColonAfter(name: string, colon: string, s: string, k: seq<string>)
    requires name != "" && !IsSpace(name[0]) && Spaced(s, k) && (colon == ":" || colon == " : ")
    ensures Spaced(name + (colon + s), [name, ":"] + k)
  {
    if colon == ":" {
      SpacedToken(":", s, k);
    } else {
      SpacedMore(" ", s, k);
      SpacedToken(":", " " + s, k);
      SpacedMore(" ", ":" + (" " + s), [":"] + k);
      assert " : " + s == " " + (":" + (" " + s));
    }
    SpacedToken(name, colon + s, [":"] + k);
    assert [name, ":"] + k == [name] + ([":"] + k);
  }

  lemma ObjectClose(t: string, ms: seq<Member>, before: string)
    requires ObjectPart(t, ms, |ms|) && Spaces(before)
    ensures Renders(t + before + "}", Object(ms))
  {
    forall s, k | Spaced(s, k) ensures Spaced(t + before + "}" + s, Tokens(Object(ms), k)) {
      SpacedToken("}", s, k);
      SpacedMore(before, "}" + s, ["}"] + k);
      assert ms[|ms|..] == [];
      assert t + before + "}" + s == t + (before + ("}" + s));
    }
  }

  lemma ScalarRenders(v: Value)
    requires !v.Array? && !v.Object? && Writable(v)
    ensures Renders(Scalar(v), v)
  {
    match v {
      case Int(i) => DecimalStarts(if i < 0 then -i else i);
      case UInt(u) => DecimalStarts(u);
      case _ =>
    }
    forall s, k | Spaced(s, k) ensures Spaced(Scalar(v) + s, Tokens(v, k)) {
      SpacedToken(Scalar(v), s, k);
    }
  }

  /** The fast text renders its value. */
  lemma {:induction false} FastRenders(v: Value)
    requires Writable(v)
    ensures Renders(Fast(v), v)
    decreases v, 1
  {
    match v
    case Array(items) =>
      ArrayOpen(items);
      FastItemsRender("[", items, 0);
      ArrayClose("[" + FastItems(items), items, "");
      assert items[0..] == items && "[" + FastItems(items) + "" + "]" == Fast(v);
    case Object(ms) =>
      ObjectOpen(ms);
      FastMembersRender("{", ms, 0);
      ObjectClose("{" + FastMembers(ms), ms, "");
      assert ms[0..] == ms && "{" + FastMembers(ms) + "" + "}" == Fast(v);
    case _ => ScalarRenders(v);
  }

  lemma {:induction false} FastItemsRender(t: string, items: seq<Value>, i: nat)
    requires i <= |items| && ArrayPart(t, items, i) && Writable(Array(items))
    ensures ArrayPart(t + FastItems(items[i..]), items, |items|)
    decreases items, 0, |items| - i
  {
    hide Fast, ArrayPart, Renders;
    if i == |items| {
      assert t + FastItems(items[i..]) == t;
    } else {
      FastRenders(items[i]);
      var comma := if i + 1 < |items| then "," else "";
      var t' := t + Fast(items[i]) + comma;
      ArrayElement(t, items, i, "", Fast(items[i]), "");
      assert t + "" + Fast(items[i]) + comma + "" == t';
      FastItemsRender(t', items, i + 1);
      assert items[i..][1..] == items[i + 1..];
      assert t' + FastItems(items[i + 1..]) == t + FastItems(items[i..]);
    }
  }

  lemma {:induction false} FastMembersRender(t: string, ms: seq<Member>, i: nat)
    requires i <= |ms| && ObjectPart(t, ms, i) && Writable(Object(ms))
    ensures ObjectPart(t + FastMembers(ms[i..]), ms, |ms|)
    decreases ms, 0, |ms| - i
  {
    hide Fast, Quote, ObjectPart, Renders;
    if i == |ms| {
      assert t + FastMembers(ms[i..]) == t;
    } else {
      FastRenders(ms[i].value);
      var comma := if i + 1 < |ms| then "," else "";
      var line := Quote(ms[i].name) + ":" + Fast(ms[i].value) + comma;
      ObjectMember(t, ms, i, "", ":", Fast(ms[i].value));
      assert t + "" + Quote(ms[i].name) + ":" + Fast(ms[i].value) + comma == t + line;
      FastMembersRender(t + line, ms, i + 1);
      assert ms[i..][1..] == ms[i + 1..];
      assert t + line + FastMembers(ms[i + 1..]) == t + FastMembers(ms[i..]);
    }
  }
}
