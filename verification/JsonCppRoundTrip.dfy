/** What either writer of tools/jsoncpp writes, the reader reads back. */
module JsonCppRoundTrip {
  import opened CBuffer
  import opened JsonCpp
  import opened JsonCppWriter
  import opened JsonCppStyled
  import opened JsonCppLex
  import opened JsonCppGrammar
  import opened JsonCppOrder
  import opened JsonCppReader

  lemma {:induction false} PrintableIsWritable(v: Value)
    requires Printable(v)
    ensures Writable(v)
  {
    match v
    case Array(items) =>
      forall i | 0 <= i < |items| ensures Writable(items[i]) {
        PrintableIsWritable(items[i]);
      }
    case Object(ms) =>
      forall i | 0 <= i < |ms| ensures NulFree(ms[i].name) && Writable(ms[i].value) {
        PrintableIsWritable(ms[i].value);
      }
    case _ =>
  }

  /** Any text with the tokens of a printable value is read as that value, whatever follows it. */
  lemma ParseSpaced(cfg: Config, strictRoot: bool, text: string, root: Value, v: Value, k: seq<string>)
    requires Printable(v) && Follows(k) && Spaced(text, Tokens(v, k))
    ensures ReadValue(cfg, text, root).value == Canon(v)
    ensures ParseFaults(cfg, strictRoot, text, root) == [] <==> !strictRoot || v.Array? || v.Object? || v.Null?
  {
    hide Spaced, Tokens, ReadValue;
    ValueRead(cfg, text, root, v, k);
  }

  /** The text of either writer through the reader. */
  method ReadBack(v: Value, styled: bool, reader: Reader) returns (ok: bool, result: Value)
    requires Printable(v)
    modifies reader
    ensures result == Canon(v)
    ensures ok <==> !reader.strictRoot || v.Array? || v.Object? || v.Null?
    ensures ok <==> reader.errors == []
  {
    hide Tokens, Spaced, Printable, Writable, ReadValue, ParseFaults;
    PrintableIsWritable(v);
    var text;
    if styled {
      var writer := new StyledWriter();
      text := writer.Write(v);
    } else {
      var writer := new FastWriter();
      text := writer.Write(v);
      FastRenders(v);
      RendersSpaced(Fast(v), v, "\n");
    }
    ParseSpaced(Config(reader.allowComments, reader.scans), reader.strictRoot, text, Null, v, []);
    ok, result := reader.Parse(text, Null);
  }

  /** For values whose objects are in order, as maps are, reading back changes nothing but the type of
      unsigned integers that fit the signed one, does so once, and does not show in the text. */
  lemma {:induction false} CanonIsStable(v: Value)
    requires Printable(v) && InOrder(v)
    ensures Canon(Canon(v)) == Canon(v) && Fast(Canon(v)) == Fast(v)
    decreases v, 1
  {
    match v
    case Array(items) =>
      var c := CanonItems(items);
      forall i | 0 <= i < |items| ensures Canon(c[i]) == c[i] && Fast(c[i]) == Fast(items[i]) {
        CanonIsStable(items[i]);
      }
      SameItems(c, items);
      assert CanonItems(c) == c;
    case Object(ms) =>
      var c := CanonMembers(ms);
      forall i | 0 <= i < |ms| ensures Canon(c[i].value) == c[i].value && Fast(c[i].value) == Fast(ms[i].value) {
        CanonIsStable(ms[i].value);
      }
      SameMembers(c, ms);
      assert CanonMembers(c) == c;
      CanonOfObject(ms);
      CanonOfObject(c);
    case _ =>
  }

  lemma {:induction false} SameItems(a: seq<Value>, b: seq<Value>)
    requires |a| == |b| && forall i | 0 <= i < |a| :: Fast(a[i]) == Fast(b[i])
    ensures FastItems(a) == FastItems(b)
  {
    hide Fast;
    if a != [] {
      SameItems(a[1..], b[1..]);
    }
  }

  lemma {:induction false} SameMembers(a: seq<JsonCpp.Member>, b: seq<JsonCpp.Member>)
    requires |a| == |b| && forall i | 0 <= i < |a| :: a[i].name == b[i].name && Fast(a[i].value) == Fast(b[i].value)
    ensures FastMembers(a) == FastMembers(b)
  {
    hide Fast;
    if a != [] {
      SameMembers(a[1..], b[1..]);
    }
  }
}
