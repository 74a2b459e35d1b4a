/**
What tools/jsoncpp/json_reader.cpp makes of a text, well-formed or not, as functions on the text that
is left. Section by section they follow readValue, readObject, readArray and recoverFromError.
*/
module JsonCppGrammar {
  import opened CBuffer
  import opened JsonCpp
  import opened JsonCppLex
  import opened Utf8

  /** A token: its type, the text from its first character on, and the text behind it. */
  datatype Lexed = Lexed(kind: TokenType, at: string, rest: string)

  datatype Fault = Fault(problem: Problem, token: Lexed)

  /** What was built, and the text behind it; a failure keeps what was built so far. */
  datatype Read = Good(value: Value, rest: string) | Failed(value: Value, rest: string, fault: Fault)

  /** allowComments_, and which texts sscanf takes for a double. */
  datatype Config = Config(allowComments: bool, scans: string -> bool)

  /** A token is not empty before the end, and a string has its quotes. */
  predicate Sound(t: Lexed) {
    && |t.rest| <= |t.at|
    && (!t.kind.EndOfStream? ==> |t.rest| < |t.at|)
    && (t.kind.StringToken? ==> |t.rest| + 2 <= |t.at|)
  }

  /** readToken. */
  function Take(s: string): (t: Lexed)
    ensures Sound(t) && |t.at| <= |s|
  {
    var r := SkipSpaces(s);
    var l := Lex(r);
    Lexed(l.kind, r, r[l.len..])
  }

  function PastComments(t: Lexed): (t': Lexed)
    requires Sound(t)
    ensures Sound(t') && |t'.at| <= |t.at| && |t'.rest| <= |t.rest| && !t'.kind.CommentToken?
    decreases |t.rest|
  {
    if !t.kind.CommentToken? then t
    else
      var next := Take(t.rest);
      if next.kind.CommentToken? then PastComments(next) else next
  }

  function TakePast(s: string): (t: Lexed)
    ensures Sound(t) && |t.at| <= |s| && !t.kind.CommentToken?
  {
    PastComments(Take(s))
  }

  /** skipCommentTokens. */
  function TakeValue(cfg: Config, s: string): (t: Lexed)
    ensures Sound(t) && |t.at| <= |s|
  {
    if cfg.allowComments then TakePast(s) else Take(s)
  }

  function TextOf(t: Lexed): (text: string)
    requires |t.rest| <= |t.at|
    ensures |text| == |t.at| - |t.rest|
  {
    t.at[..|t.at| - |t.rest|]
  }

  /** recoverFromError. */
  function Recover(s: string, until: TokenType): (r: string)
    ensures |r| <= |s|
    decreases |s|
  {
    var t := Take(s);
    if t.kind == until || t.kind.EndOfStream? then t.rest else Recover(t.rest, until)
  }

  /** Success takes something from the text, failure reports a token of it, and the message about the
      separators of an array is never given. */
  ghost predicate Within(r: Read, s: string) {
    && |r.rest| <= |s| && (r.Good? ==> |r.rest| < |s|)
    && (r.Failed? ==> |r.fault.token.rest| <= |r.fault.token.at| <= |s| && r.fault.problem != CommaOrBracketExpected)
  }

  /** readValue; `before` is the value in place. */
  function ReadValue(cfg: Config, s: string, before: Value): (r: Read)
    ensures Within(r, s)
    decreases |s|, 0
  {
    var t := TakeValue(cfg, s);
    if t.kind.ObjectBegin? then ReadMembers(cfg, t.rest, "", [])
    else if t.kind.ArrayBegin? then ReadArray(cfg, t.rest)
    else ReadScalar(cfg, t, before)
  }

  /** The cases of readValue for values that are no containers. */
  function ReadScalar(cfg: Config, t: Lexed, before: Value): (r: Read)
    requires Sound(t)
    ensures r.rest == t.rest && (r.Good? ==> !t.kind.EndOfStream?)
    ensures r.Failed? ==> r.fault.token == t && r.fault.problem != CommaOrBracketExpected
  {
    match t.kind
    case NumberToken =>
      (match NumberOf(TextOf(t), cfg.scans)
       case Number(v) => Good(v, t.rest)
       case NotANumber => Failed(before, t.rest, Fault(NumberExpected(TextOf(t)), t)))
    case StringToken =>
      (match Decode(Inside(TextOf(t)))
       case Text(text) => Good(String(text), t.rest)
       case Bad(problem) => Failed(before, t.rest, Fault(problem, t)))
    case TrueToken => Good(Bool(true), t.rest)
    case FalseToken => Good(Bool(false), t.rest)
    case NullToken => Good(Null, t.rest)
    case _ => Failed(before, t.rest, Fault(ValueExpected, t))
  }

  /** readArray, behind the opening bracket. */
  function ReadArray(cfg: Config, s: string): (r: Read)
    ensures Within(r, s)
    decreases |s|, 2
  {
    var inner := SkipSpaces(s);
    if inner != "" && inner[0] == ']' then Good(Array([]), Take(inner).rest) else ReadItems(cfg, inner, [])
  }

  /** readArray from the next element on: any token but the closing bracket separates two elements. */
  function ReadItems(cfg: Config, s: string, items: seq<Value>): (r: Read)
    ensures Within(r, s) && r.value.Array?
    decreases |s|, 1
  {
    match ReadValue(cfg, s, Null)
    case Failed(v, rest, fault) => Failed(Array(items + [v]), Recover(rest, ArrayEnd), fault)
    case Good(v, rest) =>
      var t := TakePast(rest);
      if t.kind.ArrayEnd? then Good(Array(items + [v]), t.rest) else ReadItems(cfg, t.rest, items + [v])
  }

  /** readObject from the next member on; `name` is that of the last. */
  function ReadMembers(cfg: Config, s: string, name: string, ms: seq<Member>): (r: Read)
    ensures Within(r, s) && r.value.Object?
    decreases |s|, 3
  {
    var t := TakePast(s);
    if t.kind.ObjectEnd? && name == "" then Good(Object(ms), t.rest)
    else if !t.kind.StringToken? then Failed(Object(ms), Recover(t.rest, ObjectEnd), Fault(NameExpected, t))
    else ReadMember(cfg, t, ms)
  }

  /** The round of readObject that starts with this name. */
  function ReadMember(cfg: Config, t: Lexed, ms: seq<Member>): (r: Read)
    requires Sound(t) && t.kind.StringToken?
    ensures Within(r, t.at) && (r.Good? ==> |r.rest| < |t.rest|) && r.value.Object?
    decreases |t.rest|, 2
  {
    match Decode(Inside(TextOf(t)))
    case Bad(problem) => Failed(Object(ms), Recover(t.rest, ObjectEnd), Fault(problem, t))
    case Text(name) =>
      var colon := Take(t.rest);
      if !colon.kind.MemberSeparator? then
        Failed(Object(ms), Recover(colon.rest, ObjectEnd), Fault(ColonExpected, colon))
      else
        match ReadValue(cfg, colon.rest, Lookup(ms, BeforeNul(name)))
        case Failed(v, rest, fault) => Failed(Object(Store(ms, BeforeNul(name), v)), Recover(rest, ObjectEnd), fault)
        case Good(v, rest) => AfterMember(cfg, rest, name, Store(ms, BeforeNul(name), v))
  }

  /** What may stand behind a member; behind a comment, any token is taken for a comma. */
  function AfterMember(cfg: Config, s: string, name: string, ms: seq<Member>): (r: Read)
    ensures Within(r, s) && r.value.Object?
    decreases |s|, 4
  {
    var comma := Take(s);
    if !comma.kind.ObjectEnd? && !comma.kind.ArraySeparator? && !comma.kind.CommentToken? then
      Failed(Object(ms), Recover(comma.rest, ObjectEnd), Fault(CommaOrBraceExpected, comma))
    else
      var next := PastComments(comma);
      if next.kind.ObjectEnd? then Good(Object(ms), next.rest) else ReadMembers(cfg, next.rest, name, ms)
  }

  /** parse: the faults it records and the value it leaves. */
  function ParseFaults(cfg: Config, strictRoot: bool, text: string, root: Value): seq<Fault> {
    var r := ReadValue(cfg, text, root);
    (if r.Failed? then [r.fault] else [])
    + (if strictRoot && !Rooted(r.value) then [Fault(RootIsScalar, Lexed(ErrorToken, text, ""))] else [])
  }

  /** isArray() || isObject(), which both hold of null. */
  predicate Rooted(v: Value) { v.Array? || v.Object? || v.Null? }

  // ----- The reader reads what the writers write -----

  ghost function First(v: Value): string {
    match v
    case Array(_) => "["
    case Object(_) => "{"
    case _ => Scalar(v)
  }

  ghost function Behind(v: Value, k: seq<string>): seq<string> {
    match v
    case Array(items) => ItemTokens(items, ["]"] + k)
    case Object(ms) => MemberTokens(ms, ["}"] + k)
    case _ => k
  }

  function TypeOf(v: Value): TokenType {
    match v
    case Null => NullToken
    case Bool(b) => if b then TrueToken else FalseToken
    case String(_) => StringToken
    case Array(_) => ArrayBegin
    case Object(_) => ObjectBegin
    case _ => NumberToken
  }

  lemma FirstToken(v: Value, k: seq<string>)
    requires Printable(v) && Follows(k)
    ensures First(v) != "" && Tokens(v, k) == [First(v)] + Behind(v, k)
    ensures Whole(First(v), Behind(v, k)) && Kind(First(v)) == TypeOf(v) && First(v)[0] != ']'
  {
    hide ItemTokens, MemberTokens, NumberChar;
    if v.Int? || v.UInt? {
      FirstDigits(v);
    } else if v.String? {
      assert First(v) == Quote(v.s);
    }
  }

  lemma FirstDigits(v: Value)
    requires v.Int? || v.UInt?
    ensures Scalar(v) != "" && ('0' <= Scalar(v)[0] <= '9' || Scalar(v)[0] == '-')
    ensures forall i | 0 <= i < |Scalar(v)| :: NumberChar(Scalar(v)[i])
  {
    DecimalStarts(if v.UInt? then v.u else if v.i < 0 then -v.i else v.i);
  }

  /** The next token of a text known by its tokens. */
  lemma Takes(s: string, text: string, k: seq<string>)
    requires text != "" && Whole(text, k) && Spaced(s, [text] + k)
    ensures var t := Take(s);
            && t.kind == Kind(text) && TextOf(t) == text && Spaced(t.rest, k)
            && TakePast(s) == t
  {
    NextToken(s, text, k);
    hide Spaced, Whole, Lex, SkipSpaces;
    assert Take(s).at[..|text|] == text;
  }

  lemma {:induction false} ValueRead(cfg: Config, s: string, before: Value, v: Value, k: seq<string>)
    requires Printable(v) && Follows(k) && Spaced(s, Tokens(v, k))
    ensures var r := ReadValue(cfg, s, before); r.Good? && r.value == Canon(v) && Spaced(r.rest, k)
    decreases v, 1
  {
    hide Spaced, Tokens, Whole, Take, TakePast, Kind, ReadScalar, ReadMembers, ReadItems, Printable;
    FirstToken(v, k);
    Takes(s, First(v), Behind(v, k));
    var t := Take(s);
    match v
    case Array(items) =>
      ItemsPrintable(items);
      ArrayRead(cfg, t.rest, items, k);
    case Object(ms) =>
      MembersPrintable(ms);
      MembersRead(cfg, t.rest, "", [], ms, k);
    case _ => ScalarRead(cfg, t, before, v);
  }

  lemma ScalarRead(cfg: Config, t: Lexed, before: Value, v: Value)
    requires !v.Array? && !v.Object? && Printable(v)
    requires Sound(t) && t.kind == TypeOf(v) && TextOf(t) == First(v)
    ensures ReadScalar(cfg, t, before) == Good(Canon(v), t.rest)
  {
    hide Decode, NumberOf, Quote;
    if v.Int? || v.UInt? {
      NumberReadsBack(v, cfg.scans);
    } else if v.String? {
      QuoteInside(v.s);
    }
  }

  /** Behind the opening bracket of an array. */
  lemma {:induction false} ArrayRead(cfg: Config, s: string, items: seq<Value>, k: seq<string>)
    requires PrintableItems(items) && Follows(k) && Spaced(s, ItemTokens(items, ["]"] + k))
    ensures var r := ReadArray(cfg, s);
            r.Good? && r.value == Array(CanonItems(items)) && Spaced(r.rest, k)
    decreases items, 3
  {
    SkipAgain(s);
    var inner := SkipSpaces(s);
    if items == [] {
      Takes(inner, "]", k);
      assert "]" <= inner;
    } else {
      var after := AfterFirst(items, k);
      FirstToken(items[0], after);
      assert First(items[0]) <= inner;
      ItemsRead(cfg, inner, [], items, k);
      assert [] + CanonItems(items) == CanonItems(items);
    }
  }

  predicate PrintableItems(items: seq<Value>) { forall i | 0 <= i < |items| :: Printable(items[i]) }

  lemma ItemsPrintable(items: seq<Value>)
    requires Printable(Array(items))
    ensures PrintableItems(items)
  {
  }

  ghost function AfterFirst(items: seq<Value>, k: seq<string>): (after: seq<string>)
    requires items != []
    ensures ItemTokens(items, ["]"] + k) == Tokens(items[0], after) && Follows(after)
  {
    if |items| > 1 then [","] + ItemTokens(items[1..], ["]"] + k) else ["]"] + k
  }

  lemma {:induction false} ItemsRead(cfg: Config, s: string, done: seq<Value>, items: seq<Value>, k: seq<string>)
    requires items != [] && PrintableItems(items) && Spaced(s, ItemTokens(items, ["]"] + k))
    ensures var r := ReadItems(cfg, s, done);
            r.Good? && r.value == Array(done + CanonItems(items)) && Spaced(r.rest, k)
    decreases items, 2
  {
    hide Spaced, Tokens, ItemTokens, Take, TakePast, Printable, Canon, ReadValue;
    ValueRead(cfg, s, Null, items[0], AfterFirst(items, k));
    var rest := ReadValue(cfg, s, Null).rest;
    if |items| > 1 {
      Takes(rest, ",", ItemTokens(items[1..], ["]"] + k));
      ItemsRead(cfg, Take(rest).rest, done + [Canon(items[0])], items[1..], k);
      assert done + [Canon(items[0])] + CanonItems(items[1..]) == done + CanonItems(items);
    } else {
      Takes(rest, "]", k);
      assert CanonItems(items) == [Canon(items[0])];
    }
  }

  lemma {:induction false} SkipAgain(s: string)
    ensures SkipSpaces(SkipSpaces(s)) == SkipSpaces(s)
  {
    if s != "" && IsSpace(s[0]) {
      SkipAgain(s[1..]);
    }
  }

  predicate PrintableMembers(ms: seq<Member>) {
    forall i | 0 <= i < |ms| :: NulFree(ms[i].name) && Printable(ms[i].value)
  }

  lemma MembersPrintable(ms: seq<Member>)
    requires Printable(Object(ms))
    ensures PrintableMembers(ms)
  {
  }

  ghost function AfterValue(ms: seq<Member>, k: seq<string>): (after: seq<string>)
    requires ms != []
    ensures Follows(after)
  {
    if |ms| > 1 then [","] + MemberTokens(ms[1..], ["}"] + k) else ["}"] + k
  }

  lemma MemberTokensFirst(ms: seq<Member>, k: seq<string>)
    requires ms != []
    ensures MemberTokens(ms, ["}"] + k) == [Quote(ms[0].name)] + ([":"] + Tokens(ms[0].value, AfterValue(ms, k)))
  {
    hide Tokens, Quote;
    var rest := Tokens(ms[0].value, AfterValue(ms, k));
    assert [Quote(ms[0].name), ":"] + rest == [Quote(ms[0].name)] + ([":"] + rest);
  }

  /** Members are read one by one, in whatever order they come and however often: each is stored over
      what its name already had. */
  lemma {:induction false} MembersRead(cfg: Config, s: string, name: string, done: seq<Member>, ms: seq<Member>, k: seq<string>)
    requires PrintableMembers(ms) && (ms == [] ==> name == "") && Spaced(s, MemberTokens(ms, ["}"] + k))
    ensures var r := ReadMembers(cfg, s, name, done);
            r.Good? && r.value == Object(StoreAll(done, CanonMembers(ms))) && Spaced(r.rest, k)
    decreases ms, 3
  {
    hide Spaced, Tokens, Take, TakePast, ReadMember;
    if ms == [] {
      Takes(s, "}", k);
    } else {
      MemberTokensFirst(ms, k);
      Takes(s, Quote(ms[0].name), [":"] + Tokens(ms[0].value, AfterValue(ms, k)));
      MemberRead(cfg, Take(s), done, ms, k);
    }
  }

  lemma {:induction false} MemberRead(cfg: Config, t: Lexed, done: seq<Member>, ms: seq<Member>, k: seq<string>)
    requires ms != [] && PrintableMembers(ms) && Sound(t) && t.kind.StringToken? && TextOf(t) == Quote(ms[0].name)
    requires Spaced(t.rest, [":"] + Tokens(ms[0].value, AfterValue(ms, k)))
    ensures var r := ReadMember(cfg, t, done);
            r.Good? && r.value == Object(StoreAll(done, CanonMembers(ms))) && Spaced(r.rest, k)
    decreases ms, 2
  {
    hide Spaced, Tokens, MemberTokens, Take, TakePast, Quote, Decode, Canon, CanonMembers, ReadValue, AfterMember, Store, StoreAll,
         Lookup, Printable, NulFree;
    var name := ms[0].name;
    QuoteInside(name);
    BeforeNulWhole(name);
    Takes(t.rest, ":", Tokens(ms[0].value, AfterValue(ms, k)));
    var colon := Take(t.rest);
    ValueRead(cfg, colon.rest, Lookup(done, name), ms[0].value, AfterValue(ms, k));
    MemberEnds(cfg, ReadValue(cfg, colon.rest, Lookup(done, name)).rest, name, Store(done, name, Canon(ms[0].value)), ms, k);
    CanonFirst(done, ms);
  }

  /** What follows a member that is already stored. */
  lemma {:induction false} MemberEnds(cfg: Config, s: string, name: string, done: seq<Member>, ms: seq<Member>, k: seq<string>)
    requires ms != [] && PrintableMembers(ms) && Spaced(s, AfterValue(ms, k))
    ensures var r := AfterMember(cfg, s, name, done);
            r.Good? && r.value == Object(StoreAll(done, CanonMembers(ms[1..]))) && Spaced(r.rest, k)
    decreases ms, 1
  {
    hide Spaced, Tokens, MemberTokens, Take, TakePast, Canon, ReadMembers, Recover;
    if |ms| > 1 {
      Takes(s, ",", MemberTokens(ms[1..], ["}"] + k));
      MembersRead(cfg, Take(s).rest, name, done, ms[1..], k);
    } else {
      Takes(s, "}", k);
    }
  }

  lemma CanonFirst(done: seq<Member>, ms: seq<Member>)
    requires ms != []
    ensures StoreAll(done, CanonMembers(ms))
         == StoreAll(Store(done, ms[0].name, Canon(ms[0].value)), CanonMembers(ms[1..]))
  {
    hide Canon, Store;
    assert CanonMembers(ms)[1..] == CanonMembers(ms[1..]);
  }

  lemma Nested3<T>(a: seq<T>, b: seq<T>, c: seq<T>)
    ensures a + b + c == a + (b + c) && (c == [] ==> a + b == a + (b + c))
  {
  }

  // ----- The separators of an array -----

  /** The tokens of some elements with any text between them. */
  ghost function Separated(items: seq<Value>, sep: string, k: seq<string>): seq<string> {
    if items == [] then k else Tokens(items[0], if |items| > 1 then [sep] + Separated(items[1..], sep, k) else k)
  }

  /** A token that no number runs into. */
  ghost predicate Separator(sep: string) {
    sep != "" && Follows([sep]) && forall k :: Whole(sep, k)
  }

  /** Two or more elements are read as such if and only if what separates them is not the closing bracket:
      the test for a bad separator never fails anything. */
  lemma {:induction false} AnySeparator(cfg: Config, s: string, done: seq<Value>, items: seq<Value>, sep: string, k: seq<string>)
    requires |items| > 1 && PrintableItems(items) && Separator(sep) && Spaced(s, Separated(items, sep, ["]"] + k))
    ensures var r := ReadItems(cfg, s, done);
            (r.Good? && r.value == Array(done + CanonItems(items))) <==> Kind(sep) != ArrayEnd
    decreases items
  {
    hide Spaced, Tokens, Take, TakePast, Printable, Canon, ReadValue, Whole, Separated, Kind;
    FirstSeparated(items, sep, k);
    var rest := Separated(items[1..], sep, ["]"] + k);
    ValueRead(cfg, s, Null, items[0], [sep] + rest);
    var after := ReadValue(cfg, s, Null).rest;
    Takes(after, sep, rest);
    var v := Canon(items[0]);
    assert CanonItems(items) == [v] + CanonItems(items[1..]);
    if Kind(sep) != ArrayEnd {
      if |items| == 2 {
        LastSeparated(items[1..], sep, k);
        ItemsRead(cfg, Take(after).rest, done + [v], items[1..], k);
      } else {
        AnySeparator(cfg, Take(after).rest, done + [v], items[1..], sep, k);
      }
      Nested3(done, [v], CanonItems(items[1..]));
    }
  }

  lemma FirstSeparated(items: seq<Value>, sep: string, k: seq<string>)
    requires |items| > 1
    ensures Separated(items, sep, ["]"] + k) == Tokens(items[0], [sep] + Separated(items[1..], sep, ["]"] + k))
  {
  }

  lemma LastSeparated(items: seq<Value>, sep: string, k: seq<string>)
    requires |items| == 1
    ensures Separated(items, sep, ["]"] + k) == ItemTokens(items, ["]"] + k)
  {
  }

  /** A colon is taken for a comma. */
  lemma ColonSeparates(cfg: Config)
    ensures var r := ReadItems(cfg, "1:3]", []); r.Good? && r.value == Array([Int(1), Int(3)])
  {
    var items, sep, s := [Int(1), Int(3)], ":", "1:3]";
    ColonTokens("3]", s);
    ColonSeparated(sep);
    ColonIsSeparator(sep);
    SmallInts(items);
    hide Spaced, Separated, ReadItems, Separator, Kind, Whole, Printable, Canon, CanonItems;
    AnySeparator(cfg, s, [], items, sep, []);
  }

  lemma SmallInts(items: seq<Value>)
    requires items == [Int(1), Int(3)]
    ensures PrintableItems(items) && [] + CanonItems(items) == items
  {
  }

  lemma ColonIsSeparator(sep: string)
    requires sep == ":"
    ensures Separator(sep) && Kind(sep) == MemberSeparator
  {
  }

  lemma ColonTokens(s3: string, s1: string)
    requires s3 == "3" + "]" && s1 == "1" + (":" + s3)
    ensures Spaced(s1, ["1"] + ([":"] + (["3"] + ["]"])))
  {
    assert Spaced("]", ["]"]) by {
      assert "]"[1..] == "" && ["]"][1..] == [];
    }
    SpacedToken("3", "]", ["]"]);
    SpacedToken(":", s3, ["3"] + ["]"]);
    SpacedToken("1", ":" + s3, [":"] + (["3"] + ["]"]));
  }

  lemma ColonSeparated(sep: string)
    ensures Separated([Int(1), Int(3)], sep, ["]"] + []) == ["1"] + ([sep] + (["3"] + ["]"]))
  {
    assert Decimal(1) == "1" && Decimal(3) == "3";
    assert [Int(1), Int(3)][1..] == [Int(3)];
  }
}
