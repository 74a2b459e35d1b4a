/**
Which texts tools/jsoncpp/json_reader.cpp accepts, well-formed or not: exactly those whose tokens begin
with a value of a lenient grammar, given here without the reader.
*/
module JsonCppAccepts {
  import opened CBuffer
  import opened JsonCpp
  import opened JsonCppLex
  import opened JsonCppGrammar

  /** A token by its type and its text. */
  datatype Tok = Tok(kind: TokenType, text: string)

  function TokOf(t: Lexed): Tok
    requires Sound(t)
  {
    Tok(t.kind, TextOf(t))
  }

  /** These tokens are what the text begins with, one after the other, and r is what is left. */
  predicate Lexes(s: string, toks: seq<Tok>, r: string)
    decreases |toks|
  {
    if toks == [] then r == s
    else TokOf(Take(s)) == toks[0] && Lexes(Take(s).rest, toks[1..], r)
  }

  const LBRACE := Tok(ObjectBegin, "{")
  const RBRACE := Tok(ObjectEnd, "}")
  const LBRACKET := Tok(ArrayBegin, "[")
  const RBRACKET := Tok(ArrayEnd, "]")

  // ----- The grammar -----

  /** A value: a single token, an array, or an object. In the containers each value has the comments around it
      and the token that separates it from the next, if any; in an object it also has a name, the comments in
      front of that, and a colon. `trailing` tells whether a separator stands behind the last member, and
      `close` are the comments in front of the bracket then or in an empty object. */
  datatype Gram =
    | Leaf(tok: Tok)
    | List(parts: seq<Part>)
    | Table(entries: seq<Entry>, trailing: bool, close: seq<Tok>)

  datatype Part = Part(before: seq<Tok>, value: Gram, after: seq<Tok>, sep: Tok)

  datatype Entry = Entry(front: seq<Tok>, name: Tok, colon: Tok, part: Part)

  predicate Comments(cs: seq<Tok>) { forall i | 0 <= i < |cs| :: cs[i].kind == CommentToken }

  /** The value of a single token, if it has one. */
  function Scalar(cfg: Config, t: Tok): Number {
    match t.kind
    case TrueToken => Number(Bool(true))
    case FalseToken => Number(Bool(false))
    case NullToken => Number(Null)
    case NumberToken => if t.text == "" then NotANumber else NumberOf(t.text, cfg.scans)
    case StringToken => if NameOf(t).Text? then Number(String(NameOf(t).s)) else NotANumber
    case _ => NotANumber
  }

  /** The string that a string token stands for. */
  function NameOf(t: Tok): Decoded {
    if |t.text| < 2 then Bad(BadEscape) else Decode(Inside(t.text))
  }

  /** Arrays: any token but a comment and the closing bracket separates two elements. Objects: a colon behind
      each name; a comma between two members, or any token but the closing brace behind a comment; and one of
      these in front of the closing brace if the last name is empty. Comments in front of a value must be
      allowed; in front of a colon there are none. */
  predicate Lenient(cfg: Config, g: Gram)
    decreases g, 1
  {
    match g
    case Leaf(tok) => Scalar(cfg, tok).Number?
    case List(ps) => LenientParts(cfg, ps)
    case Table(es, trailing, close) => LenientEntries(cfg, es, trailing, close)
  }

  predicate LenientPart(cfg: Config, p: Part)
    decreases p, 0
  {
    Comments(p.before) && (p.before == [] || cfg.allowComments) && Lenient(cfg, p.value) && Comments(p.after)
  }

  predicate LenientParts(cfg: Config, ps: seq<Part>)
    decreases ps, 0
  {
    ps != [] ==>
      && LenientPart(cfg, ps[0])
      && (|ps| > 1 ==> ps[0].sep.kind != CommentToken && ps[0].sep.kind != ArrayEnd)
      && LenientParts(cfg, ps[1..])
  }

  predicate LenientEntries(cfg: Config, es: seq<Entry>, trailing: bool, close: seq<Tok>)
    decreases es, 0
  {
    if es == [] then Comments(close)
    else
      && Comments(es[0].front) && es[0].name.kind == StringToken && NameOf(es[0].name).Text?
      && es[0].colon.kind == MemberSeparator && LenientPart(cfg, es[0].part)
      && (|es| > 1 || trailing ==>
            var p := es[0].part;
            && p.sep.kind != CommentToken && p.sep.kind != ObjectEnd && (p.after != [] || p.sep.kind == ArraySeparator)
            && (|es| == 1 ==> NameOf(es[0].name).s == "")
            && LenientEntries(cfg, es[1..], trailing, close))
  }

  /** The tokens of a value, in front of others. */
  function Toks(g: Gram, k: seq<Tok>): seq<Tok>
    decreases g, 1
  {
    match g
    case Leaf(tok) => [tok] + k
    case List(ps) => [LBRACKET] + PartsToks(ps, k)
    case Table(es, trailing, close) => [LBRACE] + EntriesToks(es, trailing, close, k)
  }

  function PartsToks(ps: seq<Part>, k: seq<Tok>): seq<Tok>
    decreases ps, 1
  {
    if ps == [] then [RBRACKET] + k else PartToks(ps[0], PartsEnd(ps, k))
  }

  function PartsEnd(ps: seq<Part>, k: seq<Tok>): seq<Tok>
    requires ps != []
    decreases ps, 0
  {
    if |ps| > 1 then [ps[0].sep] + PartsToks(ps[1..], k) else [RBRACKET] + k
  }

  function PartToks(p: Part, k: seq<Tok>): seq<Tok>
    decreases p, 0
  {
    p.before + Toks(p.value, p.after + k)
  }

  function EntriesToks(es: seq<Entry>, trailing: bool, close: seq<Tok>, k: seq<Tok>): seq<Tok>
    decreases es, 1
  {
    if es == [] then close + ([RBRACE] + k)
    else es[0].front + ([es[0].name] + ([es[0].colon] + PartToks(es[0].part, EntriesEnd(es, trailing, close, k))))
  }

  function EntriesEnd(es: seq<Entry>, trailing: bool, close: seq<Tok>, k: seq<Tok>): seq<Tok>
    requires es != []
    decreases es, 0
  {
    if |es| > 1 || trailing then [es[0].part.sep] + EntriesToks(es[1..], trailing, close, k) else [RBRACE] + k
  }

  /** What such a value means. */
  function Meaning(cfg: Config, g: Gram): Value
    requires Lenient(cfg, g)
    decreases g, 1
  {
    match g
    case Leaf(tok) => Scalar(cfg, tok).value
    case List(ps) => Array(Meanings(cfg, ps))
    case Table(es, trailing, close) => Object(StoreAll([], Members(cfg, es, trailing, close)))
  }

  function Meanings(cfg: Config, ps: seq<Part>): seq<Value>
    requires LenientParts(cfg, ps)
    decreases ps, 0
  {
    if ps == [] then []
    else
      assert LenientPart(cfg, ps[0]);
      [Meaning(cfg, ps[0].value)] + Meanings(cfg, ps[1..])
  }

  function Members(cfg: Config, es: seq<Entry>, trailing: bool, close: seq<Tok>): seq<Member>
    requires LenientEntries(cfg, es, trailing, close)
    decreases es, 0
  {
    if es == [] then []
    else
      assert LenientPart(cfg, es[0].part);
      [Member(BeforeNul(NameOf(es[0].name).s), Meaning(cfg, es[0].part.value))]
      + if |es| > 1 then Members(cfg, es[1..], trailing, close) else []
  }

  // ----- Every value of the grammar is read -----

  lemma LexesOne(s: string, t: Tok, k: seq<Tok>, r: string)
    ensures Lexes(s, [t] + k, r) <==> TokOf(Take(s)) == t && Lexes(Take(s).rest, k, r)
  {
    hide Take;
    assert ([t] + k)[1..] == k;
  }

  lemma {:induction false} LexesPast(s: string, cs: seq<Tok>, t: Tok, k: seq<Tok>, r: string)
    requires Comments(cs) && t.kind != CommentToken && Lexes(s, cs + ([t] + k), r)
    ensures TokOf(TakePast(s)) == t && Lexes(TakePast(s).rest, k, r)
    ensures if cs == [] then Take(s) == TakePast(s) else Take(s).kind == CommentToken
    decreases |cs|
  {
    hide Take, TextOf;
    if cs == [] {
      assert cs + ([t] + k) == [t] + k;
      LexesOne(s, t, k, r);
    } else {
      assert cs + ([t] + k) == [cs[0]] + (cs[1..] + ([t] + k));
      LexesOne(s, cs[0], cs[1..] + ([t] + k), r);
      LexesPast(Take(s).rest, cs[1..], t, k, r);
      PastOne(s);
    }
  }

  lemma PastOne(s: string)
    requires Take(s).kind == CommentToken
    ensures TakePast(s) == TakePast(Take(s).rest)
  {
    hide Take;
  }

  /** The token a value begins with. */
  function First(g: Gram): Tok {
    match g
    case Leaf(tok) => tok
    case List(_) => LBRACKET
    case Table(_, _, _) => LBRACE
  }

  function Behind(g: Gram, k: seq<Tok>): seq<Tok> {
    match g
    case Leaf(_) => k
    case List(ps) => PartsToks(ps, k)
    case Table(es, trailing, close) => EntriesToks(es, trailing, close, k)
  }

  lemma FirstBehind(cfg: Config, g: Gram, k: seq<Tok>)
    requires Lenient(cfg, g)
    ensures Toks(g, k) == [First(g)] + Behind(g, k)
    ensures First(g).kind != CommentToken && First(g).kind != ArrayEnd
  {
    hide NumberOf, Decode;
  }

  lemma {:induction false} PartRead(cfg: Config, s: string, was: Value, p: Part, k: seq<Tok>, r: string)
    requires LenientPart(cfg, p) && Lexes(s, PartToks(p, k), r)
    ensures var q := ReadValue(cfg, s, was);
            q.Good? && q.value == Meaning(cfg, p.value) && Lexes(q.rest, p.after + k, r)
    decreases p, 6
  {
    hide Take, TakePast, TextOf, Lenient, Meaning, Toks, ReadMembers, ReadArray, Behind;
    FirstBehind(cfg, p.value, p.after + k);
    LexesPast(s, p.before, First(p.value), Behind(p.value, p.after + k), r);
    GramRead(cfg, TakeValue(cfg, s), was, p.value, p.after + k, r);
  }

  /** From the first token of a value on. */
  lemma {:induction false} GramRead(cfg: Config, t: Lexed, was: Value, g: Gram, k: seq<Tok>, r: string)
    requires Lenient(cfg, g) && Sound(t) && TokOf(t) == First(g) && Lexes(t.rest, Behind(g, k), r)
    ensures var q := if t.kind.ObjectBegin? then ReadMembers(cfg, t.rest, "", [])
                     else if t.kind.ArrayBegin? then ReadArray(cfg, t.rest) else ReadScalar(cfg, t, was);
            q.Good? && q.value == Meaning(cfg, g) && Lexes(q.rest, k, r)
    decreases g, 5
  {
    match g
    case Leaf(tok) =>
      hide NumberOf, Decode, Inside, ReadMembers, ReadArray;
    case List(ps) =>
      hide Take, TakePast, TextOf, ReadItems, ReadMembers, PartsToks, Meanings, LenientParts;
      ListRead(cfg, t.rest, ps, k, r);
    case Table(es, trailing, close) =>
      hide Take, TakePast, TextOf, ReadMembers, ReadArray, EntriesToks, Members, LenientEntries, StoreAll;
      EntriesRead(cfg, t.rest, "", [], es, trailing, close, k, r);
  }

  lemma {:induction false} ListRead(cfg: Config, s: string, ps: seq<Part>, k: seq<Tok>, r: string)
    requires LenientParts(cfg, ps) && Lexes(s, PartsToks(ps, k), r)
    ensures var q := ReadArray(cfg, s); q.Good? && q.value == Array(Meanings(cfg, ps)) && Lexes(q.rest, k, r)
    decreases ps, 5
  {
    ArrayByToken(cfg, s);
    hide Take, TakePast, TextOf, LenientPart, Meaning, ReadItems, ReadArray;
    if ps == [] {
      LexesOne(s, RBRACKET, k, r);
    } else {
      NotBracket(cfg, s, ps, k, r);
      PartsRead(cfg, SkipSpaces(s), [], ps, k, r);
      assert [] + Meanings(cfg, ps) == Meanings(cfg, ps);
    }
  }

  /** readArray decides by the next token. */
  lemma ArrayByToken(cfg: Config, s: string)
    ensures ReadArray(cfg, s)
         == if Take(s).kind == ArrayEnd then Good(Array([]), Take(s).rest) else ReadItems(cfg, SkipSpaces(s), [])
    ensures Take(SkipSpaces(s)) == Take(s)
  {
    SkipAgain(s);
    hide ReadItems;
  }

  lemma NotBracket(cfg: Config, s: string, ps: seq<Part>, k: seq<Tok>, r: string)
    requires ps != [] && LenientParts(cfg, ps) && Lexes(s, PartsToks(ps, k), r)
    ensures Take(s).kind != ArrayEnd && Lexes(SkipSpaces(s), PartsToks(ps, k), r)
  {
    var p := ps[0];
    var end := p.after + PartsEnd(ps, k);
    ArrayByToken(cfg, s);
    FirstBehind(cfg, p.value, end);
    LexesPast(s, p.before, First(p.value), Behind(p.value, end), r);
    assert PartsToks(ps, k) != [] by {
      assert |p.before + Toks(p.value, end)| > 0;
    }
    hide Take, TakePast, TextOf, PartsToks, First, Behind, LenientParts;
  }

  /** From one element on. */
  lemma {:induction false} PartsRead(cfg: Config, s: string, done: seq<Value>, ps: seq<Part>, k: seq<Tok>, r: string)
    requires ps != [] && LenientParts(cfg, ps) && Lexes(s, PartsToks(ps, k), r)
    ensures var q := ReadItems(cfg, s, done); q.Good? && q.value == Array(done + Meanings(cfg, ps)) && Lexes(q.rest, k, r)
    decreases ps, 4
  {
    hide Take, TakePast, TextOf, Meaning, ReadValue, Lenient, PartToks;
    var p := ps[0];
    PartRead(cfg, s, Null, p, PartsEnd(ps, k), r);
    var q, v := ReadValue(cfg, s, Null), Meaning(cfg, p.value);
    Nested3(done, [v], Meanings(cfg, ps[1..]));
    assert Meanings(cfg, ps) == [v] + Meanings(cfg, ps[1..]);
    if |ps| > 1 {
      LexesPast(q.rest, p.after, p.sep, PartsToks(ps[1..], k), r);
      PartsRead(cfg, TakePast(q.rest).rest, done + [v], ps[1..], k, r);
    } else {
      LexesPast(q.rest, p.after, RBRACKET, k, r);
    }
  }

  /** From one member on. */
  lemma {:induction false} EntriesRead(cfg: Config, s: string, name: string, done: seq<Member>, es: seq<Entry>,
                                       trailing: bool, close: seq<Tok>, k: seq<Tok>, r: string)
    requires LenientEntries(cfg, es, trailing, close) && (es == [] ==> name == "")
    requires Lexes(s, EntriesToks(es, trailing, close, k), r)
    ensures var q := ReadMembers(cfg, s, name, done);
            q.Good? && q.value == Object(StoreAll(done, Members(cfg, es, trailing, close))) && Lexes(q.rest, k, r)
    decreases es, 6
  {
    hide Take, TakePast, TextOf, ReadMember, LenientPart, Meaning, PartToks, Recover, Decode;
    if es == [] {
      LexesPast(s, close, RBRACE, k, r);
    } else {
      var e := es[0];
      var end := PartToks(e.part, EntriesEnd(es, trailing, close, k));
      LexesPast(s, e.front, e.name, [e.colon] + end, r);
      LexesOne(TakePast(s).rest, e.colon, end, r);
      EntryRead(cfg, TakePast(s), done, es, trailing, close, k, r);
    }
  }

  lemma {:induction false} EntryRead(cfg: Config, t: Lexed, done: seq<Member>, es: seq<Entry>,
                                     trailing: bool, close: seq<Tok>, k: seq<Tok>, r: string)
    requires es != [] && LenientEntries(cfg, es, trailing, close) && Sound(t) && TokOf(t) == es[0].name
    requires var colon := Take(t.rest);
             TokOf(colon) == es[0].colon && Lexes(colon.rest, PartToks(es[0].part, EntriesEnd(es, trailing, close, k)), r)
    ensures var q := ReadMember(cfg, t, done);
            q.Good? && q.value == Object(StoreAll(done, Members(cfg, es, trailing, close))) && Lexes(q.rest, k, r)
    decreases es, 5
  {
    hide Take, TakePast, TextOf, Meaning, ReadValue, LenientPart, PartToks, Recover, Decode, AfterMember, Store, StoreAll, Lookup,
         BeforeNul, EntriesEnd, Inside;
    var e, colon := es[0], Take(t.rest);
    PartLenient(cfg, e.part);
    var name := NameOf(e.name).s;
    PartRead(cfg, colon.rest, Lookup(done, BeforeNul(name)), e.part, EntriesEnd(es, trailing, close, k), r);
    var q := ReadValue(cfg, colon.rest, Lookup(done, BeforeNul(name)));
    var stored := Store(done, BeforeNul(name), Meaning(cfg, e.part.value));
    EntryEnds(cfg, q.rest, stored, es, trailing, close, k, r);
    MemberStored(cfg, done, es, trailing, close);
  }

  lemma PartLenient(cfg: Config, p: Part)
    requires LenientPart(cfg, p)
    ensures Lenient(cfg, p.value) && Comments(p.after)
  {
  }

  lemma MemberStored(cfg: Config, done: seq<Member>, es: seq<Entry>, trailing: bool, close: seq<Tok>)
    requires es != [] && LenientEntries(cfg, es, trailing, close)
    ensures LenientPart(cfg, es[0].part)
    ensures StoreAll(done, Members(cfg, es, trailing, close))
         == StoreAll(Store(done, BeforeNul(NameOf(es[0].name).s), Meaning(cfg, es[0].part.value)),
                     if |es| > 1 then Members(cfg, es[1..], trailing, close) else [])
  {
    hide Meaning, Store, BeforeNul, NameOf, Lenient;
    assert Members(cfg, es, trailing, close)[1..] == if |es| > 1 then Members(cfg, es[1..], trailing, close) else [];
  }

  /** Behind a value that is already stored. */
  lemma {:induction false} EntryEnds(cfg: Config, s: string, done: seq<Member>, es: seq<Entry>,
                                     trailing: bool, close: seq<Tok>, k: seq<Tok>, r: string)
    requires es != [] && LenientEntries(cfg, es, trailing, close)
    requires Lexes(s, es[0].part.after + EntriesEnd(es, trailing, close, k), r)
    ensures var q := AfterMember(cfg, s, NameOf(es[0].name).s, done);
            && q.Good? && Lexes(q.rest, k, r)
            && q.value == Object(StoreAll(done, if |es| > 1 then Members(cfg, es[1..], trailing, close) else []))
    decreases es, 4
  {
    hide Take, PastComments, TextOf, Meaning, ReadMembers, Lenient, Recover, NameOf, EntriesToks;
    var p := es[0].part;
    if |es| > 1 || trailing {
      LexesPast(s, p.after, p.sep, EntriesToks(es[1..], trailing, close, k), r);
      EntriesRead(cfg, TakePast(s).rest, NameOf(es[0].name).s, done, es[1..], trailing, close, k, r);
      assert |es| == 1 ==> Members(cfg, es[1..], trailing, close) == [];
    } else {
      LexesPast(s, p.after, RBRACE, k, r);
      assert StoreAll(done, []) == done;
    }
  }

  // ----- Whatever is read is a value of the grammar -----

  lemma {:induction false} CommentsSkipped(s: string, k: seq<Tok>, r: string) returns (cs: seq<Tok>)
    requires Lexes(TakePast(s).rest, k, r)
    ensures Comments(cs) && Lexes(s, cs + ([TokOf(TakePast(s))] + k), r)
    ensures cs == [] <==> Take(s).kind != CommentToken
    decreases |s|
  {
    var t := Take(s);
    if t.kind == CommentToken {
      PastOne(s);
      hide Take, TakePast, TextOf;
      var rest := CommentsSkipped(t.rest, k, r);
      cs := [TokOf(t)] + rest;
      LexesOne(s, TokOf(t), rest + ([TokOf(TakePast(s))] + k), r);
      assert cs + ([TokOf(TakePast(s))] + k) == [TokOf(t)] + (rest + ([TokOf(TakePast(s))] + k));
    } else {
      cs := [];
      assert TakePast(s) == t;
      hide Take, TakePast, TextOf;
      LexesOne(s, TokOf(t), k, r);
      assert cs + ([TokOf(t)] + k) == [TokOf(t)] + k;
    }
  }

  /** Brackets are always written the same way. */
  lemma BracketToks(s: string)
    ensures var t := Take(s);
            && (t.kind == ObjectBegin ==> TokOf(t) == LBRACE) && (t.kind == ObjectEnd ==> TokOf(t) == RBRACE)
            && (t.kind == ArrayBegin ==> TokOf(t) == LBRACKET) && (t.kind == ArrayEnd ==> TokOf(t) == RBRACKET)
  {
    var x := SkipSpaces(s);
    if Take(s).kind in {ObjectBegin, ObjectEnd, ArrayBegin, ArrayEnd} {
      assert x[..1] == [x[0]] && x[..|x| - |x[1..]|] == x[..1];
    }
  }

  lemma {:induction false} BracketPast(s: string)
    ensures var t := TakePast(s);
            && (t.kind == ObjectBegin ==> TokOf(t) == LBRACE) && (t.kind == ObjectEnd ==> TokOf(t) == RBRACE)
            && (t.kind == ArrayBegin ==> TokOf(t) == LBRACKET) && (t.kind == ArrayEnd ==> TokOf(t) == RBRACKET)
    decreases |s|
  {
    var t := Take(s);
    if t.kind == CommentToken {
      PastOne(s);
      BracketPast(t.rest);
    } else {
      BracketToks(s);
      assert TakePast(s) == t;
    }
  }

  lemma {:induction false} ValueSound(cfg: Config, s: string, was: Value, k: seq<Tok>, r: string) returns (before: seq<Tok>, g: Gram)
    requires ReadValue(cfg, s, was).Good? && Lexes(ReadValue(cfg, s, was).rest, k, r)
    ensures Comments(before) && (before == [] || cfg.allowComments) && Lexes(s, before + Toks(g, k), r)
    ensures Lenient(cfg, g) && Meaning(cfg, g) == ReadValue(cfg, s, was).value
    decreases |s|, 0
  {
    var t := TakeValue(cfg, s);
    BracketToks(s);
    BracketPast(s);
    hide Take, TakePast, TextOf, ReadMembers, ReadArray, ReadScalar, LenientEntries, LenientParts, EntriesToks, PartsToks, Members,
         Meanings, Inside, NameOf, Scalar;
    if t.kind.ObjectBegin? {
      var es, trailing, close := EntriesSound(cfg, t.rest, "", [], k, r);
      g := Table(es, trailing, close);
    } else if t.kind.ArrayBegin? {
      var ps := ListSound(cfg, t.rest, k, r);
      g := List(ps);
    } else {
      g := Leaf(TokOf(t));
      LeafSound(cfg, t, was);
    }
    FirstBehind(cfg, g, k);
    if cfg.allowComments {
      before := CommentsSkipped(s, Behind(g, k), r);
    } else {
      before := [];
      LexesOne(s, TokOf(t), Behind(g, k), r);
      assert [] + Toks(g, k) == Toks(g, k);
    }
  }

  lemma LeafSound(cfg: Config, t: Lexed, was: Value)
    requires Sound(t) && ReadScalar(cfg, t, was).Good?
    ensures Scalar(cfg, TokOf(t)) == Number(ReadScalar(cfg, t, was).value)
  {
    hide NumberOf, Decode, Inside;
  }

  lemma {:induction false} ListSound(cfg: Config, s: string, k: seq<Tok>, r: string) returns (ps: seq<Part>)
    requires ReadArray(cfg, s).Good? && Lexes(ReadArray(cfg, s).rest, k, r)
    ensures LenientParts(cfg, ps) && Lexes(s, PartsToks(ps, k), r) && ReadArray(cfg, s).value == Array(Meanings(cfg, ps))
    decreases |s|, 2
  {
    ArrayByToken(cfg, s);
    BracketToks(s);
    hide Take, TakePast, TextOf, ReadItems, LenientPart, Meaning, PartToks;
    if Take(s).kind == ArrayEnd {
      ps := [];
      LexesOne(s, RBRACKET, k, r);
    } else {
      ps := PartsSound(cfg, SkipSpaces(s), [], k, r);
      assert [] + Meanings(cfg, ps) == Meanings(cfg, ps);
      SameSkipped(s, ps, k, r);
    }
  }

  lemma SameSkipped(s: string, ps: seq<Part>, k: seq<Tok>, r: string)
    requires ps != [] && Lexes(SkipSpaces(s), PartsToks(ps, k), r)
    ensures Lexes(s, PartsToks(ps, k), r)
  {
    SkipAgain(s);
    hide TextOf, Lex;
    var p := ps[0];
    assert PartsToks(ps, k) != [] by {
      assert |p.before + Toks(p.value, p.after + PartsEnd(ps, k))| > 0;
    }
  }

  lemma {:induction false} PartsSound(cfg: Config, s: string, done: seq<Value>, k: seq<Tok>, r: string) returns (ps: seq<Part>)
    requires ReadItems(cfg, s, done).Good? && Lexes(ReadItems(cfg, s, done).rest, k, r)
    ensures ps != [] && LenientParts(cfg, ps) && Lexes(s, PartsToks(ps, k), r)
    ensures ReadItems(cfg, s, done).value == Array(done + Meanings(cfg, ps))
    decreases |s|, 1
  {
    var q := ReadValue(cfg, s, Null);
    var t := TakePast(q.rest);
    BracketPast(q.rest);
    hide Take, TakePast, TextOf, ReadValue, Lenient, Meaning, Toks, Recover;
    if t.kind == ArrayEnd {
      var after := CommentsSkipped(q.rest, k, r);
      var before, g := ValueSound(cfg, s, Null, after + ([RBRACKET] + k), r);
      ps := [Part(before, g, after, RBRACKET)];
      assert ps[1..] == [] && Meanings(cfg, ps) == [q.value] + [];
    } else {
      var more := PartsSound(cfg, t.rest, done + [q.value], k, r);
      var after := CommentsSkipped(q.rest, PartsToks(more, k), r);
      var before, g := ValueSound(cfg, s, Null, after + ([TokOf(t)] + PartsToks(more, k)), r);
      ps := [Part(before, g, after, TokOf(t))] + more;
      assert ps[1..] == more;
      Nested3(done, [q.value], Meanings(cfg, more));
    }
  }

  lemma {:induction false} EntriesSound(cfg: Config, s: string, name: string, done: seq<Member>, k: seq<Tok>, r: string)
    returns (es: seq<Entry>, trailing: bool, close: seq<Tok>)
    requires ReadMembers(cfg, s, name, done).Good? && Lexes(ReadMembers(cfg, s, name, done).rest, k, r)
    ensures LenientEntries(cfg, es, trailing, close) && (es == [] ==> name == "")
    ensures Lexes(s, EntriesToks(es, trailing, close, k), r)
    ensures ReadMembers(cfg, s, name, done).value == Object(StoreAll(done, Members(cfg, es, trailing, close)))
    decreases |s|, 3
  {
    var t := TakePast(s);
    BracketPast(s);
    hide Take, TakePast, TextOf, ReadMember, LenientPart, Meaning, PartToks, Recover, NameOf;
    if t.kind == ObjectEnd && name == "" {
      es, trailing := [], false;
      close := CommentsSkipped(s, k, r);
    } else {
      es, trailing, close := EntrySound(cfg, t, done, k, r);
      var e := es[0];
      var end := PartToks(e.part, EntriesEnd(es, trailing, close, k));
      var front := CommentsSkipped(s, [e.colon] + end, r);
      es := WithFront(cfg, es, trailing, close, k, front);
    }
  }

  lemma WithFront(cfg: Config, es: seq<Entry>, trailing: bool, close: seq<Tok>, k: seq<Tok>, front: seq<Tok>) returns (fs: seq<Entry>)
    requires es != [] && LenientEntries(cfg, es, trailing, close) && Comments(front)
    ensures fs != [] && LenientEntries(cfg, fs, trailing, close) && Members(cfg, fs, trailing, close) == Members(cfg, es, trailing, close)
    ensures EntriesToks(fs, trailing, close, k)
         == front + ([es[0].name] + ([es[0].colon] + PartToks(es[0].part, EntriesEnd(es, trailing, close, k))))
  {
    hide LenientPart, Meaning, PartToks, NameOf;
    fs := [es[0].(front := front)] + es[1..];
    assert fs[1..] == es[1..];
  }

  lemma {:induction false} EntrySound(cfg: Config, t: Lexed, done: seq<Member>, k: seq<Tok>, r: string)
    returns (es: seq<Entry>, trailing: bool, close: seq<Tok>)
    requires Sound(t) && t.kind.StringToken? && ReadMember(cfg, t, done).Good? && Lexes(ReadMember(cfg, t, done).rest, k, r)
    ensures es != [] && LenientEntries(cfg, es, trailing, close) && es[0].name == TokOf(t)
    ensures Lexes(t.rest, [es[0].colon] + PartToks(es[0].part, EntriesEnd(es, trailing, close, k)), r)
    ensures ReadMember(cfg, t, done).value == Object(StoreAll(done, Members(cfg, es, trailing, close)))
    decreases |t.rest|, 2
  {
    var tok, colon := TokOf(t), Take(t.rest);
    MemberParts(cfg, t, done);
    hide Take, TakePast, TextOf, ReadMember, ReadValue, AfterMember, Lenient, Meaning, Toks, NameOf, Store, StoreAll, Lookup,
         BeforeNul, Members, LenientEntries, EntriesToks, Ending, SepAllows;
    var name := NameOf(tok).s;
    var q := ReadValue(cfg, colon.rest, Lookup(done, BeforeNul(name)));
    var stored := Store(done, BeforeNul(name), q.value);
    var after, sep, more, tr, cl := EndSound(cfg, q.rest, name, stored, k, r);
    var end := Ending(more, tr, cl, sep, k);
    var before, g := ValueSound(cfg, colon.rest, Lookup(done, BeforeNul(name)), after + end, r);
    var p := Part(before, g, after, sep);
    LexesOne(t.rest, TokOf(colon), PartToks(p, end), r);
    assert LenientPart(cfg, p);
    hide Lexes, PartToks, LenientPart, Comments;
    es, trailing, close := [Entry([], tok, TokOf(colon), p)] + more, tr, cl;
    assert es[1..] == more;
    Assembled(cfg, es, trailing, close, k);
    AllStored(cfg, done, es, trailing, close);
  }

  lemma AllStored(cfg: Config, done: seq<Member>, es: seq<Entry>, trailing: bool, close: seq<Tok>)
    requires es != [] && LenientEntries(cfg, es, trailing, close) && LenientEntries(cfg, es[1..], trailing, close)
    ensures LenientEntries(cfg, es, trailing, close) && LenientPart(cfg, es[0].part) && Lenient(cfg, es[0].part.value)
    ensures StoreAll(done, Members(cfg, es, trailing, close))
         == StoreAll(Store(done, BeforeNul(NameOf(es[0].name).s), Meaning(cfg, es[0].part.value)),
                     Members(cfg, es[1..], trailing, close))
  {
    MemberStored(cfg, done, es, trailing, close);
    assert |es| == 1 ==> Members(cfg, es[1..], trailing, close) == [];
  }

  lemma MemberParts(cfg: Config, t: Lexed, done: seq<Member>)
    requires Sound(t) && t.kind.StringToken? && ReadMember(cfg, t, done).Good?
    ensures NameOf(TokOf(t)).Text? && Take(t.rest).kind == MemberSeparator && |Take(t.rest).rest| < |t.rest|
    ensures var name := NameOf(TokOf(t)).s;
            var q := ReadValue(cfg, Take(t.rest).rest, Lookup(done, BeforeNul(name)));
            && q.Good? && |q.rest| < |t.rest|
            && ReadMember(cfg, t, done) == AfterMember(cfg, q.rest, name, Store(done, BeforeNul(name), q.value))
  {
    hide Take, ReadValue, AfterMember, Recover, Decode, Inside, Store, Lookup, BeforeNul;
  }

  lemma EmptyMembers(cfg: Config, trailing: bool, close: seq<Tok>)
    requires Comments(close)
    ensures LenientEntries(cfg, [], trailing, close)
    ensures Members(cfg, [], trailing, close) == []
  {
  }

  /** What stands behind the comments after a member. */
  function Ending(more: seq<Entry>, trailing: bool, close: seq<Tok>, sep: Tok, k: seq<Tok>): seq<Tok> {
    if more != [] || trailing then [sep] + EntriesToks(more, trailing, close, k) else [RBRACE] + k
  }

  predicate SepAllows(name: string, after: seq<Tok>, sep: Tok, more: seq<Entry>, trailing: bool) {
    more != [] || trailing ==>
      && sep.kind != CommentToken && sep.kind != ObjectEnd && (after != [] || sep.kind == ArraySeparator)
      && (more == [] ==> name == "")
  }

  lemma Assembled(cfg: Config, es: seq<Entry>, trailing: bool, close: seq<Tok>, k: seq<Tok>)
    requires es != [] && LenientEntries(cfg, es[1..], trailing, close)
    requires es[0].front == [] && es[0].name.kind == StringToken && NameOf(es[0].name).Text? && es[0].colon.kind == MemberSeparator
    requires LenientPart(cfg, es[0].part)
    requires SepAllows(NameOf(es[0].name).s, es[0].part.after, es[0].part.sep, es[1..], trailing)
    ensures LenientEntries(cfg, es, trailing, close)
    ensures EntriesEnd(es, trailing, close, k) == Ending(es[1..], trailing, close, es[0].part.sep, k)
  {
    hide LenientPart, NameOf;
  }

  lemma {:induction false} EndSound(cfg: Config, s: string, name: string, done: seq<Member>, k: seq<Tok>, r: string)
    returns (after: seq<Tok>, sep: Tok, more: seq<Entry>, trailing: bool, close: seq<Tok>)
    requires AfterMember(cfg, s, name, done).Good? && Lexes(AfterMember(cfg, s, name, done).rest, k, r)
    ensures Comments(after) && LenientEntries(cfg, more, trailing, close) && SepAllows(name, after, sep, more, trailing)
    ensures Lexes(s, after + Ending(more, trailing, close, sep, k), r)
    ensures AfterMember(cfg, s, name, done).value == Object(StoreAll(done, Members(cfg, more, trailing, close)))
    decreases |s|, 4
  {
    var t := TakePast(s);
    BracketPast(s);
    assert t == PastComments(Take(s));
    sep := TokOf(t);
    hide Take, TakePast, TextOf, ReadMembers, PastComments, Recover, LenientPart;
    if t.kind == ObjectEnd {
      more, trailing, close := [], false, [];
      after := CommentsSkipped(s, k, r);
      EmptyMembers(cfg, trailing, close);
    } else {
      more, trailing, close := EntriesSound(cfg, t.rest, name, done, k, r);
      if more == [] {
        trailing := true;
        EmptyMembers(cfg, trailing, close);
      }
      hide EntriesToks, Members;
      after := CommentsSkipped(s, EntriesToks(more, trailing, close, k), r);
    }
  }

  // ----- The theorem -----

  /** The text begins with such a value, behind comments if they are allowed; r is what follows it. */
  predicate Begins(cfg: Config, s: string, front: seq<Tok>, g: Gram, r: string) {
    Comments(front) && (front == [] || cfg.allowComments) && Lenient(cfg, g) && Lexes(s, front + Toks(g, []), r)
  }

  lemma BeginsRead(cfg: Config, s: string, was: Value, front: seq<Tok>, g: Gram, r: string)
    requires Begins(cfg, s, front, g, r)
    ensures ReadValue(cfg, s, was) == Good(Meaning(cfg, g), r)
  {
    hide ReadValue, Lenient, Meaning, Toks, Take;
    var none: seq<Tok> := [];
    var p := Part(front, g, none, RBRACE);
    assert none + none == none;
    PartRead(cfg, s, was, p, none, r);
  }

  /** Exactly the texts that begin with a value of the grammar are parsed without fault, and the value left is
      the one the grammar gives; under strictRoot it has to be a container or null. */
  lemma ParsesExactly(cfg: Config, strictRoot: bool, text: string, root: Value)
    ensures ParseFaults(cfg, strictRoot, text, root) == [] <==>
              exists front, g, r :: Begins(cfg, text, front, g, r) && (strictRoot ==> Rooted(Meaning(cfg, g)))
    ensures forall front, g, r | Begins(cfg, text, front, g, r) :: ReadValue(cfg, text, root) == Good(Meaning(cfg, g), r)
  {
    var q := ReadValue(cfg, text, root);
    hide ReadValue, Lenient, Meaning, Toks, Take;
    forall front, g, r | Begins(cfg, text, front, g, r) ensures q == Good(Meaning(cfg, g), r) {
      BeginsRead(cfg, text, root, front, g, r);
    }
    if q.Good? {
      var front, g := ReadBegins(cfg, text, root);
      assert Begins(cfg, text, front, g, q.rest);
    }
  }

  lemma ReadBegins(cfg: Config, s: string, was: Value) returns (front: seq<Tok>, g: Gram)
    requires ReadValue(cfg, s, was).Good?
    ensures Begins(cfg, s, front, g, ReadValue(cfg, s, was).rest) && Meaning(cfg, g) == ReadValue(cfg, s, was).value
  {
    front, g := ValueSound(cfg, s, was, [], ReadValue(cfg, s, was).rest);
  }
}
