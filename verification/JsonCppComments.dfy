/**
Documents with comments and odd separators anywhere in them, as tools/jsoncpp/json_reader.cpp reads them:
which it accepts, and that it reads the same value then.
*/
module JsonCppComments {
  import opened CBuffer
  import opened JsonCpp
  import opened JsonCppLex
  import opened JsonCppGrammar

  /** A comment that ends where it ends, whatever follows. */
  ghost predicate Comment(c: string) {
    c != "" && !IsSpace(c[0]) && forall s :: Lex(c + s) == Lexeme(CommentToken, |c|)
  }

  ghost predicate Comments(cs: seq<string>) { forall i | 0 <= i < |cs| :: Comment(cs[i]) }

  lemma {:induction false} BlockScan(body: string, s: string)
    requires forall i | 0 <= i < |body| - 1 :: !(body[i] == '*' && body[i + 1] == '/')
    ensures BlockCommentScan(body + ("*/" + s)) == Scan(|body| + 2, true)
  {
    var t := body + ("*/" + s);
    if body == "" {
      assert t == "*/" + s;
    } else {
      assert t[1..] == body[1..] + ("*/" + s);
      BlockScan(body[1..], s);
    }
  }

  lemma BlockComment(body: string)
    requires forall i | 0 <= i < |body| - 1 :: !(body[i] == '*' && body[i + 1] == '/')
    ensures Comment("/*" + body + "*/")
  {
    var c := "/*" + body + "*/";
    forall s ensures Lex(c + s) == Lexeme(CommentToken, |c|) {
      BlockScan(body, s);
      assert (c + s)[1..] == "*" + (body + ("*/" + s)) && (c + s)[1..][1..] == body + ("*/" + s);
    }
  }

  lemma {:induction false} LineScan(body: string, end: char, s: string)
    requires (forall i | 0 <= i < |body| :: body[i] != '\r' && body[i] != '\n') && (end == '\r' || end == '\n')
    ensures LineCommentLength(body + ([end] + s)) == |body| + 1
  {
    var t := body + ([end] + s);
    if body == "" {
      assert t == [end] + s;
    } else {
      assert t[1..] == body[1..] + ([end] + s);
      LineScan(body[1..], end, s);
    }
  }

  lemma LineComment(body: string, end: char)
    requires (forall i | 0 <= i < |body| :: body[i] != '\r' && body[i] != '\n') && (end == '\r' || end == '\n')
    ensures Comment("//" + body + [end])
  {
    var c := "//" + body + [end];
    forall s ensures Lex(c + s) == Lexeme(CommentToken, |c|) {
      LineScan(body, end, s);
      assert (c + s)[1..] == "/" + (body + ([end] + s)) && (c + s)[1..][1..] == body + ([end] + s);
    }
  }

  // ----- Tokens in front of others -----

  /** In front of these tokens, with any white space, this text is a token of this kind. */
  ghost predicate Stands(text: string, kind: TokenType, k: seq<string>) {
    text != "" && forall s | Spaced(s, [text] + k) :: Take(s).kind == kind && TextOf(Take(s)) == text && Spaced(Take(s).rest, k)
  }

  /** Every token the writers write does. */
  lemma WholeStands(text: string, k: seq<string>)
    requires text != "" && Whole(text, k)
    ensures Stands(text, Kind(text), k)
  {
    hide Spaced, Whole, Take, TakePast;
    forall s | Spaced(s, [text] + k)
      ensures Take(s).kind == Kind(text) && TextOf(Take(s)) == text && Spaced(Take(s).rest, k)
    {
      Takes(s, text, k);
    }
  }

  /** So does a character that starts no token: it is an error token. */
  lemma OddStands(c: char, k: seq<string>)
    requires !IsSpace(c) && c !in "{}[],:\"/tfn-" && c != '\0' && !('0' <= c <= '9')
    ensures Stands([c], ErrorToken, k)
  {
    forall s | Spaced(s, [[c]] + k)
      ensures Take(s).kind == ErrorToken && TextOf(Take(s)) == [c] && Spaced(Take(s).rest, k)
    {
      var r := SkipSpaces(s);
      assert ([[c]] + k)[1..] == k && [c] <= r && r[0] == c;
      assert r[..1] == [c];
    }
  }

  lemma TakesComment(s: string, c: string, k: seq<string>)
    requires Comment(c) && Spaced(s, [c] + k)
    ensures Take(s).kind == CommentToken && Spaced(Take(s).rest, k)
    ensures TakePast(s) == TakePast(Take(s).rest)
  {
    var r := SkipSpaces(s);
    assert ([c] + k)[1..] == k;
    assert r == c + r[|c|..];
    hide Spaced, Lex, SkipSpaces;
    assert Take(s) == Lexed(CommentToken, r, r[|c|..]);
  }

  lemma {:induction false} TakesPast(s: string, cs: seq<string>, text: string, kind: TokenType, k: seq<string>)
    requires Comments(cs) && Stands(text, kind, k) && kind != CommentToken && Spaced(s, cs + ([text] + k))
    ensures var t := TakePast(s); t.kind == kind && TextOf(t) == text && Spaced(t.rest, k)
    ensures Take(s) == TakePast(s) || cs != []
    ensures cs != [] ==> Take(s).kind == CommentToken
    decreases |cs|
  {
    hide Spaced, Take, Comment, TextOf;
    if cs == [] {
      assert cs + ([text] + k) == [text] + k;
    } else {
      assert cs + ([text] + k) == [cs[0]] + (cs[1..] + ([text] + k));
      TakesComment(s, cs[0], cs[1..] + ([text] + k));
      hide TakePast, Stands;
      TakesPast(Take(s).rest, cs[1..], text, kind, k);
    }
  }

  // ----- Documents -----

  /** The text that separates two elements or members, and the kind of token it is. */
  datatype Mark = Mark(text: string, kind: TokenType)

  /** A value in a container: the comments in front of it and behind it, and what separates it from the next. */
  datatype Part = Part(before: seq<string>, doc: Doc, after: seq<string>, sep: Mark)

  /** A member: the comments in front of its name and of its colon, and its value. */
  datatype Entry = Entry(name: string, front: seq<string>, colon: seq<string>, part: Part)

  /** A value with nothing special in it, or a container with comments and separators of any kind; `trailing`
      tells whether a separator stands behind the last, and `close` are the comments in front of the bracket
      then or in an empty container. */
  datatype Doc =
    | Plain(v: Value)
    | List(parts: seq<Part>, trailing: bool, close: seq<string>)
    | Table(entries: seq<Entry>, trailing: bool, close: seq<string>)

  ghost function DocTokens(d: Doc, k: seq<string>): seq<string>
    decreases d, 1
  {
    match d
    case Plain(v) => Tokens(v, k)
    case List(ps, trailing, close) => ["["] + PartsTokens(ps, trailing, close, k)
    case Table(es, trailing, close) => ["{"] + EntriesTokens(es, trailing, close, k)
  }

  ghost function PartsTokens(ps: seq<Part>, trailing: bool, close: seq<string>, k: seq<string>): seq<string>
    decreases ps, 1
  {
    if ps == [] then close + (["]"] + k)
    else ps[0].before + DocTokens(ps[0].doc, ps[0].after + PartsEnd(ps, trailing, close, k))
  }

  /** Behind the comments that follow the first part. */
  ghost function PartsEnd(ps: seq<Part>, trailing: bool, close: seq<string>, k: seq<string>): seq<string>
    requires ps != []
    decreases ps, 0
  {
    if |ps| > 1 || trailing then [ps[0].sep.text] + PartsTokens(ps[1..], trailing, close, k) else ["]"] + k
  }

  ghost function EntriesTokens(es: seq<Entry>, trailing: bool, close: seq<string>, k: seq<string>): seq<string>
    decreases es, 2
  {
    if es == [] then close + (["}"] + k)
    else es[0].front + ([Quote(es[0].name)] + NameEnd(es, trailing, close, k))
  }

  /** Behind the first name. */
  ghost function NameEnd(es: seq<Entry>, trailing: bool, close: seq<string>, k: seq<string>): seq<string>
    requires es != []
    decreases es, 1
  {
    var p := es[0].part;
    es[0].colon + ([":"] + (p.before + DocTokens(p.doc, p.after + EntriesEnd(es, trailing, close, k))))
  }

  ghost function EntriesEnd(es: seq<Entry>, trailing: bool, close: seq<string>, k: seq<string>): seq<string>
    requires es != []
    decreases es, 0
  {
    if |es| > 1 || trailing then [es[0].part.sep.text] + EntriesTokens(es[1..], trailing, close, k) else ["}"] + k
  }

  // ----- What makes such a document one -----

  ghost predicate SoundDoc(d: Doc, k: seq<string>)
    decreases d, 1
  {
    match d
    case Plain(v) => Printable(v)
    case List(ps, trailing, close) => Comments(close) && SoundParts(ps, trailing, close, k)
    case Table(es, trailing, close) => Comments(close) && SoundEntries(es, trailing, close, k)
  }

  /** The comments end, the value ends, and what is inside it is sound as well. */
  ghost predicate SoundPart(p: Part, end: seq<string>)
    decreases p, 1
  {
    Comments(p.before) && Comments(p.after) && Follows(p.after + end) && SoundDoc(p.doc, p.after + end)
  }

  /** A separator is a token of its kind, no comment and no closing bracket. */
  ghost predicate Separates(sep: Mark, bracket: TokenType, k: seq<string>) {
    Stands(sep.text, sep.kind, k) && sep.kind != CommentToken && sep.kind != bracket
  }

  ghost predicate SoundParts(ps: seq<Part>, trailing: bool, close: seq<string>, k: seq<string>)
    decreases ps, 1
  {
    ps != [] ==>
      && SoundPart(ps[0], PartsEnd(ps, trailing, close, k))
      && (|ps| > 1 || trailing ==> Separates(ps[0].sep, ArrayEnd, PartsTokens(ps[1..], trailing, close, k)))
      && SoundParts(ps[1..], trailing, close, k)
  }

  ghost predicate SoundEntries(es: seq<Entry>, trailing: bool, close: seq<string>, k: seq<string>)
    decreases es, 1
  {
    es != [] ==>
      && NulFree(es[0].name) && Comments(es[0].front) && Comments(es[0].colon)
      && SoundPart(es[0].part, EntriesEnd(es, trailing, close, k))
      && (|es| > 1 || trailing ==> Separates(es[0].part.sep, ObjectEnd, EntriesTokens(es[1..], trailing, close, k)))
      && SoundEntries(es[1..], trailing, close, k)
  }

  // ----- Which are accepted, and what they mean -----

  /** Arrays: no comment in an empty one, and no separator in front of the bracket; but any separator between
      two elements. Objects: no comment in front of a colon; a separator that is no comma only behind a comment;
      and one in front of the bracket only if the last name is empty. */
  predicate Accepted(allowComments: bool, d: Doc)
    decreases d, 1
  {
    match d
    case Plain(_) => true
    case List(ps, trailing, close) => if ps == [] then close == [] else !trailing && AcceptedParts(allowComments, ps)
    case Table(es, trailing, _) => AcceptedEntries(allowComments, es, trailing)
  }

  /** No comment in front of a value unless comments are allowed. */
  predicate AcceptedPart(allowComments: bool, p: Part)
    decreases p, 0
  {
    (p.before == [] || allowComments) && Accepted(allowComments, p.doc)
  }

  predicate AcceptedParts(allowComments: bool, ps: seq<Part>)
    decreases ps, 0
  {
    forall i | 0 <= i < |ps| :: AcceptedPart(allowComments, ps[i])
  }

  predicate AcceptedEntries(allowComments: bool, es: seq<Entry>, trailing: bool)
    decreases es, 0
  {
    && (forall i | 0 <= i < |es| ::
          && es[i].colon == [] && AcceptedPart(allowComments, es[i].part)
          && (i + 1 < |es| || trailing ==> Comma(es[i].part)))
    && (trailing && es != [] ==> es[|es| - 1].name == "")
  }

  /** What is taken for a comma in an object. */
  predicate Comma(p: Part) { p.after != [] || p.sep.kind == ArraySeparator }

  function Meaning(d: Doc): Value
    decreases d, 1
  {
    match d
    case Plain(v) => Canon(v)
    case List(ps, _, _) => Array(Meanings(ps))
    case Table(es, _, _) => Object(StoreAll([], MemberMeanings(es)))
  }

  function Meanings(ps: seq<Part>): seq<Value>
    decreases ps, 0
  {
    if ps == [] then [] else [Meaning(ps[0].doc)] + Meanings(ps[1..])
  }

  function MemberMeanings(es: seq<Entry>): seq<Member>
    decreases es, 0
  {
    if es == [] then [] else [Member(es[0].name, Meaning(es[0].part.doc))] + MemberMeanings(es[1..])
  }

  lemma AcceptedFirst(allowComments: bool, es: seq<Entry>, trailing: bool)
    requires es != []
    ensures AcceptedEntries(allowComments, es, trailing) <==>
              && es[0].colon == [] && AcceptedPart(allowComments, es[0].part)
              && (|es| > 1 || trailing ==> Comma(es[0].part))
              && (if |es| > 1 then AcceptedEntries(allowComments, es[1..], trailing) else trailing ==> es[0].name == "")
  {
    hide AcceptedPart, Comma;
    if |es| > 1 && AcceptedEntries(allowComments, es[1..], trailing) {
      forall i | 1 <= i < |es|
        ensures es[i].colon == [] && AcceptedPart(allowComments, es[i].part)
        ensures i + 1 < |es| || trailing ==> Comma(es[i].part)
      {
        assert es[i] == es[1..][i - 1];
      }
    }
  }

  // ----- The reader on them -----

  /** The document itself, whatever value was there before. */
  lemma {:induction false} DocRead(cfg: Config, s: string, before: Value, d: Doc, k: seq<string>)
    requires SoundDoc(d, k) && Follows(k) && Spaced(s, DocTokens(d, k))
    ensures var r := ReadValue(cfg, s, before);
            && (r.Good? <==> Accepted(cfg.allowComments, d))
            && (r.Good? ==> r.value == Meaning(d) && Spaced(r.rest, k))
    decreases d, 2
  {
    hide Spaced, Tokens, Take, TakePast, PartsTokens, EntriesTokens, SoundParts, SoundEntries, AcceptedParts, AcceptedEntries,
         Meanings, MemberMeanings, ReadMembers, ReadArray, ReadScalar, Comment, Canon, StoreAll, Whole, Kind;
    match d
    case Plain(v) => ValueRead(cfg, s, before, v, k);
    case List(ps, trailing, close) =>
      Brackets();
      Takes(s, "[", PartsTokens(ps, trailing, close, k));
      ListRead(cfg, Take(s).rest, ps, trailing, close, k);
    case Table(es, trailing, close) =>
      Brackets();
      Takes(s, "{", EntriesTokens(es, trailing, close, k));
      NothingAccepted(cfg.allowComments, trailing);
      EntriesRead(cfg, Take(s).rest, "", [], es, trailing, close, k);
  }

  lemma NothingAccepted(allowComments: bool, trailing: bool)
    ensures AcceptedEntries(allowComments, [], trailing) && Meanings([]) == []
  {
  }

  lemma Brackets()
    ensures Kind("[") == ArrayBegin && Kind("{") == ObjectBegin && Kind("]") == ArrayEnd && Kind("}") == ObjectEnd && Kind(":") == MemberSeparator
    ensures forall k :: Whole("[", k) && Whole("{", k) && Whole("]", k) && Whole("}", k) && Whole(":", k)
  {
  }

  /** Behind comments. */
  lemma {:induction false} DocBehind(cfg: Config, s: string, before: Value, cs: seq<string>, d: Doc, k: seq<string>)
    requires Comments(cs) && SoundDoc(d, k) && Follows(k) && Spaced(s, cs + DocTokens(d, k))
    ensures var r := ReadValue(cfg, s, before);
            && (r.Good? <==> (cs == [] || cfg.allowComments) && Accepted(cfg.allowComments, d))
            && (r.Good? ==> r.value == Meaning(d) && Spaced(r.rest, k))
    decreases d, 3, |cs|
  {
    hide Spaced, DocTokens, Take, TakePast, Comment, SoundDoc, Accepted, Meaning, ReadMembers, ReadArray, Follows;
    if cs == [] {
      assert cs + DocTokens(d, k) == DocTokens(d, k);
      DocRead(cfg, s, before, d, k);
    } else {
      assert cs + DocTokens(d, k) == [cs[0]] + (cs[1..] + DocTokens(d, k));
      TakesComment(s, cs[0], cs[1..] + DocTokens(d, k));
      if cfg.allowComments {
        DocBehind(cfg, Take(s).rest, before, cs[1..], d, k);
      }
    }
  }

  /** A closing bracket of an array where a value should be. */
  lemma {:induction false} NoValue(cfg: Config, s: string, before: Value, cs: seq<string>, k: seq<string>)
    requires Comments(cs) && Spaced(s, cs + (["]"] + k))
    ensures ReadValue(cfg, s, before).Failed?
    decreases |cs|
  {
    hide Spaced, Take, TakePast, Comment, Whole, Kind;
    if cs == [] {
      assert cs + (["]"] + k) == ["]"] + k;
      Brackets();
      Takes(s, "]", k);
    } else {
      assert cs + (["]"] + k) == [cs[0]] + (cs[1..] + (["]"] + k));
      TakesComment(s, cs[0], cs[1..] + (["]"] + k));
      if cfg.allowComments {
        NoValue(cfg, Take(s).rest, before, cs[1..], k);
      }
    }
  }

  /** Behind the opening bracket of an array. */
  lemma {:induction false} ListRead(cfg: Config, s: string, ps: seq<Part>, trailing: bool, close: seq<string>, k: seq<string>)
    requires Comments(close) && SoundParts(ps, trailing, close, k) && Spaced(s, PartsTokens(ps, trailing, close, k))
    ensures var r := ReadArray(cfg, s);
            && (r.Good? <==> if ps == [] then close == [] else !trailing && AcceptedParts(cfg.allowComments, ps))
            && (r.Good? ==> r.value == Array(Meanings(ps)) && Spaced(r.rest, k))
    decreases ps, 5
  {
    hide Take, TakePast, Comment, SoundParts, AcceptedParts, Meanings, ReadItems, DocTokens, PartsEnd, Whole, Kind;
    SkipAgain(s);
    var inner := SkipSpaces(s);
    assert Spaced(inner, PartsTokens(ps, trailing, close, k));
    if ps == [] {
      if close == [] {
        assert close + (["]"] + k) == ["]"] + k;
        Brackets();
        Takes(inner, "]", k);
        NothingAccepted(cfg.allowComments, trailing);
        assert "]" <= inner && inner[0] == ']';
      } else {
        CommentStarts(close[0]);
        assert (close + (["]"] + k))[0] == close[0];
        assert close[0] <= inner && inner[0] == '/';
        NoValue(cfg, inner, Null, close, k);
        NoItem(cfg, inner, []);
      }
    } else {
      PartStarts(inner, ps, trailing, close, k);
      PartsRead(cfg, inner, [], ps, trailing, close, k);
      assert [] + Meanings(ps) == Meanings(ps);
    }
  }

  lemma NoItem(cfg: Config, s: string, done: seq<Value>)
    requires ReadValue(cfg, s, Null).Failed?
    ensures ReadItems(cfg, s, done).Failed?
  {
    hide ReadValue, Recover;
  }

  lemma CommentStarts(c: string)
    requires Comment(c)
    ensures c != "" && c[0] == '/'
  {
    assert Lex(c + "") == Lexeme(CommentToken, |c|);
  }

  /** No value starts like a closing bracket. */
  lemma PartStarts(s: string, ps: seq<Part>, trailing: bool, close: seq<string>, k: seq<string>)
    requires ps != [] && SoundParts(ps, trailing, close, k) && Spaced(s, PartsTokens(ps, trailing, close, k)) && SkipSpaces(s) == s
    ensures s != "" && s[0] != ']'
  {
    var p, end := ps[0], ps[0].after + PartsEnd(ps, trailing, close, k);
    assert SoundPart(p, PartsEnd(ps, trailing, close, k));
    assert Follows(end) && SoundDoc(p.doc, end) && (p.doc.Plain? ==> Printable(p.doc.v));
    if p.before != [] {
      CommentStarts(p.before[0]);
      hide Comment, DocTokens, PartsEnd, SoundDoc;
      assert (p.before + DocTokens(p.doc, end))[0] == p.before[0];
      assert p.before[0] <= s;
    } else {
      hide Comment, PartsEnd, PartsTokens, EntriesTokens, SoundParts, SoundEntries, Tokens;
      var t := DocTokens(p.doc, end);
      assert p.before + t == t;
      if p.doc.Plain? {
        FirstToken(p.doc.v, end);
        hide First;
        assert t[0] == First(p.doc.v);
      }
      assert t[0] <= s;
    }
  }

  /** From one element on. */
  lemma {:induction false} PartsRead(cfg: Config, s: string, done: seq<Value>, ps: seq<Part>, trailing: bool, close: seq<string>, k: seq<string>)
    requires ps != [] && Comments(close) && SoundParts(ps, trailing, close, k) && Spaced(s, PartsTokens(ps, trailing, close, k))
    ensures var r := ReadItems(cfg, s, done);
            && (r.Good? <==> !trailing && AcceptedParts(cfg.allowComments, ps))
            && (r.Good? ==> r.value == Array(done + Meanings(ps)) && Spaced(r.rest, k))
    decreases ps, 4
  {
    hide Spaced, Take, TakePast, Comment, SoundDoc, Accepted, Meaning, ReadValue, DocTokens, Stands, Recover, Follows;
    var p, rest := ps[0], PartsTokens(ps[1..], trailing, close, k);
    DocBehind(cfg, s, Null, p.before, p.doc, p.after + PartsEnd(ps, trailing, close, k));
    var r := ReadValue(cfg, s, Null);
    AcceptedPartsFirst(cfg.allowComments, ps);
    if r.Good? {
      MeaningsFirst(done, ps);
      hide Meanings, AcceptedParts, SoundPart;
      if |ps| > 1 || trailing {
        TakesPast(r.rest, p.after, p.sep.text, p.sep.kind, rest);
        var next := TakePast(r.rest).rest;
        if |ps| > 1 {
          PartsRead(cfg, next, done + [Meaning(p.doc)], ps[1..], trailing, close, k);
        } else {
          NoValue(cfg, next, Null, close, k);
          NoItem(cfg, next, done + [Meaning(p.doc)]);
        }
      } else {
        ClosesArray(r.rest, p.after, k);
      }
    }
  }

  lemma ClosesArray(s: string, cs: seq<string>, k: seq<string>)
    requires Comments(cs) && Spaced(s, cs + (["]"] + k))
    ensures TakePast(s).kind == ArrayEnd && Spaced(TakePast(s).rest, k)
  {
    hide Spaced, Take, TakePast, Comment, Whole, Kind;
    Brackets();
    WholeStands("]", k);
    TakesPast(s, cs, "]", ArrayEnd, k);
  }

  lemma AcceptedPartsFirst(allowComments: bool, ps: seq<Part>)
    requires ps != []
    ensures AcceptedParts(allowComments, ps) <==> AcceptedPart(allowComments, ps[0]) && AcceptedParts(allowComments, ps[1..])
  {
    hide AcceptedPart;
    if AcceptedPart(allowComments, ps[0]) && AcceptedParts(allowComments, ps[1..]) {
      forall i | 0 <= i < |ps| ensures AcceptedPart(allowComments, ps[i]) {
        assert i > 0 ==> ps[i] == ps[1..][i - 1];
      }
    }
  }

  lemma MeaningsFirst(done: seq<Value>, ps: seq<Part>)
    requires ps != []
    ensures done + Meanings(ps) == done + [Meaning(ps[0].doc)] + Meanings(ps[1..])
    ensures |ps| == 1 ==> done + Meanings(ps) == done + [Meaning(ps[0].doc)]
  {
    var v, rest := Meaning(ps[0].doc), Meanings(ps[1..]);
    assert Meanings(ps) == [v] + rest && (|ps| == 1 ==> rest == []);
    hide Meaning, Meanings;
    Nested3(done, [v], rest);
  }

  /** From one member on. */
  lemma {:induction false} EntriesRead(cfg: Config, s: string, name: string, done: seq<Member>, es: seq<Entry>,
                                       trailing: bool, close: seq<string>, k: seq<string>)
    requires Comments(close) && SoundEntries(es, trailing, close, k) && Spaced(s, EntriesTokens(es, trailing, close, k))
    ensures var r := ReadMembers(cfg, s, name, done);
            && (r.Good? <==> if es == [] then name == "" else AcceptedEntries(cfg.allowComments, es, trailing))
            && (r.Good? ==> r.value == Object(StoreAll(done, MemberMeanings(es))) && Spaced(r.rest, k))
    decreases es, 6
  {
    hide Spaced, Take, TakePast, ReadMember, Comment, Stands, NameEnd, Recover, AcceptedEntries, SoundPart, Whole, Kind;
    if es == [] {
      Brackets();
      WholeStands("}", k);
      TakesPast(s, close, "}", ObjectEnd, k);
    } else {
      NameStands(es[0].name, NameEnd(es, trailing, close, k));
      TakesPast(s, es[0].front, Quote(es[0].name), StringToken, NameEnd(es, trailing, close, k));
      EntryRead(cfg, TakePast(s), done, es, trailing, close, k);
    }
  }

  lemma NameStands(name: string, k: seq<string>)
    ensures Stands(Quote(name), StringToken, k)
  {
    assert Quote(name)[0] == '\"';
    WholeStands(Quote(name), k);
    hide Stands, Quote;
  }

  lemma {:induction false} EntryRead(cfg: Config, t: Lexed, done: seq<Member>, es: seq<Entry>,
                                     trailing: bool, close: seq<string>, k: seq<string>)
    requires es != [] && Comments(close) && SoundEntries(es, trailing, close, k)
    requires Sound(t) && t.kind.StringToken? && TextOf(t) == Quote(es[0].name) && Spaced(t.rest, NameEnd(es, trailing, close, k))
    ensures var r := ReadMember(cfg, t, done);
            && (r.Good? <==> AcceptedEntries(cfg.allowComments, es, trailing))
            && (r.Good? ==> r.value == Object(StoreAll(done, MemberMeanings(es))) && Spaced(r.rest, k))
    decreases es, 5
  {
    hide Spaced, Take, TakePast, Quote, Decode, Meaning, MemberMeanings, ReadValue, AfterMember, Store, StoreAll, Lookup,
         NulFree, Comment, Stands, Kind, Whole, Accepted, AcceptedEntries, SoundDoc, DocTokens, EntriesEnd, Separates, Follows, Comma,
         EntriesTokens, Recover;
    var name, p, end := es[0].name, es[0].part, es[0].part.after + EntriesEnd(es, trailing, close, k);
    QuoteInside(name);
    BeforeNulWhole(name);
    Brackets();
    AcceptedFirst(cfg.allowComments, es, trailing);
    WholeStands(":", p.before + DocTokens(p.doc, end));
    TakesPast(t.rest, es[0].colon, ":", MemberSeparator, p.before + DocTokens(p.doc, end));
    if es[0].colon == [] {
      var colon := Take(t.rest);
      DocBehind(cfg, colon.rest, Lookup(done, name), p.before, p.doc, end);
      var r := ReadValue(cfg, colon.rest, Lookup(done, name));
      if r.Good? {
        EntryEnd(cfg, r.rest, Store(done, name, Meaning(p.doc)), es, trailing, close, k);
        MeaningStored(done, es);
      }
    }
  }

  lemma MeaningStored(done: seq<Member>, es: seq<Entry>)
    requires es != []
    ensures StoreAll(done, MemberMeanings(es))
         == StoreAll(Store(done, es[0].name, Meaning(es[0].part.doc)), MemberMeanings(es[1..]))
  {
    hide Meaning, Store;
    assert MemberMeanings(es)[1..] == MemberMeanings(es[1..]);
  }

  /** Behind a value that is already stored. */
  lemma {:induction false} EntryEnd(cfg: Config, s: string, done: seq<Member>, es: seq<Entry>,
                                    trailing: bool, close: seq<string>, k: seq<string>)
    requires es != [] && Comments(close) && SoundEntries(es, trailing, close, k)
    requires Spaced(s, es[0].part.after + EntriesEnd(es, trailing, close, k))
    ensures var r := AfterMember(cfg, s, es[0].name, done);
            && (r.Good? <==>
                 && (|es| > 1 || trailing ==> Comma(es[0].part))
                 && (if |es| > 1 then AcceptedEntries(cfg.allowComments, es[1..], trailing) else trailing ==> es[0].name == ""))
            && (r.Good? ==> r.value == Object(StoreAll(done, MemberMeanings(es[1..]))) && Spaced(r.rest, k))
    decreases es, 4
  {
    hide Spaced, Take, PastComments, ReadMembers, Comment, Stands, Kind, Whole, AcceptedEntries, EntriesTokens, SoundDoc, Recover, Follows;
    var p := es[0].part;
    if |es| > 1 || trailing {
      var rest := EntriesTokens(es[1..], trailing, close, k);
      TakesPast(s, p.after, p.sep.text, p.sep.kind, rest);
      EntriesRead(cfg, TakePast(s).rest, es[0].name, done, es[1..], trailing, close, k);
    } else {
      Brackets();
      WholeStands("}", k);
      TakesPast(s, p.after, "}", ObjectEnd, k);
      assert MemberMeanings(es[1..]) == [];
    }
  }

  /** Whole documents: any configuration, any root rule, anything behind the value. */
  lemma DressedParsed(cfg: Config, strictRoot: bool, text: string, root: Value, front: seq<string>, d: Doc, k: seq<string>)
    requires Comments(front) && SoundDoc(d, k) && Follows(k) && Spaced(text, front + DocTokens(d, k))
    ensures ParseFaults(cfg, strictRoot, text, root) == [] <==>
              && (front == [] || cfg.allowComments) && Accepted(cfg.allowComments, d)
              && (strictRoot ==> Rooted(Meaning(d)))
    ensures (front == [] || cfg.allowComments) && Accepted(cfg.allowComments, d) ==> ReadValue(cfg, text, root).value == Meaning(d)
  {
    hide Spaced, DocTokens, Comment, SoundDoc, Accepted, Meaning, ReadValue, Follows;
    DocBehind(cfg, text, root, front, d, k);
  }

  // ----- Documents that show it -----

  lemma {:induction false} ConcatAppend(a: seq<string>, b: seq<string>)
    ensures Concat(a + b) == Concat(a) + Concat(b)
  {
    if a == [] {
      assert a + b == b;
    } else {
      ConcatAppend(a[1..], b);
      assert (a + b)[1..] == a[1..] + b;
    }
  }

  lemma ConcatOne(t: string, k: seq<string>)
    ensures Concat([t] + k) == t + Concat(k)
  {
    assert ([t] + k)[1..] == k;
  }

  /** Tokens written one behind the other are found again. */
  lemma {:induction false} SpacedConcat(toks: seq<string>)
    requires forall i | 0 <= i < |toks| :: toks[i] != "" && !IsSpace(toks[i][0])
    ensures Spaced(Concat(toks), toks)
  {
    if toks != [] {
      SpacedConcat(toks[1..]);
      SpacedToken(toks[0], Concat(toks[1..]), toks[1..]);
      assert toks == [toks[0]] + toks[1..];
    }
  }

  ghost predicate Starts(toks: seq<string>) { forall i | 0 <= i < |toks| :: toks[i] != "" && !IsSpace(toks[i][0]) }

  /** A member of value 1. */
  function One(name: string, front: seq<string>, after: seq<string>, sep: Mark): Entry {
    Entry(name, front, [], Part([], Plain(Int(1)), after, sep))
  }

  const COMMA := Mark(",", ArraySeparator)

  lemma OneTokens(es: seq<Entry>, trailing: bool)
    requires es != [] && es[0].colon == [] && es[0].part.before == [] && es[0].part.doc == Plain(Int(1))
    ensures EntriesTokens(es, trailing, [], [])
         == es[0].front + ([Quote(es[0].name)] + ([":"] + (["1"] + (es[0].part.after + EntriesEnd(es, trailing, [], [])))))
  {
    hide Quote, EntriesEnd;
    var end := es[0].part.after + EntriesEnd(es, trailing, [], []);
    assert Scalar(Int(1)) == "1" && Tokens(Int(1), end) == ["1"] + end;
    assert DocTokens(es[0].part.doc, end) == ["1"] + end;
    assert NameEnd(es, trailing, [], []) == [] + ([":"] + ([] + (["1"] + end)));
    assert [] + (["1"] + end) == ["1"] + end && [] + ([":"] + (["1"] + end)) == [":"] + (["1"] + end);
  }

  lemma MemberText(front: seq<string>, name: string, after: seq<string>, end: seq<string>)
    requires Comments(front) && Comments(after) && Starts(end)
    ensures var toks := front + ([Quote(name)] + ([":"] + (["1"] + (after + end))));
            Starts(toks) && Concat(toks) == Concat(front) + (Quote(name) + (":1" + (Concat(after) + Concat(end))))
  {
    var t1 := after + end;
    var t2 := [":"] + (["1"] + t1);
    ConcatAppend(after, end);
    ConcatOne("1", t1);
    ConcatOne(":", ["1"] + t1);
    ConcatOne(Quote(name), t2);
    ConcatAppend(front, [Quote(name)] + t2);
    hide Concat, Quote;
    NameStarts(name);
    var x := Concat(after) + Concat(end);
    assert ":" + ("1" + x) == ":1" + x;
  }

  lemma NameStarts(name: string)
    ensures Quote(name) != "" && Quote(name)[0] == '\"'
  {
  }

  lemma BracketText()
    ensures Concat([] + (["}"] + [])) == "}" && Starts([] + (["}"] + [])) && Concat(["}"] + []) == "}" && Starts(["}"] + [])
  {
    ConcatOne("}", []);
    var t: seq<string> := ["}"] + [];
    assert [] + t == t && t == ["}"] && t[0] == "}";
  }

  /** An object is parsed as its tokens, written one behind the other, say. */
  lemma TableParsed(cfg: Config, root: Value, es: seq<Entry>, trailing: bool)
    requires SoundEntries(es, trailing, [], []) && Starts(EntriesTokens(es, trailing, [], []))
    ensures ParseFaults(cfg, false, "{" + Concat(EntriesTokens(es, trailing, [], [])), root) == []
       <==> AcceptedEntries(cfg.allowComments, es, trailing)
  {
    var d, toks := Table(es, trailing, []), EntriesTokens(es, trailing, [], []);
    ConcatOne("{", toks);
    SpacedConcat(["{"] + toks);
    assert [] + DocTokens(d, []) == DocTokens(d, []) == ["{"] + toks;
    assert SoundDoc(d, []) && (Accepted(cfg.allowComments, d) <==> AcceptedEntries(cfg.allowComments, es, trailing));
    hide EntriesTokens, SoundEntries, AcceptedEntries, ParseFaults, Concat, Spaced, SoundDoc, DocTokens, Accepted, Meaning;
    DressedParsed(cfg, false, "{" + Concat(toks), root, [], d, []);
  }

  /** One member: comments in front of its name are always passed over, and a comma may stand behind its value
      if the name is empty. */
  lemma OneOne(cfg: Config, root: Value, name: string, front: seq<string>, trailing: bool, text: string)
    requires Comments(front) && NulFree(name)
    requires text == "{" + (Concat(front) + (Quote(name) + (":1" + (if trailing then ",}" else "}"))))
    ensures ParseFaults(cfg, false, text, root) == [] <==> (trailing ==> name == "")
  {
    var es := [One(name, front, [], COMMA)];
    OneSound(es, trailing);
    OneText(es, trailing);
    assert AcceptedEntries(cfg.allowComments, es, trailing) <==> (trailing ==> name == "") by {
      assert AcceptedPart(cfg.allowComments, es[0].part);
    }
    hide Concat, Quote, EntriesTokens, SoundEntries, AcceptedEntries, Starts, ParseFaults, Comment;
    TableParsed(cfg, root, es, trailing);
  }

  lemma OneText(es: seq<Entry>, trailing: bool)
    requires |es| == 1 && es[0] == One(es[0].name, es[0].front, [], COMMA) && Comments(es[0].front)
    ensures Starts(EntriesTokens(es, trailing, [], []))
    ensures Concat(EntriesTokens(es, trailing, [], []))
         == Concat(es[0].front) + (Quote(es[0].name) + (":1" + (if trailing then ",}" else "}")))
  {
    hide Comment, Quote;
    var end := EntriesEnd(es, trailing, [], []);
    var none: seq<string> := [];
    OneTokens(es, trailing);
    OneEnd(es, trailing);
    MemberText(es[0].front, es[0].name, none, end);
    assert none + end == end && Concat(none) == "" && "" + Concat(end) == Concat(end);
  }

  lemma OneEnd(es: seq<Entry>, trailing: bool)
    requires |es| == 1 && es[0].part.sep == COMMA
    ensures var end := EntriesEnd(es, trailing, [], []); Starts(end) && Concat(end) == if trailing then ",}" else "}"
  {
    BracketText();
    if trailing {
      ConcatOne(",", [] + (["}"] + []));
    }
  }

  lemma OneSound(es: seq<Entry>, trailing: bool)
    requires |es| == 1 && es[0] == One(es[0].name, es[0].front, [], COMMA) && NulFree(es[0].name) && Comments(es[0].front)
    ensures SoundEntries(es, trailing, [], [])
  {
    var rest := EntriesTokens(es[1..], trailing, [], []);
    WholeStands(",", rest);
    hide Comment, Stands;
    assert Separates(COMMA, ObjectEnd, rest);
    var end := EntriesEnd(es, trailing, [], []);
    assert [] + end == end && Follows(end);
  }

  lemma SmallTexts()
    ensures Quote("a") == "\"a\"" && Quote("b") == "\"b\"" && Quote("") == "\"\""
    ensures Concat([]) == "" && Concat(["/**/"]) == "/**/"
  {
    assert "a"[1..] == "" && "b"[1..] == "" && ["/**/"][1..] == [];
  }

  lemma SmallComment()
    ensures Comments(["/**/"])
  {
    BlockComment("");
    assert "/*" + "" + "*/" == "/**/";
  }

  /** `{"":1,}`: a comma in front of the bracket, accepted because the last name is empty. */
  lemma TrailingComma(cfg: Config, root: Value)
    ensures ParseFaults(cfg, false, "{\"\":1,}", root) == []
  {
    SmallTexts();
    hide ParseFaults, Concat, Quote;
    var text := "{\"\":1,}";
    assert text == "{" + ("" + ("\"\"" + (":1" + ",}")));
    OneOne(cfg, root, "", [], true, text);
  }

  /** `{/**/"a":1}`: read where comments are not allowed, too. */
  lemma CommentBeforeName(cfg: Config, root: Value)
    ensures ParseFaults(cfg, false, "{/**/\"a\":1}", root) == []
  {
    var text := "{/**/\"a\":1}";
    SmallTexts();
    SmallComment();
    hide ParseFaults, Concat, Quote, Comment;
    assert text == "{" + ("/**/" + ("\"a\"" + (":1" + "}")));
    OneOne(cfg, root, "a", ["/**/"], false, text);
  }

  /** The tokens of the second of two members. */
  const SECOND: seq<string> := ["\"b\"", ":", "1", "}"]

  /** Two members: the text between them is accepted if it is a comma or stands behind a comment. */
  lemma TwoOnes(cfg: Config, root: Value, after: seq<string>, sep: Mark, text: string)
    requires Comments(after) && Separates(sep, ObjectEnd, SECOND) && Starts([sep.text]) && (after == [] ==> Follows([sep.text]))
    requires text == "{" + ("\"a\":1" + (Concat(after) + (sep.text + "\"b\":1}")))
    ensures ParseFaults(cfg, false, text, root) == [] <==> after != [] || sep.kind == ArraySeparator
  {
    var es := [One("a", [], after, sep), One("b", [], [], COMMA)];
    TwoSound(es, after, sep);
    TwoText(es, after, sep);
    TwoAccepted(cfg.allowComments, es);
    hide Concat, Quote, EntriesTokens, SoundEntries, AcceptedEntries, Separates, Starts, ParseFaults;
    TableParsed(cfg, root, es, false);
  }

  lemma TwoAccepted(allowComments: bool, es: seq<Entry>)
    requires |es| == 2 && es[0] == One(es[0].name, [], es[0].part.after, es[0].part.sep) && es[1] == One(es[1].name, [], [], COMMA)
    ensures AcceptedEntries(allowComments, es, false) <==> Comma(es[0].part)
  {
    assert forall i | 0 <= i < 2 :: AcceptedPart(allowComments, es[i].part);
  }

  lemma TwoText(es: seq<Entry>, after: seq<string>, sep: Mark)
    requires es == [One("a", [], after, sep), One("b", [], [], COMMA)] && Comments(after) && Starts([sep.text])
    ensures Starts(EntriesTokens(es, false, [], []))
    ensures "{" + Concat(EntriesTokens(es, false, [], [])) == "{" + ("\"a\":1" + (Concat(after) + (sep.text + "\"b\":1}")))
  {
    hide Comment;
    var end := EntriesEnd(es, false, [], []);
    assert es[1..] == [One("b", [], [], COMMA)];
    SecondTokens(es[1..]);
    OneTokens(es, false);
    assert end == [sep.text] + SECOND;
    ConcatOne(sep.text, SECOND);
    MemberText([], "a", after, end);
    SmallTexts();
    hide Concat, Quote, EntriesTokens, EntriesEnd;
    assert "" + ("\"a\"" + (":1" + (Concat(after) + Concat(end)))) == "\"a\":1" + (Concat(after) + Concat(end));
  }

  lemma SecondTokens(es: seq<Entry>)
    requires es == [One("b", [], [], COMMA)]
    ensures EntriesTokens(es, false, [], []) == SECOND && Starts(SECOND) && Concat(SECOND) == "\"b\":1}"
    ensures SoundEntries(es, false, [], [])
  {
    OneTokens(es, false);
    SmallTexts();
    OneSound(es, false);
    var end := EntriesEnd(es, false, [], []);
    assert end == ["}"] && [] + end == end;
    hide Concat, SoundEntries;
    OneEnd(es, false);
    MemberText([], "b", [], ["}"]);
    assert [] + ([Quote("b")] + ([":"] + (["1"] + ([] + ["}"])))) == SECOND;
    assert "" + ("\"b\"" + (":1" + ("" + "}"))) == "\"b\":1}";
  }

  lemma TwoSound(es: seq<Entry>, after: seq<string>, sep: Mark)
    requires es == [One("a", [], after, sep), One("b", [], [], COMMA)]
    requires Comments(after) && Separates(sep, ObjectEnd, SECOND) && (after == [] ==> Follows([sep.text]))
    ensures SoundEntries(es, false, [], [])
  {
    SecondTokens(es[1..]);
    hide Separates, EntriesTokens, Comment;
    var end := EntriesEnd(es, false, [], []);
    if after != [] {
      assert Comment(after[0]);
      CommentStarts(after[0]);
      assert (after + end)[0] == after[0];
    } else {
      assert after + end == end && end[0] == sep.text;
    }
    assert Follows(after + end) && es[1..] == [One("b", [], [], COMMA)];
    assert SoundPart(es[0].part, end) by {
      assert SoundDoc(Plain(Int(1)), after + end);
    }
  }

  lemma ColonMark()
    ensures Separates(Mark(":", MemberSeparator), ObjectEnd, SECOND) && Follows([":"]) && Starts([":"])
  {
    WholeStands(":", SECOND);
    hide Stands;
  }

  /** `{"a":1/**/:"b":1}`: behind the comment the colon is taken for a comma. */
  lemma ColonBehindComment(cfg: Config, root: Value)
    ensures ParseFaults(cfg, false, "{\"a\":1/**/:\"b\":1}", root) == []
  {
    var text := "{\"a\":1/**/:\"b\":1}";
    SmallTexts();
    SmallComment();
    ColonMark();
    hide ParseFaults, Concat, Separates, Comment;
    assert text == "{" + ("\"a\":1" + ("/**/" + (":" + "\"b\":1}")));
    TwoOnes(cfg, root, ["/**/"], Mark(":", MemberSeparator), text);
  }

  /** Without the comment it is an error. */
  lemma ColonAlone(cfg: Config, root: Value)
    ensures ParseFaults(cfg, false, "{\"a\":1:\"b\":1}", root) != []
  {
    var text := "{\"a\":1:\"b\":1}";
    SmallTexts();
    ColonMark();
    hide ParseFaults, Concat, Separates, Comment;
    assert text == "{" + ("\"a\":1" + ("" + (":" + "\"b\":1}")));
    TwoOnes(cfg, root, [], Mark(":", MemberSeparator), text);
  }

  /** `{"a":1/**/@"b":1}`: even what is no token at all is taken for a comma there. */
  lemma OddBehindComment(cfg: Config, root: Value)
    ensures ParseFaults(cfg, false, "{\"a\":1/**/@\"b\":1}", root) == []
  {
    var text := "{\"a\":1/**/@\"b\":1}";
    SmallTexts();
    SmallComment();
    OddStands('@', SECOND);
    hide ParseFaults, Concat, Stands, Comment;
    assert text == "{" + ("\"a\":1" + ("/**/" + ("@" + "\"b\":1}")));
    TwoOnes(cfg, root, ["/**/"], Mark("@", ErrorToken), text);
  }

  /** `[1:3]` as a document. */
  lemma ColonArray(cfg: Config, root: Value)
    ensures ParseFaults(cfg, false, "[1:3]", root) == [] && ReadValue(cfg, "[1:3]", root).value == Array([Int(1), Int(3)])
  {
    hide ReadItems, ReadValue, ParseFaults;
    var s, text := "1:3]", "[1:3]";
    assert "[" + s == text;
    ColonSeparates(cfg);
    OpenArray(cfg, s, root);
    NoFaults(cfg, text, root);
  }

  lemma NoFaults(cfg: Config, text: string, root: Value)
    requires ReadValue(cfg, text, root).Good?
    ensures ParseFaults(cfg, false, text, root) == []
  {
    hide ReadValue;
  }

  lemma OpenArray(cfg: Config, s: string, root: Value)
    requires s != "" && !IsSpace(s[0]) && s[0] != ']'
    ensures ReadValue(cfg, "[" + s, root) == ReadItems(cfg, s, [])
  {
    hide ReadItems;
    var t := "[" + s;
    assert SkipSpaces(t) == t && Lex(t) == Lexeme(ArrayBegin, 1) && t[1..] == s && SkipSpaces(s) == s;
    assert Take(t) == Lexed(ArrayBegin, t, s);
  }
}
