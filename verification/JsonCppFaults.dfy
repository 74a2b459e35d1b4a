/**
What tools/jsoncpp/json_reader.cpp reports of a text it does not accept: which problem, and at which token,
by where in the grammar the text goes wrong.
*/
module JsonCppFaults {
  import opened CBuffer
  import opened JsonCpp
  import opened JsonCppLex
  import opened JsonCppGrammar
  import opened JsonCppAccepts
  import JsonCppTokens

  /** Where a text goes wrong: at a value; inside the next element of an array; at the name of a member, at the
      colon behind it, inside its value, or behind that. What comes before is in order. */
  datatype Spot =
    | AtValue
    | InList(done: seq<Part>, inner: Place)
    | AtName(members: seq<Entry>, front: seq<Tok>)
    | AtColon(members: seq<Entry>, front: seq<Tok>, name: Tok)
    | InMember(members: seq<Entry>, front: seq<Tok>, name: Tok, colon: Tok, inner: Place)
    | AtComma(members: seq<Entry>, last: Entry)

  /** Such a spot behind comments. */
  datatype Place = Place(before: seq<Tok>, spot: Spot)

  /** A member that is in order, and what separates it from the next. */
  predicate Fine(cfg: Config, e: Entry) {
    && Comments(e.front) && e.name.kind == StringToken && NameOf(e.name).Text? && e.colon.kind == MemberSeparator
    && LenientPart(cfg, e.part)
  }

  predicate Goes(p: Part, bracket: TokenType) { p.sep.kind != CommentToken && p.sep.kind != bracket }

  predicate FineParts(cfg: Config, ps: seq<Part>) {
    forall i | 0 <= i < |ps| :: LenientPart(cfg, ps[i]) && Goes(ps[i], ArrayEnd)
  }

  predicate FineEntries(cfg: Config, es: seq<Entry>) {
    forall i | 0 <= i < |es| ::
      Fine(cfg, es[i]) && Goes(es[i].part, ObjectEnd) && (es[i].part.after != [] || es[i].part.sep.kind == ArraySeparator)
  }

  predicate FinePlace(cfg: Config, pl: Place)
    decreases pl
  {
    Comments(pl.before) && (pl.before == [] || cfg.allowComments)
    && match pl.spot
       case AtValue => true
       case InList(done, inner) => FineParts(cfg, done) && FinePlace(cfg, inner)
       case AtName(es, front) => FineEntries(cfg, es) && Comments(front)
       case AtColon(es, front, name) =>
         FineEntries(cfg, es) && Comments(front) && name.kind == StringToken && NameOf(name).Text?
       case InMember(es, front, name, colon, inner) =>
         FineEntries(cfg, es) && Comments(front) && name.kind == StringToken && NameOf(name).Text?
         && colon.kind == MemberSeparator && FinePlace(cfg, inner)
       case AtComma(es, last) => FineEntries(cfg, es) && Fine(cfg, last) && last.part.after == []
  }

  /** The tokens in front of the one that is wrong. */
  function DoneParts(ps: seq<Part>, k: seq<Tok>): seq<Tok> {
    if ps == [] then k else PartToks(ps[0], [ps[0].sep] + DoneParts(ps[1..], k))
  }

  function DoneEntries(es: seq<Entry>, k: seq<Tok>): seq<Tok> {
    if es == [] then k else EntryToks(es[0], [es[0].part.sep] + DoneEntries(es[1..], k))
  }

  function EntryToks(e: Entry, k: seq<Tok>): seq<Tok> { e.front + ([e.name] + ([e.colon] + PartToks(e.part, k))) }

  function PlaceToks(pl: Place, k: seq<Tok>): seq<Tok>
    decreases pl
  {
    pl.before + SpotToks(pl.spot, k)
  }

  function SpotToks(spot: Spot, k: seq<Tok>): seq<Tok>
    decreases spot
  {
    match spot
    case AtValue => k
    case InList(done, inner) => [LBRACKET] + DoneParts(done, PlaceToks(inner, k))
    case AtName(es, front) => [LBRACE] + DoneEntries(es, front + k)
    case AtColon(es, front, name) => [LBRACE] + DoneEntries(es, front + ([name] + k))
    case InMember(es, front, name, colon, inner) =>
      [LBRACE] + DoneEntries(es, front + ([name] + ([colon] + PlaceToks(inner, k))))
    case AtComma(es, last) => [LBRACE] + DoneEntries(es, EntryToks(last, k))
  }

  /** The problem with a token that should begin a value, if there is one. */
  function ValueProblem(cfg: Config, t: Tok): (p: seq<Problem>) {
    match t.kind
    case ObjectBegin => []
    case ArrayBegin => []
    case TrueToken => []
    case FalseToken => []
    case NullToken => []
    case NumberToken => if t.text != "" && NumberOf(t.text, cfg.scans).Number? then [] else [NumberExpected(t.text)]
    case StringToken => if NameOf(t).Text? then [] else [NameOf(t).problem]
    case CommentToken => if cfg.allowComments then [] else [ValueExpected]
    case _ => [ValueExpected]
  }

  /** The problem with the token at a spot, if there is one. An array may also end where its first element should
      begin, and an object where a name should be, if the last name is empty. */
  function ProblemAt(cfg: Config, spot: Spot, t: Tok): (p: seq<Problem>)
    decreases spot
  {
    match spot
    case AtValue => ValueProblem(cfg, t)
    case InList(done, inner) =>
      if done == [] && inner == Place([], AtValue) && t.kind == ArrayEnd then [] else ProblemAt(cfg, inner.spot, t)
    case AtName(es, front) =>
      if t.kind == CommentToken || (t.kind == ObjectEnd && (es == [] || NameOf(es[|es| - 1].name) == Text(""))) then []
      else if t.kind != StringToken then [NameExpected]
      else if NameOf(t).Bad? then [NameOf(t).problem] else []
    case AtColon(_, _, _) => if t.kind == MemberSeparator then [] else [ColonExpected]
    case InMember(_, _, _, _, inner) => ProblemAt(cfg, inner.spot, t)
    case AtComma(_, _) => if t.kind in {ObjectEnd, ArraySeparator, CommentToken} then [] else [CommaOrBraceExpected]
  }

  // ----- What is left of a text that goes wrong -----

  function PartValues(cfg: Config, ps: seq<Part>): seq<Value>
    requires FineParts(cfg, ps)
  {
    if ps == [] then [] else [Meaning(cfg, ps[0].value)] + PartValues(cfg, ps[1..])
  }

  /** The object that these members make of one. */
  function Stored(cfg: Config, ms: seq<Member>, es: seq<Entry>): seq<Member>
    requires FineEntries(cfg, es)
    decreases |es|
  {
    if es == [] then ms
    else Stored(cfg, Store(ms, BeforeNul(NameOf(es[0].name).s), Meaning(cfg, es[0].part.value)), es[1..])
  }

  /** The value afterwards, of one that was `was`: what has been read before the spot, and in an array or a member
      that the fault is inside of, what is left there. */
  function Left(cfg: Config, spot: Spot, was: Value): Value
    requires FinePlace(cfg, Place([], spot))
    decreases spot
  {
    match spot
    case AtValue => was
    case InList(done, inner) => Array(PartValues(cfg, done) + [LeftInside(cfg, inner, Null)])
    case AtName(es, _) => Object(Stored(cfg, [], es))
    case AtColon(es, _, _) => Object(Stored(cfg, [], es))
    case InMember(es, _, name, _, inner) =>
      var ms, n := Stored(cfg, [], es), BeforeNul(NameOf(name).s);
      Object(Store(ms, n, LeftInside(cfg, inner, Lookup(ms, n))))
    case AtComma(es, last) => Object(Store(Stored(cfg, [], es), BeforeNul(NameOf(last.name).s), Meaning(cfg, last.part.value)))
  }

  function LeftInside(cfg: Config, pl: Place, was: Value): Value
    requires FinePlace(cfg, pl)
    decreases pl
  {
    Left(cfg, pl.spot, was)
  }

  /** Where reading is left: each container around the fault is given up behind its next closing bracket. */
  function Resumed(spot: Spot, rest: string): string
    decreases spot
  {
    match spot
    case AtValue => rest
    case InList(_, inner) => Recover(Resumed(inner.spot, rest), ArrayEnd)
    case InMember(_, _, _, _, inner) => Recover(Resumed(inner.spot, rest), ObjectEnd)
    case _ => Recover(rest, ObjectEnd)
  }

  /** That is, behind the first token of the kind, or at the end of the text. */
  lemma {:induction false} RecoverFound(s: string, toks: seq<Tok>, until: TokenType, m: string)
    requires Lexes(s, toks, m) && Take(m).kind in {until, EndOfStream}
    requires forall i | 0 <= i < |toks| :: toks[i].kind !in {until, EndOfStream}
    ensures Recover(s, until) == Take(m).rest
    decreases |toks|
  {
    if toks != [] {
      hide Take, TextOf;
      RecoverFound(Take(s).rest, toks[1..], until, m);
    }
  }

  // ----- What is in order is passed -----

  lemma {:induction false} PartsPassed(cfg: Config, s: string, done: seq<Value>, ps: seq<Part>, k: seq<Tok>, m: string)
    returns (s': string, done': seq<Value>)
    requires FineParts(cfg, ps) && Lexes(s, DoneParts(ps, k), m)
    ensures Lexes(s', k, m) && ReadItems(cfg, s, done) == WithItems(cfg, s', done') && done' == done + PartValues(cfg, ps)
    decreases |ps|
  {
    hide Take, TakePast, TextOf, ReadValue, LenientPart, Lenient, PartToks, Meaning, Recover;
    if ps == [] {
      s', done' := s, done;
    } else {
      var t := OnePassed(cfg, s, done, ps[0], DoneParts(ps[1..], k), m);
      PartValuesFirst(cfg, ps);
      hide DoneParts, Lexes, FineParts, PartValues, ReadItems, Goes;
      s', done' := PartsPassed(cfg, t, done + [Meaning(cfg, ps[0].value)], ps[1..], k, m);
      assert done + [Meaning(cfg, ps[0].value)] + PartValues(cfg, ps[1..]) == done + PartValues(cfg, ps);
    }
  }

  /** An element that is in order, and what separates it from the next. */
  lemma OnePassed(cfg: Config, s: string, done: seq<Value>, p: Part, rest: seq<Tok>, m: string) returns (t: string)
    requires LenientPart(cfg, p) && Goes(p, ArrayEnd) && Lexes(s, PartToks(p, [p.sep] + rest), m)
    ensures Lenient(cfg, p.value) && Lexes(t, rest, m)
    ensures ReadItems(cfg, s, done) == ReadItems(cfg, t, done + [Meaning(cfg, p.value)])
  {
    PartLenient(cfg, p);
    hide Take, TakePast, TextOf, ReadValue, ReadItems, LenientPart, PartToks, Meaning;
    PartRead(cfg, s, Null, p, [p.sep] + rest, m);
    var q := ReadValue(cfg, s, Null);
    LexesPast(q.rest, p.after, p.sep, rest, m);
    ItemPassed(cfg, s, done);
    t := TakePast(q.rest).rest;
  }

  lemma ItemPassed(cfg: Config, s: string, done: seq<Value>)
    requires ReadValue(cfg, s, Null).Good? && TakePast(ReadValue(cfg, s, Null).rest).kind != ArrayEnd
    ensures var q := ReadValue(cfg, s, Null);
            ReadItems(cfg, s, done) == ReadItems(cfg, TakePast(q.rest).rest, done + [q.value])
  {
    hide TakePast, ReadValue, Recover;
  }

  lemma PartValuesFirst(cfg: Config, ps: seq<Part>)
    requires ps != [] && FineParts(cfg, ps)
    ensures FineParts(cfg, ps[1..]) && PartValues(cfg, ps) == [Meaning(cfg, ps[0].value)] + PartValues(cfg, ps[1..])
  {
    hide Meaning, Lenient, LenientPart;
  }

  function WithItems(cfg: Config, s: string, done: seq<Value>): Read { ReadItems(cfg, s, done) }

  lemma {:induction false} EntriesPassed(cfg: Config, s: string, name: string, ms: seq<Member>, es: seq<Entry>, k: seq<Tok>, m: string)
    returns (s': string, name': string, ms': seq<Member>)
    requires FineEntries(cfg, es) && Lexes(s, DoneEntries(es, k), m)
    ensures Lexes(s', k, m) && ReadMembers(cfg, s, name, ms) == ReadMembers(cfg, s', name', ms')
    ensures name' == (if es == [] then name else NameOf(es[|es| - 1].name).s) && ms' == Stored(cfg, ms, es)
    decreases |es|
  {
    hide Take, TakePast, TextOf, ReadMember, LenientPart, PartToks, Meaning, Recover, NameOf, ReadMembers;
    if es == [] {
      s', name', ms' := s, name, ms;
    } else {
      var e := es[0];
      var rest := DoneEntries(es[1..], k);
      PartLenient(cfg, e.part);
      var after, stored := MemberPassed(cfg, s, name, ms, e, [e.part.sep] + rest, m);
      LexesPast(after, e.part.after, e.part.sep, rest, m);
      SeparatorPassed(cfg, after, NameOf(e.name).s, stored);
      s', name', ms' := EntriesPassed(cfg, TakePast(after).rest, NameOf(e.name).s, stored, es[1..], k, m);
    }
  }

  lemma SeparatorPassed(cfg: Config, s: string, name: string, ms: seq<Member>)
    requires Take(s).kind.CommentToken? || Take(s).kind.ArraySeparator?
    requires TakePast(s).kind != ObjectEnd
    ensures AfterMember(cfg, s, name, ms) == ReadMembers(cfg, TakePast(s).rest, name, ms)
  {
    hide Take, ReadMembers, Recover;
  }

  /** A member up to what follows its value. */
  lemma MemberPassed(cfg: Config, s: string, name: string, ms: seq<Member>, e: Entry, k: seq<Tok>, m: string)
    returns (after: string, stored: seq<Member>)
    requires Fine(cfg, e) && Lexes(s, EntryToks(e, k), m)
    ensures Lexes(after, e.part.after + k, m)
    ensures ReadMembers(cfg, s, name, ms) == AfterMember(cfg, after, NameOf(e.name).s, stored)
    ensures stored == Store(ms, BeforeNul(NameOf(e.name).s), Meaning(cfg, e.part.value))
  {
    NamePassed(cfg, s, name, ms, e.front, e.name, [e.colon] + PartToks(e.part, k), m);
    var t := TakePast(s);
    LexesOne(t.rest, e.colon, PartToks(e.part, k), m);
    var colon, x := Take(t.rest), NameOf(e.name).s;
    hide Take, TakePast, TextOf, ReadMembers, LenientPart, PartToks, Meaning, Recover, NameOf, ReadValue, AfterMember, Lookup, Store;
    PartRead(cfg, colon.rest, Lookup(ms, BeforeNul(x)), e.part, k, m);
    var q := ReadValue(cfg, colon.rest, Lookup(ms, BeforeNul(x)));
    after, stored := q.rest, Store(ms, BeforeNul(x), q.value);
    MemberGoesOn(cfg, t, ms);
  }

  /** A name that is in order. */
  lemma NamePassed(cfg: Config, s: string, name: string, ms: seq<Member>, front: seq<Tok>, tok: Tok, k: seq<Tok>, m: string)
    requires Comments(front) && tok.kind == StringToken && NameOf(tok).Text? && Lexes(s, front + ([tok] + k), m)
    ensures var t := TakePast(s);
            TokOf(t) == tok && Lexes(t.rest, k, m) && ReadMembers(cfg, s, name, ms) == ReadMember(cfg, t, ms)
  {
    LexesPast(s, front, tok, k, m);
    hide Take, TakePast, TextOf, ReadMember, Recover, NameOf;
  }

  lemma MemberGoesOn(cfg: Config, t: Lexed, ms: seq<Member>)
    requires Sound(t) && t.kind.StringToken? && NameOf(TokOf(t)).Text?
    ensures var colon, name := Take(t.rest), NameOf(TokOf(t)).s;
            && (colon.kind != MemberSeparator ==>
                  Reports(ReadMember(cfg, t, ms), ColonExpected, colon, Object(ms), Recover(colon.rest, ObjectEnd)))
            && (colon.kind == MemberSeparator ==>
                  var q := ReadValue(cfg, colon.rest, Lookup(ms, BeforeNul(name)));
                  if q.Good? then ReadMember(cfg, t, ms) == AfterMember(cfg, q.rest, name, Store(ms, BeforeNul(name), q.value))
                  else Reports(ReadMember(cfg, t, ms), q.fault.problem, q.fault.token, Object(Store(ms, BeforeNul(name), q.value)),
                               Recover(q.rest, ObjectEnd)))
  {
    hide Take, TextOf, ReadValue, AfterMember, Recover, Decode, Inside, Store, Lookup, BeforeNul;
  }

  // ----- What is wrong is reported -----

  /** Exactly this is reported, and left as the value and as the text. */
  predicate Reports(r: Read, problem: Problem, token: Lexed, left: Value, rest: string) {
    r.Failed? && r.fault == Fault(problem, token) && r.value == left && r.rest == rest
  }

  lemma WrongValue(cfg: Config, s: string, was: Value)
    requires ValueProblem(cfg, TokOf(Take(s))) != []
    ensures Reports(ReadValue(cfg, s, was), ValueProblem(cfg, TokOf(Take(s)))[0], Take(s), was, Take(s).rest)
  {
    assert TakeValue(cfg, s) == Take(s);
    hide Take, TextOf, ReadMembers, ReadArray, NumberOf, Decode, Inside;
  }

  lemma WrongName(cfg: Config, s: string, name: string, ms: seq<Member>, front: seq<Tok>, m: string)
    requires Comments(front) && Lexes(s, front, m) && Take(m).kind != CommentToken
    requires !(Take(m).kind.ObjectEnd? && name == "")
    requires Take(m).kind.StringToken? ==> NameOf(TokOf(Take(m))).Bad?
    ensures Reports(ReadMembers(cfg, s, name, ms),
                    if Take(m).kind.StringToken? then NameOf(TokOf(Take(m))).problem else NameExpected, Take(m), Object(ms), Recover(Take(m).rest, ObjectEnd))
  {
    CommentsPassed(s, front, m);
    hide Take, TakePast, TextOf, Recover, Decode, Inside, ReadValue;
  }

  lemma {:induction false} CommentsPassed(s: string, front: seq<Tok>, m: string)
    requires Comments(front) && Lexes(s, front, m) && Take(m).kind != CommentToken
    ensures TakePast(s) == Take(m)
    decreases |front|
  {
    if front != [] {
      PastOne(s);
      hide Take, TakePast, TextOf;
      CommentsPassed(Take(s).rest, front[1..], m);
    }
  }

  lemma WrongComma(cfg: Config, s: string, name: string, ms: seq<Member>)
    requires Take(s).kind !in {ObjectEnd, ArraySeparator, CommentToken}
    ensures Reports(AfterMember(cfg, s, name, ms), CommaOrBraceExpected, Take(s), Object(ms), Recover(Take(s).rest, ObjectEnd))
  {
    hide Take, Recover, ReadMembers;
  }

  /** A fault inside an element or a value is that of the container. */
  lemma PassedOn(cfg: Config, s: string, done: seq<Value>)
    requires ReadValue(cfg, s, Null).Failed?
    ensures ReadItems(cfg, s, done).Failed? && ReadItems(cfg, s, done).fault == ReadValue(cfg, s, Null).fault
    ensures ReadItems(cfg, s, done).value == Array(done + [ReadValue(cfg, s, Null).value])
    ensures ReadItems(cfg, s, done).rest == Recover(ReadValue(cfg, s, Null).rest, ArrayEnd)
  {
    hide ReadValue, Recover;
  }

  lemma {:induction false} Opens(s: string, before: seq<Tok>, bracket: Tok, k: seq<Tok>, cfg: Config, was: Value, m: string)
    requires Comments(before) && (before == [] || cfg.allowComments) && bracket.kind != CommentToken
    requires Lexes(s, before + ([bracket] + k), m)
    ensures var t := TakeValue(cfg, s);
            && TokOf(t) == bracket && Lexes(t.rest, k, m)
            && (bracket.kind == ObjectBegin ==> ReadValue(cfg, s, was) == ReadMembers(cfg, t.rest, "", []))
            && (bracket.kind == ArrayBegin ==> ReadValue(cfg, s, was) == ReadArray(cfg, t.rest))
  {
    LexesPast(s, before, bracket, k, m);
    hide Take, TakePast, TextOf, ReadMembers, ReadArray, ReadScalar;
  }

  /** The text is in order up to such a place, and the token there has a problem: that is what is reported. */
  lemma {:induction false} FaultFound(cfg: Config, s: string, was: Value, pl: Place, m: string)
    requires FinePlace(cfg, pl) && Lexes(s, PlaceToks(pl, []), m) && ProblemAt(cfg, pl.spot, TokOf(Take(m))) != []
    ensures Reports(ReadValue(cfg, s, was), ProblemAt(cfg, pl.spot, TokOf(Take(m)))[0], Take(m), LeftInside(cfg, pl, was),
                    Resumed(pl.spot, Take(m).rest))
    decreases pl, 1
  {
    hide Take, TakePast, TextOf, ReadMembers, ReadArray, ReadValue, ReadMember, DoneParts, DoneEntries, FineParts, FineEntries, Fine, NameOf, ValueProblem;
    match pl.spot
    case AtValue => ValueFault(cfg, s, was, pl.before, m);
    case InList(done, inner) =>
      Opens(s, pl.before, LBRACKET, DoneParts(done, PlaceToks(inner, [])), cfg, was, m);
      ListFault(cfg, TakeValue(cfg, s).rest, done, inner, m);
    case _ => TableFault(cfg, s, was, pl, m);
  }

  lemma {:induction false} ValueFault(cfg: Config, s: string, was: Value, before: seq<Tok>, m: string)
    requires Comments(before) && (before == [] || cfg.allowComments) && Lexes(s, before + [], m)
    requires ValueProblem(cfg, TokOf(Take(m))) != []
    ensures Reports(ReadValue(cfg, s, was), ValueProblem(cfg, TokOf(Take(m)))[0], Take(m), was, Take(m).rest)
    decreases |before|
  {
    assert before + [] == before;
    if before == [] {
      WrongValue(cfg, s, was);
    } else {
      assert before[1..] + [] == before[1..];
      ValueFault(cfg, Take(s).rest, was, before[1..], m);
      CommentBefore(cfg, s, was);
    }
  }

  lemma CommentBefore(cfg: Config, s: string, was: Value)
    requires cfg.allowComments && Take(s).kind.CommentToken?
    ensures ReadValue(cfg, s, was) == ReadValue(cfg, Take(s).rest, was)
  {
    PastOne(s);
    hide Take, ReadMembers, ReadArray, ReadScalar;
  }

  lemma {:induction false} ListFault(cfg: Config, s: string, done: seq<Part>, inner: Place, m: string)
    requires FineParts(cfg, done) && FinePlace(cfg, inner) && Lexes(s, DoneParts(done, PlaceToks(inner, [])), m)
    requires ProblemAt(cfg, InList(done, inner), TokOf(Take(m))) != []
    ensures Reports(ReadArray(cfg, s), ProblemAt(cfg, inner.spot, TokOf(Take(m)))[0], Take(m),
                    Array(PartValues(cfg, done) + [LeftInside(cfg, inner, Null)]), Recover(Resumed(inner.spot, Take(m).rest), ArrayEnd))
    decreases inner, 2
  {
    var m' := NoBracketFirst(cfg, s, done, inner, m);
    ArrayByToken(cfg, s);
    ListProblem(cfg, done, inner, TokOf(Take(m)));
    hide Take, TextOf, ReadItems, ReadArray, PlaceToks, DoneParts, FineParts, FinePlace, ProblemAt, PartValues, LeftInside, Lexes;
    var t, vs := PartsPassed(cfg, SkipSpaces(s), [], done, PlaceToks(inner, []), m');
    FaultFound(cfg, t, Null, inner, m');
    PassedOn(cfg, t, vs);
    assert [] + PartValues(cfg, done) == PartValues(cfg, done);
  }

  lemma ListProblem(cfg: Config, done: seq<Part>, inner: Place, t: Tok)
    requires ProblemAt(cfg, InList(done, inner), t) != []
    ensures ProblemAt(cfg, InList(done, inner), t) == ProblemAt(cfg, inner.spot, t)
  {
    hide ValueProblem;
  }

  /** The first element begins with no bracket, and with the same tokens behind white space. */
  lemma NoBracketFirst(cfg: Config, s: string, done: seq<Part>, inner: Place, m: string) returns (m': string)
    requires FineParts(cfg, done) && FinePlace(cfg, inner) && Lexes(s, DoneParts(done, PlaceToks(inner, [])), m)
    requires ProblemAt(cfg, InList(done, inner), TokOf(Take(m))) != []
    ensures Take(s).kind != ArrayEnd && Take(m') == Take(m) && Lexes(SkipSpaces(s), DoneParts(done, PlaceToks(inner, [])), m')
  {
    hide TextOf, Lex, LenientPart, NameOf;
    SkipAgain(s);
    var toks := DoneParts(done, PlaceToks(inner, []));
    if toks == [] {
      m' := SkipSpaces(s);
      NothingDone(cfg, done, inner);
    } else {
      m' := m;
      FirstOfList(cfg, done, inner);
    }
  }

  lemma NothingDone(cfg: Config, done: seq<Part>, inner: Place)
    ensures DoneParts(done, PlaceToks(inner, [])) == [] ==> done == [] && inner == Place([], AtValue)
  {
    hide DoneEntries, EntryToks;
    if done != [] {
      assert |done[0].before + Toks(done[0].value, done[0].after + ([done[0].sep] + DoneParts(done[1..], PlaceToks(inner, []))))| > 0;
    } else if inner.spot.AtValue? {
      assert PlaceToks(inner, []) == inner.before + [] == inner.before;
    } else {
      assert SpotToks(inner.spot, []) != [];
      assert |inner.before + SpotToks(inner.spot, [])| > 0;
    }
  }

  lemma FirstOfList(cfg: Config, done: seq<Part>, inner: Place)
    requires FineParts(cfg, done) && FinePlace(cfg, inner) && DoneParts(done, PlaceToks(inner, [])) != []
    ensures DoneParts(done, PlaceToks(inner, []))[0].kind != ArrayEnd
  {
    hide DoneEntries, EntryToks, NameOf, FineEntries, Fine;
    if done != [] {
      var p := done[0];
      PartLenient(cfg, p);
      var end := p.after + ([p.sep] + DoneParts(done[1..], PlaceToks(inner, [])));
      FirstBehind(cfg, p.value, end);
      assert p.before != [] ==> (p.before + Toks(p.value, end))[0] == p.before[0];
    } else if inner.before != [] {
      assert PlaceToks(inner, [])[0] == inner.before[0];
    } else {
      InFront(inner);
    }
  }

  lemma InFront(inner: Place)
    requires inner.before == [] && PlaceToks(inner, []) != []
    ensures PlaceToks(inner, [])[0] in {LBRACE, LBRACKET}
  {
    hide DoneEntries, EntryToks, DoneParts;
  }

  lemma {:induction false} TableFault(cfg: Config, s: string, was: Value, pl: Place, m: string)
    requires FinePlace(cfg, pl) && !pl.spot.AtValue? && !pl.spot.InList? && Lexes(s, PlaceToks(pl, []), m)
    requires ProblemAt(cfg, pl.spot, TokOf(Take(m))) != []
    ensures Reports(ReadValue(cfg, s, was), ProblemAt(cfg, pl.spot, TokOf(Take(m)))[0], Take(m), LeftInside(cfg, pl, was),
                    Resumed(pl.spot, Take(m).rest))
    decreases pl, 0
  {
    InOrder(cfg, pl);
    var k := InTable(pl.spot);
    TableText(cfg, pl, was);
    hide *;
    Opens(s, pl.before, LBRACE, DoneEntries(pl.spot.members, k), cfg, was, m);
    var s', name, ms := EntriesPassed(cfg, TakeValue(cfg, s).rest, "", [], pl.spot.members, k, m);
    SpotFault(cfg, s', name, ms, pl.spot, m);
  }

  lemma TableText(cfg: Config, pl: Place, was: Value)
    requires FinePlace(cfg, pl) && !pl.spot.AtValue? && !pl.spot.InList?
    ensures PlaceToks(pl, []) == pl.before + ([LBRACE] + DoneEntries(pl.spot.members, InTable(pl.spot)))
    ensures Comments(pl.before) && (pl.before == [] || cfg.allowComments) && FinePlace(cfg, Place([], pl.spot))
    ensures LeftInside(cfg, pl, was) == Left(cfg, pl.spot, Null)
  {
    hide DoneEntries, EntryToks, NameOf, FineEntries, Stored;
  }

  /** Behind the members that are in order. */
  lemma {:induction false} SpotFault(cfg: Config, s: string, name: string, ms: seq<Member>, spot: Spot, m: string)
    requires !spot.AtValue? && !spot.InList? && FinePlace(cfg, Place([], spot)) && Lexes(s, InTable(spot), m)
    requires spot.members != [] ==> NameOf(spot.members[|spot.members| - 1].name).Text?
    requires name == (if spot.members == [] then "" else NameOf(spot.members[|spot.members| - 1].name).s)
    requires FineEntries(cfg, spot.members) && ms == Stored(cfg, [], spot.members)
    requires ProblemAt(cfg, spot, TokOf(Take(m))) != []
    ensures Reports(ReadMembers(cfg, s, name, ms), ProblemAt(cfg, spot, TokOf(Take(m)))[0], Take(m), Left(cfg, spot, Null), Resumed(spot, Take(m).rest))
    decreases spot, 4
  {
    hide Take, TakePast, TextOf, ReadMembers, ReadMember, FineEntries, NameOf, EntryToks, Lexes, ValueProblem, Fine, Reports, PlaceToks;
    match spot
    case AtName(es, front) =>
      assert front + [] == front;
      WrongName(cfg, s, name, ms, front, m);
    case AtColon(es, front, tok) =>
      NamePassed(cfg, s, name, ms, front, tok, [], m);
      ColonFault(cfg, TakePast(s), ms, m);
    case InMember(es, front, tok, colon, inner) =>
      NamePassed(cfg, s, name, ms, front, tok, [colon] + PlaceToks(inner, []), m);
      MemberFault(cfg, TakePast(s), ms, colon, inner, m);
    case AtComma(es, last) => CommaFault(cfg, s, name, ms, last, m);
  }

  lemma ColonFault(cfg: Config, t: Lexed, ms: seq<Member>, m: string)
    requires Sound(t) && t.kind.StringToken? && NameOf(TokOf(t)).Text? && Lexes(t.rest, [], m) && Take(m).kind != MemberSeparator
    ensures Reports(ReadMember(cfg, t, ms), ColonExpected, Take(m), Object(ms), Recover(Take(m).rest, ObjectEnd))
  {
    MemberGoesOn(cfg, t, ms);
    hide Take, ReadMember, TextOf, NameOf;
  }

  lemma CommaFault(cfg: Config, s: string, name: string, ms: seq<Member>, last: Entry, m: string)
    requires Fine(cfg, last) && last.part.after == [] && Lexes(s, EntryToks(last, []), m)
    requires Take(m).kind !in {ObjectEnd, ArraySeparator, CommentToken}
    ensures Reports(ReadMembers(cfg, s, name, ms), CommaOrBraceExpected, Take(m),
                    Object(Store(ms, BeforeNul(NameOf(last.name).s), Meaning(cfg, last.part.value))), Recover(Take(m).rest, ObjectEnd))
  {
    hide Take, ReadMembers, AfterMember, TextOf, NameOf, EntryToks;
    var after, stored := MemberPassed(cfg, s, name, ms, last, [], m);
    assert last.part.after + [] == [];
    WrongComma(cfg, after, NameOf(last.name).s, stored);
  }

  /** The names in front of the spot are names. */
  lemma InOrder(cfg: Config, pl: Place)
    requires FinePlace(cfg, pl) && !pl.spot.AtValue? && !pl.spot.InList?
    ensures FineEntries(cfg, pl.spot.members)
    ensures pl.spot.members != [] ==> NameOf(pl.spot.members[|pl.spot.members| - 1].name).Text?
    ensures pl.spot.AtComma? ==> NameOf(pl.spot.last.name).Text?
  {
    hide NameOf;
  }

  /** The tokens behind the members that are in order. */
  function InTable(spot: Spot): seq<Tok>
    requires !spot.AtValue? && !spot.InList?
  {
    match spot
    case AtName(es, front) => front + []
    case AtColon(es, front, name) => front + ([name] + [])
    case InMember(es, front, name, colon, inner) => front + ([name] + ([colon] + PlaceToks(inner, [])))
    case AtComma(es, last) => EntryToks(last, [])
  }

  lemma {:induction false} MemberFault(cfg: Config, t: Lexed, ms: seq<Member>, colon: Tok, inner: Place, m: string)
    requires Sound(t) && t.kind.StringToken? && NameOf(TokOf(t)).Text? && colon.kind == MemberSeparator && FinePlace(cfg, inner)
    requires Lexes(t.rest, [colon] + PlaceToks(inner, []), m) && ProblemAt(cfg, inner.spot, TokOf(Take(m))) != []
    ensures var n := BeforeNul(NameOf(TokOf(t)).s);
            Reports(ReadMember(cfg, t, ms), ProblemAt(cfg, inner.spot, TokOf(Take(m)))[0], Take(m),
                    Object(Store(ms, n, LeftInside(cfg, inner, Lookup(ms, n)))), Recover(Resumed(inner.spot, Take(m).rest), ObjectEnd))
    decreases inner, 3
  {
    hide Take, TextOf, ReadMember, ReadValue, FinePlace, PlaceToks, NameOf, ProblemAt, Lookup, BeforeNul;
    LexesOne(t.rest, colon, PlaceToks(inner, []), m);
    MemberGoesOn(cfg, t, ms);
    FaultFound(cfg, Take(t.rest).rest, Lookup(ms, BeforeNul(NameOf(TokOf(t)).s)), inner, m);
  }

  // ----- There is no other fault -----

  lemma {:induction false} CommentsFront(s: string) returns (cs: seq<Tok>, m: string)
    ensures Comments(cs) && Lexes(s, cs, m) && Take(m) == TakePast(s) && (cs == [] ==> m == s)
    decreases |s|
  {
    var t := Take(s);
    if t.kind == CommentToken {
      PastOne(s);
      hide Take, TakePast, TextOf;
      var rest;
      rest, m := CommentsFront(t.rest);
      cs := [TokOf(t)] + rest;
    } else {
      cs, m := [], s;
      assert TakePast(s) == t;
    }
  }

  /** The problem at a spot, where `name` is that of a member in front of all of its own. */
  function ProblemBehind(cfg: Config, name: string, spot: Spot, t: Tok): seq<Problem> {
    if spot.AtName? && spot.members == [] then
      if t.kind == CommentToken || (t.kind == ObjectEnd && name == "") then []
      else if t.kind != StringToken then [NameExpected]
      else if NameOf(t).Bad? then [NameOf(t).problem] else []
    else ProblemAt(cfg, spot, t)
  }

  /** The fault is that of the token behind these. */
  predicate FaultIs(r: Read, problems: seq<Problem>, m: string) {
    r.Failed? && problems == [r.fault.problem] && Take(m) == r.fault.token
  }

  lemma {:induction false} ValueFaultIs(cfg: Config, s: string, was: Value) returns (pl: Place, m: string)
    requires ReadValue(cfg, s, was).Failed?
    ensures FinePlace(cfg, pl) && Lexes(s, PlaceToks(pl, []), m)
    ensures FaultIs(ReadValue(cfg, s, was), ProblemAt(cfg, pl.spot, TokOf(Take(m))), m)
    decreases |s|, 0
  {
    var t := TakeValue(cfg, s);
    BracketToks(s);
    BracketPast(s);
    hide Take, TakePast, TextOf, ReadMembers, ReadArray, ReadScalar, NameOf, FineEntries, FineParts, DoneEntries, DoneParts;
    var spot, k;
    if t.kind.ObjectBegin? {
      spot, m := MembersFaultIs(cfg, t.rest, "", []);
      k := [LBRACE] + DoneEntries(spot.members, InTable(spot));
    } else if t.kind.ArrayBegin? {
      var done, inner;
      done, inner, m := ListFaultIs(cfg, t.rest);
      spot, k := InList(done, inner), [LBRACKET] + DoneParts(done, PlaceToks(inner, []));
    } else {
      var before;
      before, m := ScalarFaultIs(cfg, s, was);
      pl := Place(before, AtValue);
      assert before + [] == before;
      return;
    }
    pl := BehindComments(cfg, s, spot, k, m);
  }

  lemma BehindComments(cfg: Config, s: string, spot: Spot, k: seq<Tok>, m: string) returns (pl: Place)
    requires FinePlace(cfg, Place([], spot)) && !spot.AtValue? && k != [] && SpotToks(spot, []) == k
    requires TokOf(TakeValue(cfg, s)) == k[0] && Lexes(TakeValue(cfg, s).rest, k[1..], m) && k[0].kind != CommentToken
    ensures FinePlace(cfg, pl) && pl.spot == spot && Lexes(s, PlaceToks(pl, []), m)
  {
    hide Take, TakePast, TextOf, NameOf;
    var none: seq<Tok> := [];
    assert k == [k[0]] + k[1..] && none + k == k;
    if cfg.allowComments {
      var before := CommentsSkipped(s, k[1..], m);
      pl := Place(before, spot);
    } else {
      pl := Place([], spot);
    }
    hide SpotToks, FineEntries, FineParts;
  }

  lemma ScalarFaultIs(cfg: Config, s: string, was: Value) returns (before: seq<Tok>, m: string)
    requires ReadValue(cfg, s, was).Failed? && TakeValue(cfg, s).kind !in {ObjectBegin, ArrayBegin}
    ensures Comments(before) && (before == [] || cfg.allowComments) && Lexes(s, before, m)
    ensures FaultIs(ReadValue(cfg, s, was), ValueProblem(cfg, TokOf(Take(m))), m)
  {
    before, m := [], s;
    assert Lexes(s, [], s);
    if cfg.allowComments {
      before, m := CommentsFront(s);
    }
    hide Take, TextOf, TakePast, ReadMembers, ReadArray, NumberOf, Decode, Inside, Lexes;
    assert Take(m) == TakeValue(cfg, s);
  }

  lemma {:induction false} ListFaultIs(cfg: Config, s: string) returns (done: seq<Part>, inner: Place, m: string)
    requires ReadArray(cfg, s).Failed?
    ensures FineParts(cfg, done) && FinePlace(cfg, inner) && Lexes(s, DoneParts(done, PlaceToks(inner, [])), m)
    ensures FaultIs(ReadArray(cfg, s), ProblemAt(cfg, InList(done, inner), TokOf(Take(m))), m)
    decreases |s|, 2
  {
    ArrayByToken(cfg, s);
    hide Lex, TextOf, ReadItems, ReadArray, FineParts, ValueProblem, FinePlace;
    done, inner, m := PartsFaultIs(cfg, SkipSpaces(s), []);
    m := FromWhiteSpace(s, DoneParts(done, PlaceToks(inner, [])), m);
    NothingDone(cfg, done, inner);
    NotAtBracket(cfg, s, done, inner, m);
  }

  lemma FromWhiteSpace(s: string, toks: seq<Tok>, m: string) returns (m': string)
    requires Lexes(SkipSpaces(s), toks, m)
    ensures Lexes(s, toks, m') && Take(m') == Take(m) && (toks == [] ==> m' == s)
  {
    SkipAgain(s);
    hide Lex, TextOf;
    m' := if toks == [] then s else m;
  }

  lemma NotAtBracket(cfg: Config, s: string, done: seq<Part>, inner: Place, m: string)
    requires Take(s).kind != ArrayEnd && (done == [] && inner == Place([], AtValue) ==> m == s)
    ensures ProblemAt(cfg, InList(done, inner), TokOf(Take(m))) == ProblemAt(cfg, inner.spot, TokOf(Take(m)))
  {
    hide Take, TextOf, ValueProblem;
  }

  lemma {:induction false} PartsFaultIs(cfg: Config, s: string, vs: seq<Value>) returns (done: seq<Part>, inner: Place, m: string)
    requires ReadItems(cfg, s, vs).Failed?
    ensures FineParts(cfg, done) && FinePlace(cfg, inner) && Lexes(s, DoneParts(done, PlaceToks(inner, [])), m)
    ensures done == [] && inner == Place([], AtValue) ==> m == s
    ensures FaultIs(ReadItems(cfg, s, vs), ProblemAt(cfg, inner.spot, TokOf(Take(m))), m)
    decreases |s|, 1
  {
    var q := ReadValue(cfg, s, Null);
    hide Take, TextOf, ReadValue, FinePlace, ProblemAt, PlaceToks, Lenient, Meaning, Toks, Recover;
    if q.Failed? {
      done := [];
      inner, m := ValueFaultIs(cfg, s, Null);
      EmptyPlace(s, inner, m);
    } else {
      var t := TakePast(q.rest);
      var more;
      more, inner, m := PartsFaultIs(cfg, t.rest, vs + [q.value]);
      hide TakePast;
      var rest := DoneParts(more, PlaceToks(inner, []));
      var after := CommentsSkipped(q.rest, rest, m);
      var before, g := ValueSound(cfg, s, Null, after + ([TokOf(t)] + rest), m);
      done := [Part(before, g, after, TokOf(t))] + more;
      assert done[1..] == more;
    }
  }

  lemma EmptyPlace(s: string, inner: Place, m: string)
    requires Lexes(s, PlaceToks(inner, []), m)
    ensures inner == Place([], AtValue) ==> m == s
  {
    hide Take;
  }

  lemma {:induction false} MembersFaultIs(cfg: Config, s: string, name: string, ms: seq<Member>) returns (spot: Spot, m: string)
    requires ReadMembers(cfg, s, name, ms).Failed?
    ensures !spot.AtValue? && !spot.InList? && FinePlace(cfg, Place([], spot))
    ensures Lexes(s, DoneEntries(spot.members, InTable(spot)), m)
    ensures FaultIs(ReadMembers(cfg, s, name, ms), ProblemBehind(cfg, name, spot, TokOf(Take(m))), m)
    decreases |s|, 3
  {
    var t := TakePast(s);
    if t.kind.StringToken? && NameOf(TokOf(t)).Text? {
      GoesToMember(cfg, s, name, ms);
      hide Take, TakePast, TextOf, ReadMembers, ReadMember, NameOf, ProblemBehind, FinePlace, DoneEntries, InTable;
      spot, m := MemberFaultIs(cfg, s, t, ms);
      ProblemOfSpot(cfg, name, spot, TokOf(Take(m)));
    } else {
      var front;
      front, m := CommentsFront(s);
      spot := AtName([], front);
      assert front + [] == front;
      NameFaultIs(cfg, s, name, ms);
      hide Take, TakePast, TextOf, ReadMembers, ReadMember, NameOf;
    }
  }

  lemma GoesToMember(cfg: Config, s: string, name: string, ms: seq<Member>)
    requires TakePast(s).kind.StringToken?
    ensures ReadMembers(cfg, s, name, ms) == ReadMember(cfg, TakePast(s), ms)
  {
    hide Take, TakePast, ReadMember, Recover;
  }

  lemma NameFaultIs(cfg: Config, s: string, name: string, ms: seq<Member>)
    requires ReadMembers(cfg, s, name, ms).Failed?
    requires TakePast(s).kind.StringToken? ==> NameOf(TokOf(TakePast(s))).Bad?
    ensures var t := TakePast(s);
            && !(t.kind == ObjectEnd && name == "")
            && ReadMembers(cfg, s, name, ms).fault
               == Fault(if t.kind.StringToken? then NameOf(TokOf(t)).problem else NameExpected, t)
  {
    hide Take, TakePast, TextOf, Recover, Decode, Inside, ReadValue;
  }

  lemma ProblemOfSpot(cfg: Config, name: string, spot: Spot, t: Tok)
    requires !spot.AtName? || spot.members != []
    ensures ProblemBehind(cfg, name, spot, t) == ProblemAt(cfg, spot, t)
  {
  }

  /** From a member on whose name is in order. */
  lemma {:induction false} MemberFaultIs(cfg: Config, s: string, t: Lexed, ms: seq<Member>) returns (spot: Spot, m: string)
    requires t == TakePast(s) && t.kind.StringToken? && NameOf(TokOf(t)).Text? && ReadMember(cfg, t, ms).Failed?
    ensures !spot.AtValue? && !spot.InList? && FinePlace(cfg, Place([], spot)) && (spot.AtName? ==> spot.members != [])
    ensures Lexes(s, DoneEntries(spot.members, InTable(spot)), m)
    ensures FaultIs(ReadMember(cfg, t, ms), ProblemAt(cfg, spot, TokOf(Take(m))), m)
    decreases |t.rest|, 2
  {
    MemberGoesOn(cfg, t, ms);
    hide Take, TakePast, TextOf, ReadMember, ReadValue, AfterMember, NameOf, Lookup, Store, BeforeNul, Lenient, Meaning, Toks;
    var tok, colon := TokOf(t), Take(t.rest);
    if colon.kind != MemberSeparator {
      m := t.rest;
      var front := CommentsSkipped(s, [], m);
      spot := AtColon([], front, tok);
    } else {
      var name := NameOf(tok).s;
      var q := ReadValue(cfg, colon.rest, Lookup(ms, BeforeNul(name)));
      if q.Failed? {
        spot, m := InnerFaultIs(cfg, s, t, colon, Lookup(ms, BeforeNul(name)));
      } else {
        spot, m := BehindFaultIs(cfg, s, t, colon, Lookup(ms, BeforeNul(name)), Store(ms, BeforeNul(name), q.value));
      }
    }
  }

  lemma {:induction false} InnerFaultIs(cfg: Config, s: string, t: Lexed, colon: Lexed, was: Value) returns (spot: Spot, m: string)
    requires t == TakePast(s) && t.kind.StringToken? && NameOf(TokOf(t)).Text? && colon == Take(t.rest) && colon.kind == MemberSeparator
    requires ReadValue(cfg, colon.rest, was).Failed?
    ensures spot.InMember? && FinePlace(cfg, Place([], spot)) && Lexes(s, DoneEntries(spot.members, InTable(spot)), m)
    ensures FaultIs(ReadValue(cfg, colon.rest, was), ProblemAt(cfg, spot, TokOf(Take(m))), m)
    decreases |t.rest|, 1
  {
    hide Take, TakePast, TextOf, ReadValue, NameOf, PlaceToks, ValueProblem;
    var inner;
    inner, m := ValueFaultIs(cfg, colon.rest, was);
    LexesOne(t.rest, TokOf(colon), PlaceToks(inner, []), m);
    var front := CommentsSkipped(s, [TokOf(colon)] + PlaceToks(inner, []), m);
    spot := InMember([], front, TokOf(t), TokOf(colon), inner);
  }

  lemma {:induction false} BehindFaultIs(cfg: Config, s: string, t: Lexed, colon: Lexed, was: Value, stored: seq<Member>)
    returns (spot: Spot, m: string)
    requires t == TakePast(s) && t.kind.StringToken? && NameOf(TokOf(t)).Text? && colon == Take(t.rest) && colon.kind == MemberSeparator
    requires ReadValue(cfg, colon.rest, was).Good?
    requires AfterMember(cfg, ReadValue(cfg, colon.rest, was).rest, NameOf(TokOf(t)).s, stored).Failed?
    ensures !spot.AtValue? && !spot.InList? && FinePlace(cfg, Place([], spot)) && (spot.AtName? ==> spot.members != [])
    ensures Lexes(s, DoneEntries(spot.members, InTable(spot)), m)
    ensures FaultIs(AfterMember(cfg, ReadValue(cfg, colon.rest, was).rest, NameOf(TokOf(t)).s, stored),
                    ProblemAt(cfg, spot, TokOf(Take(m))), m)
    decreases |t.rest|, 1
  {
    var q, name := ReadValue(cfg, colon.rest, was), NameOf(TokOf(t)).s;
    hide Take, TakePast, TextOf, ReadValue, AfterMember, NameOf, PartToks;
    if Take(q.rest).kind in {ObjectEnd, ArraySeparator, CommentToken} {
      SeparatedFault(cfg, q.rest, name, stored);
      var next := TakePast(q.rest);
      var behind;
      behind, m := MembersFaultIs(cfg, next.rest, name, stored);
      spot := OneMore(cfg, s, t, colon, was, behind, name, m);
    } else {
      m := q.rest;
      WrongComma(cfg, m, name, stored);
      var last := EntryOf(cfg, s, t, colon, was, [], [], m);
      spot := AtComma([], last);
    }
  }

  lemma SeparatedFault(cfg: Config, s: string, name: string, ms: seq<Member>)
    requires Take(s).kind in {ObjectEnd, ArraySeparator, CommentToken} && AfterMember(cfg, s, name, ms).Failed?
    ensures AfterMember(cfg, s, name, ms) == ReadMembers(cfg, TakePast(s).rest, name, ms) && TakePast(s).kind != ObjectEnd
    ensures Take(s).kind == CommentToken || TakePast(s).kind == ArraySeparator
  {
    hide Take, ReadMembers, Recover;
  }

  /** The member as it was read, with these tokens behind its value. */
  lemma EntryOf(cfg: Config, s: string, t: Lexed, colon: Lexed, was: Value, after: seq<Tok>, k: seq<Tok>, m: string) returns (e: Entry)
    requires t == TakePast(s) && t.kind.StringToken? && NameOf(TokOf(t)).Text? && colon == Take(t.rest) && colon.kind == MemberSeparator
    requires ReadValue(cfg, colon.rest, was).Good? && Comments(after) && Lexes(ReadValue(cfg, colon.rest, was).rest, after + k, m)
    ensures Fine(cfg, e) && e.part.after == after && e.name == TokOf(t) && Lexes(s, EntryToks(e, k), m)
  {
    hide Take, TakePast, TextOf, ReadValue, NameOf, Lenient, Meaning, Toks;
    var before, g := ValueSound(cfg, colon.rest, was, after + k, m);
    var p := Part(before, g, after, RBRACE);
    LexesOne(t.rest, TokOf(colon), PartToks(p, k), m);
    var front := CommentsSkipped(s, [TokOf(colon)] + PartToks(p, k), m);
    e := Entry(front, TokOf(t), TokOf(colon), p);
  }

  /** A spot among the members behind is one behind this member as well. */
  lemma OneMore(cfg: Config, s: string, t: Lexed, colon: Lexed, was: Value, behind: Spot, name: string, m: string) returns (spot: Spot)
    requires t == TakePast(s) && t.kind.StringToken? && NameOf(TokOf(t)) == Text(name) && colon == Take(t.rest) && colon.kind == MemberSeparator
    requires ReadValue(cfg, colon.rest, was).Good?
    requires var next := TakePast(ReadValue(cfg, colon.rest, was).rest);
             && (Take(ReadValue(cfg, colon.rest, was).rest).kind == CommentToken || next.kind == ArraySeparator) && next.kind != ObjectEnd
             && !behind.AtValue? && !behind.InList? && FinePlace(cfg, Place([], behind))
             && Lexes(next.rest, DoneEntries(behind.members, InTable(behind)), m)
    ensures !spot.AtValue? && !spot.InList? && FinePlace(cfg, Place([], spot)) && spot.members != []
    ensures Lexes(s, DoneEntries(spot.members, InTable(spot)), m)
    ensures ProblemAt(cfg, spot, TokOf(Take(m))) == ProblemBehind(cfg, name, behind, TokOf(Take(m)))
  {
    hide Take, TakePast, TextOf, ReadValue, NameOf, Fine, EntryToks, FinePlace, ProblemAt, ProblemBehind;
    var q := ReadValue(cfg, colon.rest, was);
    var next, k := TakePast(q.rest), DoneEntries(behind.members, InTable(behind));
    var after := CommentsSkipped(q.rest, k, m);
    var e := EntryOf(cfg, s, t, colon, was, after, [TokOf(next)] + k, m);
    var e' := e.(part := e.part.(sep := TokOf(next)));
    SameEntry(cfg, e, e', [TokOf(next)] + k);
    spot := behind.(members := [e'] + behind.members);
    assert spot.members[1..] == behind.members;
    Added(cfg, behind, e', name, TokOf(Take(m)));
  }

  lemma SameEntry(cfg: Config, e: Entry, e': Entry, k: seq<Tok>)
    requires Fine(cfg, e) && e' == e.(part := e.part.(sep := e'.part.sep))
    ensures Fine(cfg, e') && EntryToks(e', k) == EntryToks(e, k)
  {
    hide NameOf, Lenient;
  }

  lemma Added(cfg: Config, behind: Spot, e: Entry, name: string, t: Tok)
    requires !behind.AtValue? && !behind.InList? && FinePlace(cfg, Place([], behind)) && Fine(cfg, e) && NameOf(e.name) == Text(name)
    requires Goes(e.part, ObjectEnd) && (e.part.after != [] || e.part.sep.kind == ArraySeparator)
    ensures var spot := behind.(members := [e] + behind.members);
            && FinePlace(cfg, Place([], spot)) && InTable(spot) == InTable(behind)
            && ProblemAt(cfg, spot, t) == ProblemBehind(cfg, name, behind, t)
  {
    var members := [e] + behind.members;
    assert forall i | 0 < i < |members| :: members[i] == behind.members[i - 1];
    hide Fine, NameOf, EntryToks, PlaceToks, ValueProblem;
    assert members[|members| - 1] == if behind.members == [] then e else behind.members[|behind.members| - 1];
  }

  // ----- The theorem -----

  /** What parse records, then, whatever follows: this fault first, and only the complaint about the root may be
      added. */
  lemma FaultParsed(cfg: Config, strictRoot: bool, text: string, root: Value, pl: Place, m: string)
    requires FinePlace(cfg, pl) && Lexes(text, PlaceToks(pl, []), m) && ProblemAt(cfg, pl.spot, TokOf(Take(m))) != []
    ensures var fs := ParseFaults(cfg, strictRoot, text, root);
            fs != [] && fs[0] == Fault(ProblemAt(cfg, pl.spot, TokOf(Take(m)))[0], Take(m)) && (!strictRoot ==> |fs| == 1)
    ensures var r := ReadValue(cfg, text, root);
            r.value == LeftInside(cfg, pl, root) && r.rest == Resumed(pl.spot, Take(m).rest)
  {
    FaultFound(cfg, text, root, pl, m);
    hide ReadValue, ProblemAt, Take, FinePlace, PlaceToks;
  }

  /** And every fault parse records but that complaint is found at such a place. */
  lemma FaultExplained(cfg: Config, text: string, root: Value) returns (pl: Place, m: string)
    requires ParseFaults(cfg, false, text, root) != []
    ensures FinePlace(cfg, pl) && Lexes(text, PlaceToks(pl, []), m)
    ensures var p := ProblemAt(cfg, pl.spot, TokOf(Take(m)));
            |p| == 1 && ParseFaults(cfg, false, text, root) == [Fault(p[0], Take(m))]
  {
    hide ReadValue, ProblemAt, Take, TextOf, FinePlace, PlaceToks, Lexes;
    pl, m := ValueFaultIs(cfg, text, root);
  }

  /** The first token of a text that begins with its spelling. */
  lemma TakesSpelled(kind: TokenType, t: string, next: string)
    requires JsonCppTokens.Spelled(kind, t, next) && t != "" && !IsSpace(t[0])
    ensures Take(t + next) == Lexed(kind, t + next, next) && TokOf(Take(t + next)) == Tok(kind, t)
  {
    JsonCppTokens.TokenTaken(kind, t, next);
    hide Lex, JsonCppTokens.Spelled;
    var s := t + next;
    assert SkipSpaces(s) == s && s[|t|..] == next && s[..|t|] == t;
  }

  lemma NameLexed(name: string, m: string)
    requires JsonCppTokens.Quoted(name)
    ensures Lexes("{" + (name + m), [LBRACE] + [Tok(StringToken, name)], m)
  {
    var tok := Tok(StringToken, name);
    TakesSpelled(ObjectBegin, "{", name + m);
    TakesSpelled(StringToken, name, m);
    hide Take, TextOf, JsonCppTokens.Quoted;
    LexesOne("{" + (name + m), LBRACE, [tok], m);
    LexesOne(name + m, tok, [], m);
    assert [tok] + [] == [tok];
  }

  lemma ColonPlace(cfg: Config, tok: Tok)
    requires tok.kind == StringToken && NameOf(tok).Text?
    ensures var pl := Place([], AtColon([], [], tok)); FinePlace(cfg, pl) && PlaceToks(pl, []) == [LBRACE] + [tok]
  {
    hide NameOf;
    var none: seq<Tok> := [];
    assert none + ([tok] + none) == [tok] && none + ([LBRACE] + [tok]) == [LBRACE] + [tok];
  }

  /** Any token but a colon behind the first name of a document. */
  lemma WrongColon(cfg: Config, root: Value, name: string, kind: TokenType, t: string, next: string)
    requires JsonCppTokens.Quoted(name) && NameOf(Tok(StringToken, name)).Text?
    requires JsonCppTokens.Spelled(kind, t, next) && t != "" && !IsSpace(t[0]) && kind != MemberSeparator
    ensures ParseFaults(cfg, false, "{" + (name + (t + next)), root) == [Fault(ColonExpected, Lexed(kind, t + next, next))]
  {
    TakesSpelled(kind, t, next);
    NameLexed(name, t + next);
    ColonPlace(cfg, Tok(StringToken, name));
    hide Take, TextOf, NameOf, ParseFaults, JsonCppTokens.Spelled, JsonCppTokens.Quoted, PlaceToks, FinePlace, Lexes;
    FaultParsed(cfg, false, "{" + (name + (t + next)), root, Place([], AtColon([], [], Tok(StringToken, name))), t + next);
  }

  /** `{"a",1}`: the comma is no colon. */
  lemma CommaForColon(cfg: Config, root: Value)
    ensures ParseFaults(cfg, false, "{\"a\",1}", root) == [Fault(ColonExpected, Lexed(ArraySeparator, ",1}", "1}"))]
  {
    var name := "\"a\"";
    assert Inside(name) == "a" == name[1..|name| - 1] && "a"[1..] == "";
    assert "," + "1}" == ",1}" && "{" + (name + ",1}") == "{\"a\",1}";
    hide ParseFaults;
    WrongColon(cfg, root, name, ArraySeparator, ",", "1}");
  }
}
