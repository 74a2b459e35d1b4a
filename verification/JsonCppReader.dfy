/**
Reader of tools/jsoncpp/json_reader.cpp: a cursor, a list of errors, and a stack of the values
being built, proved against JsonCppGrammar for every text. The stack holds values, not pointers into
the root: a finished child is put back into its parent when it leaves the stack.
*/
module JsonCppReader {
  import opened CBuffer
  import opened JsonCpp
  import opened JsonCppLex
  import opened JsonCppUnicode
  import opened JsonCppGrammar
  import opened Utf8

  /** Positions in the document. */
  datatype Token = Token(kind: TokenType, start: nat, end: nat)

  datatype ErrorInfo = ErrorInfo(problem: Problem, token: Token)

  class Reader {
    const scans: string -> bool
    const allowComments: bool
    const strictRoot: bool
    var document: string
    var current: nat
    var errors: seq<ErrorInfo>
    var nodes: seq<Value>

    constructor (scans: string -> bool, allowComments: bool, strictRoot: bool)
      ensures this.scans == scans && this.allowComments == allowComments && this.strictRoot == strictRoot
    {
      this.scans, this.allowComments, this.strictRoot := scans, allowComments, strictRoot;
      document, current, errors, nodes := "", 0, [], [];
    }

    ghost function Cfg(): Config { Config(allowComments, scans) }

    ghost predicate Valid()
      reads this
    {
      current <= |document| && nodes != []
    }

    /** The text that is left. */
    ghost function Left(): string
      requires current <= |document|
      reads this`document, this`current
    {
      document[current..]
    }

    ghost function Top(): Value
      requires nodes != []
      reads this`nodes
    {
      nodes[|nodes| - 1]
    }

    /** A token by position and a token by text. */
    ghost predicate Same(token: Token, t: Lexed)
      reads this`document
    {
      && token.kind == t.kind && token.start <= token.end <= |document|
      && document[token.start..] == t.at && document[token.end..] == t.rest
    }

    /** Nothing but the top of the stack and the cursor may have changed. */
    twostate predicate Framed()
      reads this
    {
      && Valid() && document == old(document) && old(current) <= current
      && |nodes| == |old(nodes)| && nodes[..|nodes| - 1] == old(nodes)[..|nodes| - 1]
    }

    twostate predicate Reported(fault: Fault)
      reads this`errors, this`document
    {
      && |errors| == |old(errors)| + 1 && errors[..|old(errors)|] == old(errors)
      && errors[|old(errors)|].problem == fault.problem && Same(errors[|old(errors)|].token, fault.token)
    }

    /** The value built, the text left and the error reported are those of the specification. */
    twostate predicate Agrees(ok: bool, r: Read)
      reads this
    {
      && Framed() && Top() == r.value && Left() == r.rest
      && (if ok then r.Good? && errors == old(errors) else r.Failed? && Reported(r.fault))
    }

    /** parse: for every text, the faults, the value and the result of the specification. */
    method Parse(text: string, root: Value) returns (ok: bool, result: Value)
      modifies this
      ensures var faults := ParseFaults(Cfg(), strictRoot, text, root);
              && (ok <==> faults == [])
              && |errors| == |faults|
              && document == text
              && forall i | 0 <= i < |faults| :: errors[i].problem == faults[i].problem && Same(errors[i].token, faults[i].token)
      ensures result == JsonCppGrammar.ReadValue(Cfg(), text, root).value
      ensures current <= |text| && nodes == [result]
    {
      hide JsonCppGrammar.ReadValue, TakeValue;
      document, current, errors, nodes := text, 0, [], [root];
      assert Left() == text;
      ok := ReadValue();
      var token := SkipCommentTokens();
      result := nodes[0];
      assert nodes == [result];
      if strictRoot && !(result.Array? || result.Object? || result.Null?) {
        assert document[0..] == text && document[|text|..] == "";
        ok := AddError(RootIsScalar, Token(ErrorToken, 0, |text|));
      }
    }

    method ReadValue() returns (ok: bool)
      requires Valid()
      modifies this`current, this`errors, this`nodes
      ensures Agrees(ok, JsonCppGrammar.ReadValue(Cfg(), old(Left()), old(Top())))
      decreases |document| - current, 0
    {
      hide JsonCppGrammar.ReadArray, ReadMembers, JsonCppGrammar.ReadScalar, TakeValue;
      ghost var t := TakeValue(Cfg(), Left());
      var token := SkipCommentTokens();
      Positions(token, t);
      if token.kind.ObjectBegin? {
        ok := ReadObject();
      } else if token.kind.ArrayBegin? {
        ok := ReadArray();
      } else {
        ok := ReadScalar(token, t);
      }
    }

    /** The lengths of the two forms of a token agree. */
    lemma Positions(token: Token, t: Lexed)
      requires Same(token, t)
      ensures |t.at| == |document| - token.start && |t.rest| == |document| - token.end
      ensures JsonCppGrammar.TextOf(t) == TextOf(token)
    {
      assert document[token.start..][..token.end - token.start] == document[token.start..token.end];
    }

    /** The other cases of readValue's switch. */
    method ReadScalar(token: Token, ghost t: Lexed) returns (ok: bool)
      requires Valid() && Same(token, t) && Sound(t) && current == token.end
      requires !token.kind.ObjectBegin? && !token.kind.ArrayBegin?
      modifies this`errors, this`nodes
      ensures Agrees(ok, JsonCppGrammar.ReadScalar(Cfg(), t, old(Top())))
    {
      hide NumberOf, Decode;
      Positions(token, t);
      ok := true;
      if token.kind.NumberToken? {
        ok := DecodeNumber(token);
      } else if token.kind.StringToken? {
        ok := DecodeStringValue(token);
      } else if token.kind.TrueToken? {
        SetCurrentValue(Bool(true));
      } else if token.kind.FalseToken? {
        SetCurrentValue(Bool(false));
      } else if token.kind.NullToken? {
        SetCurrentValue(Null);
      } else {
        ok := AddError(ValueExpected, token);
      }
    }

    method SetCurrentValue(v: Value)
      requires nodes != []
      modifies this`nodes
      ensures nodes == old(nodes)[..|old(nodes)| - 1] + [v]
    {
      nodes := nodes[..|nodes| - 1] + [v];
    }

    /** The text of a token. */
    function TextOf(token: Token): string
      requires token.start <= token.end <= |document|
      reads this`document
    {
      document[token.start..token.end]
    }

    // ----- Tokens -----

    twostate predicate Took(token: Token, t: Lexed)
      reads this`document, this`current
    {
      document == old(document) && Same(token, t) && old(current) <= token.start && current == token.end
    }

    method SkipCommentTokens() returns (token: Token)
      requires current <= |document|
      modifies this`current
      ensures Took(token, TakeValue(Cfg(), old(Left())))
    {
      if allowComments {
        token := ReadPastComments();
      } else {
        token := ReadToken();
      }
    }

    /** The loops that pass over comments. */
    method ReadPastComments() returns (token: Token)
      requires current <= |document|
      modifies this`current
      ensures Took(token, TakePast(old(Left())))
    {
      hide Take, PastComments;
      token := ReadToken();
      token := PassComments(token, Take(old(Left())));
    }

    method PassComments(first: Token, ghost t: Lexed) returns (token: Token)
      requires current == first.end && Same(first, t) && Sound(t)
      modifies this`current
      ensures document == old(document) && Same(token, PastComments(t))
      ensures first.start <= token.start && current == token.end && old(current) <= current
    {
      hide Take;
      token := first;
      ghost var lexed := t;
      while token.kind.CommentToken?
        invariant Same(token, lexed) && Sound(lexed) && PastComments(lexed) == PastComments(t)
        invariant current == token.end && old(current) <= current && first.start <= token.start
        decreases |lexed.rest|, if token.kind.CommentToken? then 1 else 0
      {
        lexed := Take(lexed.rest);
        token := ReadToken();
      }
    }

    /** readToken; it never fails, bad text is a token too. */
    method ReadToken() returns (token: Token)
      requires current <= |document|
      modifies this`current
      ensures Took(token, Take(old(Left())))
    {
      hide Lex, SkipSpaces, Take;
      ghost var s := Left();
      SkipBlanks();
      ghost var r := Left();
      var start := current;
      var kind := ReadLexeme();
      token := Token(kind, start, current);
      Taken(s, r, kind, current - start);
      Suffix(document, start, current);
    }

    method ReadLexeme() returns (kind: TokenType)
      requires current <= |document|
      modifies this`current
      ensures old(current) <= current <= |document|
      ensures Lex(document[old(current)..]) == Lexeme(kind, current - old(current))
    {
      hide StringScan, CommentScan, NumberLength;
      ghost var s := document[current..];
      var c := GetNextChar();
      assert s != "" ==> s[1..] == document[current..];
      var ok := true;
      match c {
        case '{' => kind := ObjectBegin;
        case '}' => kind := ObjectEnd;
        case '[' => kind := ArrayBegin;
        case ']' => kind := ArrayEnd;
        case '\"' =>
          kind := StringToken;
          ok := ReadString();
        case '/' =>
          kind := CommentToken;
          ok := ReadComment();
        case 't' =>
          kind := TrueToken;
          ok := Match("rue");
        case 'f' =>
          kind := FalseToken;
          ok := Match("alse");
        case 'n' =>
          kind := NullToken;
          ok := Match("ull");
        case ',' => kind := ArraySeparator;
        case ':' => kind := MemberSeparator;
        case '\0' => kind := EndOfStream;
        case _ =>
          if '0' <= c <= '9' || c == '-' {
            kind := NumberToken;
            ReadNumber();
          } else {
            kind := ErrorToken;
            ok := false;
          }
      }
      if !ok {
        kind := ErrorToken;
      }
    }

    method GetNextChar() returns (c: char)
      requires current <= |document|
      modifies this`current
      ensures if old(current) == |document| then c == '\0' && current == old(current)
              else c == document[old(current)] && current == old(current) + 1
    {
      if current == |document| {
        return '\0';
      }
      c := document[current];
      current := current + 1;
    }

    method SkipBlanks()
      requires current <= |document|
      modifies this`current
      ensures old(current) <= current <= |document|
      ensures document[current..] == SkipSpaces(old(document[current..]))
    {
      while current != |document| && IsSpace(document[current])
        invariant old(current) <= current <= |document|
        invariant SkipSpaces(document[current..]) == SkipSpaces(old(document[current..]))
        decreases |document| - current
      {
        assert document[current..][1..] == document[current + 1..];
        current := current + 1;
      }
    }

    method Match(pattern: string) returns (ok: bool)
      requires current <= |document|
      modifies this`current
      ensures ok == (pattern <= old(document[current..]))
      ensures current == old(current) + if ok then |pattern| else 0
    {
      if |document| - current < |pattern| {
        return false;
      }
      var index := |pattern|;
      while index > 0
        invariant 0 <= index <= |pattern|
        invariant forall i | index <= i < |pattern| :: document[current..][i] == pattern[i]
      {
        index := index - 1;
        if document[current + index] != pattern[index] {
          return false;
        }
      }
      current := current + |pattern|;
      return true;
    }

    method ReadComment() returns (ok: bool)
      requires current <= |document|
      modifies this`current
      ensures old(current) <= current <= |document|
      ensures CommentScan(document[old(current)..]) == Scan(current - old(current), ok)
    {
      hide BlockCommentScan, LineCommentLength;
      ghost var s := document[current..];
      var c := GetNextChar();
      assert s != "" ==> s[1..] == document[current..];
      if c == '*' {
        ok := ReadCStyleComment();
      } else if c == '/' {
        ok := ReadCppStyleComment();
      } else {
        ok := false;
      }
    }

    method ReadCStyleComment() returns (ok: bool)
      requires current <= |document|
      modifies this`current
      ensures old(current) <= current <= |document|
      ensures BlockCommentScan(document[old(current)..]) == Scan(current - old(current), ok)
    {
      ghost var s := document[current..];
      while current != |document|
        invariant old(current) <= current <= |document|
        invariant BlockCommentScan(s)
               == (var r := BlockCommentScan(document[current..]); Scan(r.len + (current - old(current)), r.ok))
        decreases |document| - current
      {
        assert document[current..][1..] == document[current + 1..];
        var c := GetNextChar();
        if c == '*' && current < |document| && document[current] == '/' {
          var slash := GetNextChar();
          return slash == '/';
        }
      }
      var end := GetNextChar();
      return end == '/';
    }

    method ReadCppStyleComment() returns (ok: bool)
      requires current <= |document|
      modifies this`current
      ensures old(current) <= current <= |document| && ok
      ensures LineCommentLength(document[old(current)..]) == current - old(current)
    {
      while current != |document|
        invariant old(current) <= current <= |document|
        invariant LineCommentLength(document[old(current)..])
               == LineCommentLength(document[current..]) + (current - old(current))
        decreases |document| - current
      {
        assert document[current..][1..] == document[current + 1..];
        var c := GetNextChar();
        if c == '\r' || c == '\n' {
          return true;
        }
      }
      return true;
    }

    method ReadNumber()
      requires current <= |document|
      modifies this`current
      ensures old(current) <= current <= |document|
      ensures NumberLength(document[old(current)..]) == current - old(current)
    {
      while current != |document|
        invariant old(current) <= current <= |document|
        invariant NumberLength(document[old(current)..]) == NumberLength(document[current..]) + (current - old(current))
        decreases |document| - current
      {
        assert document[current..][1..] == document[current + 1..];
        if !NumberChar(document[current]) {
          break;
        }
        current := current + 1;
      }
    }

    method ReadString() returns (ok: bool)
      requires current <= |document|
      modifies this`current
      ensures old(current) <= current <= |document|
      ensures StringScan(document[old(current)..]) == Scan(current - old(current), ok)
    {
      ghost var s := document[current..];
      var c := '\0';
      while current != |document|
        invariant old(current) <= current <= |document| && c != '\"'
        invariant StringScan(s)
               == (var r := StringScan(document[current..]); Scan(r.len + (current - old(current)), r.ok))
        decreases |document| - current
      {
        ghost var t := document[current..];
        assert t[1..] == document[current + 1..] && (|t| >= 2 ==> t[2..] == document[current + 2..]);
        c := GetNextChar();
        if c == '\\' {
          var _ := GetNextChar();
        } else if c == '\"' {
          break;
        }
      }
      ok := c == '\"';
    }

    // ----- Containers -----

    /** The child pushed for a member, read, and put back into its parent. */
    method ReadMemberValue(key: string) returns (ok: bool)
      requires Valid() && Top().Object?
      modifies this`current, this`errors, this`nodes
      ensures var ms := old(Top().members);
              var r := JsonCppGrammar.ReadValue(Cfg(), old(Left()), Lookup(ms, key));
              Agrees(ok, r.(value := Object(Store(ms, key, r.value))))
      decreases |document| - current, 1
    {
      hide Store, Lookup, JsonCppGrammar.ReadValue;
      var parent := nodes[|nodes| - 1];
      nodes := nodes + [Lookup(parent.members, key)];
      ok := ReadValue();
      var value := nodes[|nodes| - 1];
      nodes := nodes[..|nodes| - 1];
      SetCurrentValue(Object(Store(parent.members, key, value)));
    }

    method ReadElement() returns (ok: bool)
      requires Valid() && Top().Array?
      modifies this`current, this`errors, this`nodes
      ensures var items := old(Top().items);
              var r := JsonCppGrammar.ReadValue(Cfg(), old(Left()), Null);
              Agrees(ok, r.(value := Array(items + [r.value])))
      decreases |document| - current, 1
    {
      hide JsonCppGrammar.ReadValue;
      var parent := nodes[|nodes| - 1];
      nodes := nodes + [Null];
      ok := ReadValue();
      var value := nodes[|nodes| - 1];
      nodes := nodes[..|nodes| - 1];
      SetCurrentValue(Array(parent.items + [value]));
    }

    /** A round went well and the loop goes on. */
    twostate predicate GoesOn()
      reads this
    {
      Framed() && errors == old(errors) && old(current) < current
    }

    /** readObject, behind the opening bracket. */
    method ReadObject() returns (ok: bool)
      requires Valid()
      modifies this`current, this`errors, this`nodes
      ensures Agrees(ok, ReadMembers(Cfg(), old(Left()), "", []))
      decreases |document| - current, 4
    {
      hide TakePast, JsonCppGrammar.ReadMember, Recover;
      SetCurrentValue(Object([]));
      var name := "";
      var tokenName;
      ghost var t;
      while true
        invariant Framed() && errors == old(errors) && Top().Object?
        invariant ReadMembers(Cfg(), Left(), name, Top().members) == ReadMembers(Cfg(), old(Left()), "", [])
        decreases |document| - current
      {
        t := TakePast(Left());
        tokenName := ReadPastComments();
        Positions(tokenName, t);
        if tokenName.kind.ObjectEnd? && name == "" {
          return true;
        }
        if !tokenName.kind.StringToken? {
          break;
        }
        var more;
        ok, more, name := ReadMember(tokenName, t);
        if !ok || !more {
          return;
        }
      }
      ok := AddErrorAndRecover(NameExpected, tokenName, ObjectEnd);
    }

    /** One round of readObject, behind the member's name. */
    method ReadMember(tokenName: Token, ghost t: Lexed) returns (ok: bool, more: bool, name: string)
      requires Valid() && Top().Object? && Same(tokenName, t) && Sound(t) && t.kind.StringToken? && current == tokenName.end
      modifies this`current, this`errors, this`nodes
      ensures !ok || !more ==> Agrees(ok, JsonCppGrammar.ReadMember(Cfg(), t, old(Top().members)))
      ensures ok && more ==>
                && GoesOn() && Top().Object?
                && ReadMembers(Cfg(), Left(), name, Top().members) == JsonCppGrammar.ReadMember(Cfg(), t, old(Top().members))
      decreases |document| - current, 3
    {
      hide Decode, Take, Recover, Store, Lookup, JsonCppGrammar.ReadValue, ReadMembers, AfterMember;
      Positions(tokenName, t);
      more := false;
      ok, name := DecodeString(tokenName);
      if !ok {
        ok := RecoverFromError(ObjectEnd);
        return;
      }
      ghost var c := Take(t.rest);
      var colon := ReadToken();
      Positions(colon, c);
      if !colon.kind.MemberSeparator? {
        ok := AddErrorAndRecover(ColonExpected, colon, ObjectEnd);
        return;
      }
      ok := ReadMemberValue(BeforeNul(name));
      if !ok {
        ok := RecoverFromError(ObjectEnd);
        return;
      }
      ok, more := ReadComma(name);
    }

    /** The part of readObject behind a member. */
    method ReadComma(ghost name: string) returns (ok: bool, more: bool)
      requires Valid() && Top().Object?
      modifies this`current, this`errors
      ensures !ok || !more ==> Agrees(ok, AfterMember(Cfg(), old(Left()), name, Top().members))
      ensures ok && more ==>
                && Framed() && errors == old(errors)
                && ReadMembers(Cfg(), Left(), name, Top().members) == AfterMember(Cfg(), old(Left()), name, Top().members)
    {
      hide Take, PastComments, Recover, ReadMembers;
      more := false;
      ghost var c := Take(Left());
      var comma := ReadToken();
      if !comma.kind.ObjectEnd? && !comma.kind.ArraySeparator? && !comma.kind.CommentToken? {
        ok := AddErrorAndRecover(CommaOrBraceExpected, comma, ObjectEnd);
        return;
      }
      comma := PassComments(comma, c);
      return true, !comma.kind.ObjectEnd?;
    }

    /** readArray, behind the opening bracket. */
    method ReadArray() returns (ok: bool)
      requires Valid()
      modifies this`current, this`errors, this`nodes
      ensures Agrees(ok, JsonCppGrammar.ReadArray(Cfg(), old(Left())))
      decreases |document| - current, 4
    {
      hide Take, ReadItems, SkipSpaces;
      SetCurrentValue(Array([]));
      SkipBlanks();
      ghost var inner := Left();
      assert inner == SkipSpaces(old(Left())) && (current < |document| ==> inner[0] == document[current]);
      if current < |document| && document[current] == ']' {
        var _ := ReadToken();
        assert Left() == Take(inner).rest && Top() == Array([]);
        return true;
      }
      ghost var spec := ReadItems(Cfg(), inner, []);
      while true
        invariant Framed() && errors == old(errors) && Top().Array?
        invariant ReadItems(Cfg(), Left(), Top().items) == spec
        decreases |document| - current
      {
        var more;
        ok, more := ReadItem();
        if !ok || !more {
          return;
        }
      }
    }

    /** One round of readArray. */
    method ReadItem() returns (ok: bool, more: bool)
      requires Valid() && Top().Array?
      modifies this`current, this`errors, this`nodes
      ensures !ok || !more ==> Agrees(ok, ReadItems(Cfg(), old(Left()), old(Top().items)))
      ensures ok && more ==>
                && GoesOn() && Top().Array?
                && ReadItems(Cfg(), Left(), Top().items) == ReadItems(Cfg(), old(Left()), old(Top().items))
      decreases |document| - current, 3
    {
      hide TakePast, Recover, JsonCppGrammar.ReadValue;
      more := false;
      ok := ReadElement();
      if !ok {
        ok := RecoverFromError(ArrayEnd);
        return;
      }
      ghost var t := TakePast(Left());
      var token := ReadPastComments();
      Positions(token, t);
      var badTokenType := token.kind == ArraySeparator && token.kind == ArrayEnd;
      if badTokenType {
        // The test asks for a token of two types at once, so CommaOrBracketExpected is never reported.
        assert false;
      }
      more := !token.kind.ArrayEnd?;
    }

    // ----- Scalars -----

    /** The text of the token is a number of one kind, or an error. */
    method DecodeNumber(token: Token) returns (ok: bool)
      requires Valid() && token.start < token.end <= |document|
      modifies this`errors, this`nodes
      ensures match NumberOf(TextOf(token), scans)
              case Number(v) => ok && errors == old(errors) && nodes == old(nodes)[..|old(nodes)| - 1] + [v]
              case NotANumber => !ok && nodes == old(nodes) && ErrorAdded(token)
                                  && errors[|old(errors)|].problem == NumberExpected(TextOf(token))
    {
      ghost var text := TextOf(token);
      var isDouble := false;
      for inspect := token.start to token.end
        invariant isDouble <==> exists i | 0 <= i < inspect - token.start :: text[i] in ".eE+" || (text[i] == '-' && i > 0)
      {
        assert text[inspect - token.start] == document[inspect];
        isDouble := isDouble || document[inspect] in ".eE+" || (document[inspect] == '-' && inspect != token.start);
      }
      if isDouble {
        ok := DecodeDouble(token);
        return;
      }
      hide IsDouble;
      var current := token.start;
      var isNegative := document[current] == '-';
      if isNegative {
        current := current + 1;
      }
      var threshold := if isNegative then NEGATIVE_THRESHOLD else POSITIVE_THRESHOLD;
      var value: nat := 0;
      ghost var start := current;
      assert document[start..token.end] == if isNegative then text[1..] else text;
      while current < token.end
        invariant start <= current <= token.end
        invariant Accumulate(0, threshold, document[start..token.end]) == Accumulate(value, threshold, document[current..token.end])
      {
        var c := document[current];
        assert document[current..token.end][1..] == document[current + 1..token.end];
        current := current + 1;
        if c < '0' || c > '9' {
          ok := AddError(NumberExpected(TextOf(token)), token);
          return;
        }
        if value >= threshold {
          ok := DecodeDouble(token);
          return;
        }
        value := value * 10 + (c as int - '0' as int);
      }
      SetCurrentValue(if isNegative then Int(0 - value) else if value <= MAX_INT then Int(value) else UInt(value));
      return true;
    }

    twostate predicate ErrorAdded(token: Token)
      reads this`errors
    {
      |errors| == |old(errors)| + 1 && errors[..|old(errors)|] == old(errors) && errors[|old(errors)|].token == token
    }

    method DecodeDouble(token: Token) returns (ok: bool)
      requires Valid() && token.start < token.end <= |document|
      modifies this`errors, this`nodes
      ensures match DoubleOf(TextOf(token), scans)
              case Number(v) => ok && errors == old(errors) && nodes == old(nodes)[..|old(nodes)| - 1] + [v]
              case NotANumber => !ok && nodes == old(nodes) && ErrorAdded(token)
                                  && errors[|old(errors)|].problem == NumberExpected(TextOf(token))
    {
      if !scans(TextOf(token)) {
        ok := AddError(NumberExpected(TextOf(token)), token);
        return;
      }
      SetCurrentValue(Real(TextOf(token)));
      return true;
    }

    method DecodeStringValue(token: Token) returns (ok: bool)
      requires Valid() && token.start + 2 <= token.end <= |document|
      modifies this`errors, this`nodes
      ensures match JsonCppLex.Decode(Inside(TextOf(token)))
              case Text(s) => ok && errors == old(errors) && nodes == old(nodes)[..|old(nodes)| - 1] + [String(s)]
              case Bad(problem) => !ok && nodes == old(nodes) && ErrorAdded(token) && errors[|old(errors)|].problem == problem
    {
      var decoded;
      ok, decoded := DecodeString(token);
      if ok {
        SetCurrentValue(String(decoded));
      }
    }

    /** decodeString: the bytes between the quotes, one escape at a time. */
    method DecodeString(token: Token) returns (ok: bool, decoded: string)
      requires token.start + 2 <= token.end <= |document|
      modifies this`errors
      ensures match JsonCppLex.Decode(Inside(TextOf(token)))
              case Text(s) => ok && decoded == s && errors == old(errors)
              case Bad(problem) => !ok && ErrorAdded(token) && errors[|old(errors)|].problem == problem
    {
      hide Encode, ReadCodePoint;
      var end := token.end - 1;
      ghost var s := document[token.start + 1..end];
      assert s == Inside(TextOf(token));
      decoded := "";
      var at := token.start + 1;
      AddNothing(Decode(s));
      while at != end
        invariant token.start < at <= end && errors == old(errors)
        invariant Decode(s) == Add(decoded, Decode(document[at..end]))
        decreases end - at
      {
        assert document[at..end][1..] == document[at + 1..end];
        var c := document[at];
        if c == '\"' {
          break;
        } else if c == '\\' {
          var piece, problem, next;
          ok, piece, problem, next := DecodeEscape(at, end);
          if !ok {
            ok := AddError(problem, token);
            return;
          }
          AddAdd(decoded, piece, Decode(document[next..end]));
          decoded := decoded + piece;
          at := next;
        } else {
          AddAdd(decoded, [c], Decode(document[at + 1..end]));
          decoded := decoded + [c];
          at := at + 1;
        }
      }
      assert decoded + "" == decoded;
      return true, decoded;
    }

    /** The branch of decodeString for a backslash. */
    method DecodeEscape(from: nat, end: nat) returns (ok: bool, piece: string, problem: Problem, next: nat)
      requires from < end <= |document| && document[from] == '\\'
      ensures !ok ==> Decode(document[from..end]) == Bad(problem)
      ensures ok ==> from < next <= end && Decode(document[from..end]) == Add(piece, Decode(document[next..end]))
    {
      hide Encode, ReadCodePoint, CodePointToUtf8, LetterOf;
      ghost var t := document[from..end];
      var at := from + 1;
      ok, piece, problem, next := true, "", EmptyEscape, at;
      if at == end {
        return false, "", EmptyEscape, at;
      }
      assert t[2..] == document[from + 2..end];
      var escape := document[at];
      at := at + 1;
      if escape in LETTERS {
        piece, next := [LetterOf(escape)], at;
      } else if escape == 'u' {
        var unicode;
        ok, unicode, problem, next := DecodeUnicodeCodePoint(at, end);
        if ok {
          assert t[2..][next - at..] == document[next..end];
          CodePointIsEncoded(unicode);
          piece := CodePointToUtf8(unicode);
        }
      } else {
        return false, "", BadEscape, at;
      }
    }

    /** decodeUnicodeCodePoint, and the error it reports. */
    method DecodeUnicodeCodePoint(from: nat, end: nat) returns (ok: bool, unicode: nat, problem: Problem, next: nat)
      requires from <= end <= |document|
      ensures match ReadCodePoint(document[from..end])
              case CodePoint(cp, len) => ok && unicode == cp && next == from + len
              case NoCodePoint(m) => !ok && problem == m
    {
      hide Combine, ParseHex4, IsHex4;
      ghost var s := document[from..end];
      problem, next := FourDigitsExpected, from;
      ok, unicode, problem := DecodeUnicodeEscapeSequence(from, end);
      if !ok {
        return;
      }
      next := from + 4;
      if 0xD800 <= unicode <= 0xDBFF {
        if end - next < 6 {
          return false, 0, PairExpected, next;
        }
        if document[next] != '\\' || document[next + 1] != 'u' {
          return false, 0, SecondUnitExpected, next;
        }
        next := next + 2;
        var surrogatePair;
        assert document[next..end] == s[6..];
        ok, surrogatePair, problem := DecodeUnicodeEscapeSequence(next, end);
        if !ok {
          return;
        }
        next := next + 4;
        unicode := PairValue(unicode, surrogatePair);
      }
    }

    /** decodeUnicodeEscapeSequence. */
    method DecodeUnicodeEscapeSequence(from: nat, end: nat) returns (ok: bool, unicode: nat, problem: Problem)
      requires from <= end <= |document|
      ensures ok <==> IsUnit(document[from..end])
      ensures if ok then unicode == ParseHex4(document[from..end]) else problem == Hex4Error(document[from..end])
    {
      ghost var s := document[from..end];
      unicode, problem := 0, FourDigitsExpected;
      if end - from < 4 {
        return false, 0, FourDigitsExpected;
      }
      assert unicode == UnitDigits(s, 0);
      hide UnitDigits, ParseHex4;
      for index := 0 to 4
        invariant forall k | 0 <= k < index :: HexValue(s[k]) >= 0
        invariant unicode == UnitDigits(s, index)
      {
        var c := document[from + index];
        assert c == s[index];
        UnitDigitsStep(s, index);
        unicode := unicode * 16;
        if '0' <= c <= '9' {
          unicode := unicode + (c as int - '0' as int);
        } else if 'a' <= c <= 'f' {
          unicode := unicode + (c as int - 'a' as int + 10);
        } else if 'A' <= c <= 'F' {
          unicode := unicode + (c as int - 'A' as int + 10);
        } else {
          return false, 0, HexDigitExpected;
        }
      }
      UnitDigitsAll(s);
      ok := true;
    }

    // ----- Errors -----

    method AddError(problem: Problem, token: Token) returns (ok: bool)
      modifies this`errors
      ensures !ok && errors == old(errors) + [ErrorInfo(problem, token)]
    {
      errors := errors + [ErrorInfo(problem, token)];
      return false;
    }

    /** recoverFromError: on to the next such token or the end. */
    method RecoverFromError(skipUntilToken: TokenType) returns (ok: bool)
      requires current <= |document|
      modifies this`current, this`errors
      ensures !ok && old(current) <= current <= |document| && errors == old(errors)
      ensures Left() == Recover(old(Left()), skipUntilToken)
    {
      hide Take;
      var errorCount := |errors|;
      while true
        invariant old(current) <= current <= |document| && errors == old(errors)
        invariant Recover(Left(), skipUntilToken) == Recover(old(Left()), skipUntilToken)
        decreases |document| - current
      {
        ghost var t := Take(Left());
        var skip := ReadToken();
        Positions(skip, t);
        if skip.kind == skipUntilToken || skip.kind == EndOfStream {
          break;
        }
      }
      errors := errors[..errorCount];
      return false;
    }

    method AddErrorAndRecover(problem: Problem, token: Token, skipUntilToken: TokenType) returns (ok: bool)
      requires current <= |document|
      modifies this`current, this`errors
      ensures !ok && old(current) <= current <= |document| && errors == old(errors) + [ErrorInfo(problem, token)]
      ensures Left() == Recover(old(Left()), skipUntilToken)
    {
      var _ := AddError(problem, token);
      ok := RecoverFromError(skipUntilToken);
    }
  }

  lemma Taken(s: string, r: string, kind: TokenType, len: nat)
    requires r == SkipSpaces(s) && Lex(r) == Lexeme(kind, len)
    ensures len <= |r| && Take(s) == Lexed(kind, r, r[len..])
  {
    hide Lex, SkipSpaces;
  }

  lemma Suffix(document: string, start: nat, end: nat)
    requires start <= end <= |document|
    ensures document[start..][end - start..] == document[end..]
  {
  }

  // ----- Decoding -----

  lemma AddNothing(d: Decoded)
    ensures Add("", d) == d
  {
    assert d.Text? ==> "" + d.s == d.s;
  }

  lemma AddAdd(a: string, b: string, d: Decoded)
    ensures Add(a, Add(b, d)) == Add(a + b, d)
  {
    assert d.Text? ==> a + (b + d.s) == a + b + d.s;
  }
}
