/**
cJSON_Minify by what a text is made of: blanks, comments, string literals and other characters.
*/
module CJsonPieces {
  import opened CBuffer
  import opened CJson
  import opened CJsonMinify
  import opened CJsonMinifyAny

  /** A piece of a text; a literal is given without its quotes, a comment without its marks. `Tight` is the
      comment in which the star of the opening mark is that of the closing one. */
  datatype Piece =
    | Blank(c: char)
    | Line(body: string)
    | Block(body: string)
    | Tight
    | Quoted(content: string)
    | Other(c: char)

  function Source(p: Piece): string {
    match p
    case Blank(c) => [c]
    case Line(body) => "//" + body
    case Block(body) => "/*" + body + "*/"
    case Tight => "/*/"
    case Quoted(content) => "\"" + content + "\""
    case Other(c) => [c]
  }

  function Text(ps: seq<Piece>): string {
    if ps == [] then "" else Source(ps[0]) + Text(ps[1..])
  }

  /** What is left of the pieces: the literals and the other characters, in order. */
  function Left(ps: seq<Piece>): string {
    if ps == [] then ""
    else (if ps[0].Quoted? || ps[0].Other? then Source(ps[0]) else "") + Left(ps[1..])
  }

  const BLANKS: string := " \t\r\n"

  /** No quote but behind a backslash, and no backslash without a character behind it. */
  predicate Inside(content: string) {
    content == "" ||
    if content[0] == '\\' then |content| >= 2 && content[1] != '\0' && Inside(content[2..])
    else content[0] != '\"' && content[0] != '\0' && Inside(content[1..])
  }

  /** No end mark, nor the second half of one, which the star of the opening mark would make whole. */
  predicate Endless(body: string) {
    (forall i | 0 <= i < |body| :: body[i] != '\0')
    && (body != "" ==> body[0] != '/') && forall i | 0 <= i < |body| - 1 :: !(body[i] == '*' && body[i + 1] == '/')
  }

  /** A piece in front of this text: a line comment goes up to the end of its line, and a slash that is no
      comment is not followed by what would make it one. */
  predicate Stands(p: Piece, next: string) {
    match p
    case Blank(c) => c in BLANKS
    case Line(body) => (forall i | 0 <= i < |body| :: body[i] != '\n' && body[i] != '\0') && (At(next) == '\0' || next[0] == '\n')
    case Block(body) => Endless(body)
    case Tight => true
    case Quoted(content) => Inside(content)
    case Other(c) => c != '\0' && c != '\"' && c !in BLANKS && (c == '/' ==> At(next) != '/' && At(next) != '*')
  }

  predicate Sound(ps: seq<Piece>, tail: string) {
    ps == [] || (Stands(ps[0], Text(ps[1..]) + tail) && Sound(ps[1..], tail))
  }

  // ----- One piece -----

  lemma {:induction false} LineGone(body: string, next: string)
    requires (forall i | 0 <= i < |body| :: body[i] != '\n' && body[i] != '\0') && (At(next) == '\0' || next[0] == '\n')
    ensures SkipLine(body + next) == next
  {
    if body == "" {
      assert body + next == next;
    } else {
      assert (body + next)[1..] == body[1..] + next;
      LineGone(body[1..], next);
    }
  }

  /** From the star of the opening mark on. */
  lemma {:induction false} BlockGone(body: string, next: string)
    requires forall i | 0 <= i < |body| :: body[i] != '\0'
    requires forall i | 0 <= i < |body| - 1 :: !(body[i] == '*' && body[i + 1] == '/')
    ensures SkipBlock(body + ("*/" + next)) == "*/" + next
  {
    var t := body + ("*/" + next);
    if body == "" {
      assert t == "*/" + next && t[1..] == "/" + next;
    } else {
      assert t[1..] == body[1..] + ("*/" + next);
      assert |body| == 1 ==> t[1..][0] == '*';
      BlockGone(body[1..], next);
    }
  }

  lemma {:induction false} LiteralStays(content: string, next: string)
    requires Inside(content)
    ensures CopyString(content + ("\"" + next)) == Cat(content + "\"", Minify(next))
  {
    var t := content + ("\"" + next);
    if content == "" {
      assert t == "\"" + next && t[1..] == next && content + "\"" == "\"";
    } else {
      var n := if content[0] == '\\' then 2 else 1;
      assert t[n..] == content[n..] + ("\"" + next) && t[..n] == content[..n] && (n == 2 ==> t[1..][0] == content[1]);
      LiteralStays(content[n..], next);
      CatCat(content[..n], content[n..] + "\"", Minify(next));
      assert content[..n] + (content[n..] + "\"") == content + "\"";
      assert n == 1 ==> content[..1] == [content[0]];
    }
  }

  lemma PieceMinified(p: Piece, next: string)
    requires Stands(p, next)
    ensures Minify(Source(p) + next) == if p.Quoted? || p.Other? then Cat(Source(p), Minify(next)) else Minify(next)
  {
    match p
    case Blank(c) => assert ([c] + next)[1..] == next;
    case Line(body) => LineMinified(body, next);
    case Block(body) => BlockMinified(body, next);
    case Tight => TightMinified(next);
    case Quoted(content) =>
      var t := "\"" + content + "\"" + next;
      assert t[1..] == content + ("\"" + next);
      LiteralStays(content, next);
      CatCat("\"", content + "\"", Minify(next));
      assert "\"" + (content + "\"") == "\"" + content + "\"";
    case Other(c) => assert ([c] + next)[1..] == next;
  }

  lemma LineMinified(body: string, next: string)
    requires Stands(Line(body), next)
    ensures Minify("//" + body + next) == Minify(next)
  {
    var t := "//" + body + next;
    LineGone(body, next);
    hide SkipLine;
    assert t[2..] == body + next && t[1..] == "/" + (body + next) && t[1..][0] == '/';
  }

  lemma BlockMinified(body: string, next: string)
    requires Endless(body)
    ensures Minify("/*" + body + "*/" + next) == Minify(next)
  {
    var t := "/*" + body + "*/" + next;
    var inner := "*" + body;
    forall i | 0 <= i < |inner| - 1 ensures !(inner[i] == '*' && inner[i + 1] == '/') {
      assert inner[i + 1] == body[i] && (i > 0 ==> inner[i] == body[i - 1]);
    }
    BlockGone(inner, next);
    hide SkipBlock;
    assert t[1..] == inner + ("*/" + next) && t[1..][0] == '*' && ("*/" + next)[2..] == next;
  }

  lemma TightMinified(next: string)
    ensures Minify("/*/" + next) == Minify(next)
  {
    var t := "/*/" + next;
    assert t[1..] == "*/" + next && t[1..][0] == '*' && t[1..][1..] == "/" + next && ("*/" + next)[2..] == next;
    assert SkipBlock("*/" + next) == "*/" + next;
  }

  // ----- Whole texts -----

  lemma {:induction false} PiecesMinified(ps: seq<Piece>, tail: string)
    requires Sound(ps, tail)
    ensures Minify(Text(ps) + tail) == Cat(Left(ps), Minify(tail))
  {
    hide Minify, Stands, Source;
    if ps == [] {
      assert "" + tail == tail;
      NothingInFront(Minify(tail));
    } else {
      var first, rest := Source(ps[0]), Text(ps[1..]) + tail;
      PiecesMinified(ps[1..], tail);
      PieceMinified(ps[0], rest);
      assert first + Text(ps[1..]) + tail == first + rest;
      CatCat(first, Left(ps[1..]), Minify(tail));
      assert "" + Left(ps[1..]) == Left(ps[1..]);
    }
  }

  /** What a text ends with: nothing, or a literal or a block comment that never ends. */
  predicate Open(tail: string) {
    tail != "" && if tail[0] == '\"' then !Closed(tail[1..]) else Unending(tail)
  }

  predicate Unending(tail: string) {
    && |tail| >= 2 && tail[0] == '/' && tail[1] == '*' && (|tail| > 2 ==> tail[2] != '/')
    && forall i | 2 <= i < |tail| - 1 :: !(tail[i] == '*' && tail[i + 1] == '/')
  }

  lemma {:induction false} NoEndMark(s: string)
    requires NulFree(s) && forall i | 0 <= i < |s| - 1 :: !(s[i] == '*' && s[i + 1] == '/')
    ensures SkipBlock(s) == ""
  {
    if s != "" {
      assert |s| > 1 ==> s[1..][0] == s[1];
      NoEndMark(s[1..]);
    }
  }

  lemma OpenRunsOver(tail: string)
    requires Open(tail) && NulFree(tail)
    ensures Minify(tail) == PastEnd
  {
    if tail[0] == '\"' {
      UnclosedCopy(tail[1..]);
    } else {
      NoEndMark(tail[1..]);
      hide SkipBlock;
      assert tail[1..][0] == '*';
    }
  }

  /** Every text that C can hold is made of pieces. */
  lemma {:induction false} Pieces(s: string) returns (ps: seq<Piece>, tail: string)
    requires NulFree(s)
    ensures s == Text(ps) + tail && Sound(ps, tail) && (tail == "" || Open(tail))
    decreases |s|
  {
    hide Open, Closed;
    if s == "" || Open(s) {
      ps, tail := [], s;
      assert "" + s == s;
    } else {
      var p := FirstPiece(s);
      var n := |Source(p)|;
      hide Stands, Source;
      ps, tail := Pieces(s[n..]);
      assert s == Source(p) + (Text(ps) + tail);
      ps := PieceInFront(p, ps, tail);
    }
  }

  lemma PieceInFront(p: Piece, rest: seq<Piece>, tail: string) returns (ps: seq<Piece>)
    requires Sound(rest, tail) && Stands(p, Text(rest) + tail)
    ensures ps == [p] + rest && Sound(ps, tail) && Text(ps) + tail == Source(p) + (Text(rest) + tail)
  {
    hide Stands, Source;
    ps := [p] + rest;
    assert ps[1..] == rest && Source(p) + Text(rest) + tail == Source(p) + (Text(rest) + tail);
  }

  lemma FirstPiece(s: string) returns (p: Piece)
    requires NulFree(s) && s != "" && !Open(s)
    ensures var n := |Source(p)|; 0 < n <= |s| && s[..n] == Source(p) && Stands(p, s[n..])
  {
    if s[0] in BLANKS {
      p := Blank(s[0]);
    } else if s[0] == '\"' {
      p := FirstLiteral(s);
    } else if |s| >= 2 && s[0] == '/' && s[1] == '/' {
      p := FirstLine(s);
    } else if |s| >= 2 && s[0] == '/' && s[1] == '*' {
      p := FirstBlock(s);
    } else {
      p := Other(s[0]);
      assert |s| > 1 ==> s[1..][0] == s[1];
    }
  }

  lemma FirstLiteral(s: string) returns (p: Piece)
    requires s != "" && s[0] == '\"' && !Open(s)
    ensures var n := |Source(p)|; 0 < n <= |s| && s[..n] == Source(p) && Stands(p, s[n..])
  {
    var content := UpToQuote(s[1..]);
    p := Quoted(content);
    assert s == "\"" + s[1..] && s[..|content| + 2] == "\"" + s[1..][..|content| + 1];
  }

  lemma {:induction false} UpToQuote(s: string) returns (content: string)
    requires Closed(s)
    ensures |content| < |s| && s[..|content| + 1] == content + "\"" && Inside(content)
    decreases |s|
  {
    if s[0] == '\"' {
      content := "";
    } else {
      var n := if s[0] == '\\' then 2 else 1;
      var rest := UpToQuote(s[n..]);
      content := s[..n] + rest;
      assert content[n..] == rest && content[0] == s[0] && (n == 2 ==> content[1] == s[1] == s[1..][0]);
      assert s[..|content| + 1] == s[..n] + s[n..][..|rest| + 1];
    }
  }

  /** A literal is closed exactly if it is some such content and a quote. */
  lemma {:induction false} InsideCloses(content: string, next: string)
    requires Inside(content)
    ensures Closed(content + ("\"" + next))
  {
    var t := content + ("\"" + next);
    if content != "" {
      var n := if content[0] == '\\' then 2 else 1;
      assert t[n..] == content[n..] + ("\"" + next) && (n == 2 ==> t[1..][0] == content[1]);
      InsideCloses(content[n..], next);
    }
  }

  lemma FirstLine(s: string) returns (p: Piece)
    requires NulFree(s) && |s| >= 2 && s[0] == '/' && s[1] == '/'
    ensures var n := |Source(p)|; 0 < n <= |s| && s[..n] == Source(p) && Stands(p, s[n..])
  {
    var n := 2;
    while n < |s| && s[n] != '\n'
      invariant 2 <= n <= |s| && forall i | 2 <= i < n :: s[i] != '\n'
    {
      n := n + 1;
    }
    p := Line(s[2..n]);
    assert s[..n] == "//" + s[2..n];
  }

  lemma FirstBlock(s: string) returns (p: Piece)
    requires NulFree(s) && |s| >= 2 && s[0] == '/' && s[1] == '*' && !Open(s)
    ensures var n := |Source(p)|; 0 < n <= |s| && s[..n] == Source(p) && Stands(p, s[n..])
  {
    if |s| > 2 && s[2] == '/' {
      p := Tight;
      assert s[..3] == "/*/";
      return;
    }
    var n := 2;
    while n < |s| - 1 && !(s[n] == '*' && s[n + 1] == '/')
      invariant 2 <= n <= |s| && (n < |s| || n == 2)
      invariant forall i | 2 <= i < n && i < |s| - 1 :: !(s[i] == '*' && s[i + 1] == '/')
    {
      n := n + 1;
    }
    assert n < |s| - 1;
    p := Block(s[2..n]);
    assert s[..n + 2] == "/*" + s[2..n] + "*/";
  }

  /** What the minifier makes of any text: of its pieces, the literals and other characters stay, in order, and
      all else goes; and it runs past the end exactly if a literal or a comment is left open. */
  lemma MinifyIs(s: string) returns (ps: seq<Piece>, tail: string)
    requires NulFree(s)
    ensures s == Text(ps) + tail && Sound(ps, tail) && (tail == "" || Open(tail))
    ensures Minify(s) == if tail == "" then Rest(Left(ps)) else PastEnd
  {
    ps, tail := Pieces(s);
    PiecesMinified(ps, tail);
    if tail == "" {
      MinifyNothing();
      assert Left(ps) + "" == Left(ps);
    } else {
      assert tail == s[|Text(ps)|..];
      OpenRunsOver(tail);
    }
  }

  lemma MinifyNothing()
    ensures Minify("") == Rest("")
  {
  }

  /** Texts that differ in blanks and comments only. */
  predicate SameButComments(ps: seq<Piece>, qs: seq<Piece>) { Kept(ps) == Kept(qs) }

  function Kept(ps: seq<Piece>): seq<Piece> {
    if ps == [] then [] else (if ps[0].Quoted? || ps[0].Other? then [ps[0]] else []) + Kept(ps[1..])
  }

  lemma {:induction false} LeftIsKept(ps: seq<Piece>)
    ensures Left(ps) == Text(Kept(ps))
  {
    hide Source;
    if ps != [] {
      LeftIsKept(ps[1..]);
      var rest := Kept(ps[1..]);
      assert ([ps[0]] + rest)[1..] == rest && [] + rest == rest && "" + Text(rest) == Text(rest);
    }
  }

  /** A text that cJSON_Parse accepts still means the same when comments and blanks are put into it wherever the
      pieces allow, and it is minified. */
  lemma CommentsMinified(ps: seq<Piece>, qs: seq<Piece>)
    requires Sound(ps, "") && Sound(qs, "") && SameButComments(ps, qs) && Parse(Text(ps), true).Ok?
    ensures Minify(Text(qs)).Rest? && Parse(Minify(Text(qs)).t, true) == Ok(Parse(Text(ps), true).value, "")
  {
    hide Parse, Minify, Sound;
    PiecesMinified(ps, "");
    PiecesMinified(qs, "");
    MinifyNothing();
    assert Text(ps) + "" == Text(ps) && Text(qs) + "" == Text(qs) && Left(ps) + "" == Left(ps);
    LeftIsKept(ps);
    LeftIsKept(qs);
    MinifyKeepsMeaning(Text(ps));
  }

  /** `1//2`, a newline: the comment goes. */
  lemma LineCommentGoes()
    ensures Minify("1//2\n") == Rest("1")
  {
    var ps := [Other('1'), Line("2"), Blank('\n')];
    assert Text(ps[1..][1..][1..]) == "" && ps[1..][1..] == [Blank('\n')] && Text(ps[1..][1..]) == "\n";
    assert ps[1..] == [Line("2"), Blank('\n')] && Text(ps[1..]) == "//2\n" && Text(ps) == "1//2\n";
    assert Left(ps[1..][1..]) == "" && Left(ps[1..]) == "" && Left(ps) == "1";
    assert Text(ps) + "" == Text(ps) && Text(ps[1..]) + "" == Text(ps[1..]) && Text(ps[1..][1..]) + "" == "\n";
    hide Minify;
    PiecesMinified(ps, "");
    MinifyNothing();
  }
}
