/** The tokens of tools/jsoncpp/json_reader.cpp, by the characters they are made of. */
module JsonCppTokens {
  import opened JsonCpp
  import opened JsonCppLex

  /** No quote but behind a backslash, and no backslash at the end. */
  predicate Bare(content: string) {
    content == "" ||
    if content[0] == '\\' then |content| >= 2 && Bare(content[2..]) else content[0] != '\"' && Bare(content[1..])
  }

  /** A string token: such a text between quotes. */
  predicate Quoted(t: string) { |t| >= 2 && t[0] == '\"' && t[|t| - 1] == '\"' && Bare(t[1..|t| - 1]) }

  /** A comment: up to the end of its line, line end included, or of the text; or up to the first end mark. */
  predicate Commented(t: string, next: string) {
    |t| >= 2 && t[0] == '/' && if t[1] == '/' then LineEnds(t[2..], next) else t[1] == '*' && BlockEnds(t[2..])
  }

  predicate LineEnds(body: string, next: string) {
    && (forall i | 0 <= i < |body| - 1 :: body[i] != '\r' && body[i] != '\n')
    && ((body != "" && (body[|body| - 1] == '\r' || body[|body| - 1] == '\n')) || next == "")
  }

  predicate BlockEnds(body: string) {
    && |body| >= 2 && body[|body| - 2] == '*' && body[|body| - 1] == '/'
    && forall i | 0 <= i < |body| - 2 :: !(body[i] == '*' && body[i + 1] == '/')
  }

  /** A number token goes on as long as the characters of numbers do. */
  predicate Numeric(t: string, next: string) {
    && t != "" && ('0' <= t[0] <= '9' || t[0] == '-')
    && (forall i | 0 <= i < |t| :: NumberChar(t[i])) && (next == "" || !NumberChar(next[0]))
  }

  /** What a token of each kind looks like, in front of what follows it. */
  predicate Spelled(kind: TokenType, t: string, next: string) {
    match kind
    case ObjectBegin => t == "{"
    case ObjectEnd => t == "}"
    case ArrayBegin => t == "["
    case ArrayEnd => t == "]"
    case ArraySeparator => t == ","
    case MemberSeparator => t == ":"
    case TrueToken => t == "true"
    case FalseToken => t == "false"
    case NullToken => t == "null"
    case StringToken => Quoted(t)
    case NumberToken => Numeric(t, next)
    case CommentToken => Commented(t, next)
    case EndOfStream => t == "\0" || (t == "" && next == "")
    case ErrorToken => false
  }

  // ----- The scans -----

  lemma {:induction false} StringFound(s: string)
    requires StringScan(s).ok
    ensures var n := StringScan(s).len; n >= 1 && s[n - 1] == '\"' && Bare(s[..n - 1])
    decreases |s|
  {
    if s[0] != '\"' {
      var step := if s[0] == '\\' then 2 else 1;
      StringFound(s[step..]);
      var n := StringScan(s).len;
      assert s[..n - 1][step..] == s[step..][..n - 1 - step];
      assert s[step..][n - 1 - step] == s[n - 1];
    }
  }

  lemma {:induction false} StringTaken(content: string, next: string)
    requires Bare(content)
    ensures StringScan(content + ("\"" + next)) == Scan(|content| + 1, true)
  {
    var t := content + ("\"" + next);
    if content == "" {
      assert t == "\"" + next;
    } else {
      var step := if content[0] == '\\' then 2 else 1;
      assert t[step..] == content[step..] + ("\"" + next);
      StringTaken(content[step..], next);
    }
  }

  lemma {:induction false} BlockFound(s: string)
    requires BlockCommentScan(s).ok
    ensures BlockEnds(s[..BlockCommentScan(s).len])
  {
    var n := BlockCommentScan(s).len;
    if !(s[0] == '*' && |s| > 1 && s[1] == '/') {
      BlockFound(s[1..]);
      var a, b := s[..n], s[1..][..n - 1];
      assert a[1..] == b;
      forall i | 0 <= i < |a| - 2 ensures !(a[i] == '*' && a[i + 1] == '/') {
        assert i > 0 ==> a[i] == b[i - 1] && a[i + 1] == b[i];
      }
    }
  }

  lemma {:induction false} BlockTaken(body: string, next: string)
    requires BlockEnds(body)
    ensures BlockCommentScan(body + next) == Scan(|body|, true)
  {
    var t := body + next;
    if |body| > 2 {
      assert t[1..] == body[1..] + next && t[0] == body[0] && t[1] == body[1];
      BlockTaken(body[1..], next);
    }
  }

  lemma {:induction false} LineFound(s: string)
    ensures var n := LineCommentLength(s); LineEnds(s[..n], s[n..])
  {
    var n := LineCommentLength(s);
    if s != "" && s[0] != '\r' && s[0] != '\n' {
      LineFound(s[1..]);
      var a, b := s[..n], s[1..][..n - 1];
      assert a[1..] == b && s[n..] == s[1..][n - 1..];
      forall i | 0 <= i < |a| - 1 ensures a[i] != '\r' && a[i] != '\n' {
        assert i > 0 ==> a[i] == b[i - 1];
      }
    }
  }

  lemma {:induction false} LineTaken(body: string, next: string)
    requires LineEnds(body, next)
    ensures LineCommentLength(body + next) == |body|
  {
    var t := body + next;
    if body != "" {
      assert t[1..] == body[1..] + next && t[0] == body[0];
      if |body| > 1 {
        LineTaken(body[1..], next);
      } else if body[0] != '\r' && body[0] != '\n' {
        assert t[1..] == "";
      }
    }
  }

  lemma {:induction false} NumberFound(s: string)
    ensures var n := NumberLength(s);
            (forall i | 0 <= i < n :: NumberChar(s[i])) && (n < |s| ==> !NumberChar(s[n]))
  {
    if s != "" && NumberChar(s[0]) {
      NumberFound(s[1..]);
      var n := NumberLength(s);
      forall i | 0 <= i < n ensures NumberChar(s[i]) {
        assert i > 0 ==> s[i] == s[1..][i - 1];
      }
      assert n < |s| ==> s[n] == s[1..][n - 1];
    }
  }

  lemma {:induction false} NumberTaken(t: string, next: string)
    requires (forall i | 0 <= i < |t| :: NumberChar(t[i])) && (next == "" || !NumberChar(next[0]))
    ensures NumberLength(t + next) == |t|
  {
    if t == "" {
      assert t + next == next;
    } else {
      assert (t + next)[1..] == t[1..] + next;
      NumberTaken(t[1..], next);
    }
  }

  // ----- Tokens -----

  /** What is found is spelled like that. */
  lemma TokenFound(s: string)
    requires !Lex(s).kind.ErrorToken?
    ensures Spelled(Lex(s).kind, s[..Lex(s).len], s[Lex(s).len..])
  {
    var l := Lex(s);
    var t := s[..l.len];
    match l.kind
    case StringToken =>
      StringFound(s[1..]);
      assert t[1..|t| - 1] == s[1..][..l.len - 2] && s[1..][l.len - 2] == s[l.len - 1];
    case NumberToken =>
      NumberFound(s[1..]);
      forall i | 0 <= i < |t| ensures NumberChar(t[i]) {
        assert i > 0 ==> t[i] == s[1..][i - 1];
      }
      assert l.len < |s| ==> s[l.len] == s[1..][l.len - 1];
    case CommentToken => CommentFound(s);
    case _ => WordFound(s);
  }

  lemma WordFound(s: string)
    requires Lex(s).kind !in {StringToken, NumberToken, CommentToken, ErrorToken}
    ensures Spelled(Lex(s).kind, s[..Lex(s).len], s[Lex(s).len..])
  {
    var n := Lex(s).len;
    assert n > 1 ==> s[..n] == [s[0]] + s[1..][..n - 1];
    assert n == 1 ==> s[..1] == [s[0]];
  }

  lemma CommentFound(s: string)
    requires Lex(s).kind.CommentToken?
    ensures Commented(s[..Lex(s).len], s[Lex(s).len..])
  {
    var n := Lex(s).len;
    var body := s[1..][1..];
    assert s[..n][2..] == body[..n - 2] && s[n..] == body[n - 2..] && s[1] == s[1..][0];
    if s[1] == '/' {
      LineFound(body);
    } else {
      BlockFound(body);
    }
  }

  /** And what is spelled like that is found. */
  lemma TokenTaken(kind: TokenType, t: string, next: string)
    requires Spelled(kind, t, next)
    ensures Lex(t + next) == Lexeme(kind, |t|)
  {
    var s := t + next;
    match kind
    case StringToken =>
      var content := t[1..|t| - 1];
      assert s[1..] == content + ("\"" + next);
      StringTaken(content, next);
    case NumberToken =>
      assert s[1..] == t[1..] + next;
      NumberTaken(t[1..], next);
    case CommentToken => CommentTaken(t, next);
    case _ => WordTaken(kind, t, next);
  }

  lemma WordTaken(kind: TokenType, t: string, next: string)
    requires Spelled(kind, t, next) && kind !in {StringToken, NumberToken, CommentToken}
    ensures Lex(t + next) == Lexeme(kind, |t|)
  {
    var s := t + next;
    assert t != "" ==> s[1..] == t[1..] + next;
    assert t == "" ==> s == "";
  }

  lemma CommentTaken(t: string, next: string)
    requires Commented(t, next)
    ensures Lex(t + next) == Lexeme(CommentToken, |t|)
  {
    var s := t + next;
    assert s[1..] == t[1..] + next && s[1..][1..] == t[2..] + next;
    if t[1] == '/' {
      LineTaken(t[2..], next);
    } else {
      BlockTaken(t[2..], next);
    }
  }

  /** A text begins with a token of a kind exactly if it begins with its spelling. */
  lemma TokenIs(s: string, kind: TokenType, n: nat)
    requires kind != ErrorToken && n <= |s|
    ensures Lex(s) == Lexeme(kind, n) <==> Spelled(kind, s[..n], s[n..])
  {
    assert s == s[..n] + s[n..];
    if Lex(s) == Lexeme(kind, n) {
      TokenFound(s);
    }
    if Spelled(kind, s[..n], s[n..]) {
      TokenTaken(kind, s[..n], s[n..]);
    }
  }
}
