/**
cJSON_Minify on any text that cJSON_Parse accepts, not only on what the printer writes: what is left
parses to the same value.
*/
module CJsonMinifyAny {
  import opened CJson
  import opened CJsonRoundTrip
  import opened CJsonMinify
  import opened Utf8

  /** What follows a value inside a text that parses: a blank, a mark or the end. */
  predicate Ends(u: string) { At(u) as int <= 32 || At(u) == ',' || At(u) == ']' || At(u) == '}' }

  /** A text that parses to this value in front of anything that may follow it. */
  ghost predicate ValueText(t: string, v: Json) {
    && t != "" && t[0] as int > 32 && t[0] != ']' && t[0] != '}'
    && forall u | Ends(u) :: ParseValue(t + u) == Ok(v, u)
  }

  ghost predicate ItemsText(t: string, done: seq<Json>, v: Json) {
    forall u | Ends(u) :: ParseItems(t + u, done) == Ok(v, u)
  }

  ghost predicate MembersText(t: string, done: seq<Member>, v: Json) {
    forall u | Ends(u) :: ParseMembers(t + u, done) == Ok(v, u)
  }

  // ----- Blanks -----

  /** The blanks that stay: control characters that `skip` passes over but the minifier does not know. */
  lemma {:induction false} MinifyBlank(s: string) returns (b: string)
    ensures Blank(b) && Minify(s) == Cat(b, Minify(Skip(s)))
  {
    if s != "" && s[0] != '\0' && s[0] as int <= 32 {
      BlankStep(s);
      hide Minify;
      var c := MinifyBlank(s[1..]);
      if IsSpace(s[0]) {
        b := c;
      } else {
        b := [s[0]] + c;
        CatCat([s[0]], c, Minify(Skip(s)));
      }
    } else {
      b := "";
      NothingInFront(Minify(s));
    }
  }

  lemma BlankStep(s: string)
    requires s != "" && s[0] != '\0' && s[0] as int <= 32
    ensures Minify(s) == if IsSpace(s[0]) then Minify(s[1..]) else Cat([s[0]], Minify(s[1..]))
  {
    hide CopyString, SkipLine, SkipBlock;
  }

  lemma NothingInFront(m: Minified)
    ensures Cat("", m) == m
  {
    assert m.Rest? ==> "" + m.t == m.t;
  }

  lemma EndsBlank(b: string, u: string)
    requires Blank(b) && Ends(u)
    ensures Ends(b + u)
  {
    assert b == "" ==> b + u == u;
  }

  // ----- Strings are copied -----

  /** A literal, closing quote included, decodes the same in front of anything. */
  ghost predicate StringText(b: string, x: string) {
    && b != "" && b[|b| - 1] == '\"'
    && forall u :: Unescape(b + u) == Ok(x, u)
  }

  /** The literal has a closing quote, from behind the opening one. */
  predicate Closed(s: string)
    decreases |s|
  {
    At(s) != '\0' && (s[0] == '\"' || (if s[0] == '\\' then At(s[1..]) != '\0' && Closed(s[2..]) else Closed(s[1..])))
  }

  lemma ClosedPlain(s: string)
    requires |s| >= 6 && s[0] == '\\' && s[1] == 'u' && FourPlain(s[2..])
    ensures Closed(s) <==> Closed(s[6..])
  {
    var t := s[2..];
    assert At(s[1..]) == 'u' && t[0] == s[2] && t[1] == s[3] && t[2] == s[4] && t[3] == s[5];
    assert Closed(s) == Closed(t);
    assert t[1..] == s[3..] && t[2..] == s[4..] && t[3..] == s[5..] && t[4..] == s[6..];
    ClosedOne(s, 2);
    ClosedOne(s, 3);
    ClosedOne(s, 4);
    ClosedOne(s, 5);
  }

  lemma ClosedOne(s: string, i: nat)
    requires i < |s| && s[i] != '\0' && s[i] != '\"' && s[i] != '\\'
    ensures Closed(s[i..]) <==> Closed(s[i + 1..])
  {
    assert s[i..][1..] == s[i + 1..];
  }

  lemma ClosedStep(s: string, n: nat)
    requires |s| >= 6 && s[0] == '\\' && s[1] == 'u' && FourPlain(s[2..]) && n == UnicodeStep(s).0 > 0
    ensures n <= |s| && (Closed(s) <==> Closed(s[n..]))
  {
    ClosedPlain(s);
    if n == 12 {
      assert s[6..][1..] == s[7..] && s[6..][2..] == s[8..] && s[6..][6..] == s[12..];
      ClosedPlain(s[6..]);
    }
  }

  /** A literal that never closes takes all of the text. */
  lemma {:induction false} UnclosedEnds(s: string)
    requires Unescape(s).Ok? && !Closed(s)
    ensures At(Unescape(s).rest) == '\0'
    decreases |s|
  {
    if At(s) == '\0' {
    } else if s[0] != '\\' {
      UnclosedEnds(s[1..]);
    } else if s[1] != 'u' {
      assert At(s[1..]) == s[1];
      UnclosedEnds(s[2..]);
    } else {
      PlainFour(s);
      StepUnfolds(s);
      ClosedStep(s, UnicodeStep(s).0);
      UnclosedEnds(s[UnicodeStep(s).0..]);
    }
  }

  lemma {:induction false} UnclosedCopy(s: string)
    requires !Closed(s)
    ensures CopyString(s) == PastEnd
    decreases |s|
  {
    if At(s) != '\0' {
      if s[0] == '\\' {
        if At(s[1..]) != '\0' { UnclosedCopy(s[2..]); }
      } else {
        UnclosedCopy(s[1..]);
      }
    }
  }

  /** Behind a value that something other than the end follows, a string has been closed. */
  lemma ClosedByMark(s: string)
    requires ParseValue(s).Ok? && At(Skip(ParseValue(s).rest)) != '\0'
    ensures At(s) == '\"' ==> Closed(s[1..])
  {
    hide ParseItems, ParseMembers, ParseNumber, Unescape;
    if At(s) == '\"' && !Closed(s[1..]) {
      UnclosedEnds(s[1..]);
    }
  }

  lemma NameClosed(s: string)
    requires At(s) == '\"' && ParseString(s).Ok? && At(Skip(ParseString(s).rest)) != '\0'
    ensures Closed(s[1..])
  {
    hide Unescape;
    if !Closed(s[1..]) {
      UnclosedEnds(s[1..]);
    }
  }

  lemma ClosingText()
    ensures StringText("\"", "")
  {
    forall u ensures Unescape("\"" + u) == Ok("", u) {
      assert ("\"" + u)[1..] == u;
    }
  }

  lemma RawText(c: char, b: string, y: string)
    requires StringText(b, y) && c != '\"' && c != '\\' && c != '\0'
    ensures StringText([c] + b, [c] + y)
  {
    forall u ensures Unescape([c] + b + u) == Ok([c] + y, u) {
      Behind(c, b, u);
      assert Unescape(b + u) == Ok(y, u);
    }
  }

  lemma ShortText(e: char, b: string, y: string)
    requires StringText(b, y) && e != 'u' && e != '\0'
    ensures StringText(['\\', e] + b, [LongEscape(e)] + y)
  {
    hide UnescapeUnicode;
    forall u ensures Unescape(['\\', e] + b + u) == Ok([LongEscape(e)] + y, u) {
      var t := ['\\', e] + b + u;
      assert t[1..] == [e] + (b + u) && t[2..] == b + u && t[1..][0] == e;
      assert Unescape(b + u) == Ok(y, u);
    }
  }

  lemma {:induction false} CopyKeeps(s: string, x: string, rest: string) returns (b: string)
    requires Unescape(s) == Ok(x, rest) && Closed(s)
    ensures s == b + rest && StringText(b, x) && CopyString(s) == Cat(b, Minify(rest))
    decreases |s|, 1
  {
    hide UnescapeUnicode, StringText, Minify;
    if At(s) == '\"' {
      b := "\"";
      ClosingText();
      assert s == b + rest;
    } else if s[0] != '\\' {
      var y := Unescape(s[1..]).value;
      var c := CopyKeeps(s[1..], y, rest);
      b := [s[0]] + c;
      CatCat([s[0]], c, Minify(rest));
      RawText(s[0], c, y);
      assert s == [s[0]] + s[1..] == b + rest;
    } else if s[1] != 'u' {
      b := CopyShort(s, x, rest);
    } else {
      b := CopyUnicode(s, x, rest);
    }
  }

  lemma {:induction false} CopyShort(s: string, x: string, rest: string) returns (b: string)
    requires Unescape(s) == Ok(x, rest) && Closed(s)
    requires |s| >= 2 && s[0] == '\\' && s[1] != 'u'
    ensures s == b + rest && StringText(b, x) && CopyString(s) == Cat(b, Minify(rest))
    decreases |s|, 0
  {
    hide UnescapeUnicode, StringText, Minify;
    assert At(s[1..]) == s[1];
    var y := Unescape(s[2..]).value;
    var c := CopyKeeps(s[2..], y, rest);
    b := s[..2] + c;
    CatCat(s[..2], c, Minify(rest));
    ShortText(s[1], c, y);
    assert s[..2] == ['\\', s[1]] && s == s[..2] + s[2..] == b + rest;
  }

  /** How many characters a unicode escape takes, and what it adds. */
  function UnicodeStep(s: string): (r: (nat, string))
    requires |s| >= 6 && s[0] == '\\' && s[1] == 'u' && FourPlain(s[2..])
    ensures r.0 <= |s|
  {
    var uc := HexOrZero(s[2..]);
    if 0xDC00 <= uc <= 0xDFFF || uc == 0 then (6, "")
    else if 0xD800 <= uc <= 0xDBFF then
      if At(s[6..]) != '\\' || At(s[7..]) != 'u' then (6, "")
      else if !FourPlain(s[8..]) then (0, "")
      else
        var uc2 := HexOrZero(s[8..]);
        (12, if uc2 < 0xDC00 || uc2 > 0xDFFF then "" else Encode(Combine(uc, uc2)))
    else (6, Encode(uc))
  }

  lemma StepUnfolds(s: string)
    requires |s| >= 6 && s[0] == '\\' && s[1] == 'u' && FourPlain(s[2..])
    ensures var (n, add) := UnicodeStep(s);
            Unescape(s) == if n == 0 then Malformed else Prepend(add, Unescape(s[n..]))
  {
    hide Encode, Combine, HexOrZero, FourPlain;
    UnicodeNext(s);
    hide Unescape;
    PrependNothing(Unescape(s[6..]));
    if |s| >= 12 {
      PrependNothing(Unescape(s[12..]));
    }
  }

  lemma UnicodeNext(s: string)
    requires |s| >= 2 && s[0] == '\\' && s[1] == 'u'
    ensures Unescape(s) == UnescapeUnicode(s)
  {
    assert At(s[1..]) == 'u';
    hide UnescapeUnicode;
  }

  lemma PrependNothing(p: Parsed<string>)
    ensures Prepend("", p) == p
  {
    assert p.Ok? ==> "" + p.value == p.value;
  }

  /** The step depends on the escape and on two characters behind it. */
  lemma StepAgain(s: string, t: string)
    requires |s| >= 6 && s[0] == '\\' && s[1] == 'u' && FourPlain(s[2..])
    requires var n := UnicodeStep(s).0;
             n > 0 && |t| >= n && t[..n] == s[..n]
             && (n == 6 ==> At(t[6..]) == At(s[6..]) && (At(s[6..]) == '\\' ==> At(t[7..]) == At(s[7..])))
    ensures FourPlain(t[2..]) && UnicodeStep(t) == UnicodeStep(s)
  {
    var n := UnicodeStep(s).0;
    assert forall i | 0 <= i < n :: t[i] == s[i] by {
      assert forall i | 0 <= i < n :: t[..n][i] == t[i] && s[..n][i] == s[i];
    }
    assert s[2..][..4] == t[2..][..4];
    SameFour(s[2..], t[2..]);
    if n == 12 {
      assert s[8..][..4] == t[8..][..4];
      SameFour(s[8..], t[8..]);
    }
    hide FourPlain, HexOrZero, Encode, Combine;
  }

  lemma SameFour(s: string, t: string)
    requires |s| >= 4 && |t| >= 4 && s[..4] == t[..4]
    ensures HexOrZero(s) == HexOrZero(t) && (FourPlain(s) <==> FourPlain(t))
  {
    assert forall i | 0 <= i < 4 :: s[i] == s[..4][i] == t[..4][i] == t[i];
  }

  lemma {:induction false} CopyUnicode(s: string, x: string, rest: string) returns (b: string)
    requires Unescape(s) == Ok(x, rest) && Closed(s)
    requires |s| >= 2 && s[0] == '\\' && s[1] == 'u'
    ensures s == b + rest && StringText(b, x) && CopyString(s) == Cat(b, Minify(rest))
    decreases |s|, 0
  {
    PlainFour(s);
    hide Unescape, UnescapeUnicode, FourPlain, UnicodeStep, StringText, CopyString, Minify, Closed;
    StepUnfolds(s);
    var n, add := UnicodeStep(s).0, UnicodeStep(s).1;
    CopyStep6(s, n);
    ClosedStep(s, n);
    var y := Unescape(s[n..]).value;
    var c := CopyKeeps(s[n..], y, rest);
    b := s[..n] + c;
    CatCat(s[..n], c, Minify(rest));
    assert s == s[..n] + s[n..] == b + rest;
    UnicodeText(s, n, c, y, rest);
  }

  lemma PlainFour(s: string)
    requires Unescape(s).Ok? && |s| >= 2 && s[0] == '\\' && s[1] == 'u'
    ensures |s| >= 6 && FourPlain(s[2..])
  {
    UnicodeNext(s);
  }

  lemma UnicodeText(s: string, n: nat, c: string, y: string, rest: string)
    requires |s| >= 6 && s[0] == '\\' && s[1] == 'u' && FourPlain(s[2..])
    requires n == UnicodeStep(s).0 && (n == 6 || n == 12) && n <= |s| && s[n..] == c + rest && StringText(c, y)
    ensures StringText(s[..n] + c, UnicodeStep(s).1 + y)
  {
    hide Unescape, UnescapeUnicode, FourPlain, UnicodeStep;
    forall u ensures Unescape(s[..n] + c + u) == Ok(UnicodeStep(s).1 + y, u) {
      var t := s[..n] + c + u;
      assert t[..n] == s[..n] && t[n..] == c + u;
      BehindEscape(s, t, n, c, rest, u);
      StepAgain(s, t);
      StepUnfolds(t);
      assert Unescape(c + u) == Ok(y, u);
    }
  }

  lemma BehindEscape(s: string, t: string, n: nat, c: string, rest: string, u: string)
    requires 6 <= n <= |s| && n <= |t| && s[n..] == c + rest && t[n..] == c + u && c != "" && c[|c| - 1] == '\"'
    ensures n == 6 ==> At(t[6..]) == At(s[6..]) && (At(s[6..]) == '\\' ==> At(t[7..]) == At(s[7..]))
    ensures t[..n] == s[..n] ==> t[0] == s[0] && t[1] == s[1]
  {
    if n == 6 && c[0] == '\\' {
      assert |c| >= 2;
      assert s[7..] == s[6..][1..] == (c + rest)[1..] && t[7..] == t[6..][1..] == (c + u)[1..];
    }
    if t[..n] == s[..n] {
      assert t[0] == t[..n][0] && t[1] == t[..n][1] && s[0] == s[..n][0] && s[1] == s[..n][1];
    }
  }

  /** The minifier copies the escape as it is. */
  lemma CopyStep6(s: string, n: nat)
    requires |s| >= 6 && s[0] == '\\' && s[1] == 'u' && FourPlain(s[2..]) && n == UnicodeStep(s).0
    ensures n == 0 || n == 6 || n == 12
    ensures n > 0 ==> CopyString(s) == Cat(s[..n], CopyString(s[n..]))
  {
    if n > 0 {
      CopyOne(s);
      if n == 12 {
        CopyOne(s[6..]);
        assert s[6..][6..] == s[12..] && s[6..][2..] == s[8..] && s[6..][1..] == s[7..];
        CatCat(s[..6], s[6..][..6], CopyString(s[12..]));
        assert s[..6] + s[6..][..6] == s[..12];
      }
    }
  }

  lemma CopyOne(s: string)
    requires |s| >= 6 && s[0] == '\\' && s[1] == 'u' && FourPlain(s[2..])
    ensures CopyString(s) == Cat(s[..6], CopyString(s[6..]))
  {
    var h := s[2..6];
    assert forall i | 0 <= i < 4 :: h[i] == s[2..][i];
    assert s[2..] == h + s[6..] && At(s[1..]) == 'u';
    CopyPlain(h, s[6..]);
    CatCat(s[..2], h, CopyString(s[6..]));
    assert s[..2] + h == s[..6];
  }

  // ----- Numbers are kept -----

  predicate NumberMark(c: char) { IsDigit(c) || c == '.' || c == 'e' || c == 'E' || c == '+' || c == '-' }

  predicate NumberText(d: string) { forall i | 0 <= i < |d| :: NumberMark(d[i]) }

  lemma {:induction false} DigitsTail(n: nat, s: string) returns (d: string)
    ensures s == d + Digits(n, s).1 && NumberText(d) && (d == "" <==> !IsDigit(At(s)))
    ensures forall u | !IsDigit(At(u)) :: Digits(n, d + u) == (Digits(n, s).0, u)
    decreases |s|
  {
    if IsDigit(At(s)) {
      var k := n * 10 + (s[0] as int - '0' as int);
      var e := DigitsTail(k, s[1..]);
      d := [s[0]] + e;
      forall u | !IsDigit(At(u)) ensures Digits(n, d + u) == (Digits(n, s).0, u) {
        Behind(s[0], e, u);
        assert Digits(k, e + u) == (Digits(n, s).0, u);
      }
    } else {
      d := "";
      forall u | !IsDigit(At(u)) ensures Digits(n, d + u) == (n, u) {
        assert "" + u == u;
      }
    }
  }

  lemma Behind(c: char, e: string, u: string)
    ensures [c] + e + u == [c] + (e + u) && At([c] + e + u) == c && ([c] + e + u)[1..] == e + u
  {
    assert ([c] + (e + u))[1..] == e + u;
  }

  /** The digits before the point, after an optional leading zero. */
  function Whole(s: string): (r: (nat, string))
    ensures |r.1| <= |s|
  {
    var s2 := if At(s) == '0' then s[1..] else s;
    if '1' <= At(s2) <= '9' then Digits(0, s2) else (0, s2)
  }

  /** The point and the digits behind it. */
  function Fraction(n: nat, s: string): (r: (nat, int, string)) {
    if At(s) == '.' && IsDigit(At(s[1..])) then
      var (m, s4) := Digits(n, s[1..]);
      (m, |s4| - |s| + 1, s4)
    else (n, 0, s)
  }

  lemma MantissaParts(s: string)
    ensures Mantissa(s) == Fraction(Whole(s).0, Whole(s).1)
  {
    hide Digits;
  }

  lemma WholeTail(s: string) returns (d: string)
    ensures s == d + Whole(s).1 && NumberText(d)
    ensures forall u | !IsDigit(At(u)) :: Whole(d + u) == (Whole(s).0, u)
    ensures d != "" ==> d[0] == s[0]
  {
    var s2 := if At(s) == '0' then s[1..] else s;
    var e := DigitsTail(0, s2);
    if !('1' <= At(s2) <= '9') {
      e := "";
    }
    d := if At(s) == '0' then ['0'] + e else e;
    hide Digits;
    forall u | !IsDigit(At(u)) ensures Whole(d + u) == (Whole(s).0, u) {
      WholeAgain(s, s2, e, u);
    }
  }

  lemma WholeAgain(s: string, s2: string, e: string, u: string)
    requires s2 == (if At(s) == '0' then s[1..] else s) && !IsDigit(At(u)) && (At(s) != '0' ==> At(e) != '0')
    requires if '1' <= At(s2) <= '9' then e != "" && e[0] == s2[0] && Digits(0, e + u) == (Digits(0, s2).0, u) else e == ""
    ensures Whole((if At(s) == '0' then ['0'] + e else e) + u) == (Whole(s).0, u)
  {
    hide Digits;
    Behind('0', e, u);
    assert e == "" ==> e + u == u;
    assert e != "" ==> At(e + u) == e[0];
  }

  lemma FractionTail(n: nat, s: string) returns (d: string)
    ensures s == d + Fraction(n, s).2 && NumberText(d) && (d == "" || d[0] == '.')
    ensures forall u | !IsDigit(At(u)) && At(u) != '.' ::
              Fraction(n, d + u) == (Fraction(n, s).0, Fraction(n, s).1, u)
  {
    d := "";
    if At(s) == '.' && IsDigit(At(s[1..])) {
      var f := DigitsTail(n, s[1..]);
      d := ['.'] + f;
      assert s == ['.'] + s[1..];
      forall u | !IsDigit(At(u)) && At(u) != '.'
        ensures Fraction(n, d + u) == (Fraction(n, s).0, Fraction(n, s).1, u) {
        hide Digits;
        Behind('.', f, u);
        assert Digits(n, f + u) == (Fraction(n, s).0, u);
        assert At(f + u) == f[0] == s[1..][0];
      }
    } else {
      forall u | !IsDigit(At(u)) && At(u) != '.' ensures Fraction(n, d + u) == (n, 0, u) {
        assert "" + u == u;
      }
    }
  }

  lemma MantissaTail(s: string) returns (d: string)
    ensures s == d + Mantissa(s).2 && NumberText(d) && (d != "" ==> d[0] == s[0])
    ensures forall u | !IsDigit(At(u)) && At(u) != '.' ::
              Mantissa(d + u) == (Mantissa(s).0, Mantissa(s).1, u)
  {
    var n, s3 := Whole(s).0, Whole(s).1;
    MantissaParts(s);
    var w := WholeTail(s);
    var f := FractionTail(n, s3);
    d := w + f;
    hide Whole, Fraction, Mantissa;
    assert s == w + (f + Fraction(n, s3).2) == d + Mantissa(s).2;
    forall u | !IsDigit(At(u)) && At(u) != '.' ensures Mantissa(d + u) == (Mantissa(s).0, Mantissa(s).1, u) {
      MantissaParts(d + u);
      assert d + u == w + (f + u);
      assert !IsDigit(At(f + u)) by { assert f == "" ==> f + u == u; }
      assert Whole(w + (f + u)) == (n, f + u);
      assert Fraction(n, f + u) == (Mantissa(s).0, Mantissa(s).1, u);
    }
  }

  lemma ExponentTail(s: string) returns (d: string)
    ensures s == d + Exponent(s).1 && NumberText(d) && (d == "" || d[0] == 'e' || d[0] == 'E')
    ensures forall u | Ends(u) :: Exponent(d + u) == (Exponent(s).0, u)
  {
    if At(s) == 'e' || At(s) == 'E' {
      d := PowerTail(s);
    } else {
      d := "";
      forall u | Ends(u) ensures Exponent(d + u) == (0, u) {
        assert "" + u == u;
      }
    }
  }

  lemma PowerTail(s: string) returns (d: string)
    requires At(s) == 'e' || At(s) == 'E'
    ensures s == d + Exponent(s).1 && NumberText(d) && d != "" && d[0] == s[0]
    ensures forall u | Ends(u) :: Exponent(d + u) == (Exponent(s).0, u)
  {
    hide Digits;
    var signed := At(s[1..]) == '-' || At(s[1..]) == '+';
    var h, t := if signed then s[..2] else s[..1], if signed then s[2..] else s[1..];
    var f := DigitsTail(0, t);
    assert Exponent(s).1 == Digits(0, t).1;
    hide Exponent;
    d := h + f;
    PowerHead(s);
    assert s == h + t;
    assert h + t == h + (f + Digits(0, t).1) == d + Exponent(s).1;
    forall u | Ends(u) ensures Exponent(d + u) == (Exponent(s).0, u) {
      ExponentAgain(s, f, t, u);
    }
  }

  lemma PowerHead(s: string)
    requires At(s) == 'e' || At(s) == 'E'
    ensures NumberText(s[..1])
    ensures At(s[1..]) == '-' || At(s[1..]) == '+' ==> NumberText(s[..2])
  {
    if At(s[1..]) == '-' || At(s[1..]) == '+' {
      assert s[..2] == [s[0], s[1..][0]];
    }
  }

  lemma ExponentAgain(s: string, f: string, t: string, u: string)
    requires At(s) == 'e' || At(s) == 'E'
    requires Ends(u) && t == (if At(s[1..]) == '-' || At(s[1..]) == '+' then s[2..] else s[1..])
    requires Digits(0, f + u) == (Digits(0, t).0, u) && (f == "" <==> !IsDigit(At(t))) && f <= t
    ensures var h := if At(s[1..]) == '-' || At(s[1..]) == '+' then s[..2] else s[..1];
            Exponent(h + f + u) == (Exponent(s).0, u)
  {
    hide Digits;
    var w := f + u;
    if At(s[1..]) == '-' || At(s[1..]) == '+' {
      var c := s[1..][0];
      assert s[..2] == [s[0], c] && [s[0], c] + f + u == [s[0]] + ([c] + w);
      assert ([s[0]] + ([c] + w))[1..] == [c] + w && ([s[0]] + ([c] + w))[2..] == w;
    } else {
      assert s[..1] == [s[0]];
      Behind(s[0], f, u);
      assert f == "" ==> w == u;
      assert f != "" ==> w[0] == f[0] == t[0];
    }
  }

  function SignLess(s: string): string { if At(s) == '-' then s[1..] else s }

  lemma NumberParts(s: string)
    ensures var (m, scale, s4) := Mantissa(SignLess(s));
            var (e, s6) := Exponent(s4);
            ParseNumber(s) == Ok(Number(if At(s) == '-' then 0 - m else m, scale + e), s6)
  {
    hide Mantissa, Exponent;
  }

  lemma NumberTail(s: string) returns (d: string)
    requires At(s) == '-' || IsDigit(At(s))
    ensures s == d + ParseNumber(s).rest && d != "" && d[0] == s[0] && NumberText(d)
    ensures forall u | Ends(u) :: ParseNumber(d + u) == Ok(ParseNumber(s).value, u)
  {
    hide Mantissa, Exponent, ParseNumber;
    NumberParts(s);
    var s1 := SignLess(s);
    var rest := ParseNumber(s).rest;
    var a := UnsignedTail(s1);
    if At(s) == '-' {
      d := ['-'] + a;
      assert s == ['-'] + s1 == d + rest;
    } else {
      d := a;
      assert d == "" ==> d + rest == rest;
      SomeDigit(s, rest);
    }
    forall u | Ends(u) ensures ParseNumber(d + u) == Ok(ParseNumber(s).value, u) {
      NumberParts(d + u);
      Behind('-', a, u);
      assert SignLess(d + u) == a + u;
    }
  }

  /** What Mantissa and Exponent make together. */
  ghost predicate Unsigned(s: string, m: nat, scale: int, e: int, rest: string) {
    var r := Mantissa(s);
    r.0 == m && r.1 == scale && Exponent(r.2) == (e, rest)
  }

  lemma UnsignedTail(s: string) returns (d: string)
    ensures var r := Mantissa(s); var q := Exponent(r.2);
            && s == d + q.1 && NumberText(d) && (d != "" ==> d[0] == s[0])
            && forall u | Ends(u) :: Unsigned(d + u, r.0, r.1, q.0, u)
  {
    hide Mantissa, Exponent, Unsigned, NumberText;
    var r := Mantissa(s);
    var q := Exponent(r.2);
    var a := MantissaTail(s);
    var x := ExponentTail(r.2);
    d := a + x;
    JoinNumber(a, x, q.1);
    forall u | Ends(u) ensures Unsigned(d + u, r.0, r.1, q.0, u) {
      PointFree(x, u);
      MantissaThenExponent(a, x, r.0, r.1, q.0, u);
    }
  }

  lemma JoinNumber(a: string, x: string, rest: string)
    ensures NumberText(a) && NumberText(x) ==> NumberText(a + x)
    ensures a + (x + rest) == a + x + rest
    ensures a + x != "" ==> (a + x + rest)[0] == (a + x)[0]
  {
  }

  lemma PointFree(x: string, u: string)
    requires Ends(u) && (x == "" || x[0] == 'e' || x[0] == 'E')
    ensures !IsDigit(At(x + u)) && At(x + u) != '.'
  {
    assert x == "" ==> x + u == u;
  }

  lemma MantissaThenExponent(a: string, x: string, m: nat, scale: int, e: int, u: string)
    requires Mantissa(a + (x + u)) == (m, scale, x + u) && Exponent(x + u) == (e, u)
    ensures Unsigned(a + x + u, m, scale, e, u)
  {
    hide Mantissa, Exponent;
    assert a + x + u == a + (x + u);
  }

  lemma SomeDigit(s: string, rest: string)
    requires IsDigit(At(s)) && rest == ParseNumber(s).rest
    ensures |rest| < |s|
  {
    hide ParseNumber;
  }

  // ----- Values, elements and members -----

  lemma WordText(word: string, v: Json)
    requires (word == "null" && v == Null) || (word == "false" && v == False) || (word == "true" && v == True)
    ensures ValueText(word, v) && Plain(word)
  {
    forall u | Ends(u) ensures ParseValue(word + u) == Ok(v, u) {
      assert (word + u)[..|word|] == word && (word + u)[|word|..] == u && (word + u)[0] == word[0];
    }
  }

  lemma {:induction false} KeepsValue(s: string, v: Json, rest: string) returns (t: string)
    requires ParseValue(s) == Ok(v, rest) && (At(s) == '\"' ==> Closed(s[1..]))
    ensures Minify(s) == Cat(t, Minify(rest)) && ValueText(t, v)
    decreases |s|, 2
  {
    hide ParseNumber, ParseString, ParseItems, ParseMembers, Skip, Minify;
    if "null" <= s || "false" <= s || "true" <= s {
      t := if "null" <= s then "null" else if "false" <= s then "false" else "true";
      assert s == t + s[|t|..];
      WordText(t, v);
      MinifyPlain(t, rest);
    } else if At(s) == '\"' {
      t := KeepsString(s, v.str, rest);
    } else if At(s) == '-' || IsDigit(At(s)) {
      t := KeepsNumber(s, v, rest);
    } else if At(s) == '[' {
      t := KeepsArray(s, v, rest);
    } else {
      t := KeepsObject(s, v, rest);
    }
  }

  lemma KeepsString(s: string, x: string, rest: string) returns (t: string)
    requires At(s) == '\"' && ParseString(s) == Ok(x, rest) && Closed(s[1..])
    ensures Minify(s) == Cat(t, Minify(rest)) && ValueText(t, String(x))
    ensures t != "" && t[0] == '\"' && forall u :: ParseString(t + u) == Ok(x, u)
  {
    assert Minify(s) == Cat("\"", CopyString(s[1..]));
    hide Unescape, CopyString;
    var b := CopyKeeps(s[1..], x, rest);
    t := "\"" + b;
    CatCat("\"", b, Minify(rest));
    forall u ensures ParseString(t + u) == Ok(x, u) {
      assert (t + u)[1..] == b + u;
    }
    forall u | Ends(u) ensures ParseValue(t + u) == Ok(String(x), u) {
      assert (t + u)[0] == '\"';
    }
  }

  lemma KeepsNumber(s: string, v: Json, rest: string) returns (t: string)
    requires (At(s) == '-' || IsDigit(At(s))) && ParseNumber(s) == Ok(v, rest)
    ensures Minify(s) == Cat(t, Minify(rest)) && ValueText(t, v)
  {
    t := NumberTail(s);
    hide ParseNumber;
    MinifyPlain(t, rest);
    forall u | Ends(u) ensures ParseValue(t + u) == Ok(v, u) {
      assert (t + u)[0] == s[0];
    }
  }

  /** `[` or `{`, blanks, and what follows them. */
  lemma Opened(s: string) returns (b: string)
    requires s != "" && (s[0] == '[' || s[0] == '{')
    ensures Blank(b) && Minify(s) == Cat([s[0]] + b, Minify(Skip(s[1..])))
  {
    b := MinifyBlank(s[1..]);
    CatCat([s[0]], b, Minify(Skip(s[1..])));
  }

  /** Blanks, and the mark behind them. */
  lemma BlankMark(s: string) returns (b: string)
    requires At(Skip(s)) == ',' || At(Skip(s)) == ':' || At(Skip(s)) == ']' || At(Skip(s)) == '}'
    ensures Blank(b) && Minify(s) == Cat(b + [Skip(s)[0]], Minify(Skip(s)[1..]))
  {
    b := MinifyBlank(s);
    var s1 := Skip(s);
    CatCat(b, [s1[0]], Minify(s1[1..]));
  }

  lemma {:induction false} KeepsArray(s: string, v: Json, rest: string) returns (t: string)
    requires At(s) == '[' && ParseValue(s) == Ok(v, rest)
    ensures Minify(s) == Cat(t, Minify(rest)) && ValueText(t, v)
    decreases |s|, 1
  {
    hide ParseValue, ParseItems, ParseMembers, Minify, Skip, ItemsText, MembersText;
    var s1 := Skip(s[1..]);
    assert s == "[" + s[1..];
    ParseArrayText(s[1..]);
    var b := Opened(s);
    var x;
    if At(s1) == ']' {
      x := "]";
      MinifyPlain("]", rest);
      assert s1 == "]" + rest;
    } else {
      SkipTwice(s[1..]);
      x := KeepsItems(s1, [], v, rest);
    }
    t := "[" + b + x;
    CatCat("[" + b, x, Minify(rest));
    forall u | Ends(u) ensures ParseValue(t + u) == Ok(v, u) {
      OneArray(b, x, v, u);
    }
  }

  ghost predicate ArrayText(x: string, v: Json) {
    (x == "]" && v == Array([])) || (x != "" && x[0] as int > 32 && x[0] != ']' && ItemsText(x, [], v))
  }

  lemma OneArray(b: string, x: string, v: Json, u: string)
    requires Blank(b) && ArrayText(x, v) && Ends(u)
    ensures ParseValue("[" + b + x + u) == Ok(v, u)
  {
    hide ParseValue, ParseItems, Skip;
    SkipBlank(b, x + u);
    ParseArrayText(b + (x + u));
    Solid(x + u);
    assert "[" + b + x + u == "[" + (b + (x + u)) && ("]" + u)[1..] == u;
  }

  lemma Solid(s: string)
    requires s != "" && s[0] as int > 32
    ensures Skip(s) == s
  {
  }

  /** Elements up to the bracket, from the first one on. */
  lemma {:induction false} KeepsItems(s: string, done: seq<Json>, v: Json, rest: string) returns (t: string)
    requires ParseItems(s, done) == Ok(v, rest)
    ensures Minify(Skip(s)) == Cat(t, Minify(rest)) && ItemsText(t, done, v)
    ensures t != "" && t[0] as int > 32 && t[0] != ']'
    decreases |s|, 3
  {
    hide ParseValue, ParseString, ParseNumber, ParseMembers, Minify, Skip, ItemsText;
    var b0 := MinifyBlank(s);
    var r := ParseValue(Skip(s));
    var w, after := r.value, Skip(r.rest);
    ClosedByMark(Skip(s));
    var x := KeepsValue(Skip(s), w, r.rest);
    var b1 := BlankMark(r.rest);
    CatCat(x, b1 + [after[0]], Minify(after[1..]));
    if after[0] == ',' {
      var b2 := MinifyBlank(after[1..]);
      var more := KeepsItems(after[1..], done + [w], v, rest);
      CatCat(b2, more, Minify(rest));
      CatCat(x + (b1 + ","), b2 + more, Minify(rest));
      t := x + (b1 + ",") + (b2 + more);
      ItemThenItems(x, w, b1, b2, more, done, v);
    } else {
      t := x + (b1 + "]");
      ItemLast(x, w, b1, done);
    }
  }

  lemma ItemThenItems(x: string, w: Json, b1: string, b2: string, more: string, done: seq<Json>, v: Json)
    requires ValueText(x, w) && Blank(b1) && Blank(b2) && ItemsText(more, done + [w], v)
    ensures ItemsText(x + (b1 + ",") + (b2 + more), done, v)
  {
    hide ParseValue, Skip, ParseItems, ValueText;
    forall u | Ends(u) ensures ParseItems(x + (b1 + ",") + (b2 + more) + u, done) == Ok(v, u) {
      OneItem(x, w, b1, ',', b2 + (more + u), done);
      SkipBlank(b2, more + u);
      ItemsSkip(b2 + (more + u), more + u, done + [w]);
      assert x + (b1 + ",") + (b2 + more) + u == x + (b1 + ("," + (b2 + (more + u))));
    }
  }

  lemma ItemsSkip(s: string, t: string, done: seq<Json>)
    requires Skip(s) == Skip(t)
    ensures ParseItems(s, done) == ParseItems(t, done)
  {
    hide ParseValue, Skip;
  }

  lemma ItemLast(x: string, w: Json, b: string, done: seq<Json>)
    requires ValueText(x, w) && Blank(b)
    ensures ItemsText(x + (b + "]"), done, Array(done + [w]))
  {
    hide ParseValue, Skip, ParseItems, ValueText;
    forall u | Ends(u) ensures ParseItems(x + (b + "]") + u, done) == Ok(Array(done + [w]), u) {
      OneItem(x, w, b, ']', u, done);
      assert x + (b + "]") + u == x + (b + ("]" + u));
    }
  }

  lemma OneItem(x: string, w: Json, b: string, c: char, tail: string, done: seq<Json>)
    requires ValueText(x, w) && Blank(b) && (c == ',' || c == ']')
    ensures ParseItems(x + (b + ([c] + tail)), done)
         == if c == ',' then ParseItems(tail, done + [w]) else Ok(Array(done + [w]), tail)
  {
    hide ParseValue, Skip;
    var u := b + ([c] + tail);
    Solid(x + u);
    EndsBlank(b, [c] + tail);
    SkipBlank(b, [c] + tail);
    Solid([c] + tail);
    assert ([c] + tail)[1..] == tail;
  }

  lemma {:induction false} KeepsObject(s: string, v: Json, rest: string) returns (t: string)
    requires At(s) == '{' && ParseValue(s) == Ok(v, rest)
    ensures Minify(s) == Cat(t, Minify(rest)) && ValueText(t, v)
    decreases |s|, 1
  {
    hide ParseValue, ParseItems, ParseMembers, Minify, Skip, ItemsText, MembersText;
    var s1 := Skip(s[1..]);
    assert s == "{" + s[1..];
    ParseObjectText(s[1..]);
    var b := Opened(s);
    var x;
    if At(s1) == '}' {
      x := "}";
      MinifyPlain("}", rest);
      assert s1 == "}" + rest;
    } else {
      SkipTwice(s[1..]);
      x := KeepsMembers(s1, [], v, rest);
    }
    t := "{" + b + x;
    CatCat("{" + b, x, Minify(rest));
    forall u | Ends(u) ensures ParseValue(t + u) == Ok(v, u) {
      OneObject(b, x, v, u);
    }
  }

  ghost predicate ObjectText(x: string, v: Json) {
    (x == "}" && v == Object([])) || (x != "" && x[0] as int > 32 && x[0] != '}' && MembersText(x, [], v))
  }

  lemma OneObject(b: string, x: string, v: Json, u: string)
    requires Blank(b) && ObjectText(x, v) && Ends(u)
    ensures ParseValue("{" + b + x + u) == Ok(v, u)
  {
    hide ParseValue, ParseMembers, Skip;
    SkipBlank(b, x + u);
    ParseObjectText(b + (x + u));
    Solid(x + u);
    assert "{" + b + x + u == "{" + (b + (x + u)) && ("}" + u)[1..] == u;
  }

  /** Members up to the brace, from the first name on. */
  lemma {:induction false} KeepsMembers(s: string, done: seq<Member>, v: Json, rest: string) returns (t: string)
    requires ParseMembers(s, done) == Ok(v, rest)
    ensures Minify(Skip(s)) == Cat(t, Minify(rest)) && MembersText(t, done, v)
    ensures t != "" && t[0] == '\"'
    decreases |s|, 3
  {
    hide ParseValue, Unescape, ParseItems, Minify, Skip, MembersText;
    var b0 := MinifyBlank(s);
    var key := ParseString(Skip(s));
    var r := ParseValue(Skip(Skip(key.rest)[1..]));
    var m, after := Member(key.value, r.value), Skip(r.rest);
    hide ParseString;
    var k, y := KeepsPair(Skip(s), m.key, key.rest, m.value, r.rest);
    var b1 := BlankMark(r.rest);
    CatCat(k + y, b1 + [after[0]], Minify(after[1..]));
    if after[0] == ',' {
      var b2 := MinifyBlank(after[1..]);
      var more := KeepsMembers(after[1..], done + [m], v, rest);
      CatCat(b2, more, Minify(rest));
      CatCat(k + y + (b1 + ","), b2 + more, Minify(rest));
      t := k + y + (b1 + ",") + (b2 + more);
      MemberThenMembers(k, y, m, b1, b2, more, done, v);
    } else {
      t := k + y + (b1 + "}");
      MemberLast(k, y, m, b1, done);
    }
  }

  lemma MemberThenMembers(k: string, y: string, m: Member, b1: string, b2: string, more: string, done: seq<Member>, v: Json)
    requires NameText(k, m.key) && PairText(y, m.value) && Blank(b1) && Blank(b2) && MembersText(more, done + [m], v)
    ensures MembersText(k + y + (b1 + ",") + (b2 + more), done, v)
  {
    hide ParseValue, Skip, ParseMembers, NameText, PairText;
    forall u | Ends(u) ensures ParseMembers(k + y + (b1 + ",") + (b2 + more) + u, done) == Ok(v, u) {
      OneMember(k, y, m, b1, ',', b2 + (more + u), done);
      SkipBlank(b2, more + u);
      MembersSkip(b2 + (more + u), more + u, done + [m]);
      assert k + y + (b1 + ",") + (b2 + more) + u == k + (y + (b1 + ("," + (b2 + (more + u)))));
    }
  }

  lemma MembersSkip(s: string, t: string, done: seq<Member>)
    requires Skip(s) == Skip(t)
    ensures ParseMembers(s, done) == ParseMembers(t, done)
  {
    hide ParseValue, ParseString, Skip;
  }

  lemma MemberLast(k: string, y: string, m: Member, b: string, done: seq<Member>)
    requires NameText(k, m.key) && PairText(y, m.value) && Blank(b)
    ensures MembersText(k + y + (b + "}"), done, Object(done + [m]))
  {
    hide ParseValue, Skip, ParseMembers, NameText, PairText;
    forall u | Ends(u) ensures ParseMembers(k + y + (b + "}") + u, done) == Ok(Object(done + [m]), u) {
      OneMember(k, y, m, b, '}', u, done);
      assert k + y + (b + "}") + u == k + (y + (b + ("}" + u)));
    }
  }

  ghost predicate NameText(k: string, x: string) {
    k != "" && k[0] == '\"' && forall u :: ParseString(k + u) == Ok(x, u)
  }

  /** Blanks, a colon, blanks and a value. */
  ghost predicate PairText(y: string, v: Json) {
    forall u | Ends(u) ::
      var s1 := Skip(y + u);
      At(s1) == ':' && ParseValue(Skip(s1[1..])) == Ok(v, u)
  }

  lemma {:induction false} KeepsPair(s: string, x: string, colon: string, v: Json, rest: string) returns (k: string, y: string)
    requires At(s) == '\"' && ParseString(s) == Ok(x, colon) && At(Skip(colon)) == ':'
    requires ParseValue(Skip(Skip(colon)[1..])) == Ok(v, rest) && At(Skip(rest)) != '\0'
    ensures Minify(s) == Cat(k + y, Minify(rest)) && NameText(k, x) && PairText(y, v)
    decreases |s|, 2
  {
    hide ParseValue, ParseString, Minify, Skip;
    NameClosed(s);
    k := KeepsString(s, x, colon);
    var b1 := BlankMark(colon);
    var tail := Skip(colon)[1..];
    var b2 := MinifyBlank(tail);
    ClosedByMark(Skip(tail));
    var z := KeepsValue(Skip(tail), v, rest);
    CatCat(b2, z, Minify(rest));
    CatCat(b1 + ":", b2 + z, Minify(rest));
    CatCat(k, b1 + ":" + (b2 + z), Minify(rest));
    y := b1 + ":" + (b2 + z);
    forall u | Ends(u) ensures At(Skip(y + u)) == ':' && ParseValue(Skip(Skip(y + u)[1..])) == Ok(v, u) {
      assert y + u == b1 + (":" + (b2 + (z + u)));
      SkipBlank(b1, ":" + (b2 + (z + u)));
      Solid(":" + (b2 + (z + u)));
      assert (":" + (b2 + (z + u)))[1..] == b2 + (z + u);
      SkipBlank(b2, z + u);
      Solid(z + u);
    }
  }

  lemma OneMember(k: string, y: string, m: Member, b: string, c: char, tail: string, done: seq<Member>)
    requires NameText(k, m.key) && PairText(y, m.value) && Blank(b) && (c == ',' || c == '}')
    ensures ParseMembers(k + (y + (b + ([c] + tail))), done)
         == if c == ',' then ParseMembers(tail, done + [m]) else Ok(Object(done + [m]), tail)
  {
    hide ParseValue, ParseString, Skip;
    var u := b + ([c] + tail);
    Solid(k + (y + u));
    EndsBlank(b, [c] + tail);
    SkipBlank(b, [c] + tail);
    Solid([c] + tail);
    assert ([c] + tail)[1..] == tail;
  }

  /** A string, and nothing else, that never closes: cJSON_Parse accepts it all the same. */
  predicate Unterminated(s: string) {
    At(Skip(s)) == '\"' && !Closed(Skip(s)[1..])
  }

  /** Any text that cJSON_Parse accepts up to its end still means the same once it is minified; and the minifier
      stays in front of the terminator unless the text is a string that never closes. */
  lemma MinifyKeepsMeaning(s: string)
    requires Parse(s, true).Ok?
    ensures Minify(s).Rest? <==> !Unterminated(s)
    ensures Minify(s).Rest? ==> Parse(Minify(s).t, true) == Ok(Parse(s, true).value, "")
  {
    var b := MinifyBlank(s);
    if Unterminated(s) {
      UnclosedCopy(Skip(s)[1..]);
      assert Minify(Skip(s)) == Cat("\"", CopyString(Skip(s)[1..]));
    } else {
      var t := KeepsDocument(s, b);
    }
  }

  lemma KeepsDocument(s: string, b: string) returns (t: string)
    requires Parse(s, true).Ok? && !Unterminated(s) && Blank(b) && Minify(s) == Cat(b, Minify(Skip(s)))
    ensures Minify(s) == Rest(t) && Parse(t, true) == Ok(Parse(s, true).value, "")
  {
    var r := ParseValue(Skip(s));
    var x := KeepsValue(Skip(s), r.value, r.rest);
    var e := MinifyBlank(r.rest);
    assert Minify(Skip(r.rest)) == Rest("");
    hide ParseValue, Minify, Skip;
    CatCat(b, x, Minify(r.rest));
    assert Minify(r.rest) == Rest(e) by { assert e + "" == e; }
    t := b + x + e;
    assert t == b + (x + e);
    SkipBlank(b, x + e);
    Solid(x + e);
    assert Ends(e);
    SkipBlank(e, "");
    assert e + "" == e;
    assert Skip("") == "" by { SkipEmpty(); }
  }

  lemma SkipEmpty()
    ensures Skip("") == ""
  {
  }
}
