/**
What decodeString of tools/jsoncpp/json_reader.cpp finds wrong with a literal: the first escape in it that is
none, by what is wrong with it.
*/
module JsonCppProblems {
  import opened CrossDecode
  import opened JsonCppLex
  import opened Utf8

  /** A text that begins with no piece of a literal, and the problem with it. */
  predicate Breaks(t: string, problem: Problem) {
    match problem
    case EmptyEscape => t == "\\"
    case BadEscape => |t| >= 2 && t[0] == '\\' && t[1] !in "\"\\/bfnrtu"
    case FourDigitsExpected => "\\u" <= t && |t| < 6
    case HexDigitExpected =>
      "\\u" <= t && |t| >= 6 && (!IsHex4(t[2..6]) || (High(t[2..6]) && "\\u" <= t[6..] && |t| >= 12 && !IsHex4(t[8..12])))
    case PairExpected => "\\u" <= t && 6 <= |t| < 12 && IsHex4(t[2..6]) && High(t[2..6])
    case SecondUnitExpected => "\\u" <= t && |t| >= 12 && IsHex4(t[2..6]) && High(t[2..6]) && !("\\u" <= t[6..])
    case _ => false
  }

  predicate AllFormed(ps: seq<Piece>) { forall i | 0 <= i < |ps| :: Formed(ps[i]) && !ps[i].Lone? }

  lemma Broken(t: string, problem: Problem)
    requires Breaks(t, problem)
    ensures Decode(t) == Bad(problem)
  {
    if problem.EmptyEscape? || problem.BadEscape? {
      assert t[0] == '\\';
    } else {
      assert t[0] == '\\' && t[1] == 'u' && 'u' !in LETTERS;
      CodeBroken(t[2..], problem, t);
      hide ReadCodePoint, Breaks;
    }
  }

  lemma CodeBroken(s: string, problem: Problem, t: string)
    requires Breaks(t, problem) && !problem.EmptyEscape? && !problem.BadEscape? && s == t[2..]
    ensures ReadCodePoint(s) == NoCodePoint(problem)
  {
    assert |s| >= 4 ==> s[..4] == t[2..6];
    assert |s| >= 6 ==> t[6..] == s[4..] && ("\\u" <= t[6..] <==> s[4] == '\\' && s[5] == 'u');
    assert |s| >= 10 ==> s[6..][..4] == t[8..12];
    HexOfFour(s);
    if |s| >= 10 { HexOfFour(s[6..]); }
    hide IsHex4, ParseHex4, Combine;
  }

  lemma HexOfFour(s: string)
    ensures IsHex4(s) <==> |s| >= 4 && IsHex4(s[..4])
    ensures IsHex4(s) ==> ParseHex4(s) == ParseHex4(s[..4])
  {
  }

  /** Behind pieces that are in order, that is the problem with the literal. */
  lemma {:induction false} ProblemIs(ps: seq<Piece>, t: string, problem: Problem)
    requires AllFormed(ps) && Breaks(t, problem)
    ensures Decode(Literal(ps) + t) == Bad(problem)
  {
    hide Formed, Source, JsonCppBytes, Breaks;
    if ps == [] {
      assert Literal(ps) + t == t;
      Broken(t, problem);
    } else {
      assert Formed(ps[0]) && AllFormed(ps[1..]);
      ProblemIs(ps[1..], t, problem);
      JsonCppPiece(ps[0], Literal(ps[1..]) + t);
      assert Literal(ps) + t == Source(ps[0]) + (Literal(ps[1..]) + t);
    }
  }

  /** There is no other reason why a literal is not decoded. */
  lemma {:induction false} ProblemFound(s: string) returns (ps: seq<Piece>, t: string)
    requires Decode(s).Bad? && '\0' !in s
    ensures AllFormed(ps) && s == Literal(ps) + t && Breaks(t, Decode(s).problem)
    decreases |s|
  {
    var p, rest := NextPiece(s);
    if p == [] {
      ps, t := [], s;
      assert Literal([]) + s == s;
    } else {
      hide Formed, Source, JsonCppBytes, Breaks;
      JsonCppPiece(p[0], rest);
      var more;
      more, t := ProblemFound(rest);
      ps := p + more;
      assert ps[1..] == more && Source(p[0]) + (Literal(more) + t) == Source(p[0]) + Literal(more) + t;
    }
  }

  lemma NextPiece(s: string) returns (p: seq<Piece>, rest: string)
    requires Decode(s).Bad? && '\0' !in s
    ensures |p| <= 1 && AllFormed(p)
    ensures if p == [] then Breaks(s, Decode(s).problem) else s == Source(p[0]) + rest && |rest| < |s|
  {
    if s[0] != '\\' {
      p, rest := [Raw(s[0])], s[1..];
    } else if |s| > 1 && s[1] in LETTERS {
      p, rest := [Short(s[1])], s[2..];
      assert s == ['\\', s[1]] + rest;
    } else if |s| > 1 && s[1] == 'u' {
      p, rest := NextUnit(s);
    } else {
      p, rest := [], s;
    }
  }

  lemma NextUnit(s: string) returns (p: seq<Piece>, rest: string)
    requires "\\u" <= s && Decode(s).Bad?
    ensures |p| <= 1 && AllFormed(p)
    ensures if p == [] then Breaks(s, Decode(s).problem) else s == Source(p[0]) + rest && |rest| < |s|
  {
    DecodesUnit(s);
    CodeAhead(s);
    hide IsHex4, ParseHex4, Combine, Decode, ReadCodePoint, Breaks, High;
    var r := ReadCodePoint(s[2..]);
    if r.NoCodePoint? {
      p, rest := [], s;
    } else if r.len == 4 {
      p, rest := [Unit(s[2..6])], s[6..];
      UnitText(s);
      assert s == s[..6] + s[6..];
    } else {
      p, rest := [Pair(s[2..6], s[8..12])], s[12..];
      PairText(s);
      assert s == s[..12] + s[12..];
    }
  }

  lemma CodeAhead(s: string)
    requires "\\u" <= s
    ensures var r := ReadCodePoint(s[2..]);
            if r.NoCodePoint? then Breaks(s, r.problem)
            else if r.len == 4 then |s| >= 6 && Formed(Unit(s[2..6]))
            else r.len == 10 && |s| >= 12 && Formed(Pair(s[2..6], s[8..12])) && UnitNext(s) && UnitNext(s[6..])
  {
    HexOfFour(s[2..]);
    if |s| >= 6 {
      assert s[2..][..4] == s[2..6] && (UnitNext(s[6..]) <==> "\\u" <= s[6..]);
    }
    if |s| >= 12 {
      assert s[6..][0] == s[2..][4] && s[6..][1] == s[2..][5] && s[2..][6..] == s[8..] && s[8..][..4] == s[8..12];
      HexOfFour(s[8..]);
    }
    hide IsHex4, ParseHex4, Combine;
  }

  lemma DecodesUnit(s: string)
    requires |s| >= 2 && s[0] == '\\' && s[1] == 'u'
    ensures var r := ReadCodePoint(s[2..]);
            Decode(s) == if r.NoCodePoint? then Bad(r.problem) else Add(Encode(r.cp), Decode(s[2 + r.len..]))
  {
    assert 'u' !in LETTERS;
    hide ReadCodePoint;
  }
}
