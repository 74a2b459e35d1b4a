/**
The two JSON readers of the repository (tools/cJSON/cJSON.c and tools/jsoncpp/json_reader.cpp)
side by side on string literals: what each makes of them, and when that is the same.
*/
module CrossDecode {
  import CJson
  import CJsonParse
  import JsonCppLex
  import opened Utf8

  /** One piece of a string literal: a byte, a short escape, a `\u` unit, a unit that is a high surrogate with
      the unit behind it, or a high surrogate with no unit behind it. */
  datatype Piece =
    | Raw(c: char)
    | Short(letter: char)
    | Unit(hex: string)
    | Pair(high: string, second: string)
    | Lone(high: string)

  predicate Hex4(h: string) { |h| == 4 && IsHex4(h) }

  predicate High(h: string)
    requires Hex4(h)
  {
    0xD800 <= ParseHex4(h) <= 0xDBFF
  }

  predicate Low(h: string)
    requires Hex4(h)
  {
    0xDC00 <= ParseHex4(h) <= 0xDFFF
  }

  /** Pieces that can stand in a literal: no quote, no terminator and no broken escape. */
  predicate Formed(p: Piece) {
    match p
    case Raw(c) => c != '\"' && c != '\\' && c != '\0'
    case Short(letter) => letter in JsonCppLex.LETTERS
    case Unit(hex) => Hex4(hex) && !High(hex)
    case Pair(high, second) => Hex4(high) && High(high) && Hex4(second)
    case Lone(high) => Hex4(high) && High(high)
  }

  predicate FormedAll(ps: seq<Piece>) {
    && (forall i | 0 <= i < |ps| :: Formed(ps[i]))
    && (forall i | 0 <= i < |ps| - 1 :: ps[i].Lone? ==> ps[i + 1].Raw? || ps[i + 1].Short?)
  }

  /** What the standard allows, but for the NUL that ends C strings. */
  predicate WellFormed(p: Piece)
    requires Formed(p)
  {
    match p
    case Unit(hex) => ParseHex4(hex) != 0 && !Low(hex)
    case Pair(_, second) => Low(second)
    case Lone(_) => false
    case _ => true
  }

  function Source(p: Piece): string {
    match p
    case Raw(c) => [c]
    case Short(letter) => ['\\', letter]
    case Unit(hex) => ['\\', 'u'] + hex
    case Pair(high, second) => ['\\', 'u'] + high + ['\\', 'u'] + second
    case Lone(high) => ['\\', 'u'] + high
  }

  /** The bytes a piece stands for: section 7 of RFC 8259, in the encoding of section 3 of RFC 3629. */
  function Bytes(p: Piece): string
    requires Formed(p) && WellFormed(p)
  {
    match p
    case Raw(c) => [c]
    case Short(letter) => [JsonCppLex.LetterOf(letter)]
    case Unit(hex) => Encode(ParseHex4(hex))
    case Pair(high, low) => Encode(0x10000 + (ParseHex4(high) - 0xD800) * 0x400 + (ParseHex4(low) - 0xDC00))
  }

  /** The bytes cJSON makes of it: none of what is not well-formed. */
  function CJsonBytes(p: Piece): string
    requires Formed(p)
  {
    if WellFormed(p) then Bytes(p) else ""
  }

  /** The bytes jsoncpp makes of it, which takes any unit for the second half of a pair. */
  function JsonCppBytes(p: Piece): string
    requires Formed(p) && !p.Lone?
  {
    match p
    case Raw(c) => [c]
    case Short(letter) => [JsonCppLex.LetterOf(letter)]
    case Unit(hex) => Encode(ParseHex4(hex))
    case Pair(high, second) => Encode(Combine(ParseHex4(high), ParseHex4(second)))
  }

  function Literal(ps: seq<Piece>): string {
    if ps == [] then "" else Source(ps[0]) + Literal(ps[1..])
  }

  function AllBytes(ps: seq<Piece>): string
    requires forall i | 0 <= i < |ps| :: Formed(ps[i]) && WellFormed(ps[i])
  {
    if ps == [] then "" else Bytes(ps[0]) + AllBytes(ps[1..])
  }

  function AllCJson(ps: seq<Piece>): string
    requires forall i | 0 <= i < |ps| :: Formed(ps[i])
  {
    if ps == [] then "" else CJsonBytes(ps[0]) + AllCJson(ps[1..])
  }

  function AllJsonCpp(ps: seq<Piece>): string
    requires forall i | 0 <= i < |ps| :: Formed(ps[i]) && !ps[i].Lone?
  {
    if ps == [] then "" else JsonCppBytes(ps[0]) + AllJsonCpp(ps[1..])
  }

  // ----- Every literal is made of pieces -----

  /** No quote, no terminator, only short escapes that both readers know, and units of four hexadecimal digits. */
  predicate Unbroken(t: string) {
    t == "" ||
    if t[0] != '\\' then t[0] != '\"' && t[0] != '\0' && Unbroken(t[1..])
    else if |t| < 2 then false
    else if t[1] == 'u' then |t| >= 6 && IsHex4(t[2..6]) && Unbroken(t[6..])
    else t[1] in JsonCppLex.LETTERS && Unbroken(t[2..])
  }

  /** A unit is next. */
  predicate UnitNext(t: string) { |t| >= 2 && t[0] == '\\' && t[1] == 'u' }

  lemma {:induction false} Pieces(t: string) returns (ps: seq<Piece>)
    requires Unbroken(t)
    ensures Literal(ps) == t && FormedAll(ps)
    ensures ps != [] && !UnitNext(t) ==> ps[0].Raw? || ps[0].Short?
    decreases |t|
  {
    if t == "" {
      ps := [];
    } else {
      var p;
      if t[0] != '\\' {
        p := Raw(t[0]);
      } else if t[1] != 'u' {
        p := Short(t[1]);
      } else {
        var hex := t[2..6];
        UnitText(t);
        if !High(hex) {
          p := Unit(hex);
        } else if UnitNext(t[6..]) {
          UnitText(t[6..]);
          assert t[6..][2..6] == t[8..12];
          p := Pair(hex, t[8..12]);
          PairText(t);
        } else {
          p := Lone(hex);
        }
      }
      var n := |Source(p)|;
      assert Formed(p) && Source(p) == t[..n] && Unbroken(t[n..]) by {
        if p.Pair? { assert t[6..][6..] == t[12..]; }
      }
      var qs := Pieces(t[n..]);
      ps := PieceInFront(p, qs, t);
    }
  }

  lemma UnitText(t: string)
    requires |t| >= 6 && UnitNext(t)
    ensures t[..6] == ['\\', 'u'] + t[2..6]
  {
  }

  lemma PairText(t: string)
    requires |t| >= 12 && UnitNext(t) && UnitNext(t[6..])
    ensures t[..12] == ['\\', 'u'] + t[2..6] + ['\\', 'u'] + t[8..12]
  {
    assert t[6..][0] == t[6] && t[6..][1] == t[7];
  }

  lemma PieceInFront(p: Piece, qs: seq<Piece>, t: string) returns (ps: seq<Piece>)
    requires Formed(p) && FormedAll(qs) && |Source(p)| <= |t| && Source(p) == t[..|Source(p)|] && Literal(qs) == t[|Source(p)|..]
    requires p.Lone? && qs != [] ==> qs[0].Raw? || qs[0].Short?
    ensures ps == [p] + qs && Literal(ps) == t && FormedAll(ps)
  {
    ps := [p] + qs;
    assert ps[1..] == qs && t == t[..|Source(p)|] + t[|Source(p)|..];
    forall i | 0 <= i < |ps| ensures Formed(ps[i]) {
      assert i > 0 ==> ps[i] == qs[i - 1];
    }
    forall i | 0 <= i < |ps| - 1 ensures ps[i].Lone? ==> ps[i + 1].Raw? || ps[i + 1].Short? {
      assert ps[i + 1] == qs[i] && (i > 0 ==> ps[i] == qs[i - 1]);
    }
  }

  /** And nothing else is. */
  lemma {:induction false} PiecesUnbroken(ps: seq<Piece>)
    requires forall i | 0 <= i < |ps| :: Formed(ps[i])
    ensures Unbroken(Literal(ps))
  {
    if ps != [] {
      PiecesUnbroken(ps[1..]);
      SourceUnbroken(ps[0], Literal(ps[1..]));
    }
  }

  lemma SourceUnbroken(p: Piece, s: string)
    requires Formed(p) && Unbroken(s)
    ensures Unbroken(Source(p) + s)
  {
    var t := Source(p) + s;
    match p
    case Raw(c) => assert t[1..] == s;
    case Short(letter) => assert t[2..] == s;
    case Unit(hex) => assert t[2..6] == hex && t[6..] == s;
    case Lone(hex) => assert t[2..6] == hex && t[6..] == s;
    case Pair(high, second) =>
      var u := ['\\', 'u'] + second + s;
      assert u[2..6] == second && u[6..] == s;
      assert t[2..6] == high && t[6..] == u;
  }

  // ----- One piece -----

  lemma PairCode(high: string, low: string)
    requires Hex4(high) && High(high) && Hex4(low) && Low(low)
    ensures Combine(ParseHex4(high), ParseHex4(low))
         == 0x10000 + (ParseHex4(high) - 0xD800) * 0x400 + (ParseHex4(low) - 0xDC00)
  {
    hide ParseHex4, IsHex4;
    var h, l := ParseHex4(high), ParseHex4(low);
    assert h % 1024 == h - 0xD800 && l % 1024 == l - 0xDC00;
  }

  lemma SameHex(hex: string, s: string)
    requires Hex4(hex)
    ensures IsHex4(hex + s) && CJson.FourPlain(hex + s)
    ensures ParseHex4(hex + s) == ParseHex4(hex) == CJson.HexOrZero(hex + s)
  {
    assert forall i | 0 <= i < 4 :: (hex + s)[i] == hex[i];
  }

  lemma UnitParts(hex: string, s: string)
    requires |hex| == 4
    ensures var t := ['\\', 'u'] + hex + s;
            t[1..] == ['u'] + hex + s && t[2..] == hex + s && t[6..] == s
            && (s != "" ==> t[6..][0] == s[0] && t[7..] == s[1..])
  {
  }

  lemma PairParts(high: string, second: string, s: string)
    requires |high| == 4 && |second| == 4
    ensures var t := ['\\', 'u'] + high + ['\\', 'u'] + second + s;
            && t[1..][0] == 'u' && t[2..] == high + (['\\', 'u'] + second + s)
            && t[6..] == ['\\', 'u'] + second + s && t[7..] == ['u'] + second + s && t[8..] == second + s && t[12..] == s
  {
  }

  lemma NothingAdded(p: CJson.Parsed<string>)
    ensures CJson.Prepend("", p) == p
  {
    assert p.Ok? ==> "" + p.value == p.value;
  }

  lemma CJsonUnit(hex: string, s: string)
    requires Hex4(hex) && (High(hex) ==> !("\\u" <= s))
    ensures CJson.Unescape(['\\', 'u'] + hex + s)
         == CJson.Prepend(if ParseHex4(hex) == 0 || High(hex) || Low(hex) then "" else Encode(ParseHex4(hex)), CJson.Unescape(s))
  {
    var t := ['\\', 'u'] + hex + s;
    UnitParts(hex, s);
    SameHex(hex, s);
    NothingAdded(CJson.Unescape(s));
    hide IsHex4, ParseHex4, Encode, CJson.HexOrZero, CJson.FourPlain, Combine;
    StartsUnit(s);
    assert CJson.Unescape(t) == CJson.UnescapeUnicode(t);
  }

  lemma StartsUnit(s: string)
    ensures "\\u" <= s <==> |s| >= 2 && s[0] == '\\' && s[1] == 'u'
  {
  }

  lemma CJsonPair(high: string, second: string, s: string)
    requires Hex4(high) && High(high) && Hex4(second)
    ensures CJson.Unescape(['\\', 'u'] + high + ['\\', 'u'] + second + s)
         == CJson.Prepend(if Low(second) then Encode(Combine(ParseHex4(high), ParseHex4(second))) else "", CJson.Unescape(s))
  {
    var t := ['\\', 'u'] + high + ['\\', 'u'] + second + s;
    PairParts(high, second, s);
    SameHex(high, ['\\', 'u'] + second + s);
    SameHex(second, s);
    NothingAdded(CJson.Unescape(s));
    hide IsHex4, ParseHex4, Encode, Combine, CJson.HexOrZero, CJson.FourPlain;
    assert CJson.At(t) == '\\' && CJson.At(t[1..]) == 'u';
    assert CJson.At(t[6..]) == '\\' && CJson.At(t[7..]) == 'u';
    assert CJson.Unescape(t) == CJson.UnescapeUnicode(t);
  }

  lemma CJsonRaw(c: char, s: string)
    requires Formed(Raw(c))
    ensures CJson.Unescape([c] + s) == CJson.Prepend([c], CJson.Unescape(s))
  {
    assert ([c] + s)[1..] == s;
  }

  lemma CJsonShort(letter: char, s: string)
    requires Formed(Short(letter))
    ensures CJson.Unescape(['\\', letter] + s) == CJson.Prepend([JsonCppLex.LetterOf(letter)], CJson.Unescape(s))
  {
    var t := ['\\', letter] + s;
    assert t[1..] == [letter] + s && t[2..] == s;
    assert letter != 'u' && CJson.LongEscape(letter) == JsonCppLex.LetterOf(letter);
  }

  /** One piece, as cJSON's loop takes it. */
  lemma CJsonPiece(p: Piece, s: string)
    requires Formed(p) && (p.Lone? ==> !("\\u" <= s))
    ensures CJson.Unescape(Source(p) + s) == CJson.Prepend(CJsonBytes(p), CJson.Unescape(s))
  {
    hide CJson.Unescape, IsHex4, ParseHex4;
    match p
    case Raw(c) =>
      CJsonRaw(c, s);
    case Short(letter) =>
      CJsonShort(letter, s);
    case Unit(hex) =>
      CJsonUnit(hex, s);
    case Pair(high, second) =>
      CJsonPair(high, second, s);
      if Low(second) { PairCode(high, second); }
    case Lone(high) =>
      CJsonUnit(high, s);
  }

  lemma JsonCppUnit(hex: string, s: string)
    requires Hex4(hex)
    ensures !High(hex) ==>
              JsonCppLex.Decode(['\\', 'u'] + hex + s) == JsonCppLex.Add(Encode(ParseHex4(hex)), JsonCppLex.Decode(s))
    ensures High(hex) && !("\\u" <= s) ==> JsonCppLex.Decode(['\\', 'u'] + hex + s).Bad?
  {
    UnitParts(hex, s);
    SameHex(hex, s);
    hide IsHex4, ParseHex4, Encode, Combine;
    assert 'u' !in JsonCppLex.LETTERS;
    StartsUnit(s);
    if |s| >= 6 {
      assert (hex + s)[4] == s[0] && (hex + s)[5] == s[1];
    }
  }

  lemma JsonCppPair(high: string, second: string, s: string)
    requires Hex4(high) && High(high) && Hex4(second)
    ensures JsonCppLex.Decode(['\\', 'u'] + high + ['\\', 'u'] + second + s)
         == JsonCppLex.Add(Encode(Combine(ParseHex4(high), ParseHex4(second))), JsonCppLex.Decode(s))
  {
    var rest := ['\\', 'u'] + second + s;
    PairParts(high, second, s);
    SameHex(high, rest);
    SameHex(second, s);
    hide IsHex4, ParseHex4, Encode, Combine;
    assert (high + rest)[6..] == second + s && (high + rest)[4] == '\\' && (high + rest)[5] == 'u';
    assert JsonCppLex.ReadCodePoint(high + rest)
        == JsonCppLex.CodePoint(Combine(ParseHex4(high), ParseHex4(second)), 10);
    assert 'u' !in JsonCppLex.LETTERS;
  }

  /** One piece, as jsoncpp's loop takes it. */
  lemma JsonCppPiece(p: Piece, s: string)
    requires Formed(p) && (p.Lone? ==> !("\\u" <= s))
    ensures !p.Lone? ==> JsonCppLex.Decode(Source(p) + s) == JsonCppLex.Add(JsonCppBytes(p), JsonCppLex.Decode(s))
    ensures p.Lone? ==> JsonCppLex.Decode(Source(p) + s).Bad?
  {
    match p
    case Raw(c) =>
      assert ([c] + s)[1..] == s;
    case Short(letter) =>
      assert (['\\', letter] + s)[2..] == s;
    case Unit(hex) =>
      JsonCppUnit(hex, s);
    case Pair(high, second) =>
      JsonCppPair(high, second, s);
    case Lone(high) =>
      JsonCppUnit(high, s);
  }

  // ----- Whole literals -----

  /** What follows a high surrogate that has no unit behind it does not start with one. */
  lemma NoUnitNext(ps: seq<Piece>, end: string)
    requires FormedAll(ps) && ps != [] && ps[0].Lone? && (end == "" || end[0] == '\"')
    ensures !("\\u" <= Literal(ps[1..]) + end)
  {
    var rest := ps[1..];
    if rest == [] {
      assert Literal(rest) + end == end;
    } else {
      assert rest[0] == ps[1] && Formed(ps[1]);
      var t := Literal(rest) + end;
      if rest[0].Raw? {
        assert t[0] == rest[0].c;
      } else {
        assert t[0] == '\\' && t[1] == rest[0].letter && 'u' !in JsonCppLex.LETTERS;
      }
    }
  }

  lemma TailFormed(ps: seq<Piece>)
    requires FormedAll(ps) && ps != []
    ensures FormedAll(ps[1..])
  {
    hide Formed;
    var t := ps[1..];
    forall i | 0 <= i < |t| - 1 ensures t[i].Lone? ==> t[i + 1].Raw? || t[i + 1].Short? {
      assert t[i] == ps[i + 1] && t[i + 1] == ps[i + 2];
    }
  }

  lemma ClosingQuote(s: string)
    ensures CJson.Unescape("\"" + s) == CJson.Ok("", s)
  {
    assert ("\"" + s)[1..] == s;
  }

  /** cJSON reads every such literal. */
  lemma {:induction false} CJsonDecodes(ps: seq<Piece>, s: string)
    requires FormedAll(ps)
    ensures CJson.Unescape(Literal(ps) + ("\"" + s)) == CJson.Ok(AllCJson(ps), s)
  {
    hide Formed, Source, CJsonBytes, CJson.Unescape;
    var end := "\"" + s;
    ClosingQuote(s);
    if ps == [] {
      assert Literal(ps) + end == end;
    } else {
      TailFormed(ps);
      CJsonDecodes(ps[1..], s);
      if ps[0].Lone? { NoUnitNext(ps, end); }
      CJsonPiece(ps[0], Literal(ps[1..]) + end);
      assert Literal(ps) + end == Source(ps[0]) + (Literal(ps[1..]) + end);
    }
  }

  /** jsoncpp reads those with no unpaired high surrogate. */
  lemma {:induction false} JsonCppDecodes(ps: seq<Piece>)
    requires FormedAll(ps)
    ensures if forall i | 0 <= i < |ps| :: !ps[i].Lone? then JsonCppLex.Decode(Literal(ps)) == JsonCppLex.Text(AllJsonCpp(ps))
            else JsonCppLex.Decode(Literal(ps)).Bad?
  {
    hide Formed, Source, JsonCppBytes;
    if ps != [] {
      TailFormed(ps);
      JsonCppDecodes(ps[1..]);
      if ps[0].Lone? {
        NoUnitNext(ps, "");
        assert Literal(ps[1..]) + "" == Literal(ps[1..]);
      }
      JsonCppPiece(ps[0], Literal(ps[1..]));
      assert (forall i | 0 <= i < |ps| :: !ps[i].Lone?) <==> !ps[0].Lone? && forall i | 0 <= i < |ps[1..]| :: !ps[1..][i].Lone? by {
        assert forall i | 0 < i < |ps| :: ps[i] == ps[1..][i - 1];
      }
    }
  }

  /** cJSON's bytes are those of jsoncpp or none, and none only of pieces that are not well-formed. */
  lemma PieceCompared(p: Piece)
    requires Formed(p) && !p.Lone?
    ensures if WellFormed(p) then CJsonBytes(p) == JsonCppBytes(p) else |CJsonBytes(p)| < |JsonCppBytes(p)|
  {
    if p.Pair? && Low(p.second) {
      PairCode(p.high, p.second);
    }
  }

  lemma {:induction false} Compared(ps: seq<Piece>)
    requires forall i | 0 <= i < |ps| :: Formed(ps[i]) && !ps[i].Lone?
    ensures if forall i | 0 <= i < |ps| :: WellFormed(ps[i]) then AllCJson(ps) == AllJsonCpp(ps)
            else |AllCJson(ps)| < |AllJsonCpp(ps)|
  {
    hide Formed, WellFormed, CJsonBytes, JsonCppBytes;
    if ps != [] {
      PieceCompared(ps[0]);
      Compared(ps[1..]);
      assert (forall i | 0 <= i < |ps| :: WellFormed(ps[i])) <==> WellFormed(ps[0]) && forall i | 0 <= i < |ps[1..]| :: WellFormed(ps[1..][i]) by {
        assert forall i | 0 < i < |ps| :: ps[i] == ps[1..][i - 1];
      }
    }
  }

  /** The two readers make the same of a literal if and only if every piece of it is well-formed. */
  lemma SameExactly(ps: seq<Piece>, s: string)
    requires FormedAll(ps)
    ensures CJson.ParseString("\"" + (Literal(ps) + ("\"" + s))) == CJson.Ok(AllCJson(ps), s)
    ensures JsonCppLex.Decode(Literal(ps)) == JsonCppLex.Text(AllCJson(ps)) <==> forall i | 0 <= i < |ps| :: WellFormed(ps[i])
  {
    CJsonDecodes(ps, s);
    JsonCppDecodes(ps);
    var t := "\"" + (Literal(ps) + ("\"" + s));
    assert t[1..] == Literal(ps) + ("\"" + s);
    if forall i | 0 <= i < |ps| :: !ps[i].Lone? {
      Compared(ps);
    } else {
      var i :| 0 <= i < |ps| && ps[i].Lone?;
      assert !WellFormed(ps[i]);
    }
  }

  lemma {:induction false} WellFormedBytes(ps: seq<Piece>)
    requires forall i | 0 <= i < |ps| :: Formed(ps[i]) && WellFormed(ps[i])
    ensures AllCJson(ps) == AllBytes(ps)
  {
    hide Formed, WellFormed, Bytes;
    if ps != [] {
      WellFormedBytes(ps[1..]);
    }
  }

  /** On well-formed literals both give the bytes of the standard, and the count of cJSON's first pass bounds them. */
  lemma ReadersAgree(ps: seq<Piece>, s: string)
    requires forall i | 0 <= i < |ps| :: Formed(ps[i]) && WellFormed(ps[i])
    ensures CJson.ParseString("\"" + (Literal(ps) + ("\"" + s))) == CJson.Ok(AllBytes(ps), s)
    ensures JsonCppLex.Decode(Literal(ps)) == JsonCppLex.Text(AllBytes(ps))
    ensures |AllBytes(ps)| <= CJsonParse.ScanLength(Literal(ps) + ("\"" + s))
  {
    assert FormedAll(ps);
    hide Formed, WellFormed, Bytes, Source;
    SameExactly(ps, s);
    CJsonDecodes(ps, s);
    WellFormedBytes(ps);
    CJsonParse.ScanBoundsUnescape(Literal(ps) + ("\"" + s));
  }

  /** A lone low surrogate vanishes in cJSON and makes three bytes in jsoncpp. */
  lemma LoneSurrogateDiffers()
    ensures CJson.Unescape("\\uDC00\"") == CJson.Ok("", "")
    ensures JsonCppLex.Decode("\\uDC00") == JsonCppLex.Text([0xED as char, 0xB0 as char, 0x80 as char])
  {
    var hex := "DC00";
    assert IsHex4(hex) && ParseHex4(hex) == 0xDC00;
    var t, u := "\\uDC00\"", "\\uDC00";
    assert t == ['\\', 'u'] + hex + "\"" && u == ['\\', 'u'] + hex + "";
    CJsonUnit(hex, "\"");
    JsonCppUnit(hex, "");
    assert "\""[1..] == "";
    assert Encode(0xDC00) == [0xED as char, 0xB0 as char, 0x80 as char];
  }
}
