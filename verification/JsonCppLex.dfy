/** What tools/jsoncpp/json_reader.cpp takes for one token, and what the token then stands for. */
module JsonCppLex {
  import opened JsonCpp
  import opened Utf8

  datatype TokenType =
    | ObjectBegin | ObjectEnd | ArrayBegin | ArrayEnd | StringToken | NumberToken | TrueToken | FalseToken
    | NullToken | ArraySeparator | MemberSeparator | CommentToken | ErrorToken | EndOfStream

  datatype Lexeme = Lexeme(kind: TokenType, len: nat)

  /** How far a scan goes, and whether it met its end mark. */
  datatype Scan = Scan(len: nat, ok: bool)

  /** readString: to the closing quote, stepping over whatever follows a backslash. */
  function StringScan(s: string): (r: Scan)
    ensures r.len <= |s| && (r.ok ==> r.len > 0)
    decreases |s|
  {
    if s == "" then Scan(0, false)
    else if s[0] == '\"' then Scan(1, true)
    else if s[0] == '\\' then
      if |s| == 1 then Scan(1, false)
      else var r := StringScan(s[2..]); Scan(r.len + 2, r.ok)
    else var r := StringScan(s[1..]); Scan(r.len + 1, r.ok)
  }

  function BlockCommentScan(s: string): (r: Scan)
    ensures r.len <= |s|
  {
    if s == "" then Scan(0, false)
    else if s[0] == '*' && |s| > 1 && s[1] == '/' then Scan(2, true)
    else var r := BlockCommentScan(s[1..]); Scan(r.len + 1, r.ok)
  }

  function LineCommentLength(s: string): (n: nat)
    ensures n <= |s|
  {
    if s == "" then 0
    else if s[0] == '\r' || s[0] == '\n' then 1
    else 1 + LineCommentLength(s[1..])
  }

  /** readComment, after the first slash. */
  function CommentScan(s: string): (r: Scan)
    ensures r.len <= |s|
  {
    if s == "" then Scan(0, false)
    else if s[0] == '*' then var r := BlockCommentScan(s[1..]); Scan(r.len + 1, r.ok)
    else if s[0] == '/' then Scan(LineCommentLength(s[1..]) + 1, true)
    else Scan(1, false)
  }

  function NumberLength(s: string): (n: nat)
    ensures n <= |s|
  {
    if s != "" && NumberChar(s[0]) then 1 + NumberLength(s[1..]) else 0
  }

  function Word(s: string, rest: string, kind: TokenType): Lexeme
    requires s != ""
  {
    if rest <= s[1..] then Lexeme(kind, 1 + |rest|) else Lexeme(ErrorToken, 1)
  }

  /** readToken, on the text after white space. */
  function Lex(s: string): (r: Lexeme)
    ensures r.len <= |s| && (!r.kind.EndOfStream? ==> r.len > 0) && (r.kind.StringToken? ==> r.len >= 2)
  {
    if s == "" then Lexeme(EndOfStream, 0)
    else
      match s[0]
      case '{' => Lexeme(ObjectBegin, 1)
      case '}' => Lexeme(ObjectEnd, 1)
      case '[' => Lexeme(ArrayBegin, 1)
      case ']' => Lexeme(ArrayEnd, 1)
      case ',' => Lexeme(ArraySeparator, 1)
      case ':' => Lexeme(MemberSeparator, 1)
      case '\0' => Lexeme(EndOfStream, 1)
      case '\"' => var r := StringScan(s[1..]); Lexeme(if r.ok then StringToken else ErrorToken, r.len + 1)
      case '/' => var r := CommentScan(s[1..]); Lexeme(if r.ok then CommentToken else ErrorToken, r.len + 1)
      case 't' => Word(s, "rue", TrueToken)
      case 'f' => Word(s, "alse", FalseToken)
      case 'n' => Word(s, "ull", NullToken)
      case c => if '0' <= c <= '9' || c == '-' then Lexeme(NumberToken, 1 + NumberLength(s[1..])) else Lexeme(ErrorToken, 1)
  }

  // ----- Errors -----

  datatype Problem =
    | RootIsScalar            // "A valid JSON document must be either an array or an object value."
    | ValueExpected           // "Syntax error: value, object or array expected."
    | NameExpected            // "Missing '}' or object member name"
    | ColonExpected           // "Missing ':' after object member name"
    | CommaOrBraceExpected    // "Missing ',' or '}' in object declaration"
    | CommaOrBracketExpected  // "Missing ',' or ']' in array declaration"
    | EmptyEscape             // "Empty escape sequence in string"
    | BadEscape               // "Bad escape sequence in string"
    | FourDigitsExpected      // "Bad unicode escape sequence in string: four digits expected."
    | HexDigitExpected        // "Bad unicode escape sequence in string: hexadecimal digit expected."
    | PairExpected            // "additional six characters expected to parse unicode surrogate pair."
    | SecondUnitExpected      // "expecting another \u token to begin the second half of a unicode surrogate pair"
    | NumberExpected(text: string)  // "'...' is not a number."

  // ----- Strings -----

  datatype Decoded = Text(s: string) | Bad(problem: Problem)

  function Add(t: string, d: Decoded): Decoded {
    if d.Text? then Text(t + d.s) else d
  }

  function LetterOf(escape: char): char {
    match escape
    case 'b' => '\U{8}'
    case 'f' => '\U{C}'
    case 'n' => '\n'
    case 'r' => '\r'
    case 't' => '\t'
    case _ => escape
  }

  const LETTERS := "\"/\\bfnrt"

  function Hex4Error(s: string): Problem {
    if |s| < 4 then FourDigitsExpected
    else HexDigitExpected
  }

  predicate IsUnit(s: string) { |s| >= 4 && IsHex4(s) }

  /** decodeUnicodeCodePoint, behind the `\u`: a code point and how much was read, or an error.
      The second half of a pair is not required to be a low surrogate. */
  datatype CodePoint = CodePoint(cp: nat, len: nat) | NoCodePoint(problem: Problem)

  function ReadCodePoint(s: string): (r: CodePoint)
    ensures r.NoCodePoint? ==> r.problem != CommaOrBracketExpected
    ensures r.CodePoint? ==> r.cp < 0x110000 && 0 < r.len <= |s|
  {
    if !IsUnit(s) then NoCodePoint(Hex4Error(s))
    else
      var unit := ParseHex4(s);
      if !(0xD800 <= unit <= 0xDBFF) then CodePoint(unit, 4)
      else if |s| < 10 then NoCodePoint(PairExpected)
      else if s[4] != '\\' || s[5] != 'u' then
        NoCodePoint(SecondUnitExpected)
      else if !IsUnit(s[6..]) then NoCodePoint(Hex4Error(s[6..]))
      else CodePoint(Combine(unit, ParseHex4(s[6..])), 10)
  }

  /** decodeString, on the text between the quotes. */
  function Decode(s: string): (d: Decoded)
    ensures d.Bad? ==> d.problem != CommaOrBracketExpected
    decreases |s|
  {
    if s == "" || s[0] == '\"' then Text("")
    else if s[0] != '\\' then Add([s[0]], Decode(s[1..]))
    else if |s| == 1 then Bad(EmptyEscape)
    else if s[1] in LETTERS then Add([LetterOf(s[1])], Decode(s[2..]))
    else if s[1] != 'u' then Bad(BadEscape)
    else
      var r := ReadCodePoint(s[2..]);
      if r.NoCodePoint? then Bad(r.problem) else Add(Encode(r.cp), Decode(s[2 + r.len..]))
  }

  // ----- Numbers -----

  datatype Digits = Exact(n: nat) | TooLarge | NotADigit

  const NEGATIVE_THRESHOLD: nat := 214748364
  const POSITIVE_THRESHOLD: nat := 429496729

  /** The loop of decodeNumber. */
  function Accumulate(n: nat, threshold: nat, s: string): Digits
    decreases |s|
  {
    if s == "" then Exact(n)
    else if !('0' <= s[0] <= '9') then NotADigit
    else if n >= threshold then TooLarge
    else Accumulate(n * 10 + (s[0] as int - '0' as int), threshold, s[1..])
  }

  predicate IsDouble(s: string) {
    exists i | 0 <= i < |s| :: s[i] in ".eE+" || (s[i] == '-' && i > 0)
  }

  /** The value of a number token, if it has one; `scans` tells which texts sscanf takes for a double. */
  datatype Number = Number(value: Value) | NotANumber

  function DoubleOf(s: string, scans: string -> bool): Number {
    if scans(s) then Number(Real(s)) else NotANumber
  }

  function NumberOf(s: string, scans: string -> bool): Number
    requires s != ""
  {
    if IsDouble(s) then DoubleOf(s, scans)
    else
      var negative := s[0] == '-';
      var digits := Accumulate(0, if negative then NEGATIVE_THRESHOLD else POSITIVE_THRESHOLD, if negative then s[1..] else s);
      match digits
      case NotADigit => NotANumber
      case TooLarge => DoubleOf(s, scans)
      case Exact(_) => Number(if negative then Int(0 - digits.n) else if digits.n <= MAX_INT then Int(digits.n) else UInt(digits.n))
  }

  // ----- Objects -----

  /** The member `object[name]` finds or makes; names are C strings, kept in strcmp's order. */
  function Lookup(ms: seq<Member>, name: string): Value {
    if ms == [] || Less(name, ms[0].name) then Null
    else if ms[0].name == name then ms[0].value
    else Lookup(ms[1..], name)
  }

  function Store(ms: seq<Member>, name: string, v: Value): seq<Member> {
    if ms == [] || Less(name, ms[0].name) then [Member(name, v)] + ms
    else if ms[0].name == name then [Member(name, v)] + ms[1..]
    else [ms[0]] + Store(ms[1..], name, v)
  }

  function StoreAll(done: seq<Member>, ms: seq<Member>): seq<Member>
    decreases |ms|
  {
    if ms == [] then done else StoreAll(Store(done, ms[0].name, ms[0].value), ms[1..])
  }

  // ----- Tokens of a written value are read as such -----

  /** What follows a value does not go on with the characters of a number. */
  predicate Follows(k: seq<string>) { k == [] || (k[0] != "" && !IsSpace(k[0][0]) && !NumberChar(k[0][0])) }

  function Kind(t: string): TokenType
    requires t != ""
  {
    match t[0]
    case '{' => ObjectBegin
    case '}' => ObjectEnd
    case '[' => ArrayBegin
    case ']' => ArrayEnd
    case ',' => ArraySeparator
    case ':' => MemberSeparator
    case '\"' => StringToken
    case 't' => TrueToken
    case 'f' => FalseToken
    case 'n' => NullToken
    case _ => NumberToken
  }

  /** A token text after which the reader stops by itself, or a number. */
  ghost predicate Whole(t: string, k: seq<string>) {
    || t in ["{", "}", "[", "]", ",", ":", "true", "false", "null"]
    || (exists x :: t == Quote(x))
    || (t != "" && ('0' <= t[0] <= '9' || t[0] == '-') && (forall i | 0 <= i < |t| :: NumberChar(t[i])) && Follows(k))
  }

  lemma {:induction false} ScanEscape(x: string, s: string)
    ensures StringScan(Escape(x) + ("\"" + s)) == Scan(|Escape(x)| + 1, true)
  {
    hide EscapeChar;
    if x == "" {
      assert Escape(x) + ("\"" + s) == "\"" + s;
    } else {
      ScanEscape(x[1..], s);
      var rest := Escape(x[1..]) + ("\"" + s);
      ScanEscapeChar(x[0], rest);
      assert Escape(x) + ("\"" + s) == EscapeChar(x[0]) + rest;
    }
  }

  lemma ScanEscapeChar(c: char, s: string)
    ensures StringScan(EscapeChar(c) + s) == (var r := StringScan(s); Scan(r.len + |EscapeChar(c)|, r.ok))
  {
    hide StringScan;
    if ShortEscape(c) != '\0' {
      ScanPair(ShortEscape(c), s);
    } else if IsControl(c) {
      var a, b := UpperHexDigit(c as int / 16), UpperHexDigit(c as int % 16);
      var s1 := [b] + s;
      var s2 := [a] + s1;
      var s3 := ['0'] + s2;
      ScanKept(b, s);
      ScanKept(a, s1);
      ScanKept('0', s2);
      ScanKept('0', s3);
      ScanPair('u', ['0'] + s3);
      assert EscapeChar(c) + s == ['\\', 'u'] + (['0'] + s3);
    } else {
      ScanKept(c, s);
    }
  }

  lemma ScanKept(c: char, s: string)
    requires c != '\"' && c != '\\'
    ensures StringScan([c] + s) == (var r := StringScan(s); Scan(r.len + 1, r.ok))
  {
    assert ([c] + s)[1..] == s;
  }

  lemma ScanPair(c: char, s: string)
    ensures StringScan(['\\', c] + s) == (var r := StringScan(s); Scan(r.len + 2, r.ok))
  {
    assert (['\\', c] + s)[2..] == s;
  }

  lemma {:induction false} NumberEnds(t: string, s: string)
    requires forall i | 0 <= i < |t| :: NumberChar(t[i])
    requires s == "" || !NumberChar(s[0])
    ensures NumberLength(t + s) == |t|
  {
    if t == "" {
      assert t + s == s;
    } else {
      NumberEnds(t[1..], s);
      assert (t + s)[1..] == t[1..] + s;
    }
  }

  /** The reader finds the next token where the writer put it, and the others after it. */
  lemma NextToken(s: string, t: string, k: seq<string>)
    requires t != "" && Spaced(s, [t] + k) && Whole(t, k)
    ensures var r := SkipSpaces(s);
            t <= r && Lex(r) == Lexeme(Kind(t), |t|) && Spaced(r[|t|..], k)
  {
    var r := SkipSpaces(s);
    var rest := r[|t|..];
    assert ([t] + k)[1..] == k;
    assert r == t + rest;
    hide Spaced, Quote, SkipSpaces, NumberChar, Lex, Kind;
    if x :| t == Quote(x) {
      LexQuote(x, rest);
    } else if t in ["{", "}", "[", "]", ",", ":", "true", "false", "null"] {
      LexWord(t, rest);
    } else {
      FollowStops(rest, k);
      LexNumber(t, rest);
    }
  }

  lemma LexNumber(t: string, s: string)
    requires t != "" && ('0' <= t[0] <= '9' || t[0] == '-') && (forall i | 0 <= i < |t| :: NumberChar(t[i]))
    requires s == "" || !NumberChar(s[0])
    ensures Lex(t + s) == Lexeme(Kind(t), |t|)
  {
    NumberEnds(t[1..], s);
    hide NumberChar, NumberLength;
    assert (t + s)[1..] == t[1..] + s;
  }

  lemma FollowStops(s: string, k: seq<string>)
    requires Spaced(s, k) && Follows(k)
    ensures s == "" || !NumberChar(s[0])
  {
    if k != [] {
      assert k[0] <= SkipSpaces(s);
    }
  }

  lemma LexWord(t: string, s: string)
    requires t in ["{", "}", "[", "]", ",", ":", "true", "false", "null"]
    ensures Lex(t + s) == Lexeme(Kind(t), |t|)
  {
    if |t| > 1 {
      assert (t + s)[1..] == t[1..] + s;
    }
  }

  lemma LexQuote(x: string, s: string)
    ensures Lex(Quote(x) + s) == Lexeme(Kind(Quote(x)), |Quote(x)|)
  {
    ScanEscape(x, s);
    assert (Quote(x) + s)[1..] == Escape(x) + ("\"" + s);
  }

  // ----- Strings are decoded to what was escaped -----

  lemma {:induction false} DecodeEscape(x: string)
    ensures Decode(Escape(x)) == Text(x)
  {
    hide EscapeChar;
    if x != "" {
      DecodeEscape(x[1..]);
      DecodeEscapeChar(x[0], Escape(x[1..]));
    }
  }

  lemma DecodeEscapeChar(c: char, s: string)
    ensures Decode(EscapeChar(c) + s) == Add([c], Decode(s))
  {
    var t := EscapeChar(c) + s;
    if ShortEscape(c) != '\0' {
      assert t[2..] == s && ShortEscape(c) in LETTERS && LetterOf(ShortEscape(c)) == c;
    } else if IsControl(c) {
      var a, b := UpperHexDigit(c as int / 16), UpperHexDigit(c as int % 16);
      var u := ['0', '0', a, b] + s;
      assert t[2..] == u && t[6..] == s;
      UnitOf(c as int, u);
      assert t[1] == 'u' && 'u' !in LETTERS;
    } else {
      assert t[1..] == s;
    }
  }

  lemma UnitOf(n: nat, u: string)
    requires n < 32 && |u| >= 4 && u[0] == '0' && u[1] == '0'
    requires HexValue(u[2]) == n / 16 && HexValue(u[3]) == n % 16
    ensures ReadCodePoint(u) == CodePoint(n, 4) && Encode(n) == [n as char]
  {
  }

  /** The text between the quotes. */
  function Inside(t: string): string
    requires |t| >= 2
  {
    t[1..|t| - 1]
  }

  lemma QuoteInside(x: string)
    ensures |Quote(x)| >= 2 && Decode(Inside(Quote(x))) == Text(x)
  {
    DecodeEscape(x);
    assert Inside(Quote(x)) == Escape(x);
  }

  // ----- Numbers are read back, as integers exactly up to the threshold -----

  lemma {:induction false} AccumulateDigit(n: nat, threshold: nat, s: string, c: char)
    requires '0' <= c <= '9'
    ensures Accumulate(n, threshold, s + [c])
         == (var d := Accumulate(n, threshold, s);
             if d.Exact? then
               if d.n >= threshold then TooLarge else Exact(d.n * 10 + (c as int - '0' as int))
             else d)
    decreases |s|
  {
    if s == "" {
      assert s + [c] == [c];
      assert [c][1..] == "";
    } else if '0' <= s[0] <= '9' && n < threshold {
      AccumulateDigit(n * 10 + (s[0] as int - '0' as int), threshold, s[1..], c);
      assert (s + [c])[1..] == s[1..] + [c];
    }
  }

  /** The limit is ten times the threshold: the last digit of the widest integers is not taken. */
  lemma {:induction false} AccumulateDecimal(n: nat, threshold: nat)
    requires threshold > 0
    ensures Accumulate(0, threshold, Decimal(n)) == if n < 10 * threshold then Exact(n) else TooLarge
  {
    if n < 10 {
      assert Decimal(n)[1..] == "";
    } else {
      AccumulateDecimal(n / 10, threshold);
      AccumulateDigit(0, threshold, Decimal(n / 10), DigitChar(n % 10));
      assert DigitChar(n % 10) as int - '0' as int == n % 10;
    }
  }

  /** What is read back: unsigned integers that fit the signed type become such, and objects get their
      members one by one. */
  function Canon(v: Value): Value {
    match v
    case UInt(u) => if u <= MAX_INT then Int(u) else v
    case Array(items) => Array(CanonItems(items))
    case Object(ms) => Object(StoreAll([], CanonMembers(ms)))
    case _ => v
  }

  function CanonItems(items: seq<Value>): (r: seq<Value>)
    ensures |r| == |items| && forall i | 0 <= i < |r| :: r[i] == Canon(items[i])
  {
    if items == [] then [] else [Canon(items[0])] + CanonItems(items[1..])
  }

  function CanonMembers(ms: seq<Member>): (r: seq<Member>)
    ensures |r| == |ms| && forall i | 0 <= i < |r| :: r[i] == Member(ms[i].name, Canon(ms[i].value))
  {
    if ms == [] then [] else [Member(ms[0].name, Canon(ms[0].value))] + CanonMembers(ms[1..])
  }

  /** An integer is read back as one exactly if it lies strictly within ten times the thresholds. */
  lemma NumberReadsBack(v: Value, scans: string -> bool)
    requires v.Int? || v.UInt?
    requires v.Int? ==> v.i <= MAX_INT
    ensures NumberOf(Scalar(v), scans)
         == if (v.Int? && v.i > -10 * NEGATIVE_THRESHOLD) || (v.UInt? && v.u < 10 * POSITIVE_THRESHOLD)
            then Number(Canon(v)) else DoubleOf(Scalar(v), scans)
  {
    var n: nat := if v.UInt? then v.u else if v.i < 0 then -v.i else v.i;
    DecimalStarts(n);
    AccumulateDecimal(n, NEGATIVE_THRESHOLD);
    AccumulateDecimal(n, POSITIVE_THRESHOLD);
    assert !IsDouble(Scalar(v));
    if v.Int? && v.i < 0 {
      assert Scalar(v)[1..] == Decimal(n);
    }
  }

  predicate AllDigits(s: string) { forall i | 0 <= i < |s| :: '0' <= s[i] <= '9' }

  /** The number that digits write, leading zeros included. */
  function Positional(s: string): (n: nat)
    requires AllDigits(s)
  {
    if s == "" then 0
    else
      assert '0' <= s[|s| - 1] <= '9';
      10 * Positional(s[..|s| - 1]) + (s[|s| - 1] as int - '0' as int)
  }

  lemma {:induction false} AccumulateIs(s: string, threshold: nat)
    requires AllDigits(s) && threshold > 0
    ensures Accumulate(0, threshold, s) == if Positional(s) < 10 * threshold then Exact(Positional(s)) else TooLarge
  {
    if s != "" {
      var front, c := s[..|s| - 1], s[|s| - 1];
      AccumulateIs(front, threshold);
      AccumulateDigit(0, threshold, front, c);
      assert front + [c] == s;
    }
  }

  /** What any number token is: an integer if it is digits with or without a minus, no wider than these, and
      otherwise a real, if sscanf takes it. */
  lemma NumberIs(t: string, scans: string -> bool)
    requires t != "" && forall i | 0 <= i < |t| :: NumberChar(t[i])
    ensures var negative := t[0] == '-';
            var digits := if negative then t[1..] else t;
            var double := if scans(t) then Number(Real(t)) else NotANumber;
            NumberOf(t, scans)
            == if !AllDigits(digits) then double
               else if negative then (if Positional(digits) < 2147483640 then Number(Int(0 - Positional(digits))) else double)
               else if Positional(digits) <= 0x7FFF_FFFF then Number(Int(Positional(digits)))
               else if Positional(digits) < 4294967290 then Number(UInt(Positional(digits))) else double
  {
    var digits := if t[0] == '-' then t[1..] else t;
    DoubleIs(t);
    if AllDigits(digits) {
      AccumulateIs(digits, NEGATIVE_THRESHOLD);
      AccumulateIs(digits, POSITIVE_THRESHOLD);
    }
    hide IsDouble, AllDigits, Positional, Accumulate;
  }

  /** Of number tokens, those are doubles that have more than digits behind the sign. */
  lemma DoubleIs(t: string)
    requires t != "" && forall i | 0 <= i < |t| :: NumberChar(t[i])
    ensures IsDouble(t) <==> !AllDigits(if t[0] == '-' then t[1..] else t)
  {
    var k := if t[0] == '-' then 1 else 0;
    var digits := t[k..];
    if AllDigits(digits) {
      assert forall i | k <= i < |t| :: t[i] == digits[i - k];
    } else {
      var i :| 0 <= i < |digits| && !('0' <= digits[i] <= '9');
      assert t[i + k] == digits[i] && NumberChar(digits[i]);
    }
  }

  /** A number token without a digit is taken for an integer if and only if it is a lone minus: that reads as 0. */
  lemma MinusAlone(t: string, scans: string -> bool)
    requires t != "" && forall i | 0 <= i < |t| :: NumberChar(t[i]) && !('0' <= t[i] <= '9')
    requires t[0] == '-'
    ensures NumberOf(t, scans) == Number(Int(0)) <==> t == "-"
  {
    if |t| == 1 {
      assert t == "-" && t[1..] == "" && !IsDouble(t);
    } else {
      assert t[1] in ".eE+" || (t[1] == '-' && 1 > 0);
    }
  }

  // ----- Names in order go to the end -----

  lemma {:induction false} StoreLast(ms: seq<Member>, name: string, v: Value)
    requires forall i | 0 <= i < |ms| :: Less(ms[i].name, name)
    ensures Lookup(ms, name) == Null && Store(ms, name, v) == ms + [Member(name, v)]
  {
    if ms != [] {
      LessIsStrict(ms[0].name, name);
      StoreLast(ms[1..], name, v);
      assert ms == [ms[0]] + ms[1..];
    }
  }

  lemma {:induction false} LessIsStrict(a: string, b: string)
    requires Less(a, b)
    ensures !Less(b, a) && a != b
  {
    if a != "" && a[0] == b[0] {
      LessIsStrict(a[1..], b[1..]);
    }
  }
}
