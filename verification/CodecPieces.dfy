/** The texts that the decoders of tools/wifi_wpa_cli/common.c read, by the escapes they are made of. */
module CodecPieces {
  import opened CBuffer
  import opened Codecs
  import opened Utf8

  // ----- printf_decode -----

  /** A piece of such a text: a byte that stands for itself, a letter with a meaning, one or two hexadecimal
      digits, up to three octal ones, an `x` without digits, or a backslash that means nothing. */
  datatype Piece =
    | Plain(c: char)
    | Named(letter: char)
    | Hex(digits: string)
    | Octals(digits: string)
    | NoDigits
    | Lone

  function Source(p: Piece): string {
    match p
    case Plain(c) => [c]
    case Named(letter) => ['\\', letter]
    case Hex(digits) => "\\x" + digits
    case Octals(digits) => "\\" + digits
    case NoDigits => "\\x"
    case Lone => "\\"
  }

  /** The letters and what they mean. */
  predicate Means(letter: char, byte: char) {
    || (letter == '\\' && byte == '\\') || (letter == '\"' && byte == '\"') || (letter == 'n' && byte == '\n')
    || (letter == 'r' && byte == '\r') || (letter == 't' && byte == '\t') || (letter == 'e' && byte == '\U{1B}')
  }

  const LETTERS: string := "\\\"nrte"

  predicate AllHex(digits: string) { forall i | 0 <= i < |digits| :: HexValue(digits[i]) >= 0 }

  /** The numbers that digits write, in base 16 and in base 8. */
  function Hexadecimal(digits: string): nat
    requires AllHex(digits)
  {
    if digits == "" then 0 else Hexadecimal(digits[..|digits| - 1]) * 16 + HexValue(digits[|digits| - 1])
  }

  function OctalNumber(digits: string): nat
    requires AllHex(digits)
  {
    if digits == "" then 0 else OctalNumber(digits[..|digits| - 1]) * 8 + HexValue(digits[|digits| - 1])
  }

  /** A piece in front of this text: digits go on as far as they can. */
  predicate Stands(p: Piece, next: string) {
    match p
    case Plain(c) => c != '\\' && c != '\0'
    case Named(letter) => letter in LETTERS
    case Hex(digits) =>
      && 1 <= |digits| <= 2 && AllHex(digits)
      && (|digits| < 2 ==> HexValue(At(next)) < 0)
    case Octals(digits) =>
      && 1 <= |digits| <= 3 && (forall i | 0 <= i < |digits| :: '0' <= digits[i] <= '7')
      && (|digits| < 3 ==> !('0' <= At(next) <= '7'))
    case NoDigits => HexValue(At(next)) < 0
    case Lone => At(next) !in LETTERS && At(next) != 'x' && !('0' <= At(next) <= '7')
  }

  /** The byte a piece means, if any; octal numbers are taken modulo 256. */
  ghost predicate Decodes(p: Piece, out: string) {
    match p
    case Plain(c) => out == [c]
    case Named(letter) => |out| == 1 && Means(letter, out[0])
    case Hex(digits) => AllHex(digits) && |out| == 1 && out[0] as int == Hexadecimal(digits)
    case Octals(digits) => AllHex(digits) && |out| == 1 && out[0] as int == OctalNumber(digits) % 256
    case NoDigits => out == ""
    case Lone => out == ""
  }

  function Text(ps: seq<Piece>): string {
    if ps == [] then "" else Source(ps[0]) + Text(ps[1..])
  }

  predicate Sound(ps: seq<Piece>) {
    ps == [] || (Stands(ps[0], Text(ps[1..])) && Sound(ps[1..]))
  }

  /** What all of the pieces mean. */
  ghost predicate AllDecode(ps: seq<Piece>, bytes: string)
    decreases |ps|
  {
    if ps == [] then bytes == ""
    else exists n: nat | n <= |bytes| :: Decodes(ps[0], bytes[..n]) && AllDecode(ps[1..], bytes[n..])
  }

  lemma UpToThree(d: string)
    requires AllHex(d) && 1 <= |d| <= 3
    ensures |d| == 1 ==> OctalNumber(d) == HexValue(d[0]) == Hexadecimal(d)
    ensures |d| == 2 ==> OctalNumber(d) == HexValue(d[0]) * 8 + HexValue(d[1]) && Hexadecimal(d) == HexValue(d[0]) * 16 + HexValue(d[1])
    ensures |d| == 3 ==> OctalNumber(d) == (HexValue(d[0]) * 8 + HexValue(d[1])) * 8 + HexValue(d[2])
  {
    hide HexValue;
    var a := d[..|d| - 1];
    if |d| > 1 {
      var b := a[..|a| - 1];
      if |d| == 3 {
        var none := b[..|b| - 1];
        assert none == "" && OctalNumber(b) == HexValue(b[0]);
      }
    }
  }

  lemma OctalValue(c: char)
    requires '0' <= c <= '7'
    ensures HexValue(c) == Octal(c) && IsOctal(c)
  {
  }

  /** The number made of the first n octal digits. */
  function OctalOf(s: string, n: nat): int
    requires 1 <= n <= 3 && n <= |s| && forall i | 0 <= i < n :: IsOctal(s[i])
  {
    if n == 1 then Octal(s[0])
    else if n == 2 then Octal(s[0]) * 8 + Octal(s[1])
    else (Octal(s[0]) * 8 + Octal(s[1])) * 8 + Octal(s[2])
  }

  lemma OctalRead(s: string, n: nat)
    requires 1 <= n <= 3 && n <= |s| && (forall i | 0 <= i < n :: IsOctal(s[i])) && (n < 3 ==> !IsOctal(At(s[n..])))
    ensures DecodeEscape(s) == (n, [ByteChar(OctalOf(s, n))])
  {
    assert |s| > 1 ==> s[1..][0] == s[1];
    assert |s| > 2 ==> s[2..][0] == s[2];
  }

  lemma OctalPiece(digits: string, next: string)
    requires Stands(Octals(digits), next)
    ensures AllHex(digits)
    ensures var (n, out) := DecodeEscape(digits + next); n == |digits| && |out| == 1 && out[0] as int == OctalNumber(digits) % 256
  {
    hide DecodeEscape, Hexadecimal, OctalNumber, HexValue, OctalOf, AllHex, Octal;
    AllOctal(digits);
    OctalIsNumber(digits);
    OctalText(digits, next);
    OctalRead(digits + next, |digits|);
    SameOctal(digits, digits + next);
  }

  lemma OctalIsNumber(digits: string)
    requires 1 <= |digits| <= 3 && forall i | 0 <= i < |digits| :: '0' <= digits[i] <= '7'
    ensures AllHex(digits) && (forall i | 0 <= i < |digits| :: IsOctal(digits[i])) && OctalOf(digits, |digits|) == OctalNumber(digits)
  {
    AllOctal(digits);
    UpToThree(digits);
    hide OctalNumber, Hexadecimal, HexValue;
  }

  lemma AllOctal(digits: string)
    requires forall i | 0 <= i < |digits| :: '0' <= digits[i] <= '7'
    ensures AllHex(digits) && forall i | 0 <= i < |digits| :: HexValue(digits[i]) == Octal(digits[i]) && IsOctal(digits[i])
  {
  }

  lemma OctalText(digits: string, next: string)
    requires Stands(Octals(digits), next)
    ensures var s, n := digits + next, |digits|; (forall i | 0 <= i < n :: IsOctal(s[i])) && (n < 3 ==> !IsOctal(At(s[n..])))
  {
    assert (digits + next)[|digits|..] == next;
  }

  lemma SameOctal(digits: string, s: string)
    requires 1 <= |digits| <= 3 && digits <= s && forall i | 0 <= i < |digits| :: IsOctal(digits[i])
    ensures (forall i | 0 <= i < |digits| :: IsOctal(s[i])) && OctalOf(s, |digits|) == OctalOf(digits, |digits|)
  {
  }

  lemma HexRead(s: string, n: nat)
    requires 1 <= n <= 2 && n < |s| && s[0] == 'x' && HexValue(s[1]) >= 0 && (n == 2 ==> HexValue(s[2]) >= 0)
    requires n == 1 ==> |s| == 2 || HexValue(s[2]) < 0
    ensures DecodeEscape(s) == (n + 1, [ByteChar(if n == 1 then HexValue(s[1]) else HexValue(s[1]) * 16 + HexValue(s[2]))])
  {
    hide HexValue;
  }

  lemma HexPiece(digits: string, next: string)
    requires Stands(Hex(digits), next)
    ensures var (n, out) := DecodeEscape("x" + digits + next); n == 1 + |digits| && |out| == 1 && out[0] as int == Hexadecimal(digits)
  {
    hide DecodeEscape, OctalNumber, HexValue, AllHex, Hexadecimal;
    HexText(digits, next);
    HexIsNumber(digits);
    HexRead("x" + digits + next, |digits|);
  }

  lemma HexIsNumber(digits: string)
    requires AllHex(digits) && 1 <= |digits| <= 2
    ensures Hexadecimal(digits) < 256
    ensures Hexadecimal(digits) == if |digits| == 1 then HexValue(digits[0]) else HexValue(digits[0]) * 16 + HexValue(digits[1])
  {
    UpToThree(digits);
    HexBound(digits[0]);
    HexBound(digits[|digits| - 1]);
    hide Hexadecimal, OctalNumber, HexValue;
  }

  lemma HexText(digits: string, next: string)
    requires Stands(Hex(digits), next)
    ensures var s, n := "x" + digits + next, |digits|;
            && s[0] == 'x' && s[1] == digits[0] && HexValue(s[1]) >= 0
            && (n == 2 ==> s[2] == digits[1] && HexValue(s[2]) >= 0) && (n == 1 ==> |s| == 2 || HexValue(s[2]) < 0)
  {
    hide HexValue;
    var s := "x" + digits + next;
    assert |digits| == 1 && next != "" ==> s[2] == next[0];
  }

  lemma HexBound(c: char)
    ensures HexValue(c) < 16
  {
  }

  lemma PieceDecoded(p: Piece, next: string) returns (out: string)
    requires Stands(p, next) && !p.Plain?
    ensures DecodeEscape(Source(p)[1..] + next) == (|Source(p)| - 1, out) && Decodes(p, out) && Source(p)[0] == '\\'
  {
    var s := Source(p)[1..] + next;
    out := DecodeEscape(s).1;
    match p
    case Named(letter) => assert s[0] == letter;
    case Hex(digits) =>
      assert s == "x" + digits + next;
      HexPiece(digits, next);
    case Octals(digits) =>
      assert s == digits + next;
      OctalPiece(digits, next);
    case NoDigits =>
      assert s == "x" + next;
      assert next != "" ==> s[1] == next[0];
    case Lone => assert s == next;
  }

  /** Given room, the text of any pieces is decoded to what they mean. */
  lemma {:induction false} PiecesDecoded(ps: seq<Piece>, len: nat, size: nat)
    requires Sound(ps) && len + |ps| < size
    ensures AllDecode(ps, Decode(Text(ps), len, size))
    decreases |ps|
  {
    hide DecodeEscape, Decode, Stands, Source, Decodes, AllDecode;
    if ps == [] {
      NothingDecoded(len, size);
    } else {
      var next := Text(ps[1..]);
      var out := PieceInText(ps[0], next, len, size);
      PiecesDecoded(ps[1..], len + |out|, size);
      DecodedFirst(ps, out, Decode(next, len + |out|, size));
    }
  }

  lemma NothingDecoded(len: nat, size: nat)
    ensures AllDecode([], Decode("", len, size))
  {
  }

  lemma PieceInText(p: Piece, next: string, len: nat, size: nat) returns (out: string)
    requires Stands(p, next) && len + 1 < size
    ensures Decodes(p, out) && |out| <= 1 && Decode(Source(p) + next, len, size) == out + Decode(next, len + |out|, size)
  {
    hide DecodeEscape, Decode;
    if p.Plain? {
      out := [p.c];
      DecodePlain(p.c, next, len, size);
    } else {
      out := PieceDecoded(p, next);
      hide Stands, Source;
      EscapeInText(Source(p), next, out, len, size);
    }
  }

  lemma EscapeInText(source: string, next: string, out: string, len: nat, size: nat)
    requires source != "" && source[0] == '\\' && DecodeEscape(source[1..] + next) == (|source| - 1, out) && len + 1 < size
    ensures |out| <= 1 && Decode(source + next, len, size) == out + Decode(next, len + |out|, size)
  {
    hide DecodeEscape, Decode;
    var s := source + next;
    assert s[0] == '\\' && s[0..] == s && s[0 + 1..] == source[1..] + next && s[|source|..] == next;
    DecodeTurn(s, 0, len, size);
    assert 0 + 1 + (|source| - 1) == |source|;
  }

  lemma DecodedFirst(ps: seq<Piece>, out: string, rest: string)
    requires ps != [] && Decodes(ps[0], out) && AllDecode(ps[1..], rest)
    ensures AllDecode(ps, out + rest)
  {
    hide Decodes;
    var bytes := out + rest;
    assert bytes[..|out|] == out && bytes[|out|..] == rest;
  }

  /** Every text that C can hold is made of pieces. */
  lemma {:induction false} Pieces(s: string) returns (ps: seq<Piece>)
    requires NulFree(s)
    ensures Text(ps) == s && Sound(ps) && |ps| <= |s|
    decreases |s|
  {
    if s == "" {
      ps := [];
    } else {
      var p := FirstPiece(s);
      var n := |Source(p)|;
      hide Stands, Source;
      var rest := Pieces(s[n..]);
      ps := [p] + rest;
      assert ps[1..] == rest && s == s[..n] + s[n..];
    }
  }

  lemma FirstPiece(s: string) returns (p: Piece)
    requires NulFree(s) && s != ""
    ensures var n := |Source(p)|; 0 < n <= |s| && s[..n] == Source(p) && Stands(p, s[n..])
  {
    if s[0] != '\\' {
      p := Plain(s[0]);
    } else if |s| == 1 {
      p := Lone;
    } else if s[1] in LETTERS {
      p := Named(s[1]);
    } else if s[1] == 'x' {
      p := FirstHex(s);
    } else if '0' <= s[1] <= '7' {
      var n := 2;
      while n < |s| && n < 4 && '0' <= s[n] <= '7'
        invariant 2 <= n <= 4 && n <= |s| && forall i | 1 <= i < n :: '0' <= s[i] <= '7'
      {
        n := n + 1;
      }
      p := Octals(s[1..n]);
      assert s[..n] == "\\" + s[1..n];
    } else {
      p := Lone;
      assert s[1..][0] == s[1];
    }
  }

  lemma FirstHex(s: string) returns (p: Piece)
    requires |s| >= 2 && s[0] == '\\' && s[1] == 'x'
    ensures var n := |Source(p)|; 0 < n <= |s| && s[..n] == Source(p) && Stands(p, s[n..])
  {
    if |s| == 2 || HexValue(s[2]) < 0 {
      p := NoDigits;
      assert s[..2] == "\\x" && (|s| > 2 ==> s[2..][0] == s[2]);
    } else if |s| == 3 || HexValue(s[3]) < 0 {
      p := Hex(s[2..3]);
      assert s[..3] == "\\x" + s[2..3] && (|s| > 3 ==> s[3..][0] == s[3]);
    } else {
      p := Hex(s[2..4]);
      assert s[..4] == "\\x" + s[2..4];
    }
  }

  /** A smaller buffer holds the beginning of what a larger one holds. */
  lemma {:induction false} DecodeCut(s: string, len: nat, small: nat, large: nat)
    requires small <= large
    ensures var a, b := Decode(s, len, small), Decode(s, len, large); a <= b && (|a| < |b| ==> len + |a| + 1 >= small)
    decreases |s|
  {
    hide DecodeEscape;
    if At(s) != '\0' && len + 1 < small {
      if s[0] != '\\' {
        DecodeCut(s[1..], len + 1, small, large);
      } else {
        var r := DecodeEscape(s[1..]);
        DecodeCut(s[1 + r.0..], len + |r.1|, small, large);
      }
    }
  }

  /** `\101` is the letter A. */
  lemma OctalA()
    ensures Decode("\\101", 0, 9) == "A"
  {
    var d := "101";
    UpToThree(d);
    assert "\\101"[1..] == d + "" && "\\101"[1 + 3..] == "";
    OctalPiece(d, "");
  }

  // ----- printf_encode -----

  predicate Printable(c: char) { 32 <= c as int <= 127 }

  /** The encoded text is printable. */
  lemma {:induction false} EncodedPrintable(data: string)
    requires Bytes(data)
    ensures forall i | 0 <= i < |EncodeAll(data)| :: Printable(EncodeAll(data)[i])
  {
    if data != "" {
      EncodedPrintable(data[1..]);
      BytePrintable(data[0]);
      hide EncodeByte, Printable;
    }
  }

  lemma BytePrintable(b: char)
    requires b as int < 256
    ensures forall i | 0 <= i < |EncodeByte(b)| :: Printable(EncodeByte(b)[i])
    ensures EncodeByte(b) == [b] <==> PlainByte(b)
  {
  }

  predicate PlainByte(b: char) { Printable(b) && b != '\"' && b != '\\' }

  /** Printable bytes but for the quote and the backslash stand for themselves, and no others. */
  lemma {:induction false} EncodedPlain(data: string)
    requires Bytes(data)
    ensures (forall i | 0 <= i < |data| :: PlainByte(data[i])) <==> EncodeAll(data) == data
  {
    if data != "" {
      EncodedPlain(data[1..]);
      EncodedLonger(data[1..]);
      BytePrintable(data[0]);
      hide PlainByte, EncodeByte;
      var e, rest := EncodeByte(data[0]), EncodeAll(data[1..]);
      assert data == [data[0]] + data[1..];
      assert e == [data[0]] ==> (e + rest)[1..] == rest;
      assert (forall i | 0 <= i < |data| :: PlainByte(data[i])) <==> PlainByte(data[0]) && forall i | 0 <= i < |data[1..]| :: PlainByte(data[1..][i]) by {
        assert forall i | 0 < i < |data| :: data[i] == data[1..][i - 1];
      }
    }
  }

  lemma {:induction false} EncodedLonger(data: string)
    requires Bytes(data)
    ensures |EncodeAll(data)| >= |data|
  {
    if data != "" {
      EncodedLonger(data[1..]);
    }
  }

  const DIGITS: string := "0123456789abcdef"

  /** How a byte is written: as it is if it is printable and has no letter, by its letter if it has one, and
      otherwise by two hexadecimal digits. */
  ghost predicate Writes(p: Piece, b: char) {
    match p
    case Plain(c) => c == b && Printable(b) && forall letter :: !Means(letter, b)
    case Named(letter) => Means(letter, b)
    case Hex(digits) =>
      && !Printable(b) && (forall letter :: !Means(letter, b))
      && |digits| == 2 && digits[0] in DIGITS && digits[1] in DIGITS && Hexadecimal(digits) == b as int
    case _ => false
  }

  lemma ByteWritten(b: char) returns (p: Piece)
    requires b as int < 256
    ensures Writes(p, b) && Source(p) == EncodeByte(b)
  {
    var e := EncodeByte(b);
    if |e| == 1 {
      p := Plain(b);
    } else if |e| == 2 {
      p := Named(e[1]);
    } else {
      var digits := HexByte(b as int);
      DigitIs(b as int / 16);
      DigitIs(b as int % 16);
      HexIsNumber(digits);
      p := Hex(digits);
      assert Source(p) == "\\x" + digits;
    }
  }

  lemma DigitIs(d: nat)
    requires d < 16
    ensures HexDigit(d) in DIGITS
  {
    assert HexDigit(d) == DIGITS[d];
  }

  /** The encoded text, byte by byte. */
  lemma {:induction false} EncodedIs(data: string) returns (ps: seq<Piece>)
    requires Bytes(data)
    ensures |ps| == |data| && EncodeAll(data) == Text(ps) && forall i | 0 <= i < |data| :: Writes(ps[i], data[i])
  {
    if data == "" {
      ps := [];
    } else {
      var p := ByteWritten(data[0]);
      hide Writes, Source;
      var more := EncodedIs(data[1..]);
      ps := [p] + more;
      assert ps[1..] == more;
    }
  }

  // ----- utf8_escape and utf8_unescape -----

  /** A byte, with a backslash in front of it or not. */
  datatype Quotable = Quotable(c: char, escaped: bool)

  function Written(qs: seq<Quotable>): string {
    if qs == [] then "" else (if qs[0].escaped then ['\\', qs[0].c] else [qs[0].c]) + Written(qs[1..])
  }

  function Meant(qs: seq<Quotable>): string {
    if qs == [] then "" else [qs[0].c] + Meant(qs[1..])
  }

  /** Quotes and backslashes have a backslash in front of them, others may have one. */
  predicate Escaped(qs: seq<Quotable>) {
    forall i | 0 <= i < |qs| :: qs[i].c == '\'' || qs[i].c == '\\' ==> qs[i].escaped
  }

  /** How such a text ends: there, at a bare quote, or with a lone backslash. */
  predicate Ends(tail: string) { tail == "" || tail[0] == '\'' || tail == "\\" }

  /** What such a text is unescaped to, with this room: the bytes up to a bare quote or the end, if they fit and
      no backslash is alone; where the end is a quote, there has to be room for one more byte. */
  lemma {:induction false} Unescaped(qs: seq<Quotable>, tail: string, room: nat)
    requires Escaped(qs) && Ends(tail)
    ensures Unescape(Written(qs) + tail, room)
         == if tail == "\\" || |qs| > room || (|qs| == room && tail != "") then NoRoomOrCut else Decoded.Text(Meant(qs))
    decreases |qs|
  {
    var s := Written(qs) + tail;
    if qs == [] {
      assert s == tail;
    } else {
      var n := if qs[0].escaped then 2 else 1;
      assert s[n..] == Written(qs[1..]) + tail && s[0] == (if qs[0].escaped then '\\' else qs[0].c) && (n == 2 ==> s[1] == qs[0].c);
      if room > 0 {
        Unescaped(qs[1..], tail, room - 1);
      }
    }
  }

  /** What utf8_unescape and utf8_escape take for their input: so many bytes, or the C string there is. */
  predicate IsInput(inp: string, size: nat, s: string) {
    if size > 0 then size <= |inp| && s == inp[..size]
    else s <= inp && NulFree(s) && (|s| < |inp| ==> inp[|s|] == '\0')
  }

  lemma InputIs(inp: string, size: nat, s: string)
    requires size <= |inp|
    ensures IsInput(inp, size, s) <==> s == Input(inp, size)
  {
    if size == 0 {
      UpToNul(inp);
    }
  }

  lemma {:induction false} UpToNul(s: string)
    ensures var r := BeforeNul(s); r <= s && NulFree(r) && (|r| < |s| ==> s[|r|] == '\0')
  {
    if s != "" && s[0] != '\0' {
      UpToNul(s[1..]);
    }
  }

  /** utf8_unescape on the whole: a quote in front of such a text is skipped. */
  lemma InputUnescaped(inp: string, size: nat, quote: string, qs: seq<Quotable>, tail: string, room: nat)
    requires size <= |inp| && Escaped(qs) && Ends(tail) && quote in {"", "'"}
    requires quote == "" ==> qs != [] || tail == "" || tail[0] != '\''
    requires IsInput(inp, size, quote + (Written(qs) + tail))
    ensures Unescape(Unquoted(Input(inp, size)), room)
         == if tail == "\\" || |qs| > room || (|qs| == room && tail != "") then NoRoomOrCut else Decoded.Text(Meant(qs))
  {
    InputIs(inp, size, quote + (Written(qs) + tail));
    Unescaped(qs, tail, room);
    if quote == "" {
      assert quote + (Written(qs) + tail) == Written(qs) + tail;
    } else {
      assert (quote + (Written(qs) + tail))[1..] == Written(qs) + tail;
    }
    hide Unescape;
  }

  /** Every text is of that kind. */
  lemma {:induction false} Quotables(s: string) returns (qs: seq<Quotable>, tail: string)
    ensures Escaped(qs) && Ends(tail) && s == Written(qs) + tail
    decreases |s|
  {
    if Ends(s) {
      qs, tail := [], s;
      assert "" + s == s;
    } else {
      var q := if s[0] == '\\' then Quotable(s[1], true) else Quotable(s[0], false);
      var n := if q.escaped then 2 else 1;
      var rest;
      rest, tail := Quotables(s[n..]);
      qs := [q] + rest;
      assert qs[1..] == rest && s == s[..n] + s[n..] && s[..n] == if q.escaped then ['\\', q.c] else [q.c];
      assert s[..n] + Written(rest) + tail == s[..n] + (Written(rest) + tail);
    }
  }

  /** Escaping puts in the backslashes that are needed and no others. */
  lemma {:induction false} EscapeIsLeast(data: string) returns (qs: seq<Quotable>)
    ensures Escaped(qs) && Escape(data) == Written(qs) && Meant(qs) == data
    ensures forall i | 0 <= i < |qs| :: qs[i].escaped ==> qs[i].c == '\'' || qs[i].c == '\\'
  {
    if data == "" {
      qs := [];
    } else {
      var rest := EscapeIsLeast(data[1..]);
      qs := [Quotable(data[0], data[0] == '\'' || data[0] == '\\')] + rest;
      assert qs[1..] == rest && data == [data[0]] + data[1..];
    }
  }
}
