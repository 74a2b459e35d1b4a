/** The escape codecs of tools/wifi_wpa_cli/common.c. One `char` is one byte. */
module Codecs {
  import opened CBuffer
  import opened Utf8

  predicate Bytes(s: string) { forall i | 0 <= i < |s| :: s[i] as int < 256 }

  function At(s: string): char { if s == "" then '\0' else s[0] }

  // ----- printf_encode -----

  function EncodeByte(b: char): (s: string)
    requires b as int < 256
    ensures 1 <= |s| <= 4
  {
    match b
    case '\"' => "\\\""
    case '\\' => "\\\\"
    case '\U{1B}' => "\\e"
    case '\n' => "\\n"
    case '\r' => "\\r"
    case '\t' => "\\t"
    case _ => if 32 <= b as int <= 127 then [b] else "\\x" + HexByte(b as int)
  }

  function EncodeAll(data: string): string
    requires Bytes(data)
  {
    if data == "" then "" else EncodeByte(data[0]) + EncodeAll(data[1..])
  }

  /** How many bytes are encoded before fewer than five characters of room are left after position p. */
  function Fits(data: string, p: nat, maxlen: nat): (n: nat)
    requires Bytes(data)
    ensures n <= |data|
  {
    if data == "" || p + 4 >= maxlen then 0
    else 1 + Fits(data[1..], p + |EncodeByte(data[0])|, maxlen)
  }

  lemma {:induction false} EncodeSplit(data: string, k: nat)
    requires Bytes(data) && k < |data|
    ensures EncodeAll(data[..k + 1]) == EncodeAll(data[..k]) + EncodeByte(data[k])
  {
    hide EncodeByte;
    if k == 0 {
      assert data[..1] == [data[0]] && data[..1][1..] == "";
    } else {
      EncodeSplit(data[1..], k - 1);
      assert data[..k + 1][1..] == data[1..][..k] && data[..k][1..] == data[1..][..k - 1];
    }
  }

  /** printf_encode; the text always fits with its terminator. */
  method PrintfEncode(txt: array<char>, data: string)
    requires txt.Length >= 1 && Bytes(data)
    modifies txt
    ensures Holds(txt, EncodeAll(data[..Fits(data, 0, txt.Length)]))
  {
    assert Written(txt, "") && data[..0] == "" && data[0..] == data;
    hide EncodeByte, EncodeAll, Fits, Written;
    var p, i := 0, 0;
    ghost var done := "";
    while i < |data| && p + 4 < txt.Length
      invariant Encoded(data, i, done, txt.Length) && |done| == p < txt.Length && Written(txt, done)
    {
      EncodeStep(data, i, done, txt.Length);
      p, done := CopyText(txt, p, EncodeByte(data[i]), done);
      i := i + 1;
    }
    FitsStop(data, i, p, txt.Length);
    Terminate(txt, p, done);
  }

  /** The first i bytes are encoded, and as many of the others will be as fit behind them. */
  ghost predicate Encoded(data: string, i: nat, done: string, maxlen: nat)
    requires Bytes(data)
  {
    && i <= |data| && NulFree(done) && done == EncodeAll(data[..i])
    && Fits(data, 0, maxlen) == i + Fits(data[i..], |done|, maxlen)
  }

  lemma EncodeStep(data: string, i: nat, done: string, maxlen: nat)
    requires Bytes(data) && i < |data| && Encoded(data, i, done, maxlen) && |done| + 4 < maxlen
    ensures Encoded(data, i + 1, done + EncodeByte(data[i]), maxlen)
  {
    EncodeSplit(data, i);
    EncodedNulFree(data[i], done);
    hide EncodeByte;
    assert data[i..][1..] == data[i + 1..];
  }

  lemma EncodedNulFree(b: char, done: string)
    requires b as int < 256 && NulFree(done)
    ensures NulFree(done + EncodeByte(b))
  {}

  lemma FitsStop(data: string, i: nat, p: nat, maxlen: nat)
    requires Bytes(data) && i <= |data| && (i == |data| || p + 4 >= maxlen)
    ensures Fits(data[i..], p, maxlen) == 0
  {}

  // ----- printf_decode -----

  function ByteChar(v: int): char { (v % 256) as char }

  /** What is decoded from s into a buffer of which len of maxlen bytes are used. */
  function Decode(s: string, len: nat, maxlen: nat): string
    decreases |s|
  {
    if At(s) == '\0' || len + 1 >= maxlen then ""
    else if s[0] != '\\' then [s[0]] + Decode(s[1..], len + 1, maxlen)
    else
      var (n, out) := DecodeEscape(s[1..]);
      out + Decode(s[1 + n..], len + |out|, maxlen)
  }

  /** After a backslash: the characters consumed and the byte decoded, if any. */
  function DecodeEscape(s: string): (r: (nat, string))
    ensures r.0 <= |s| && |r.1| <= 1
  {
    match At(s)
    case '\\' => (1, "\\")
    case '\"' => (1, "\"")
    case 'n' => (1, "\n")
    case 'r' => (1, "\r")
    case 't' => (1, "\t")
    case 'e' => (1, "\U{1B}")
    case 'x' =>
      if |s| < 2 || HexValue(s[1]) < 0 then (1, "")
      else if |s| < 3 || HexValue(s[2]) < 0 then (2, [ByteChar(HexValue(s[1]))])
      else (3, [ByteChar(HexValue(s[1]) * 16 + HexValue(s[2]))])
    case _ =>
      if !IsOctal(At(s)) then (0, "")
      else if !IsOctal(At(s[1..])) then (1, [ByteChar(Octal(s[0]))])
      else if !IsOctal(At(s[2..])) then (2, [ByteChar(Octal(s[0]) * 8 + Octal(s[1]))])
      else (3, [ByteChar((Octal(s[0]) * 8 + Octal(s[1])) * 8 + Octal(s[2]))])
  }

  predicate IsOctal(c: char) { '0' <= c <= '7' }

  function Octal(c: char): int { c as int - '0' as int }

  /** printf_decode. */
  method PrintfDecode(buf: array<char>, str: string) returns (len: nat)
    modifies buf
    ensures var d := Decode(str, 0, buf.Length);
            && len == |d| && len <= buf.Length && buf[..len] == d
            && (len < buf.Length ==> buf[len] == '\0')
  {
    hide DecodeEscape, Decode;
    var pos := 0;
    len := 0;
    ghost var out := "";
    assert str[0..] == str && "" + Decode(str, 0, buf.Length) == Decode(str, 0, buf.Length);
    while pos < |str| && str[pos] != '\0' && len + 1 < buf.Length
      invariant pos <= |str| && |out| == len <= buf.Length && Written(buf, out)
      invariant Decode(str, 0, buf.Length) == out + Decode(str[pos..], len, buf.Length)
      decreases |str| - pos
    {
      if str[pos] != '\\' {
        DecodePlain(str[pos], str[pos + 1..], len, buf.Length);
        assert str[pos..] == [str[pos]] + str[pos + 1..];
        Regroup(out, [str[pos]], Decode(str[pos + 1..], len + 1, buf.Length));
        out := Put(buf, len, str[pos], out);
        pos, len := pos + 1, len + 1;
      } else {
        var (n, dec) := DecodeEscape(str[pos + 1..]);
        ghost var before := out;
        DecodeTurn(str, pos, len, buf.Length);
        Regroup(out, dec, Decode(str[pos + 1 + n..], len + |dec|, buf.Length));
        if |dec| == 1 {
          out := Put(buf, len, dec[0], out);
          len := len + 1;
        }
        pos := pos + 1 + n;
        assert out == before + dec;
      }
    }
    DecodeStop(str[pos..], len, buf.Length);
    assert buf[..len] == out;
    if buf.Length > len {
      buf[len] := '\0';
    }
  }

  lemma DecodeTurn(str: string, pos: nat, len: nat, maxlen: nat)
    requires pos < |str| && str[pos] == '\\' && len + 1 < maxlen
    ensures var r := DecodeEscape(str[pos + 1..]);
            Decode(str[pos..], len, maxlen) == r.1 + Decode(str[pos + 1 + r.0..], len + |r.1|, maxlen)
  {
    hide DecodeEscape;
    var s := str[pos..];
    assert s[1..] == str[pos + 1..] && s[1 + DecodeEscape(s[1..]).0..] == str[pos + 1 + DecodeEscape(s[1..]).0..];
  }

  lemma Regroup(a: string, b: string, c: string)
    ensures a + (b + c) == a + b + c
  {}

  lemma DecodeStop(s: string, len: nat, maxlen: nat)
    requires At(s) == '\0' || len + 1 >= maxlen
    ensures Decode(s, len, maxlen) == ""
  {}

  // ----- Decoding undoes encoding -----

  lemma DecodeEscapeOf(b: char, rest: string)
    requires b as int < 256 && |EncodeByte(b)| > 1
    ensures EncodeByte(b)[0] == '\\'
    ensures DecodeEscape(EncodeByte(b)[1..] + rest) == (|EncodeByte(b)| - 1, [b])
  {
    var e := EncodeByte(b);
    var s := e[1..] + rest;
    if |e| == 2 {
      assert s[0] == e[1];
    } else {
      var v := b as int;
      assert s[0] == 'x' && s[1] == HexDigit(v / 16) && s[2] == HexDigit(v % 16);
    }
  }

  lemma EncodePlain(b: char)
    requires b as int < 256 && |EncodeByte(b)| == 1
    ensures EncodeByte(b) == [b] && b != '\\' && b != '\0'
  {
  }

  lemma DecodeEncodeByte(b: char, rest: string, len: nat, maxlen: nat)
    requires b as int < 256 && len + 1 < maxlen
    ensures Decode(EncodeByte(b) + rest, len, maxlen) == [b] + Decode(rest, len + 1, maxlen)
  {
    hide Decode, DecodeEscape, EncodeByte;
    if |EncodeByte(b)| == 1 {
      EncodePlain(b);
      DecodePlain(b, rest, len, maxlen);
    } else {
      DecodeEscapeOf(b, rest);
      DecodeEscaped(EncodeByte(b), b, rest, len, maxlen);
    }
  }

  lemma DecodePlain(b: char, rest: string, len: nat, maxlen: nat)
    requires b != '\\' && b != '\0' && len + 1 < maxlen
    ensures Decode([b] + rest, len, maxlen) == [b] + Decode(rest, len + 1, maxlen)
  {
    assert ([b] + rest)[1..] == rest;
  }

  lemma DecodeEscaped(e: string, b: char, rest: string, len: nat, maxlen: nat)
    requires e != "" && e[0] == '\\' && DecodeEscape(e[1..] + rest) == (|e| - 1, [b]) && len + 1 < maxlen
    ensures Decode(e + rest, len, maxlen) == [b] + Decode(rest, len + 1, maxlen)
  {
    hide DecodeEscape;
    var s := e + rest;
    assert s[1..] == e[1..] + rest && s[|e|..] == rest;
  }

  /** Decoding into a buffer of the given size gives the encoded bytes back, as many as it holds. */
  lemma {:induction false} DecodeEncode(data: string, len: nat, size: nat)
    requires Bytes(data) && len < size
    ensures Decode(EncodeAll(data), len, size) == data[..if |data| <= size - 1 - len then |data| else size - 1 - len]
  {
    if data == "" {
    } else if len + 1 < size {
      hide Decode, EncodeByte, DecodeEscape;
      DecodeEncode(data[1..], len + 1, size);
      DecodeEncodeByte(data[0], EncodeAll(data[1..]), len, size);
      TakeMore(data, if |data| <= size - 1 - len then |data| else size - 1 - len);
    } else {
      hide EncodeByte, EncodeAll;
    }
  }

  lemma TakeMore(data: string, n: nat)
    requires 0 < n <= |data|
    ensures [data[0]] + data[1..][..n - 1] == data[..n]
  {
  }

  lemma {:induction false} AllFits(data: string, p: nat, maxlen: nat)
    requires Bytes(data) && p + 4 * |data| < maxlen
    ensures Fits(data, p, maxlen) == |data|
  {
    if data != "" {
      AllFits(data[1..], p + |EncodeByte(data[0])|, maxlen);
    }
  }

  /** Whatever the two buffer sizes, what comes back is a prefix of the data: all of it if the
      text buffer is larger than four times the data and the byte buffer larger than the data. */
  lemma PrintfRoundTrip(data: string, maxlen: nat, size: nat)
    requires Bytes(data) && size >= 1
    ensures var text := EncodeAll(data[..Fits(data, 0, maxlen)]);
            && Decode(text, 0, size) <= data
            && (maxlen > 4 * |data| && size > |data| ==> Decode(text, 0, size) == data)
  {
    var k := Fits(data, 0, maxlen);
    DecodeEncode(data[..k], 0, size);
    if maxlen > 4 * |data| {
      AllFits(data, 0, maxlen);
      assert data[..k] == data;
    }
  }

  // ----- utf8_escape and utf8_unescape -----

  function Escape(s: string): string {
    if s == "" then ""
    else if s[0] == '\\' || s[0] == '\'' then ['\\', s[0]] + Escape(s[1..])
    else [s[0]] + Escape(s[1..])
  }

  datatype Decoded = Text(t: string) | NoRoomOrCut

  /** The loop of utf8_unescape with the given room left. */
  function Unescape(s: string, room: nat): Decoded {
    if s == "" then Text("")
    else if room == 0 then NoRoomOrCut
    else if s[0] == '\'' then Text("")
    else if s[0] == '\\' then
      if |s| < 2 then NoRoomOrCut else Prepend(s[1], Unescape(s[2..], room - 1))
    else Prepend(s[0], Unescape(s[1..], room - 1))
  }

  function Prepend(c: char, d: Decoded): Decoded {
    if d.Text? then Text([c] + d.t) else d
  }

  function Unquoted(s: string): string { if At(s) == '\'' then s[1..] else s }

  /** The input of either function: a size of 0 means up to the terminator. */
  function Input(inp: string, size: nat): (s: string)
    requires size <= |inp|
    ensures |s| <= |inp|
  {
    if size != 0 then inp[..size] else BeforeNul(inp)
  }

  lemma {:induction false} EscapeSplit(s: string, i: nat)
    requires i < |s|
    ensures Escape(s[..i + 1]) == Escape(s[..i]) + Escape([s[i]])
  {
    if i == 0 {
      assert s[..1] == [s[0]];
    } else {
      EscapeSplit(s[1..], i - 1);
      assert s[..i + 1][1..] == s[1..][..i] && s[..i][1..] == s[1..][..i - 1];
    }
  }

  lemma {:induction false} EscapePrefix(s: string, i: nat)
    requires i <= |s|
    ensures |Escape(s[..i])| <= |Escape(s)|
    decreases |s| - i
  {
    if i < |s| {
      EscapePrefix(s, i + 1);
      EscapeSplit(s, i);
    } else {
      assert s[..i] == s;
    }
  }

  /** utf8_escape: the size of the escaped text, or 0 if it does not fit. */
  method Utf8Escape(inp: string, size: nat, outp: array<char>) returns (n: nat)
    requires size <= |inp|
    modifies outp
    ensures var e := Escape(Input(inp, size));
            if |e| > outp.Length then n == 0
            else n == |e| && outp[..n] == e && (n < outp.Length ==> outp[n] == '\0')
  {
    var s := Input(inp, size);
    n := 0;
    ghost var out := "";
    assert s[..0] == "";
    for i := 0 to |s|
      invariant |out| == n <= outp.Length && Written(outp, out) && out == Escape(s[..i])
    {
      EscapeSplit(s, i);
      EscapePrefix(s, i + 1);
      if n >= outp.Length { return 0; }
      if s[i] == '\\' || s[i] == '\'' {
        if n + 1 >= outp.Length { return 0; }
        out := Put(outp, n, '\\', out);
        n := n + 1;
      }
      out := Put(outp, n, s[i], out);
      n := n + 1;
    }
    assert s[..|s|] == s;
    assert outp[..n] == out;
    if n < outp.Length {
      outp[n] := '\0';
    }
  }

  /** utf8_unescape: the size of the text, or 0 if it does not fit or ends in a lone backslash. */
  method Utf8Unescape(inp: string, size: nat, outp: array<char>) returns (n: nat)
    requires size <= |inp|
    modifies outp
    ensures match Unescape(Unquoted(Input(inp, size)), outp.Length)
            case NoRoomOrCut => n == 0
            case Text(t) => n == |t| && n <= outp.Length && outp[..n] == t && (n < outp.Length ==> outp[n] == '\0')
  {
    var s := Unquoted(Input(inp, size));
    n := 0;
    var i := 0;
    ghost var out := "";
    assert s[0..] == s;
    ghost var spec := Unescape(s, outp.Length);
    while i < |s|
      invariant i <= |s| && |out| == n <= outp.Length && Written(outp, out)
      invariant spec == Onto(out, Unescape(s[i..], outp.Length - n))
    {
      if n >= outp.Length { return 0; }
      if s[i] == '\'' {
        outp[n] := '\0';
        assert outp[..n] == out;
        return;
      }
      ghost var before := out;
      if s[i] == '\\' {
        if i + 1 == |s| { return 0; }
        i := i + 1;
        assert s[i - 1..][2..] == s[i + 1..];
      } else {
        assert s[i..][1..] == s[i + 1..];
      }
      out := Put(outp, n, s[i], out);
      OntoPrepend(before, s[i], Unescape(s[i + 1..], outp.Length - n - 1));
      i, n := i + 1, n + 1;
    }
    assert outp[..n] == out;
    if n < outp.Length {
      outp[n] := '\0';
    }
  }

  ghost function Onto(t: string, d: Decoded): Decoded {
    if d.Text? then Text(t + d.t) else d
  }

  lemma OntoPrepend(t: string, c: char, d: Decoded)
    ensures Onto(t, Prepend(c, d)) == Onto(t + [c], d)
  {
    assert d.Text? ==> t + ([c] + d.t) == t + [c] + d.t;
  }

  /** Unescaping undoes escaping as soon as there is room for the data. */
  lemma {:induction false} UnescapeEscape(data: string, room: nat)
    requires |data| <= room
    ensures Unescape(Escape(data), room) == Text(data)
  {
    if data != "" {
      var e := Escape(data);
      UnescapeEscape(data[1..], room - 1);
      assert [data[0]] + data[1..] == data;
      if data[0] == '\\' || data[0] == '\'' {
        assert e[2..] == Escape(data[1..]);
      } else {
        assert e[1..] == Escape(data[1..]);
      }
    }
  }

  /** The two calls in a row, on non-empty input; the escaped text never looks quoted. */
  lemma Utf8RoundTrip(data: string, room: nat)
    requires data != "" && |data| <= room
    ensures var e := Escape(data);
            |e| > 0 && Unescape(Unquoted(Input(e, |e|)), room) == Text(data)
  {
    UnescapeEscape(data, room);
    var e := Escape(data);
    assert e[..|e|] == e;
  }
}
