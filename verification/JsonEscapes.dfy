/**
How cJSON and jsoncpp (tools/cJSON/cJSON.c, tools/jsoncpp/json_writer.cpp) write the characters of a string: in
the shortest of the ways that section 7 of RFC 8259 allows.
*/
module JsonEscapes {
  import CJson
  import JsonCpp
  import opened Utf8

  /** The character that a letter behind a backslash stands for. */
  predicate Letter(letter: char, c: char) {
    || (letter == '\"' && c == '\"') || (letter == '\\' && c == '\\') || (letter == '/' && c == '/')
    || (letter == 'b' && c as int == 8) || (letter == 'f' && c as int == 12) || (letter == 'n' && c as int == 10)
    || (letter == 'r' && c as int == 13) || (letter == 't' && c as int == 9)
  }

  /** A text that stands for this character between the quotes. */
  predicate Spells(t: string, c: char) {
    || (t == [c] && c as int >= 0x20 && c != '\"' && c != '\\')
    || (|t| == 2 && t[0] == '\\' && Letter(t[1], c))
    || (|t| == 6 && t[0] == '\\' && t[1] == 'u' && IsHex4(t[2..]) && ParseHex4(t[2..]) == c as int)
  }

  predicate SpellsAll(ts: seq<string>, s: string) {
    |ts| == |s| && forall i | 0 <= i < |s| :: Spells(ts[i], s[i])
  }

  function Text(ts: seq<string>): string { if ts == [] then "" else ts[0] + Text(ts[1..]) }

  lemma CJsonChar(c: char, t: string)
    ensures Spells(CJson.EscapeChar(c), c) && (Spells(t, c) ==> |CJson.EscapeChar(c)| <= |t|)
  {
    var e := CJson.EscapeChar(c);
    if |e| == 6 {
      var h := HexByte(c as int % 256);
      assert e[2..] == "00" + h;
    }
  }

  lemma JsonCppChar(c: char, t: string)
    requires c != '\0'
    ensures Spells(JsonCpp.EscapeChar(c), c) && (Spells(t, c) ==> |JsonCpp.EscapeChar(c)| <= |t|)
  {
    var e := JsonCpp.EscapeChar(c);
    if |e| == 6 {
      assert e[2..] == "00" + [JsonCpp.UpperHexDigit(c as int / 16), JsonCpp.UpperHexDigit(c as int % 16)];
    }
  }

  /** What cJSON writes for a string spells it, and no text that spells it is shorter. */
  lemma {:induction false} CJsonShortest(s: string, others: seq<string>) returns (ts: seq<string>)
    ensures SpellsAll(ts, s) && CJson.Escape(s) == Text(ts)
    ensures SpellsAll(others, s) ==> |CJson.Escape(s)| <= |Text(others)|
  {
    ts := [];
    if s != "" {
      var c, e := s[0], CJson.EscapeChar(s[0]);
      var more := CJsonShortest(s[1..], if others == [] then [] else others[1..]);
      CJsonChar(c, if others == [] then "" else others[0]);
      hide Spells, CJson.EscapeChar;
      ts := [e] + more;
      assert ts[1..] == more;
    }
  }

  /** So for jsoncpp, and a string without terminator. */
  lemma {:induction false} JsonCppShortest(s: string, others: seq<string>) returns (ts: seq<string>)
    requires '\0' !in s
    ensures SpellsAll(ts, s) && JsonCpp.Escape(s) == Text(ts)
    ensures SpellsAll(others, s) ==> |JsonCpp.Escape(s)| <= |Text(others)|
  {
    ts := [];
    if s != "" {
      var c, e := s[0], JsonCpp.EscapeChar(s[0]);
      var more := JsonCppShortest(s[1..], if others == [] then [] else others[1..]);
      JsonCppChar(c, if others == [] then "" else others[0]);
      hide Spells, JsonCpp.EscapeChar;
      ts := [e] + more;
      assert ts[1..] == more;
    }
  }
}
