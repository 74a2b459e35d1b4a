/** Parsing what cJSON prints gives the tree back. */
module CJsonRoundTrip {
  import opened CBuffer
  import opened CJson
  import opened Utf8

  // ----- Strings -----

  lemma UnescapeEscapeChar(c: char, rest: string)
    requires c != '\0'
    ensures Unescape(EscapeChar(c) + rest) == Prepend([c], Unescape(rest))
  {
    hide Unescape, LongEscape, HexByte;
    if c as int > 31 && c != '\"' && c != '\\' {
      UnescapeRaw(c, rest);
    } else if ShortEscape(c) != '\0' {
      LongShort(c);
      UnescapePair(ShortEscape(c), rest);
    } else {
      UnescapeControl(c as int, rest);
    }
  }

  lemma UnescapeRaw(c: char, rest: string)
    requires c != '\0' && c != '\"' && c != '\\'
    ensures Unescape([c] + rest) == Prepend([c], Unescape(rest))
  {
    assert ([c] + rest)[1..] == rest;
  }

  lemma LongShort(c: char)
    requires ShortEscape(c) != '\0'
    ensures LongEscape(ShortEscape(c)) == c && ShortEscape(c) != 'u'
  {
  }

  lemma UnescapePair(e: char, rest: string)
    requires e != '\0' && e != 'u'
    ensures Unescape(['\\', e] + rest) == Prepend([LongEscape(e)], Unescape(rest))
  {
    var s := ['\\', e] + rest;
    assert s[1..][0] == e && s[2..] == rest;
  }

  lemma UnescapeControl(b: nat, rest: string)
    requires 0 < b < 32
    ensures Unescape("\\u00" + HexByte(b) + rest) == Prepend([b as char], Unescape(rest))
  {
    var s := "\\u00" + HexByte(b) + rest;
    assert s[1] == 'u' && s[1..][0] == 'u' && s[6..] == rest;
    assert s[2..] == "00" + HexByte(b) + rest;
    assert IsHex4(s[2..]) && ParseHex4(s[2..]) == b && FourPlain(s[2..]);
    hide IsHex4, ParseHex4;
    assert Unescape(s) == UnescapeUnicode(s);
  }

  lemma {:induction false} UnescapeEscape(str: string, rest: string)
    requires NulFree(str)
    ensures Unescape(Escape(str) + "\"" + rest) == Ok(str, rest)
  {
    if str == "" {
      assert Escape(str) + "\"" + rest == "\"" + rest;
    } else {
      var tail := Escape(str[1..]) + "\"" + rest;
      assert Escape(str) + "\"" + rest == EscapeChar(str[0]) + tail;
      UnescapeEscape(str[1..], rest);
      UnescapeEscapeChar(str[0], tail);
      assert [str[0]] + str[1..] == str;
    }
  }

  lemma ParseQuote(str: string, rest: string)
    requires NulFree(str)
    ensures ParseString(Quote(str) + rest) == Ok(str, rest)
  {
    UnescapeEscape(str, rest);
    assert (Quote(str) + rest)[1..] == Escape(str) + "\"" + rest;
  }

  // ----- Numbers -----

  predicate EndsNumber(rest: string) {
    !IsDigit(At(rest)) && At(rest) != '.' && At(rest) != 'e' && At(rest) != 'E'
  }

  lemma {:induction false} DigitsDecimal(n: nat, rest: string)
    ensures Digits(0, Decimal(n) + rest) == Digits(n, rest)
    ensures Decimal(n) != "" && IsDigit(Decimal(n)[0]) && (n > 0 ==> Decimal(n)[0] != '0')
  {
    if n < 10 {
      assert (Decimal(n) + rest)[1..] == rest;
    } else {
      var tail := [DigitChar(n % 10)] + rest;
      DigitsDecimal(n / 10, tail);
      assert Decimal(n) + rest == Decimal(n / 10) + tail;
      assert tail[1..] == rest;
    }
  }

  lemma ParsePrintInt(n: int, rest: string)
    requires EndsNumber(rest)
    ensures ParseNumber(PrintInt(n) + rest) == Ok(Number(n, 0), rest)
  {
    var m := if n < 0 then -n else n;
    var s1 := Decimal(m) + rest;
    DigitsDecimal(m, rest);
    assert n < 0 ==> (PrintInt(n) + rest)[1..] == s1;
    assert m == 0 ==> s1[1..] == rest;
    DigitsEnd(m, rest);
    hide Digits;
    assert m > 0 ==> At(s1) != '0';
    assert Mantissa(s1) == (m, 0, rest);
    hide Mantissa, Decimal;
    assert Exponent(rest) == (0, rest);
  }

  lemma DigitsEnd(n: nat, rest: string)
    requires !IsDigit(At(rest))
    ensures Digits(n, rest) == (n, rest)
  {
  }

  // ----- Trees -----

  /** What can come first in a printed value: nothing that `skip` eats or an end mark. */
  predicate StartsValue(c: char) {
    c as int > 32 && c != ']' && c != '}'
  }

  lemma PrintStarts(j: Json, depth: nat, fmt: bool)
    ensures Print(j, depth, fmt) != "" && StartsValue(Print(j, depth, fmt)[0])
  {
    if j.Number? {
      DigitsDecimal(if j.mantissa < 0 then -j.mantissa else j.mantissa, "");
    }
  }

  predicate Blank(b: string) {
    forall i | 0 <= i < |b| :: 0 < b[i] as int <= 32
  }

  lemma {:induction false} SkipBlank(b: string, text: string)
    requires Blank(b)
    ensures Skip(b + text) == Skip(text)
  {
    if b == "" {
      assert b + text == text;
    } else {
      SkipBlank(b[1..], text);
      assert (b + text)[1..] == b[1..] + text;
    }
  }

  lemma {:induction false} BlankTabs(n: nat)
    ensures Blank(Tabs(n))
  {
    if n > 0 {
      BlankTabs(n - 1);
    }
  }

  lemma SkipValue(b: string, j: Json, depth: nat, fmt: bool, rest: string)
    requires Blank(b)
    ensures Skip(b + (Print(j, depth, fmt) + rest)) == Print(j, depth, fmt) + rest
  {
    PrintStarts(j, depth, fmt);
    SkipBlank(b, Print(j, depth, fmt) + rest);
  }

  // Right-nesting of concatenations, stated on plain variables to keep the proofs below small.

  lemma Nest3(a: string, b: string, c: string, d: string)
    ensures a + b + c + d == a + (b + (c + d))
  {}

  lemma Nest4(a: string, b: string, c: string, d: string, e: string)
    ensures a + b + c + d + e == a + (b + (c + (d + e)))
  {}

  lemma Nest5(a: string, b: string, c: string, d: string, e: string, f: string)
    ensures a + b + c + d + e + f == a + (b + (c + (d + (e + f))))
  {}

  lemma Drop1(c: char, s: string)
    ensures ([c] + s)[1..] == s && At([c] + s) == c
  {}

  /** The main theorem: whatever follows the text, parsing it returns the tree and stops there. */
  lemma {:induction false} RoundTrip(j: Json, depth: nat, fmt: bool, rest: string)
    requires Printable(j)
    requires j.Number? ==> EndsNumber(rest)
    ensures ParseValue(Print(j, depth, fmt) + rest) == Ok(j, rest)
    decreases j, 1
  {
    var text := Print(j, depth, fmt) + rest;
    match j
    case Null => assert text[..4] == "null" && text[4..] == rest;
    case False => assert text[..5] == "false" && text[5..] == rest && text[0] == 'f';
    case True => assert text[..4] == "true" && text[4..] == rest && text[0] == 't';
    case Number(m, _) =>
      DigitsDecimal(if m < 0 then -m else m, rest);
      ParsePrintInt(m, rest);
    case String(s) => ParseQuote(s, rest);
    case Array(items) => RoundTripArray(items, depth, fmt, rest);
    case Object(ms) => RoundTripObject(ms, depth, fmt, rest);
  }

  lemma ParseArrayText(inner: string)
    ensures ParseValue("[" + inner)
         == if At(Skip(inner)) == ']' then Ok(Array([]), Skip(inner)[1..]) else ParseItems(Skip(inner), [])
  {
    hide ParseMembers, ParseItems, ParseNumber, ParseString, Skip;
    Drop1('[', inner);
  }

  lemma ParseObjectText(inner: string)
    ensures ParseValue("{" + inner)
         == if At(Skip(inner)) == '}' then Ok(Object([]), Skip(inner)[1..]) else ParseMembers(Skip(inner), [])
  {
    hide ParseMembers, ParseItems, ParseNumber, ParseString, Skip;
    Drop1('{', inner);
  }

  lemma PrintArrayText(items: seq<Json>, depth: nat, fmt: bool, rest: string)
    ensures Print(Array(items), depth, fmt) + rest == "[" + (PrintItems(items, depth + 1, fmt) + ("]" + rest))
    ensures items != [] ==> StartsValue(At(PrintItems(items, depth + 1, fmt)))
  {
    Nest3("[", PrintItems(items, depth + 1, fmt), "]", rest);
    if items != [] {
      PrintStarts(items[0], depth + 1, fmt);
    }
  }

  lemma {:induction false} RoundTripArray(items: seq<Json>, depth: nat, fmt: bool, rest: string)
    requires PrintableItems(items)
    ensures ParseValue(Print(Array(items), depth, fmt) + rest) == Ok(Array(items), rest)
    decreases items, 3
  {
    var text := PrintItems(items, depth + 1, fmt);
    var inner := text + ("]" + rest);
    PrintArrayText(items, depth, fmt, rest);
    ParseArrayText(inner);
    Drop1(']', rest);
    if items == [] {
      assert inner == "]" + rest;
    } else {
      assert inner[0] == At(text);
      RoundTripItems("", items, [], depth + 1, fmt, rest);
      assert "" + inner == inner && [] + items == items;
    }
  }

  lemma {:induction false} RoundTripItems(b: string, items: seq<Json>, done: seq<Json>, depth: nat, fmt: bool, rest: string)
    requires Blank(b)
    requires items != [] && PrintableItems(items)
    ensures ParseItems(b + (PrintItems(items, depth, fmt) + ("]" + rest)), done) == Ok(Array(done + items), rest)
    decreases items, 2
  {
    hide ParseItems, ParseValue, Print, PrintItems, Skip, Printable, Space;
    var close := "]" + rest;
    Drop1(']', rest);
    if |items| == 1 {
      LastItemText(items, depth, fmt);
      RoundTrip(items[0], depth, fmt, close);
      ParseItem(b, items[0], done, depth, fmt, close);
      assert items == [items[0]];
    } else {
      var next := Space(fmt) + (PrintItems(items[1..], depth, fmt) + close);
      ItemThenMoreText(items, depth, fmt, close);
      RoundTrip(items[0], depth, fmt, "," + next);
      ItemThenMore(b, items[0], done, depth, fmt, next);
      SpaceBlank(fmt);
      RoundTripItems(Space(fmt), items[1..], done + [items[0]], depth, fmt, rest);
      ConsLast(done, items);
    }
  }

  lemma SpaceBlank(fmt: bool)
    ensures Blank(Space(fmt))
  {
  }

  lemma ConsLast<T>(done: seq<T>, more: seq<T>)
    requires more != []
    ensures done + [more[0]] + more[1..] == done + more
  {
  }

  lemma LastItemText(items: seq<Json>, depth: nat, fmt: bool)
    requires |items| == 1
    ensures PrintItems(items, depth, fmt) == Print(items[0], depth, fmt)
  {
  }

  lemma ItemThenMoreText(items: seq<Json>, depth: nat, fmt: bool, close: string)
    requires |items| > 1
    ensures PrintItems(items, depth, fmt) + close
         == Print(items[0], depth, fmt) + ("," + (Space(fmt) + (PrintItems(items[1..], depth, fmt) + close)))
  {
    hide Print, Space;
    Nest4(Print(items[0], depth, fmt), ",", Space(fmt), PrintItems(items[1..], depth, fmt), close);
  }

  lemma ItemThenMore(b: string, j: Json, done: seq<Json>, depth: nat, fmt: bool, next: string)
    requires Blank(b)
    requires ParseValue(Print(j, depth, fmt) + ("," + next)) == Ok(j, "," + next)
    ensures ParseItems(b + (Print(j, depth, fmt) + ("," + next)), done) == ParseItems(next, done + [j])
  {
    Drop1(',', next);
    ParseItem(b, j, done, depth, fmt, "," + next);
  }

  /** One element: the parser comes to what follows it. */
  lemma ParseItem(b: string, j: Json, done: seq<Json>, depth: nat, fmt: bool, after: string)
    requires Blank(b) && after != "" && (after[0] == ',' || after[0] == ']')
    requires ParseValue(Print(j, depth, fmt) + after) == Ok(j, after)
    ensures var text := b + (Print(j, depth, fmt) + after);
            ParseItems(text, done)
            == if after[0] == ',' then ParseItems(after[1..], done + [j]) else Ok(Array(done + [j]), after[1..])
  {
    hide Print, ParseValue;
    SkipValue(b, j, depth, fmt, after);
    assert Skip(after) == after;
  }

  lemma RoundTripEmptyObject(depth: nat, fmt: bool, rest: string)
    ensures ParseValue(Print(Object([]), depth, fmt) + rest) == Ok(Object([]), rest)
  {
    var close := "}" + rest;
    Nest4("{", Nl(fmt), Indent(depth - 1, fmt), "}", rest);
    ParseObjectText(Nl(fmt) + (Indent(depth - 1, fmt) + close));
    SkipIndent(depth - 1, fmt, close);
    SkipBlank(Nl(fmt), Indent(depth - 1, fmt) + close);
    Drop1('}', rest);
  }

  lemma PrintObjectText(ms: seq<Member>, depth: nat, fmt: bool, rest: string)
    requires ms != []
    ensures Print(Object(ms), depth, fmt) + rest
         == "{" + (Nl(fmt) + (PrintMembers(ms, depth + 1, fmt) + (Indent(depth, fmt) + ("}" + rest))))
  {
    Nest5("{", Nl(fmt), PrintMembers(ms, depth + 1, fmt), Indent(depth, fmt), "}", rest);
  }

  lemma {:induction false} RoundTripObject(ms: seq<Member>, depth: nat, fmt: bool, rest: string)
    requires PrintableMembers(ms)
    ensures ParseValue(Print(Object(ms), depth, fmt) + rest) == Ok(Object(ms), rest)
    decreases ms, 4
  {
    if ms == [] {
      RoundTripEmptyObject(depth, fmt, rest);
    } else {
      var text := Nl(fmt) + (PrintMembers(ms, depth + 1, fmt) + (Indent(depth, fmt) + ("}" + rest)));
      PrintObjectText(ms, depth, fmt, rest);
      ParseObjectText(text);
      RoundTripMembers(Nl(fmt), ms, [], depth + 1, depth, fmt, rest);
      ParseMembersSkip(text);
      assert [] + ms == ms;
    }
  }

  lemma SkipIndent(n: int, fmt: bool, text: string)
    ensures Skip(Indent(n, fmt) + text) == Skip(text)
  {
    if fmt && n > 0 {
      BlankTabs(n);
    }
    SkipBlank(Indent(n, fmt), text);
  }

  lemma {:induction false} SkipTwice(s: string)
    ensures Skip(Skip(s)) == Skip(s)
  {
    if s != "" && s[0] != '\0' && s[0] as int <= 32 {
      SkipTwice(s[1..]);
    }
  }

  lemma ParseMembersSkip(s: string)
    ensures ParseMembers(Skip(s), []) == ParseMembers(s, [])
  {
    SkipTwice(s);
  }

  /** A member starts, after blanks, at the opening quote of its key. */
  lemma SkipMember(b: string, m: Member, depth: nat, fmt: bool, rest: string)
    requires Blank(b)
    ensures Skip(b + (PrintMember(m, depth, fmt) + rest))
         == Quote(m.key) + (":" + (Tab(fmt) + (Print(m.value, depth, fmt) + rest)))
  {
    var inner := Quote(m.key) + (":" + (Tab(fmt) + (Print(m.value, depth, fmt) + rest)));
    Nest5(Indent(depth, fmt), Quote(m.key), ":", Tab(fmt), Print(m.value, depth, fmt), rest);
    SkipBlank(b, Indent(depth, fmt) + inner);
    SkipIndent(depth, fmt, inner);
    assert inner[0] == '\"';
  }

  /** One member: the parser comes to what follows the value. */
  lemma ParseMember(b: string, m: Member, done: seq<Member>, depth: nat, fmt: bool, after: string)
    requires Blank(b) && NulFree(m.key) && EndsNumber(after)
    requires ParseValue(Print(m.value, depth, fmt) + after) == Ok(m.value, after)
    ensures var text := b + (PrintMember(m, depth, fmt) + after);
            && Skip(text) != "" && Skip(text)[0] == '\"'
            && (At(Skip(after)) == ',' ==> ParseMembers(text, done) == ParseMembers(Skip(after)[1..], done + [m]))
            && (At(Skip(after)) == '}' ==> ParseMembers(text, done) == Ok(Object(done + [m]), Skip(after)[1..]))
  {
    var value := Tab(fmt) + (Print(m.value, depth, fmt) + after);
    SkipMember(b, m, depth, fmt, after);
    Drop1(':', value);
    ParseQuote(m.key, ":" + value);
    SkipValue(Tab(fmt), m.value, depth, fmt, after);
    assert Skip(":" + value) == ":" + value;
  }

  lemma {:induction false} RoundTripMembers(b: string, ms: seq<Member>, done: seq<Member>, depth: nat, close: nat, fmt: bool, rest: string)
    requires Blank(b)
    requires ms != [] && PrintableMembers(ms)
    ensures var text := b + (PrintMembers(ms, depth, fmt) + (Indent(close, fmt) + ("}" + rest)));
            && Skip(text) != "" && Skip(text)[0] == '\"'
            && ParseMembers(text, done) == Ok(Object(done + ms), rest)
    decreases ms, 3
  {
    hide ParseMembers, ParseValue, Print, PrintMember, PrintMembers, Indent, Skip, Printable;
    var m := ms[0];
    var tail := Indent(close, fmt) + ("}" + rest);
    PrintMembersText(ms, depth, fmt, tail);
    if |ms| > 1 {
      var next := Nl(fmt) + (PrintMembers(ms[1..], depth, fmt) + tail);
      RoundTripMembers(Nl(fmt), ms[1..], done + [m], depth, close, fmt, rest);
      RoundTrip(m.value, depth, fmt, "," + next);
      MemberThenMore(b, m, done, depth, fmt, next);
      ConsLast(done, ms);
    } else {
      LastMember(close, fmt, rest);
      RoundTrip(m.value, depth, fmt, Nl(fmt) + tail);
      ParseMember(b, m, done, depth, fmt, Nl(fmt) + tail);
      Drop1('}', rest);
      assert ms == [m];
    }
  }

  lemma MemberThenMore(b: string, m: Member, done: seq<Member>, depth: nat, fmt: bool, next: string)
    requires Blank(b) && NulFree(m.key)
    requires ParseValue(Print(m.value, depth, fmt) + ("," + next)) == Ok(m.value, "," + next)
    ensures var text := b + (PrintMember(m, depth, fmt) + ("," + next));
            && Skip(text) != "" && Skip(text)[0] == '\"'
            && ParseMembers(text, done) == ParseMembers(next, done + [m])
  {
    Drop1(',', next);
    ParseMember(b, m, done, depth, fmt, "," + next);
  }

  lemma PrintMembersText(ms: seq<Member>, depth: nat, fmt: bool, tail: string)
    requires ms != []
    ensures PrintMembers(ms, depth, fmt) + tail
         == PrintMember(ms[0], depth, fmt)
            + if |ms| > 1 then "," + (Nl(fmt) + (PrintMembers(ms[1..], depth, fmt) + tail)) else Nl(fmt) + tail
  {
    var comma := if |ms| > 1 then "," else "";
    Nest4(PrintMember(ms[0], depth, fmt), comma, Nl(fmt), PrintMembers(ms[1..], depth, fmt), tail);
    assert |ms| == 1 ==> "" + (Nl(fmt) + ("" + tail)) == Nl(fmt) + tail;
  }

  lemma LastMember(close: nat, fmt: bool, rest: string)
    ensures var after := Nl(fmt) + (Indent(close, fmt) + ("}" + rest));
            Skip(after) == "}" + rest && EndsNumber(after)
  {
    SkipIndent(close, fmt, "}" + rest);
    SkipBlank(Nl(fmt), Indent(close, fmt) + ("}" + rest));
  }

  /** cJSON_Parse undoes either printer, whether or not the text must end after the value. */
  lemma ParsePrint(j: Json, fmt: bool, requireEnd: bool)
    requires Printable(j)
    ensures Parse(Print(j, 0, fmt), requireEnd) == Ok(j, "")
  {
    RoundTrip(j, 0, fmt, "");
    SkipValue("", j, 0, fmt, "");
    assert "" + (Print(j, 0, fmt) + "") == Print(j, 0, fmt) + "" == Print(j, 0, fmt);
  }
}
