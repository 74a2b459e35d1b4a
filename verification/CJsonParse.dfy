/**
The parser of tools/cJSON/cJSON.c as it runs: a cursor moved through the text by loops,
and for strings a first pass that sizes the buffer a second pass fills.
*/
module CJsonParse {
  import opened Bits
  import opened CBuffer
  import opened CJson
  import opened Utf8

  /** A value and the cursor after it, a failure at the cursor kept for cJSON_GetErrorPtr,
      or an escape that is cut short. */
  datatype Outcome<T> = Done(value: T, next: nat) | Failed(ep: nat) | Cut

  ghost predicate Agrees<T>(o: Outcome<T>, p: Parsed<T>, text: string) {
    match o
    case Done(v, next) => next <= |text| && p == Ok(v, text[next..])
    case Failed(ep) => ep <= |text| && p == Err(text[ep..])
    case Cut => p == Malformed
  }

  /** `*ptr`: the terminator sits right after the text. */
  function CharAt(text: string, i: nat): (c: char)
    requires i <= |text|
    ensures c == At(text[i..])
  {
    if i < |text| then text[i] else '\0'
  }

  method SkipBlanks(text: string, from: nat) returns (i: nat)
    requires from <= |text|
    ensures from <= i <= |text| && text[i..] == Skip(text[from..])
  {
    i := from;
    while CharAt(text, i) != '\0' && CharAt(text, i) as int <= 32
      invariant from <= i <= |text|
      invariant Skip(text[i..]) == Skip(text[from..])
      decreases |text| - i
    {
      assert text[i..][1..] == text[i + 1..];
      i := i + 1;
    }
  }

  // ----- Strings -----

  /** What the first pass counts, or -1 where it would step over the terminator. */
  function ScanLength(s: string): int {
    if At(s) == '\"' || At(s) == '\0' then 0
    else if s[0] != '\\' then
      var rest := ScanLength(s[1..]);
      if rest < 0 then -1 else rest + 1
    else if At(s[1..]) == '\0' then -1
    else
      var rest := ScanLength(s[2..]);
      if rest < 0 then -1 else rest + 1
  }

  lemma ScanFour(s: string)
    requires |s| >= 6 && s[0] == '\\' && s[1] == 'u' && FourPlain(s[2..])
    ensures ScanLength(s) == if ScanLength(s[6..]) < 0 then -1 else ScanLength(s[6..]) + 5
  {
    ScanDigit(s, 2);
    ScanDigit(s, 3);
    ScanDigit(s, 4);
    ScanDigit(s, 5);
    hide FourPlain;
    assert s[1..][0] == 'u';
    assert ScanLength(s) == if ScanLength(s[2..]) < 0 then -1 else ScanLength(s[2..]) + 1;
    hide ScanLength;
  }

  lemma ScanDigit(s: string, k: nat)
    requires k < |s| && s[k] != '\"' && s[k] != '\\' && s[k] != '\0'
    ensures ScanLength(s[k..]) == if ScanLength(s[k + 1..]) < 0 then -1 else ScanLength(s[k + 1..]) + 1
  {
    assert s[k..][1..] == s[k + 1..];
  }

  /** The first pass's count bounds the bytes the second pass writes, and succeeds whenever it does. */
  lemma {:induction false} ScanBoundsUnescape(s: string)
    ensures Unescape(s).Ok? ==> 0 <= |Unescape(s).value| <= ScanLength(s)
    decreases |s|
  {
    hide Encode, Combine, HexOrZero;
    if At(s) == '\"' || At(s) == '\0' {
    } else if s[0] != '\\' {
      ScanBoundsUnescape(s[1..]);
    } else if At(s[1..]) == '\0' {
    } else if s[1] != 'u' {
      ScanBoundsUnescape(s[2..]);
    } else if FourPlain(s[2..]) {
      ScanFour(s);
      ScanBoundsUnescape(s[6..]);
      if |s| >= 8 && s[6] == '\\' && s[7] == 'u' && FourPlain(s[8..]) {
        assert s[6..][2..] == s[8..] && s[6..][6..] == s[12..];
        ScanFour(s[6..]);
        ScanBoundsUnescape(s[12..]);
      }
    }
  }

  /** The first loop of parse_string; -1 where it would read past the terminator. */
  method FirstPass(text: string, from: nat) returns (len: int)
    requires from <= |text|
    ensures len == ScanLength(text[from..])
  {
    var ptr := from;
    len := 0;
    while CharAt(text, ptr) != '\"' && CharAt(text, ptr) != '\0'
      invariant from <= ptr <= |text| && len >= 0
      invariant ScanLength(text[from..]) == if ScanLength(text[ptr..]) < 0 then -1 else len + ScanLength(text[ptr..])
      decreases |text| - ptr
    {
      ghost var s := text[ptr..];
      assert s[1..] == text[ptr + 1..] && (|s| >= 2 ==> s[2..] == text[ptr + 2..]);
      len := len + 1;
      if text[ptr] == '\\' {
        ptr := ptr + 1;
        if CharAt(text, ptr) == '\0' { return -1; }
      }
      ptr := ptr + 1;
    }
  }

  const FirstByteMark: seq<nat> := [0x00, 0x00, 0xC0, 0xE0, 0xF0]

  /** `*--p = (uc | 0x80) & 0xBF; uc >>= 6`. */
  method PutContinuation(out: array<char>, at: nat, uc: nat) returns (rest: nat)
    requires at < out.Length
    modifies out
    ensures out[at] == (0x80 + uc % 64) as char && rest == uc / 64
    ensures forall k | 0 <= k < out.Length && k != at :: out[k] == old(out[k])
  {
    ContinuationByte(uc);
    out[at] := And(Or(uc, 0x80), 0xBF) as char;
    rest := uc / 64;
  }

  /** The last case of the switch. */
  method PutLeading(out: array<char>, at: nat, uc: nat, len: nat)
    requires at < out.Length
    requires 1 <= len <= 4 && uc < [0, 0x80, 32, 16, 8][len]
    modifies out
    ensures out[at] == (uc + FirstByteMark[len]) as char
    ensures forall k | 0 <= k < out.Length && k != at :: out[k] == old(out[k])
  {
    LeadingByte(uc, len);
    out[at] := Or(uc, FirstByteMark[len]) as char;
  }

  /** The switch that writes a code point backwards, six bits at a time. */
  method PutCodePoint(out: array<char>, p: nat, cp: nat, ghost done: string) returns (p': nat, ghost done': string)
    requires cp < 0x110000
    requires |done| == p && p + |Encode(cp)| <= out.Length && Written(out, done)
    modifies out
    ensures done' == done + Encode(cp) && |done'| == p' && Written(out, done')
  {
    EncodeBackwards(cp);
    hide Encode;
    var len := if cp < 0x80 then 1 else if cp < 0x800 then 2 else if cp < 0x10000 then 3 else 4;
    var uc := cp;
    if len == 4 {
      uc := PutContinuation(out, p + 3, uc);
    }
    if len >= 3 {
      uc := PutContinuation(out, p + 2, uc);
    }
    if len >= 2 {
      uc := PutContinuation(out, p + 1, uc);
    }
    PutLeading(out, p, uc, len);
    p', done' := p + len, done + Encode(cp);
    assert out[p..p'] == Encode(cp);
  }

  /** Encode, read as repeated division by 64. */
  lemma EncodeBackwards(cp: nat)
    requires cp < 0x110000
    ensures cp < 0x80 ==> Encode(cp) == [cp as char]
    ensures 0x80 <= cp < 0x800 ==> Encode(cp) == [(cp / 64 + 0xC0) as char, (0x80 + cp % 64) as char]
    ensures 0x800 <= cp < 0x10000 ==>
              var q := cp / 64;
              Encode(cp) == [(q / 64 + 0xE0) as char, (0x80 + q % 64) as char, (0x80 + cp % 64) as char]
    ensures 0x10000 <= cp ==>
              var q := cp / 64;
              var r := q / 64;
              Encode(cp) == [(r / 64 + 0xF0) as char, (0x80 + r % 64) as char, (0x80 + q % 64) as char, (0x80 + cp % 64) as char]
  {
    var q := cp / 64;
    var r := q / 64;
    assert r == cp / 4096 && r / 64 == cp / 262144;
  }

  lemma LeadingByte(uc: nat, len: nat)
    requires 1 <= len <= 4 && uc < [0, 0x80, 32, 16, 8][len]
    ensures Or(uc, FirstByteMark[len]) == uc + FirstByteMark[len]
  {
    Powers();
    if len == 2 {
      OrHigh(uc, 6, 5);
    } else if len == 3 {
      OrHigh(uc, 14, 4);
    } else if len == 4 {
      OrHigh(uc, 30, 3);
    }
  }

  lemma PrependPrepend(a: string, b: string, p: Parsed<string>)
    ensures Prepend(a, Prepend(b, p)) == Prepend(a + b, p)
  {
    assert p.Ok? ==> a + (b + p.value) == a + b + p.value;
  }

  /** One escape: what it adds, where it ends, and that it adds no more than the first pass counted. */
  ghost predicate Step(text: string, from: nat, next: nat, added: string) {
    && from <= next <= |text|
    && Unescape(text[from..]) == Prepend(added, Unescape(text[next..]))
    && (ScanLength(text[from..]) >= 0 ==> ScanLength(text[next..]) >= 0)
    && |added| + ScanLength(text[next..]) <= ScanLength(text[from..])
  }

  lemma PrependNothing(p: Parsed<string>)
    ensures Prepend("", p) == p
  {
    assert p.Ok? ==> "" + p.value == p.value;
  }

  lemma UnicodeSteps(text: string, i: nat)
    requires i + 6 <= |text| && text[i] == '\\' && text[i + 1] == 'u' && FourPlain(text[i + 2..])
    requires ScanLength(text[i..]) >= 0
    ensures var uc := HexOrZero(text[i + 2..]);
            && ((0xDC00 <= uc <= 0xDFFF || uc == 0) ==> Step(text, i, i + 6, ""))
            && (0 < uc && !(0xD800 <= uc <= 0xDFFF) ==> Step(text, i, i + 6, Encode(uc)))
            && (0xD800 <= uc <= 0xDBFF && !(At(text[i + 6..]) == '\\' && At(text[i + 7..]) == 'u') ==> Step(text, i, i + 6, ""))
  {
    hide Encode, Combine, HexOrZero, FourPlain;
    var s := text[i..];
    assert s[1..] == text[i + 1..] && s[2..] == text[i + 2..] && s[6..] == text[i + 6..];
    assert |s| > 6 ==> s[7..] == text[i + 7..];
    ScanFour(s);
    assert Unescape(s) == UnescapeUnicode(s);
    PrependNothing(Unescape(s[6..]));
  }

  lemma PairSteps(text: string, i: nat)
    requires i + 8 <= |text| && text[i] == '\\' && text[i + 1] == 'u' && FourPlain(text[i + 2..])
    requires 0xD800 <= HexOrZero(text[i + 2..]) <= 0xDBFF
    requires text[i + 6] == '\\' && text[i + 7] == 'u'
    requires ScanLength(text[i..]) >= 0
    ensures !FourPlain(text[i + 8..]) ==> Unescape(text[i..]) == Malformed
    ensures FourPlain(text[i + 8..]) ==>
              var uc2 := HexOrZero(text[i + 8..]);
              if uc2 < 0xDC00 || uc2 > 0xDFFF then Step(text, i, i + 12, "")
              else Step(text, i, i + 12, Encode(Combine(HexOrZero(text[i + 2..]), uc2)))
  {
    hide HexOrZero, Encode, Combine;
    var s := text[i..];
    assert s[1..] == text[i + 1..] && s[2..] == text[i + 2..] && s[6..] == text[i + 6..];
    assert s[7..] == text[i + 7..] && s[8..] == text[i + 8..];
    assert Unescape(s) == UnescapeUnicode(s);
    if FourPlain(s[8..]) {
      assert s[12..] == text[i + 12..] && s[6..][2..] == s[8..] && s[6..][6..] == s[12..];
      ScanFour(s);
      ScanFour(s[6..]);
      PrependNothing(Unescape(s[12..]));
    }
  }

  /** The branch for a backslash, with the cursor on it. */
  method PutEscape(text: string, ptr: nat, out: array<char>, p: nat, ghost done: string)
    returns (ok: bool, ptr': nat, p': nat, ghost done': string, ghost added: string)
    requires ptr < |text| && text[ptr] == '\\'
    requires |done| == p && p + ScanLength(text[ptr..]) <= out.Length && ScanLength(text[ptr..]) >= 0
    requires Written(out, done)
    modifies out
    ensures |done'| == p' && Written(out, done')
    ensures !ok ==> Unescape(text[ptr..]) == Malformed
    ensures ok ==> done' == done + added && ptr' > ptr && Step(text, ptr, ptr', added)
  {
    hide Encode, Combine, HexOrZero;
    p', done', added, ptr' := p, done, "", ptr;
    ghost var s := text[ptr..];
    assert s[1..] == text[ptr + 1..];
    assert CharAt(text, ptr + 1) != '\0';
    assert s[2..] == text[ptr + 2..];
    if text[ptr + 1] != 'u' {
      added := [LongEscape(text[ptr + 1])];
      done' := Put(out, p, LongEscape(text[ptr + 1]), done);
      return true, ptr + 2, p + 1, done', added;
    }
    if !FourPlain(text[ptr + 2..]) {
      return false, ptr, p, done, "";
    }
    UnicodeSteps(text, ptr);
    var uc := HexOrZero(text[ptr + 2..]);
    if 0xDC00 <= uc <= 0xDFFF || uc == 0 {
      return true, ptr + 6, p, done, "";
    }
    var next := ptr + 6;
    if 0xD800 <= uc <= 0xDBFF {
      if CharAt(text, ptr + 6) != '\\' || CharAt(text, ptr + 7) != 'u' {
        return true, ptr + 6, p, done, "";
      }
      PairSteps(text, ptr);
      if !FourPlain(text[ptr + 8..]) {
        return false, ptr, p, done, "";
      }
      var uc2 := HexOrZero(text[ptr + 8..]);
      if uc2 < 0xDC00 || uc2 > 0xDFFF {
        return true, ptr + 12, p, done, "";
      }
      uc, next := Surrogates(uc, uc2), ptr + 12;
    }
    p', done' := PutCodePoint(out, p, uc, done);
    return true, next, p', done', Encode(uc);
  }

  /** `0x10000 + (((uc & 0x3FF) << 10) | (uc2 & 0x3FF))`. */
  function Surrogates(uc: nat, uc2: nat): (cp: nat)
    requires uc < 0x10000 && uc2 < 0x10000
    ensures cp == Combine(uc, uc2)
  {
    Masks(uc);
    Masks(uc2);
    Powers();
    OrHigh(And(uc2, 0x3FF), And(uc, 0x3FF), 10);
    ShlTen(And(uc, 0x3FF));
    0x10000 + Or(Shl(And(uc, 0x3FF), 10), And(uc2, 0x3FF))
  }

  /** parse_string. The buffer of `len + 1` characters is never overrun. */
  method ParseStringAt(text: string, str: nat) returns (r: Outcome<string>)
    requires str <= |text|
    ensures Agrees(r, ParseString(text[str..]), text)
    ensures r.Done? ==> r.next > str
  {
    hide Unescape, UnescapeUnicode, ScanLength;
    if CharAt(text, str) != '\"' { return Failed(str); }
    ghost var start := text[str + 1..];
    assert text[str..][1..] == start;
    ScanBoundsUnescape(start);
    var len := FirstPass(text, str + 1);
    if len < 0 { return Cut; }
    var out := new char[len + 1];
    var ptr, ptr2 := str + 1, 0;
    ghost var done := "";
    PrependNothing(Unescape(start));
    while CharAt(text, ptr) != '\"' && CharAt(text, ptr) != '\0'
      invariant str + 1 <= ptr <= |text|
      invariant |done| == ptr2 && Written(out, done)
      invariant ScanLength(text[ptr..]) >= 0 && ptr2 + ScanLength(text[ptr..]) <= len
      invariant Unescape(start) == Prepend(done, Unescape(text[ptr..]))
      decreases |text| - ptr
    {
      ghost var before, added := done, [text[ptr]];
      if text[ptr] != '\\' {
        RawStep(text, ptr);
        done := Put(out, ptr2, text[ptr], done);
        ptr, ptr2 := ptr + 1, ptr2 + 1;
      } else {
        var ok;
        ok, ptr, ptr2, done, added := PutEscape(text, ptr, out, ptr2, done);
        if !ok { return Cut; }
      }
      PrependPrepend(before, added, Unescape(text[ptr..]));
    }
    out[ptr2] := '\0';
    LastStep(text, ptr);
    assert out[..ptr2] == done == done + "";
    r := Done(out[..ptr2], if CharAt(text, ptr) == '\"' then ptr + 1 else ptr);
  }

  lemma RawStep(text: string, i: nat)
    requires i < |text| && text[i] != '\"' && text[i] != '\0' && text[i] != '\\'
    requires ScanLength(text[i..]) >= 0
    ensures Step(text, i, i + 1, [text[i]])
  {
    assert text[i..][1..] == text[i + 1..];
  }

  lemma LastStep(text: string, i: nat)
    requires i <= |text|
    ensures At(text[i..]) == '\"' ==> Unescape(text[i..]) == Ok("", text[i + 1..])
    ensures At(text[i..]) == '\0' ==> Unescape(text[i..]) == Ok("", text[i..])
  {}

  // ----- Numbers -----

  method DigitsAt(text: string, from: nat, n: nat) returns (i: nat, m: nat)
    requires from <= |text|
    ensures from <= i <= |text| && Digits(n, text[from..]) == (m, text[i..])
  {
    i, m := from, n;
    while IsDigit(CharAt(text, i))
      invariant from <= i <= |text|
      invariant Digits(m, text[i..]) == Digits(n, text[from..])
      decreases |text| - i
    {
      assert text[i..][1..] == text[i + 1..];
      m := m * 10 + (text[i] as int - '0' as int);
      i := i + 1;
    }
  }

  method MantissaAt(text: string, start: nat) returns (num: nat, n: nat, scale: int)
    requires start <= |text|
    ensures start <= num <= |text| && Mantissa(text[start..]) == (n, scale, text[num..])
  {
    hide Digits;
    num, n, scale := start, 0, 0;
    ghost var s := text[start..];
    if CharAt(text, num) == '0' { num := num + 1; }
    ghost var s2 := if At(s) == '0' then s[1..] else s;
    assert s2 == text[num..];
    if '1' <= CharAt(text, num) <= '9' { num, n := DigitsAt(text, num, 0); }
    if CharAt(text, num) == '.' {
      ghost var s3 := text[num..];
      assert s3[1..] == text[num + 1..];
      if IsDigit(CharAt(text, num + 1)) {
        var dot := num;
        num, n := DigitsAt(text, num + 1, n);
        scale := dot + 1 - num;
      }
    }
  }

  method ExponentAt(text: string, start: nat) returns (num: nat, e: int)
    requires start <= |text|
    ensures start <= num <= |text| && Exponent(text[start..]) == (e, text[num..])
  {
    hide Digits;
    num, e := start, 0;
    if CharAt(text, num) == 'e' || CharAt(text, num) == 'E' {
      ghost var s := text[num..];
      num := num + 1;
      assert s[1..] == text[num..];
      var negative := CharAt(text, num) == '-';
      if negative || CharAt(text, num) == '+' {
        num := num + 1;
        assert s[2..] == text[num..];
      }
      var n;
      num, n := DigitsAt(text, num, 0);
      e := n;
      if negative { e := -e; }
    }
  }

  method ParseNumberAt(text: string, start: nat) returns (r: Outcome<Json>)
    requires start <= |text|
    ensures Agrees(r, ParseNumber(text[start..]), text)
  {
    hide Mantissa, Exponent;
    var negative := CharAt(text, start) == '-';
    var num := if negative then start + 1 else start;
    assert negative ==> text[start..][1..] == text[num..];
    var n, scale, e;
    num, n, scale := MantissaAt(text, num);
    num, e := ExponentAt(text, num);
    var m: int := n;
    if negative { m := -m; }
    r := Done(Number(m, scale + e), num);
  }

  // ----- Values -----

  /** `strncmp(value, word, strlen(word)) == 0`. */
  predicate StartsAt(text: string, i: nat, word: string)
    requires i <= |text|
  {
    i + |word| <= |text| && text[i..i + |word|] == word
  }

  lemma StartsIsPrefix(text: string, i: nat, word: string)
    requires i <= |text|
    ensures StartsAt(text, i, word) <==> word <= text[i..]
    ensures StartsAt(text, i, word) ==> text[i..][|word|..] == text[i + |word|..]
  {}

  method ParseValueAt(text: string, value: nat) returns (r: Outcome<Json>)
    requires value <= |text|
    ensures Agrees(r, ParseValue(text[value..]), text)
    ensures r.Done? ==> r.next > value
    decreases |text| - value, 1
  {
    hide ParseNumber, ParseString, ParseItems, ParseMembers, Skip;
    StartsIsPrefix(text, value, "null");
    StartsIsPrefix(text, value, "false");
    StartsIsPrefix(text, value, "true");
    if StartsAt(text, value, "null") { return Done(Null, value + 4); }
    if StartsAt(text, value, "false") { return Done(False, value + 5); }
    if StartsAt(text, value, "true") { return Done(True, value + 4); }
    if CharAt(text, value) == '\"' {
      var s := ParseStringAt(text, value);
      match s
      case Done(t, next) => return Done(String(t), next);
      case Failed(ep) => return Failed(ep);
      case Cut => return Cut;
    }
    if CharAt(text, value) == '-' || IsDigit(CharAt(text, value)) {
      r := ParseNumberAt(text, value);
      return;
    }
    if CharAt(text, value) == '[' { r := ParseArrayAt(text, value); return; }
    if CharAt(text, value) == '{' { r := ParseObjectAt(text, value); return; }
    r := Failed(value);
  }

  lemma ArraySpec(text: string, value: nat, first: nat)
    requires value < |text| && text[value] == '['
    requires first <= |text| && text[first..] == Skip(text[value + 1..])
    ensures ParseValue(text[value..])
         == if At(text[first..]) == ']' then Ok(Array([]), text[first + 1..]) else ParseItems(text[first..], [])
  {
    hide ParseItems, Skip;
    assert text[value..][1..] == text[value + 1..];
  }

  lemma ItemsFail(text: string, i: nat, j: nat, items: seq<Json>)
    requires i <= |text| && j <= |text| && text[j..] == Skip(text[i..])
    ensures !ParseValue(text[j..]).Ok? ==> ParseItems(text[i..], items) == ParseValue(text[j..])
  {
    hide ParseValue, Skip;
  }

  /** A turn of the loop of parse_array: from `i`, blanks to `j`, a value up to `next`, blanks to `k`. */
  lemma ItemsTurn(text: string, i: nat, j: nat, v: Json, next: nat, k: nat, items: seq<Json>)
    requires i <= |text| && j <= |text| && next <= |text| && k <= |text|
    requires text[j..] == Skip(text[i..]) && ParseValue(text[j..]) == Ok(v, text[next..]) && text[k..] == Skip(text[next..])
    ensures At(text[k..]) == ',' ==> ParseItems(text[i..], items) == ParseItems(text[k + 1..], items + [v])
    ensures At(text[k..]) == ']' ==> ParseItems(text[i..], items) == Ok(Array(items + [v]), text[k + 1..])
    ensures At(text[k..]) != ',' && At(text[k..]) != ']' ==> ParseItems(text[i..], items) == Err(text[k..])
  {
    hide ParseValue, Skip;
    assert k < |text| ==> text[k..][1..] == text[k + 1..];
  }

  method ParseArrayAt(text: string, value: nat) returns (r: Outcome<Json>)
    requires value < |text| && text[value] == '['
    ensures Agrees(r, ParseValue(text[value..]), text)
    ensures r.Done? ==> r.next > value
    decreases |text| - value, 0
  {
    var i := SkipBlanks(text, value + 1);
    ArraySpec(text, value, i);
    hide ParseValue, ParseItems, Skip;
    if CharAt(text, i) == ']' { return Done(Array([]), i + 1); }
    ghost var spec := ParseItems(text[i..], []);
    var items := [];
    while true
      invariant value < i <= |text|
      invariant ParseItems(text[i..], items) == spec
      decreases |text| - i
    {
      var more;
      r, more, i, items := ParseItemAt(text, i, items);
      if !more { return; }
    }
  }

  method ParseItemAt(text: string, i: nat, items: seq<Json>)
    returns (r: Outcome<Json>, more: bool, next: nat, items': seq<Json>)
    requires i <= |text|
    ensures more ==> i < next <= |text| && ParseItems(text[i..], items) == ParseItems(text[next..], items')
    ensures !more ==> Agrees(r, ParseItems(text[i..], items), text)
    ensures !more && r.Done? ==> r.next > i
    decreases |text| - i, 2
  {
    hide ParseValue, ParseItems, Skip;
    more, next, items' := false, i, items;
    var j := SkipBlanks(text, i);
    ItemsFail(text, i, j, items);
    var child := ParseValueAt(text, j);
    if child.Failed? { r := Failed(child.ep); return; }
    if child.Cut? { r := Cut; return; }
    var k := SkipBlanks(text, child.next);
    ItemsTurn(text, i, j, child.value, child.next, k, items);
    items' := items + [child.value];
    if CharAt(text, k) == ',' {
      return Cut, true, k + 1, items';
    }
    r := if CharAt(text, k) == ']' then Done(Array(items'), k + 1) else Failed(k);
  }

  lemma ObjectSpec(text: string, value: nat, first: nat)
    requires value < |text| && text[value] == '{'
    requires first <= |text| && text[first..] == Skip(text[value + 1..])
    ensures ParseValue(text[value..])
         == if At(text[first..]) == '}' then Ok(Object([]), text[first + 1..]) else ParseMembers(text[first..], [])
  {
    hide ParseMembers, Skip;
    assert text[value..][1..] == text[value + 1..];
  }

  /** A turn of the loop of parse_object, up to the colon. */
  lemma KeyTurn(text: string, i: nat, j: nat, ms: seq<Member>)
    requires i <= |text| && j <= |text| && text[j..] == Skip(text[i..])
    ensures ParseString(text[j..]).Err? ==> ParseMembers(text[i..], ms) == Err(ParseString(text[j..]).at)
    ensures ParseString(text[j..]).Malformed? ==> ParseMembers(text[i..], ms) == Malformed
    ensures ParseString(text[j..]).Ok? ==>
              var key, rest := ParseString(text[j..]).value, Skip(ParseString(text[j..]).rest);
              ParseMembers(text[i..], ms) == if At(rest) != ':' then Err(rest) else ParseMemberValue(rest[1..], key, ms)
  {
    hide ParseValue, ParseString, Skip;
  }

  /** The rest of the turn, after the colon. */
  ghost function ParseMemberValue(s: string, key: string, ms: seq<Member>): Parsed<Json> {
    match ParseValue(Skip(s))
    case Err(at) => Err(at)
    case Malformed => Malformed
    case Ok(v, rest) =>
      var s2 := Skip(rest);
      if At(s2) == ',' then ParseMembers(s2[1..], ms + [Member(key, v)])
      else if At(s2) == '}' then Ok(Object(ms + [Member(key, v)]), s2[1..])
      else Err(s2)
  }

  method ParseMemberAt(text: string, colon: nat, key: string, ms: seq<Member>)
    returns (r: Outcome<Json>, more: bool, next: nat, ms': seq<Member>)
    requires colon < |text|
    ensures more ==> colon < next <= |text| && ParseMemberValue(text[colon + 1..], key, ms) == ParseMembers(text[next..], ms')
    ensures !more ==> Agrees(r, ParseMemberValue(text[colon + 1..], key, ms), text)
    ensures !more && r.Done? ==> r.next > colon
    decreases |text| - colon, 0
  {
    hide ParseValue, ParseMembers, Skip;
    more, next, ms' := false, colon, ms;
    var j := SkipBlanks(text, colon + 1);
    var child := ParseValueAt(text, j);
    if child.Failed? { r := Failed(child.ep); return; }
    if child.Cut? { r := Cut; return; }
    var k := SkipBlanks(text, child.next);
    ghost var rest := text[k..];
    assert k < |text| ==> rest[1..] == text[k + 1..];
    ms' := ms + [Member(key, child.value)];
    if CharAt(text, k) == ',' {
      return Cut, true, k + 1, ms';
    }
    r := if CharAt(text, k) == '}' then Done(Object(ms'), k + 1) else Failed(k);
  }

  method ParseObjectAt(text: string, value: nat) returns (r: Outcome<Json>)
    requires value < |text| && text[value] == '{'
    ensures Agrees(r, ParseValue(text[value..]), text)
    ensures r.Done? ==> r.next > value
    decreases |text| - value, 0
  {
    var i := SkipBlanks(text, value + 1);
    ObjectSpec(text, value, i);
    hide ParseValue, ParseMembers, ParseMemberValue, ParseString, Skip;
    if CharAt(text, i) == '}' { return Done(Object([]), i + 1); }
    ghost var spec := ParseMembers(text[i..], []);
    var members := [];
    while true
      invariant value < i <= |text|
      invariant ParseMembers(text[i..], members) == spec
      decreases |text| - i
    {
      var more;
      r, more, i, members := ParseKeyAt(text, i, members);
      if !more { return; }
    }
  }

  /** One turn of the loop, up to the colon and then through the value. */
  method ParseKeyAt(text: string, i: nat, ms: seq<Member>)
    returns (r: Outcome<Json>, more: bool, next: nat, ms': seq<Member>)
    requires i <= |text|
    ensures more ==> i < next <= |text| && ParseMembers(text[i..], ms) == ParseMembers(text[next..], ms')
    ensures !more ==> Agrees(r, ParseMembers(text[i..], ms), text)
    ensures !more && r.Done? ==> r.next > i
    decreases |text| - i, 1
  {
    hide ParseValue, ParseMembers, ParseMemberValue, ParseString, Skip;
    more, next, ms' := false, i, ms;
    var j := SkipBlanks(text, i);
    KeyTurn(text, i, j, ms);
    var key := ParseStringAt(text, j);
    if key.Failed? { r := Failed(key.ep); return; }
    if key.Cut? { r := Cut; return; }
    var k := SkipBlanks(text, key.next);
    if CharAt(text, k) != ':' { r := Failed(k); return; }
    assert text[k..][1..] == text[k + 1..];
    r, more, next, ms' := ParseMemberAt(text, k, key.value, ms);
  }

  /** cJSON_ParseWithOpts. */
  method ParseText(text: string, requireEnd: bool) returns (r: Outcome<Json>)
    ensures Agrees(r, Parse(text, requireEnd), text)
  {
    hide ParseValue, Skip;
    assert text[0..] == text;
    var i := SkipBlanks(text, 0);
    r := ParseValueAt(text, i);
    if r.Done? && requireEnd {
      var end := SkipBlanks(text, r.next);
      r := if CharAt(text, end) != '\0' then Failed(end) else Done(r.value, end);
    }
  }
}
