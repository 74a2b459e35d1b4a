/**
The printers of tools/cJSON/cJSON.c as they run: each computes how much to allocate,
allocates that much, and then writes. Every write below is inside its buffer, and the
buffer ends up holding the text that `CJson.Print` specifies.
*/
module CJsonPrint {
  import opened CBuffer
  import opened CJson
  import opened Utf8

  // ----- Printed text is a C string -----

  lemma {:induction false} EscapeNulFree(s: string)
    requires NulFree(s)
    ensures NulFree(Escape(s))
  {
    if s != "" {
      EscapeNulFree(s[1..]);
    }
  }

  lemma {:induction false} IntNulFree(n: nat)
    ensures NulFree(Decimal(n))
  {
    if n >= 10 {
      IntNulFree(n / 10);
    }
  }

  lemma {:induction false} TabsAre(n: nat)
    ensures Tabs(n) == seq(n, _ => '\t')
  {
    if n > 0 {
      TabsAre(n - 1);
      assert "\t" + seq(n - 1, _ => '\t') == seq(n, _ => '\t');
    }
  }

  lemma {:induction false} PrintNulFree(j: Json, depth: nat, fmt: bool)
    requires Printable(j)
    ensures NulFree(Print(j, depth, fmt))
    decreases j, 1
  {
    hide PrintItems, PrintMembers, Tabs, Decimal, Escape;
    match j
    case Number(m, _) => IntNulFree(if m < 0 then -m else m);
    case String(s) => EscapeNulFree(s);
    case Array(items) => ItemsNulFree(items, depth + 1, fmt);
    case Object(ms) =>
      MembersNulFree(ms, depth + 1, fmt);
      ObjectNulFree(ms, depth, fmt);
    case _ =>
  }

  lemma ObjectNulFree(ms: seq<Member>, depth: nat, fmt: bool)
    requires NulFree(PrintMembers(ms, depth + 1, fmt))
    ensures NulFree(Print(Object(ms), depth, fmt))
  {
    hide PrintMembers;
    TabsAre(depth);
    if depth > 0 { TabsAre(depth - 1); }
  }

  lemma {:induction false} ItemsNulFree(items: seq<Json>, depth: nat, fmt: bool)
    requires PrintableItems(items)
    ensures NulFree(PrintItems(items, depth, fmt))
    decreases items, 0
  {
    if items != [] {
      PrintNulFree(items[0], depth, fmt);
      ItemsNulFree(items[1..], depth, fmt);
    }
  }

  lemma {:induction false} MembersNulFree(ms: seq<Member>, depth: nat, fmt: bool)
    requires PrintableMembers(ms)
    ensures NulFree(PrintMembers(ms, depth, fmt))
    decreases ms, 0
  {
    hide Print, Escape, Tabs;
    if ms != [] {
      EscapeNulFree(ms[0].key);
      PrintNulFree(ms[0].value, depth, fmt);
      TabsAre(depth);
      MembersNulFree(ms[1..], depth, fmt);
    }
  }

  // ----- Strings: the precomputed length is exact -----

  lemma EscapeStep(s: string, i: nat)
    requires i < |s|
    ensures Escape(s[i..]) == EscapeChar(s[i]) + Escape(s[i + 1..])
  {
    assert s[i..][1..] == s[i + 1..];
  }

  /** The first loop of print_string_ptr. */
  method EscapedLength(str: string) returns (len: nat)
    requires NulFree(str)
    ensures len == |Escape(str)|
  {
    len := 0;
    for i := 0 to |str|
      invariant len + |Escape(str[i..])| == |Escape(str)|
    {
      EscapeStep(str, i);
      len := len + 1;
      if str[i] in "\"\\\U{8}\U{C}\n\r\t" {
        len := len + 1;
      } else if str[i] as int < 32 {
        len := len + 5;
      }
    }
  }

  /** The second loop's body: one character, escaped where it must be. */
  method PutEscaped(out: array<char>, p: nat, c: char, ghost text: string) returns (p': nat, ghost text': string)
    requires c != '\0'
    requires |text| == p && p + |EscapeChar(c)| < out.Length && Written(out, text)
    modifies out
    ensures |text'| == p' && text' == text + EscapeChar(c) && Written(out, text')
  {
    if c as int > 31 && c != '\"' && c != '\\' {
      text' := Put(out, p, c, text);
      p' := p + 1;
    } else {
      text' := Put(out, p, '\\', text);
      if ShortEscape(c) != '\0' {
        text' := Put(out, p + 1, ShortEscape(c), text');
        p' := p + 2;
      } else {
        p', text' := CopyText(out, p + 1, "u00" + Utf8.HexByte(c as int % 256), text');
      }
    }
  }

  /** print_string_ptr: `len + 3` characters, all of them used. */
  method PrintString(str: string) returns (out: array<char>)
    requires NulFree(str)
    ensures fresh(out) && out.Length == |Quote(str)| + 1 && Holds(out, Quote(str))
  {
    hide EscapeChar, ShortEscape;
    var len := EscapedLength(str);
    out := new char[len + 3];
    ghost var text := Put(out, 0, '\"', "");
    var ptr2 := 1;
    for i := 0 to |str|
      invariant |text| == ptr2 && Written(out, text)
      invariant text + Escape(str[i..]) == "\"" + Escape(str)
    {
      ghost var before, rest := text, Escape(str[i + 1..]);
      EscapeStep(str, i);
      ptr2, text := PutEscaped(out, ptr2, str[i], text);
      assert before + (EscapeChar(str[i]) + rest) == text + rest;
    }
    assert text == "\"" + Escape(str);
    text := Put(out, ptr2, '\"', text);
    text := Put(out, ptr2 + 1, '\0', text);
    EscapeNulFree(str);
  }

  // ----- Numbers -----

  lemma {:induction false} DecimalLength(n: nat, bound: nat, digits: nat)
    requires n < bound && digits > 0 && bound == Pow10(digits)
    ensures |Decimal(n)| <= digits
  {
    if n >= 10 {
      DecimalLength(n / 10, bound / 10, digits - 1);
    }
  }

  function Pow10(k: nat): nat { if k == 0 then 1 else 10 * Pow10(k - 1) }

  /** print_number on an `int`: 21 characters are always enough. */
  method PrintNumber(n: int) returns (out: array<char>)
    requires INT_MIN <= n <= INT_MAX
    ensures fresh(out) && out.Length == 21 && Holds(out, PrintInt(n))
  {
    var m := if n < 0 then -n else n;
    DecimalLength(m, 10_000_000_000, 10);
    IntNulFree(m);
    out := new char[21];
    ghost var text;
    var p;
    p, text := CopyText(out, 0, PrintInt(n), "");
    assert text == PrintInt(n);
  }

  // ----- Arrays and objects -----

  function Bit(b: bool): nat { if b then 1 else 0 }

  /** What print_array adds to `len` for these elements. */
  ghost function ItemsCost(items: seq<Json>, depth: nat, fmt: bool): nat {
    if items == [] then 0
    else |Print(items[0], depth, fmt)| + 2 + Bit(fmt) + ItemsCost(items[1..], depth, fmt)
  }

  /** What print_object adds to `len` for these members. */
  ghost function MembersCost(ms: seq<Member>, depth: nat, fmt: bool): nat {
    if ms == [] then 0
    else
      |Print(ms[0].value, depth, fmt)| + |Quote(ms[0].key)| + 2 + (if fmt then 2 + depth else 0)
      + MembersCost(ms[1..], depth, fmt)
  }

  lemma {:induction false} ItemsLength(items: seq<Json>, depth: nat, fmt: bool)
    ensures |PrintItems(items, depth, fmt)| + |items| + (if items == [] then 0 else 1 + Bit(fmt))
         == ItemsCost(items, depth, fmt)
  {
    if items != [] {
      ItemsLength(items[1..], depth, fmt);
    }
  }

  lemma {:induction false} MembersLength(ms: seq<Member>, depth: nat, fmt: bool)
    ensures |PrintMembers(ms, depth, fmt)| + (if ms == [] then 0 else 1) == MembersCost(ms, depth, fmt)
  {
    if ms != [] {
      TabsAre(depth);
      MembersLength(ms[1..], depth, fmt);
    }
  }

  /** `if (cond) *p++ = c`. */
  method PutIf(out: array<char>, p: nat, cond: bool, c: char, ghost text: string) returns (p': nat, ghost text': string)
    requires p < out.Length && |text| == p && Written(out, text)
    modifies out
    ensures text' == text + (if cond then [c] else "") && p' == |text'| && Written(out, text')
  {
    p', text' := p, text;
    if cond {
      text' := Put(out, p, c, text);
      p' := p + 1;
    }
  }

  ghost predicate ItemTexts(entries: seq<string>, items: seq<Json>, depth: nat, fmt: bool) {
    |entries| == |items| && forall i | 0 <= i < |items| :: entries[i] == Print(items[i], depth, fmt)
  }

  /** The text is there, terminator included, and nothing was written past the allocation. */
  ghost predicate Rendered(out: array<char>, j: Json, depth: nat, fmt: bool)
    reads out
  {
    Holds(out, Print(j, depth, fmt)) && |Print(j, depth, fmt)| + 1 <= out.Length
  }

  method PrintValue(j: Json, depth: nat, fmt: bool) returns (out: array<char>)
    requires Printable(j)
    ensures fresh(out) && Rendered(out, j, depth, fmt)
    decreases j, 1
  {
    match j
    case Null => out := Duplicate("null");
    case False => out := Duplicate("false");
    case True => out := Duplicate("true");
    case Number(m, _) => out := PrintNumber(m);
    case String(s) => out := PrintString(s);
    case Array(items) => out := PrintArray(items, depth, fmt);
    case Object(ms) => out := PrintObject(ms, depth, fmt);
  }

  method PrintArray(items: seq<Json>, depth: nat, fmt: bool) returns (out: array<char>)
    requires PrintableItems(items)
    ensures fresh(out) && Rendered(out, Array(items), depth, fmt)
    ensures items != [] ==> out.Length == |Print(Array(items), depth, fmt)| + |items| + 4 + Bit(fmt)
    decreases items, 3
  {
    if items == [] {
      out := Duplicate("[]");
      return;
    }
    var len, entries := 5, [];
    for i := 0 to |items|
      invariant ItemTexts(entries, items[..i], depth + 1, fmt)
      invariant len + ItemsCost(items[i..], depth + 1, fmt) == 5 + ItemsCost(items, depth + 1, fmt)
    {
      var ret := PrintValue(items[i], depth + 1, fmt);
      var text := Text(ret, Print(items[i], depth + 1, fmt));
      entries := entries + [text];
      len := len + |text| + 2 + Bit(fmt);
      assert items[i..][1..] == items[i + 1..];
    }
    assert items[..|items|] == items;
    out := ComposeArray(items, entries, len, depth, fmt);
  }

  /** The second half of print_array: everything fits into the `len` characters allocated. */
  method ComposeArray(items: seq<Json>, entries: seq<string>, len: nat, depth: nat, fmt: bool) returns (out: array<char>)
    requires items != [] && PrintableItems(items)
    requires ItemTexts(entries, items, depth + 1, fmt)
    requires len == 5 + ItemsCost(items, depth + 1, fmt)
    ensures fresh(out) && out.Length == len && Rendered(out, Array(items), depth, fmt)
    ensures out.Length == |Print(Array(items), depth, fmt)| + |items| + 4 + Bit(fmt)
  {
    hide Print, PrintItems;
    ItemsLength(items, depth + 1, fmt);
    ArrayText(items, depth, fmt);
    ghost var all := PrintItems(items, depth + 1, fmt);
    out := new char[len];
    ghost var text := Put(out, 0, '[', "");
    var ptr := 1;
    for i := 0 to |items|
      invariant |text| == ptr && Written(out, text)
      invariant text + PrintItems(items[i..], depth + 1, fmt) == "[" + all
    {
      ghost var rest := PrintItems(items[i + 1..], depth + 1, fmt);
      ItemsStep(text, items, i, depth + 1, fmt);
      ptr, text := CopyText(out, ptr, entries[i], text);
      ptr, text := PutIf(out, ptr, i != |items| - 1, ',', text);
      ptr, text := PutIf(out, ptr, i != |items| - 1 && fmt, ' ', text);
    }
    assert text == "[" + all;
    text := Put(out, ptr, ']', text);
    text := Put(out, ptr + 1, '\0', text);
    PrintNulFree(Array(items), depth, fmt);
  }

  lemma ArrayText(items: seq<Json>, depth: nat, fmt: bool)
    ensures Print(Array(items), depth, fmt) == "[" + PrintItems(items, depth + 1, fmt) + "]"
    ensures PrintItems(items[|items|..], depth + 1, fmt) == ""
    ensures PrintItems(items[0..], depth + 1, fmt) == PrintItems(items, depth + 1, fmt)
  {
    assert items[0..] == items;
  }

  lemma ItemsStep(text: string, items: seq<Json>, i: nat, depth: nat, fmt: bool)
    requires i < |items|
    ensures text + PrintItems(items[i..], depth, fmt)
         == text + Print(items[i], depth, fmt) + (if i != |items| - 1 then [','] else "")
            + (if i != |items| - 1 && fmt then [' '] else "") + PrintItems(items[i + 1..], depth, fmt)
  {
    assert items[i..][1..] == items[i + 1..];
  }

  ghost predicate MemberTexts(names: seq<string>, entries: seq<string>, ms: seq<Member>, depth: nat, fmt: bool) {
    && |names| == |entries| == |ms|
    && forall i | 0 <= i < |ms| :: names[i] == Quote(ms[i].key) && entries[i] == Print(ms[i].value, depth, fmt)
  }

  /** The first loop of print_object: all texts, and the space they take. */
  method CollectMembers(ms: seq<Member>, depth: nat, fmt: bool) returns (names: seq<string>, entries: seq<string>, len: nat)
    requires PrintableMembers(ms)
    ensures MemberTexts(names, entries, ms, depth, fmt) && len == MembersCost(ms, depth, fmt)
    decreases ms, 2
  {
    hide Print, Quote, MembersCost, Printable;
    names, entries, len := [], [], 0;
    assert ms[0..] == ms;
    for i := 0 to |ms|
      invariant |names| == |entries| == i
      invariant forall k | 0 <= k < i :: names[k] == Quote(ms[k].key) && entries[k] == Print(ms[k].value, depth, fmt)
      invariant len + MembersCost(ms[i..], depth, fmt) == MembersCost(ms, depth, fmt)
    {
      MembersCostStep(ms, i, depth, fmt);
      var name, entry := PrintMemberTexts(ms[i], depth, fmt);
      names, entries := names + [name], entries + [entry];
      len := len + |entry| + |name| + 2 + (if fmt then 2 + depth else 0);
    }
    NoMembersCost(ms, depth, fmt);
  }

  /** The two texts of a member. */
  method PrintMemberTexts(m: Member, depth: nat, fmt: bool) returns (name: string, entry: string)
    requires NulFree(m.key) && Printable(m.value)
    ensures name == Quote(m.key) && entry == Print(m.value, depth, fmt)
    decreases m, 2
  {
    hide Print, Quote, Printable;
    var str := PrintString(m.key);
    name := Text(str, Quote(m.key));
    var ret := PrintValue(m.value, depth, fmt);
    entry := Text(ret, Print(m.value, depth, fmt));
  }

  lemma MembersCostStep(ms: seq<Member>, i: nat, depth: nat, fmt: bool)
    requires i < |ms|
    ensures MembersCost(ms[i..], depth, fmt)
         == |Print(ms[i].value, depth, fmt)| + |Quote(ms[i].key)| + 2 + (if fmt then 2 + depth else 0)
            + MembersCost(ms[i + 1..], depth, fmt)
  {
    assert ms[i..][1..] == ms[i + 1..];
  }

  lemma NoMembersCost(ms: seq<Member>, depth: nat, fmt: bool)
    ensures MembersCost(ms[|ms|..], depth, fmt) == 0
  {
  }

  method PrintObject(ms: seq<Member>, depth: nat, fmt: bool) returns (out: array<char>)
    requires PrintableMembers(ms)
    ensures fresh(out) && Rendered(out, Object(ms), depth, fmt)
    ensures ms != [] ==> out.Length == |Print(Object(ms), depth, fmt)| + 6
    decreases ms, 3
  {
    if ms == [] {
      out := PrintEmptyObject(depth, fmt);
      return;
    }
    hide Print;
    var names, entries, len := CollectMembers(ms, depth + 1, fmt);
    len := len + 7;
    if fmt { len := len + depth + 1; }
    out := ComposeObject(ms, names, entries, len, depth, fmt);
  }

  /** The empty object: `depth + 4` or 3 characters. */
  method PrintEmptyObject(depth: nat, fmt: bool) returns (out: array<char>)
    ensures fresh(out) && Rendered(out, Object([]), depth, fmt)
  {
    out := new char[if fmt then depth + 4 else 3];
    ghost var text := Put(out, 0, '{', "");
    var ptr := 1;
    if fmt {
      text := Put(out, ptr, '\n', text);
      var tabs := if depth == 0 then 0 else depth - 1;
      TabsAre(tabs);
      ptr, text := Fill(out, ptr + 1, '\t', tabs, text);
    }
    text := Put(out, ptr, '}', text);
    text := Put(out, ptr + 1, '\0', text);
    PrintNulFree(Object([]), depth, fmt);
    EmptyObjectText(depth, fmt);
  }

  lemma EmptyObjectText(depth: nat, fmt: bool)
    ensures Print(Object([]), depth, fmt)
         == if fmt then ['{'] + ['\n'] + Tabs(if depth == 0 then 0 else depth - 1) + ['}'] else ['{'] + ['}']
  {}

  /** The second half of print_object: everything fits into the `len` characters allocated. */
  method ComposeObject(ms: seq<Member>, names: seq<string>, entries: seq<string>, len: nat, depth: nat, fmt: bool)
    returns (out: array<char>)
    requires ms != [] && PrintableMembers(ms)
    requires MemberTexts(names, entries, ms, depth + 1, fmt)
    requires len == 7 + (if fmt then depth + 1 else 0) + MembersCost(ms, depth + 1, fmt)
    ensures fresh(out) && Rendered(out, Object(ms), depth, fmt)
    ensures out.Length == |Print(Object(ms), depth, fmt)| + 6
  {
    assert Printable(Object(ms));
    MembersLength(ms, depth + 1, fmt);
    ObjectText(ms, depth, fmt);
    hide Print, PrintMember, PrintMembers, Tabs, MembersCost, Printable, Quote, MemberLine, Indent;
    ghost var all := PrintMembers(ms, depth + 1, fmt);
    ghost var size := |Print(Object(ms), depth, fmt)|;
    assert size == 1 + |Nl(fmt)| + |all| + (if fmt then depth else 0) + 1;
    out := new char[len];
    var ptr;
    ghost var text;
    ptr, text := OpenObject(out, fmt);
    hide Nl;
    for i := 0 to |ms|
      invariant |text| == ptr && Written(out, text)
      invariant text + PrintMembers(ms[i..], depth + 1, fmt) == "{" + Nl(fmt) + all
    {
      MembersStep(text, ms, i, depth + 1, fmt);
      ptr, text := PutMember(out, ptr, names[i], entries[i], depth + 1, fmt, i == |ms| - 1, text);
    }
    MembersEnd(ms, depth + 1, fmt);
    CloseObject(out, ptr, ms, depth, fmt, text);
  }

  method OpenObject(out: array<char>, fmt: bool) returns (ptr: nat, ghost text: string)
    requires out.Length >= 2
    modifies out
    ensures text == "{" + Nl(fmt) && |text| == ptr && Written(out, text)
  {
    text := Put(out, 0, '{', "");
    ptr := 1;
    if fmt {
      text := Put(out, ptr, '\n', text);
      ptr := ptr + 1;
    }
  }

  /** The end of print_object: the indentation, the bracket and the terminator. */
  method CloseObject(out: array<char>, ptr: nat, ms: seq<Member>, depth: nat, fmt: bool, ghost text: string)
    requires ms != [] && Printable(Object(ms)) && |text| == ptr && Written(out, text)
    requires text == "{" + Nl(fmt) + PrintMembers(ms, depth + 1, fmt)
    requires out.Length >= |Print(Object(ms), depth, fmt)| + 1
    modifies out
    ensures Rendered(out, Object(ms), depth, fmt)
  {
    PrintNulFree(Object(ms), depth, fmt);
    ObjectText(ms, depth, fmt);
    hide Print, PrintMembers, Tabs, Printable;
    ghost var all := text;
    var end, done := ptr, text;
    if fmt {
      TabsAre(depth);
      end, done := Fill(out, ptr, '\t', depth, text);
    }
    assert done == all + Indent(depth, fmt);
    done := Put(out, end, '}', done);
    done := Put(out, end + 1, '\0', done);
  }

  lemma ObjectText(ms: seq<Member>, depth: nat, fmt: bool)
    requires ms != []
    ensures Print(Object(ms), depth, fmt)
         == "{" + Nl(fmt) + PrintMembers(ms, depth + 1, fmt) + Indent(depth, fmt) + "}"
    ensures |Indent(depth, fmt)| == if fmt then depth else 0
    ensures fmt ==> Indent(depth, fmt) == Tabs(depth)
  {
    TabsAre(depth);
  }

  lemma MembersEnd(ms: seq<Member>, depth: nat, fmt: bool)
    ensures PrintMembers(ms[|ms|..], depth, fmt) == "" && PrintMembers(ms[0..], depth, fmt) == PrintMembers(ms, depth, fmt)
  {
    assert ms[0..] == ms;
  }

  function MemberLine(name: string, entry: string, depth: nat, fmt: bool, last: bool): string {
    Indent(depth, fmt) + name + ":" + Tab(fmt) + entry + (if last then "" else ",") + Nl(fmt)
  }

  lemma MembersStep(text: string, ms: seq<Member>, i: nat, depth: nat, fmt: bool)
    requires i < |ms|
    ensures var line := MemberLine(Quote(ms[i].key), Print(ms[i].value, depth, fmt), depth, fmt, i == |ms| - 1);
            && text + PrintMembers(ms[i..], depth, fmt) == text + line + PrintMembers(ms[i + 1..], depth, fmt)
            && |line| <= |PrintMembers(ms[i..], depth, fmt)|
            && |Indent(depth, fmt)| == if fmt then depth else 0
  {
    assert ms[i..][1..] == ms[i + 1..];
    TabsAre(depth);
  }

  /** One turn of the composing loop. */
  method PutMember(out: array<char>, p: nat, name: string, entry: string, depth: nat, fmt: bool, last: bool, ghost text: string)
    returns (p': nat, ghost text': string)
    requires |text| == p && Written(out, text)
    requires |Indent(depth, fmt)| == if fmt then depth else 0
    requires p + |MemberLine(name, entry, depth, fmt, last)| + 1 < out.Length
    modifies out
    ensures text' == text + MemberLine(name, entry, depth, fmt, last) && |text'| == p' && Written(out, text')
  {
    p', text' := PutKey(out, p, name, depth, fmt, text);
    ghost var key := text';
    p', text' := CopyText(out, p', entry, text');
    p', text' := PutIf(out, p', !last, ',', text');
    p', text' := PutIf(out, p', fmt, '\n', text');
    assert text' == key + entry + (if last then "" else ",") + Nl(fmt);
    assert text' == text + MemberLine(name, entry, depth, fmt, last);
  }

  method PutKey(out: array<char>, p: nat, name: string, depth: nat, fmt: bool, ghost text: string)
    returns (p': nat, ghost text': string)
    requires |text| == p && Written(out, text)
    requires p + (if fmt then depth else 0) + |name| + 2 < out.Length
    modifies out
    ensures text' == text + (Indent(depth, fmt) + name + ":" + Tab(fmt)) && |text'| == p' && Written(out, text')
  {
    p', text' := p, text;
    if fmt {
      TabsAre(depth);
      p', text' := Fill(out, p', '\t', depth, text');
    }
    assert text' == text + Indent(depth, fmt);
    p', text' := CopyText(out, p', name, text');
    p', text' := PutIf(out, p', true, ':', text');
    p', text' := PutIf(out, p', fmt, '\t', text');
    assert text' == text + Indent(depth, fmt) + name + ":" + Tab(fmt);
  }
}
