/**
Where cJSON_Parse of tools/cJSON/cJSON.c stops in a text it does not accept: cJSON_GetErrorPtr points at the
first character that does not fit what stands before it.
*/
module CJsonFaults {
  import opened CJson
  import opened CJsonRoundTrip
  import opened CJsonMinifyAny

  /** An element that is in order, with the blanks around it. */
  datatype Item = Item(before: string, text: string, value: Json, after: string)

  /** A name that is in order, with the blanks around it, and the blanks and the value behind its colon. */
  datatype Pair = Pair(before: string, name: string, key: string, after: string, item: Item)

  /** What stands before the character that does not fit: nothing, where a value should be; elements, each with
      its comma, in front of an element with such a spot or of one that something else follows; members likewise,
      in front of a name, a colon, a value, or what follows it. */
  datatype Spot =
    | AtValue
    | InItem(items: seq<Item>, blank: string, inner: Spot)
    | AfterItem(items: seq<Item>, end: Item)
    | AtName(pairs: seq<Pair>, blank: string)
    | AtColon(pairs: seq<Pair>, last: Pair)
    | InPair(pairs: seq<Pair>, last: Pair, inner: Spot)
    | AfterPair(pairs: seq<Pair>, last: Pair)

  ghost predicate Fine(i: Item) { Blank(i.before) && ValueText(i.text, i.value) && Blank(i.after) }

  ghost predicate FineItems(items: seq<Item>) { forall k | 0 <= k < |items| :: Fine(items[k]) }

  ghost predicate Named(p: Pair) { Blank(p.before) && NameText(p.name, p.key) && Blank(p.after) }

  ghost predicate FinePairs(pairs: seq<Pair>) { forall k | 0 <= k < |pairs| :: Named(pairs[k]) && Fine(pairs[k].item) }

  function Items(items: seq<Item>, tail: string): string {
    if items == [] then tail
    else items[0].before + (items[0].text + (items[0].after + ("," + Items(items[1..], tail))))
  }

  function Pairs(pairs: seq<Pair>, tail: string): string {
    if pairs == [] then tail else NameThen(pairs[0], ":" + ItemThen(pairs[0].item, "," + Pairs(pairs[1..], tail)))
  }

  function NameThen(p: Pair, tail: string): string { p.before + (p.name + (p.after + tail)) }

  function ItemThen(i: Item, tail: string): string { i.before + (i.text + (i.after + tail)) }

  /** The whole text, x being what does not fit. */
  function Text(spot: Spot, x: string): string
    decreases spot
  {
    match spot
    case AtValue => x
    case InItem(items, blank, inner) => "[" + Items(items, blank + Text(inner, x))
    case AfterItem(items, last) => "[" + Items(items, ItemThen(last, x))
    case AtName(pairs, blank) => "{" + Pairs(pairs, blank + x)
    case AtColon(pairs, last) => "{" + Pairs(pairs, NameThen(last, x))
    case InPair(pairs, last, inner) => "{" + Pairs(pairs, NameThen(last, ":" + (last.item.before + Text(inner, x))))
    case AfterPair(pairs, last) => "{" + Pairs(pairs, NameThen(last, ":" + ItemThen(last.item, x)))
  }

  predicate StartsBlank(x: string) { At(x) != '\0' && At(x) as int <= 32 }

  /** No value begins like this. */
  predicate NoValue(x: string) {
    && !StartsBlank(x) && !("null" <= x) && !("false" <= x) && !("true" <= x)
    && At(x) !in "\"-[{" && !IsDigit(At(x))
  }

  /** What does not fit there. An array may also end where its first element should be, and an object where its
      first name should be. A value is what is read in front of the rest. */
  ghost predicate Unfit(spot: Spot, x: string)
    decreases spot
  {
    match spot
    case AtValue => NoValue(x)
    case InItem(items, blank, inner) =>
      FineItems(items) && Blank(blank) && Unfit(inner, x) && (items == [] && inner == AtValue ==> At(x) != ']')
    case AfterItem(items, last) => FineItems(items) && Stops(last, x) && At(x) != ',' && At(x) != ']'
    case AtName(pairs, blank) =>
      FinePairs(pairs) && Blank(blank) && !StartsBlank(x) && At(x) != '\"' && (pairs == [] ==> At(x) != '}')
    case AtColon(pairs, last) => FinePairs(pairs) && Named(last) && !StartsBlank(x) && At(x) != ':'
    case InPair(pairs, last, inner) => FinePairs(pairs) && Named(last) && Blank(last.item.before) && Unfit(inner, x)
    case AfterPair(pairs, last) => FinePairs(pairs) && Named(last) && Stops(last.item, x) && At(x) != ',' && At(x) != '}'
  }

  /** The last value in front of it ends here. */
  predicate Stops(i: Item, x: string) {
    && Blank(i.before) && Blank(i.after) && !StartsBlank(x) && i.text != "" && i.text[0] as int > 32 && i.text[0] != ']' && i.text[0] != '}'
    && ParseValue(i.text + (i.after + x)) == Ok(i.value, i.after + x)
  }

  // ----- What is in order is passed -----

  lemma SkipTo(b: string, x: string)
    requires Blank(b) && !StartsBlank(x)
    ensures Skip(b + x) == x
  {
    SkipBlank(b, x);
  }

  lemma {:induction false} ItemsPassed(items: seq<Item>, tail: string, done: seq<Json>) returns (done': seq<Json>)
    requires FineItems(items)
    ensures ParseItems(Items(items, tail), done) == ParseItems(tail, done')
    decreases |items|
  {
    hide ParseItems, Skip, ValueText;
    if items == [] {
      done' := done;
    } else {
      var i := items[0];
      var rest := Items(items[1..], tail);
      assert Fine(i);
      OneItem(i.text, i.value, i.after, ',', rest, done);
      ItemsBlank(i.before, i.text + (i.after + ("," + rest)), done);
      done' := ItemsPassed(items[1..], tail, done + [i.value]);
    }
  }

  lemma ItemsBlank(b: string, s: string, done: seq<Json>)
    requires Blank(b)
    ensures ParseItems(b + s, done) == ParseItems(s, done)
  {
    SkipBlank(b, s);
    ItemsSkip(b + s, s, done);
  }

  lemma {:induction false} PairsPassed(pairs: seq<Pair>, tail: string, done: seq<Member>) returns (done': seq<Member>)
    requires FinePairs(pairs)
    ensures ParseMembers(Pairs(pairs, tail), done) == ParseMembers(tail, done')
    decreases |pairs|
  {
    hide ParseMembers, Skip, ValueText, NameText, NameThen, ItemThen;
    if pairs == [] {
      done' := done;
    } else {
      var p := pairs[0];
      var rest := Pairs(pairs[1..], tail);
      assert Named(p) && Fine(p.item);
      OnePair(p, rest, done);
      done' := PairsPassed(pairs[1..], tail, done + [Member(p.key, p.item.value)]);
    }
  }

  /** What follows an element or a member whose value has been read, or not. */
  function BehindItem(r: Parsed<Json>, done: seq<Json>): Parsed<Json> {
    match r
    case Err(at) => Err(at)
    case Malformed => Malformed
    case Ok(v, rest) =>
      var next := Skip(rest);
      if At(next) == ',' then ParseItems(next[1..], done + [v])
      else if At(next) == ']' then Ok(Array(done + [v]), next[1..]) else Err(next)
  }

  function BehindMember(key: string, r: Parsed<Json>, done: seq<Member>): Parsed<Json> {
    match r
    case Err(at) => Err(at)
    case Malformed => Malformed
    case Ok(v, rest) =>
      var next := Skip(rest);
      if At(next) == ',' then ParseMembers(next[1..], done + [Member(key, v)])
      else if At(next) == '}' then Ok(Object(done + [Member(key, v)]), next[1..]) else Err(next)
  }

  /** A member by what stands behind its name. */
  lemma MembersAt(p: Pair, y: string, done: seq<Member>)
    requires Named(p) && !StartsBlank(y)
    ensures ParseMembers(NameThen(p, y), done)
         == if At(y) != ':' then Err(y) else BehindMember(p.key, ParseValue(Skip(y[1..])), done)
  {
    hide ParseValue, ParseString;
    var s := NameThen(p, y);
    SkipTo(p.before, p.name + (p.after + y));
    SkipTo(p.after, y);
    hide Skip;
    assert ParseString(p.name + (p.after + y)) == Ok(p.key, p.after + y);
  }

  lemma OnePair(p: Pair, rest: string, done: seq<Member>)
    requires Named(p) && Fine(p.item)
    ensures ParseMembers(NameThen(p, ":" + ItemThen(p.item, "," + rest)), done) == ParseMembers(rest, done + [Member(p.key, p.item.value)])
  {
    hide ParseValue, Skip, ParseMembers, NameThen, NameText;
    var i := p.item;
    var u := i.after + ("," + rest);
    var y := ":" + ItemThen(i, "," + rest);
    EndsBlank(i.after, "," + rest);
    assert ParseValue(i.text + u) == Ok(i.value, u);
    MembersAt(p, y, done);
    assert y[1..] == i.before + (i.text + u) && ("," + rest)[1..] == rest;
    SkipTo(i.before, i.text + u);
    SkipTo(i.after, "," + rest);
  }

  lemma ItemsAt(s: string, done: seq<Json>)
    requires !StartsBlank(s)
    ensures ParseItems(s, done)
         == BehindItem(ParseValue(s), done)
  {
    SkipTo("", s);
    assert "" + s == s;
    hide ParseValue;
  }

  // ----- What does not fit is pointed at -----

  lemma TextFirst(spot: Spot, x: string)
    requires Unfit(spot, x)
    ensures !StartsBlank(Text(spot, x)) && (spot.AtValue? ==> Text(spot, x) == x)
    ensures !spot.AtValue? ==> At(Text(spot, x)) == '[' || At(Text(spot, x)) == '{'
  {
    hide Items, Pairs, NameThen, ItemThen, FineItems, FinePairs;
  }

  lemma NothingFits(x: string)
    requires NoValue(x)
    ensures ParseValue(x) == Err(x)
  {
    hide ParseNumber, ParseString, ParseItems, ParseMembers, Skip;
  }

  /** Behind `[`, unless the array ends at once. */
  lemma InArray(s: string)
    requires At(Skip(s)) != ']'
    ensures ParseValue("[" + s) == ParseItems(Skip(s), []) == ParseItems(s, [])
  {
    ParseArrayText(s);
    SkipTwice(s);
    ItemsSkip(s, Skip(s), []);
    hide ParseValue, ParseItems, Skip;
  }

  lemma InObject(s: string)
    requires At(Skip(s)) != '}'
    ensures ParseValue("{" + s) == ParseMembers(Skip(s), []) == ParseMembers(s, [])
  {
    ParseObjectText(s);
    SkipTwice(s);
    MembersSkip(s, Skip(s), []);
    hide ParseValue, ParseMembers, Skip;
  }

  lemma {:induction false} FaultFound(spot: Spot, x: string)
    requires Unfit(spot, x)
    ensures ParseValue(Text(spot, x)) == Err(x)
    decreases spot, 1
  {
    hide ParseValue, ParseItems, ParseMembers, Skip, Items, Pairs, FineItems, FinePairs, Named, Stops, NoValue, NameThen, ItemThen;
    match spot
    case AtValue => NothingFits(x);
    case InItem(items, blank, inner) =>
      var tail := blank + Text(inner, x);
      TextFirst(inner, x);
      ItemsFirst(items, blank, Text(inner, x));
      InArray(Items(items, tail));
      var done := ItemsPassed(items, tail, []);
      ItemsBlank(blank, Text(inner, x), done);
      ItemsAt(Text(inner, x), done);
      FaultFound(inner, x);
    case AfterItem(items, last) => AfterItemFault(items, last, x);
    case _ => ObjectFault(spot, x);
  }

  /** The first element does not begin with the closing bracket. */
  lemma ItemsFirst(items: seq<Item>, blank: string, text: string)
    requires FineItems(items) && Blank(blank) && !StartsBlank(text) && (items == [] ==> At(text) != ']')
    ensures At(Skip(Items(items, blank + text))) != ']'
  {
    if items == [] {
      SkipTo(blank, text);
    } else {
      var i := items[0];
      assert Fine(i);
      SkipTo(i.before, i.text + (i.after + ("," + Items(items[1..], blank + text))));
    }
  }

  lemma AfterItemFault(items: seq<Item>, last: Item, x: string)
    requires FineItems(items) && Stops(last, x) && At(x) != ',' && At(x) != ']'
    ensures ParseValue("[" + Items(items, ItemThen(last, x))) == Err(x)
  {
    hide ParseValue, ParseItems, Skip, Items, FineItems;
    var text := last.text + (last.after + x);
    ItemsFirst(items, last.before, text);
    InArray(Items(items, last.before + text));
    var done := ItemsPassed(items, last.before + text, []);
    ItemsBlank(last.before, text, done);
    ItemsAt(text, done);
    SkipTo(last.after, x);
  }

  lemma PairsFirst(pairs: seq<Pair>, blank: string, text: string)
    requires FinePairs(pairs) && Blank(blank) && !StartsBlank(text) && (pairs == [] ==> At(text) != '}')
    ensures At(Skip(Pairs(pairs, blank + text))) != '}'
  {
    if pairs == [] {
      SkipTo(blank, text);
    } else {
      var p := pairs[0];
      assert Named(p);
      SkipTo(p.before, p.name + (p.after + (":" + ItemThen(p.item, "," + Pairs(pairs[1..], blank + text)))));
    }
  }

  lemma {:induction false} ObjectFault(spot: Spot, x: string)
    requires Unfit(spot, x) && (spot.AtName? || spot.AtColon? || spot.InPair? || spot.AfterPair?)
    ensures ParseValue(Text(spot, x)) == Err(x)
    decreases spot, 0
  {
    hide ParseValue, ParseItems, ParseMembers, Skip, Items, Pairs, FineItems, FinePairs, Stops, NoValue, ItemThen;
    match spot
    case AtName(pairs, blank) =>
      PairsFirst(pairs, blank, x);
      InObject(Pairs(pairs, blank + x));
      var done := PairsPassed(pairs, blank + x, []);
      NameFault(blank, x, done);
    case AtColon(pairs, last) =>
      var done := Behind(pairs, last, x);
      MembersAt(last, x, done);
    case InPair(pairs, last, inner) =>
      var text := Text(inner, x);
      TextFirst(inner, x);
      FaultFound(inner, x);
      var y := ":" + (last.item.before + text);
      var done := Behind(pairs, last, y);
      MembersAt(last, y, done);
      assert y[1..] == last.item.before + text;
      SkipTo(last.item.before, text);
    case AfterPair(pairs, last) => AfterPairFault(pairs, last, x);
  }

  /** In front of the last name. */
  lemma Behind(pairs: seq<Pair>, last: Pair, y: string) returns (done: seq<Member>)
    requires FinePairs(pairs) && Named(last)
    ensures ParseValue("{" + Pairs(pairs, NameThen(last, y))) == ParseMembers(NameThen(last, y), done)
  {
    hide ParseValue, ParseMembers, Skip, Pairs, FinePairs;
    PairsFirst(pairs, last.before, last.name + (last.after + y));
    InObject(Pairs(pairs, NameThen(last, y)));
    done := PairsPassed(pairs, NameThen(last, y), []);
  }

  lemma NameFault(blank: string, x: string, done: seq<Member>)
    requires Blank(blank) && !StartsBlank(x) && At(x) != '\"'
    ensures ParseMembers(blank + x, done) == Err(x)
  {
    SkipTo(blank, x);
    hide Skip, Unescape, ParseValue;
  }

  lemma AfterPairFault(pairs: seq<Pair>, last: Pair, x: string)
    requires FinePairs(pairs) && Named(last) && Stops(last.item, x) && At(x) != ',' && At(x) != '}'
    ensures ParseValue("{" + Pairs(pairs, NameThen(last, ":" + ItemThen(last.item, x)))) == Err(x)
  {
    hide ParseValue, ParseMembers, Skip, Pairs, FinePairs, NameThen, Named;
    var i := last.item;
    var text := i.text + (i.after + x);
    var y := ":" + (i.before + text);
    var done := Behind(pairs, last, y);
    MembersAt(last, y, done);
    assert y[1..] == i.before + text;
    SkipTo(i.before, text);
    SkipTo(i.after, x);
  }

  /** cJSON_ParseWithOpts points there, and behind a whole value at what is not its end. */
  lemma FaultParsed(blank: string, spot: Spot, x: string, requireEnd: bool)
    requires Blank(blank) && Unfit(spot, x)
    ensures Parse(blank + Text(spot, x), requireEnd) == Err(x)
  {
    TextFirst(spot, x);
    FaultFound(spot, x);
    SkipTo(blank, Text(spot, x));
    hide ParseValue, Skip, Text, Unfit;
  }

  lemma BehindValue(i: Item, x: string)
    requires Stops(i, x) && At(x) != '\0'
    ensures Parse(ItemThen(i, x), true) == Err(x)
  {
    SkipTo(i.before, i.text + (i.after + x));
    SkipTo(i.after, x);
    hide ParseValue, Skip;
  }
}
