/** The members of objects in tools/jsoncpp, kept by name in the order of strcmp. */
module JsonCppOrder {
  import opened CBuffer
  import opened JsonCpp
  import opened JsonCppLex

  lemma {:induction false} LessTotal(a: string, b: string)
    ensures Less(a, b) || a == b || Less(b, a)
  {
    if a != "" && b != "" && a[0] == b[0] {
      LessTotal(a[1..], b[1..]);
      assert a == [a[0]] + a[1..] && b == [b[0]] + b[1..];
    }
  }

  lemma {:induction false} LessTrans(a: string, b: string, c: string)
    requires Less(a, b) && Less(b, c)
    ensures Less(a, c)
  {
    if a != "" && a[0] == b[0] == c[0] {
      LessTrans(a[1..], b[1..], c[1..]);
    }
  }

  lemma SameFirst(a: string, b: string, k: nat)
    requires k <= |a| && k <= |b|
    ensures a[..k] == b[..k] && k > 0 ==> a[0] == b[0]
  {
    assert k > 0 ==> a[..k][0] == a[0] && b[..k][0] == b[0];
  }

  /** One name is less than another at the first place where they differ, or if it is its beginning. */
  lemma {:induction false} LessIs(a: string, b: string)
    ensures Less(a, b) <==> exists k | 0 <= k < |b| && k <= |a| :: a[..k] == b[..k] && (k == |a| || a[k] < b[k])
  {
    if b != "" && a != "" && a[0] == b[0] {
      var c, d := a[1..], b[1..];
      LessIs(c, d);
      if Less(c, d) {
        var k :| 0 <= k < |d| && k <= |c| && c[..k] == d[..k] && (k == |c| || c[k] < d[k]);
        assert a[..k + 1] == [a[0]] + c[..k] && b[..k + 1] == [b[0]] + d[..k] && (k < |c| ==> a[k + 1] == c[k]) && b[k + 1] == d[k];
      }
      forall k | 0 <= k < |b| && k <= |a| && a[..k] == b[..k] && (k == |a| || a[k] < b[k]) ensures Less(a, b) {
        assert k > 0;
        assert c[..k - 1] == a[..k][1..] && d[..k - 1] == b[..k][1..] && (k < |a| ==> c[k - 1] == a[k]) && d[k - 1] == b[k];
      }
    } else if b != "" && (a == "" || a[0] < b[0]) {
      assert a[..0] == b[..0];
    } else {
      forall k | 0 <= k < |b| && k <= |a| ensures !(a[..k] == b[..k] && (k == |a| || a[k] < b[k])) {
        SameFirst(a, b, k);
      }
    }
  }

  /** Storing keeps the order, brings in nothing but the new member, and is found again. */
  lemma {:induction false} StoreKeeps(ms: seq<Member>, name: string, v: Value)
    requires Sorted(ms)
    ensures var r := Store(ms, name, v);
            && Sorted(r) && r != [] && (forall i | 0 <= i < |r| :: r[i] == Member(name, v) || r[i] in ms)
            && (r[0].name == name || (ms != [] && r[0] == ms[0] && Less(ms[0].name, name)))
  {
    if ms != [] && !Less(name, ms[0].name) && ms[0].name != name {
      LessTotal(name, ms[0].name);
      StoreKeeps(ms[1..], name, v);
      var r := Store(ms[1..], name, v);
      forall i | 0 <= i < |r| ensures Less(ms[0].name, r[i].name) && (r[i] == Member(name, v) || r[i] in ms) {
        assert r[i] == Member(name, v) || r[i] in ms[1..];
        if r[i] in ms[1..] {
          var j :| 0 <= j < |ms[1..]| && ms[1..][j] == r[i];
          assert ms[j + 1] == r[i];
        }
      }
    } else if ms != [] && Less(name, ms[0].name) {
      forall i | 0 <= i < |ms| ensures Less(name, ms[i].name) {
        if i > 0 { LessTrans(name, ms[0].name, ms[i].name); }
      }
    }
  }

  lemma {:induction false} LookupStore(ms: seq<Member>, name: string, v: Value, other: string)
    requires Sorted(ms)
    ensures Lookup(Store(ms, name, v), other) == if other == name then v else Lookup(ms, other)
  {
    LessTotal(name, other);
    if Less(name, other) { LessIsStrict(name, other); }
    if Less(other, name) { LessIsStrict(other, name); }
    if ms != [] {
      LessTotal(name, ms[0].name);
      if Less(name, ms[0].name) {
        LessIsStrict(name, ms[0].name);
        if Less(other, name) { LessTrans(other, name, ms[0].name); }
        assert Store(ms, name, v)[1..] == ms;
      } else if ms[0].name == name {
        assert Store(ms, name, v)[1..] == ms[1..];
      } else {
        LookupStore(ms[1..], name, v, other);
        LessIsStrict(ms[0].name, name);
        assert Store(ms, name, v)[1..] == Store(ms[1..], name, v);
      }
    } else {
      assert Store(ms, name, v)[1..] == [];
    }
  }

  /** The value of the last member of that name. */
  function LastOf(ms: seq<Member>, name: string, otherwise: Value): Value
    decreases |ms|
  {
    if ms == [] then otherwise
    else if ms[|ms| - 1].name == name then ms[|ms| - 1].value
    else LastOf(ms[..|ms| - 1], name, otherwise)
  }

  lemma {:induction false} LastOfFirst(ms: seq<Member>, name: string, otherwise: Value)
    requires ms != []
    ensures LastOf(ms, name, otherwise)
         == LastOf(ms[1..], name, if ms[0].name == name then ms[0].value else otherwise)
  {
    if |ms| > 1 && ms[|ms| - 1].name != name {
      LastOfFirst(ms[..|ms| - 1], name, otherwise);
      assert ms[..|ms| - 1][1..] == ms[1..][..|ms| - 2];
    }
  }

  /** Of several members with one name the last wins; the result is in order and has nothing else. */
  lemma {:induction false} StoreAllKeeps(done: seq<Member>, ms: seq<Member>, name: string)
    requires Sorted(done)
    ensures var r := StoreAll(done, ms);
            && Sorted(r) && (forall i | 0 <= i < |r| :: r[i] in done || r[i] in ms)
            && Lookup(r, name) == LastOf(ms, name, Lookup(done, name))
    decreases |ms|
  {
    if ms != [] {
      var first := Store(done, ms[0].name, ms[0].value);
      StoreKeeps(done, ms[0].name, ms[0].value);
      LookupStore(done, ms[0].name, ms[0].value, name);
      LastOfFirst(ms, name, Lookup(done, name));
      StoreAllKeeps(first, ms[1..], name);
      var r := StoreAll(done, ms);
      forall i | 0 <= i < |r| ensures r[i] in done || r[i] in ms {
        if r[i] in first {
          var j :| 0 <= j < |first| && first[j] == r[i];
          assert first[j] == Member(ms[0].name, ms[0].value) || first[j] in done;
          assert ms[0] in ms;
        }
      }
    }
  }

  /** Members that are in order stay as they are. */
  lemma {:induction false} StoreAllInOrder(done: seq<Member>, ms: seq<Member>)
    requires Sorted(done + ms)
    ensures StoreAll(done, ms) == done + ms
    decreases |ms|
  {
    if ms != [] {
      forall i | 0 <= i < |done| ensures Less(done[i].name, ms[0].name) {
        assert (done + ms)[i] == done[i] && (done + ms)[|done|] == ms[0];
      }
      StoreLast(done, ms[0].name, ms[0].value);
      assert done + ms == done + [ms[0]] + ms[1..];
      StoreAllInOrder(done + [ms[0]], ms[1..]);
    } else {
      assert done + [] == done;
    }
  }

  // ----- Whole values -----

  lemma CanonOfObject(ms: seq<Member>)
    ensures Sorted(ms) ==> Canon(Object(ms)) == Object(CanonMembers(ms))
  {
    hide Canon, CanonMembers;
    if Sorted(ms) {
      var c := CanonMembers(ms);
      assert [] + c == c;
      StoreAllInOrder([], c);
    }
    CanonUnfolds(ms);
  }

  lemma CanonUnfolds(ms: seq<Member>)
    ensures Canon(Object(ms)) == Object(StoreAll([], CanonMembers(ms)))
  {
  }

  /** Whatever the order of a text's members, the reader leaves every object in order. */
  lemma {:induction false} CanonInOrder(v: Value)
    requires Printable(v)
    ensures Printable(Canon(v)) && InOrder(Canon(v))
  {
    match v
    case Array(items) =>
      forall i | 0 <= i < |items| ensures Printable(CanonItems(items)[i]) && InOrder(CanonItems(items)[i]) {
        CanonInOrder(items[i]);
      }
    case Object(ms) =>
      var c, r := CanonMembers(ms), StoreAll([], CanonMembers(ms));
      forall i | 0 <= i < |c| ensures NulFree(c[i].name) && Printable(c[i].value) && InOrder(c[i].value) {
        CanonInOrder(ms[i].value);
      }
      StoreAllKeeps([], c, "");
      forall i | 0 <= i < |r| ensures NulFree(r[i].name) && Printable(r[i].value) && InOrder(r[i].value) {
        assert r[i] in c;
      }
    case _ =>
  }
}
