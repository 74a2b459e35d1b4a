/** The command history of tools/wifi_wpa_cli/edit.c, on sequences. */
module HistorySpec {
  import opened CBuffer
  import opened Options

  const HISTORY_MAX: nat := 100

  /** Position of a line, or the length of the list. */
  function IndexOf(h: seq<string>, s: string): (i: nat)
    ensures i <= |h| && (i < |h| ==> h[i] == s)
    ensures forall k | 0 <= k < i :: h[k] != s
    ensures i < |h| <==> s in h
  {
    if h == [] || h[0] == s then 0 else 1 + IndexOf(h[1..], s)
  }

  function Remove(h: seq<string>, s: string): seq<string> {
    var i := IndexOf(h, s);
    if i < |h| then h[..i] + h[i + 1..] else h
  }

  /** history_add: move to front, or push to the front of at most HISTORY_MAX lines. */
  function Add(h: seq<string>, s: string): seq<string> {
    if s == "" then h
    else if s in h then [s] + Remove(h, s)
    else [s] + (if |h| >= HISTORY_MAX then h[..|h| - 1] else h)
  }

  function AddAll(h: seq<string>, log: seq<string>): seq<string> {
    if log == [] then h else Add(AddAll(h, log[..|log| - 1]), log[|log| - 1])
  }

  // ----- The most recently used lines -----

  /** Position after the last use of a line, 0 if it was never used. */
  function LastUse(log: seq<string>, s: string): (n: nat)
    ensures n <= |log| && (n > 0 <==> s in log)
  {
    if log == [] then 0
    else if log[|log| - 1] == s then |log|
    else LastUse(log[..|log| - 1], s)
  }

  /** All distinct non-empty lines, each at its last use, newest first. */
  ghost predicate MostRecentFirst(log: seq<string>, h: seq<string>) {
    && (forall s :: s in h <==> s != "" && s in log)
    && (forall i, j | 0 <= i < j < |h| :: LastUse(log, h[i]) > LastUse(log, h[j]))
  }

  function Recent(log: seq<string>): seq<string> {
    if log == [] then []
    else
      var s, r := log[|log| - 1], Recent(log[..|log| - 1]);
      if s == "" then r else [s] + Remove(r, s)
  }

  lemma RemoveFacts(h: seq<string>, s: string)
    requires forall i, j | 0 <= i < j < |h| :: h[i] != h[j]
    ensures forall x | x in Remove(h, s) :: x in h && x != s
    ensures forall x | x in h && x != s :: x in Remove(h, s)
  {
    var i := IndexOf(h, s);
    if i < |h| {
      assert h == h[..i] + [h[i]] + h[i + 1..];
    }
  }

  /** One more use of s: everything else keeps its last use. */
  lemma LastUseAfter(before: seq<string>, s: string, x: string)
    ensures LastUse(before + [s], x) == if x == s then |before| + 1 else LastUse(before, x)
    ensures LastUse(before, x) <= |before|
  {
    assert (before + [s])[..|before|] == before;
  }

  lemma MoveToFront(before: seq<string>, s: string, r: seq<string>)
    requires MostRecentFirst(before, r) && s != ""
    ensures MostRecentFirst(before + [s], [s] + Remove(r, s))
  {
    var log, q := before + [s], Remove(r, s);
    var h := [s] + q;
    RemoveFacts(r, s);
    forall i, j | 0 <= i < j < |h| ensures LastUse(log, h[i]) > LastUse(log, h[j]) {
      FrontOrder(before, s, r, i, j);
    }
    hide Remove, LastUse;
    forall x ensures x in h <==> x != "" && x in log {
      assert x in h <==> x == s || x in q;
    }
  }

  lemma FrontOrder(before: seq<string>, s: string, r: seq<string>, i: nat, j: nat)
    requires forall a, b | 0 <= a < b < |r| :: LastUse(before, r[a]) > LastUse(before, r[b])
    requires i < j < 1 + |Remove(r, s)|
    ensures var h := [s] + Remove(r, s); LastUse(before + [s], h[i]) > LastUse(before + [s], h[j])
  {
    var q := Remove(r, s);
    RemoveFacts(r, s);
    hide Remove, LastUse;
    assert q[j - 1] in q && q[j - 1] != s;
    LastUseAfter(before, s, q[j - 1]);
    if i == 0 {
      LastUseAfter(before, s, s);
    } else {
      assert q[i - 1] in q && q[i - 1] != s;
      LastUseAfter(before, s, q[i - 1]);
      RemoveOrder(r, s, i - 1, j - 1, before);
    }
  }

  lemma RemoveOrder(r: seq<string>, s: string, i: nat, j: nat, log: seq<string>)
    requires forall a, b | 0 <= a < b < |r| :: LastUse(log, r[a]) > LastUse(log, r[b])
    requires i < j < |Remove(r, s)|
    ensures LastUse(log, Remove(r, s)[i]) > LastUse(log, Remove(r, s)[j])
  {
    RemoveAt(r, s, i);
    RemoveAt(r, s, j);
    hide LastUse, IndexOf, Remove;
  }

  lemma RemoveAt(r: seq<string>, s: string, i: nat)
    requires i < |Remove(r, s)|
    ensures var i' := if i < IndexOf(r, s) then i else i + 1;
            i' < |r| && Remove(r, s)[i] == r[i']
  {
    hide IndexOf;
  }

  /** `Recent` is what the predicate says, and nothing else is. */
  lemma {:induction false} RecentIsMostRecentFirst(log: seq<string>)
    ensures MostRecentFirst(log, Recent(log))
  {
    if log != [] {
      var before, s := log[..|log| - 1], log[|log| - 1];
      RecentIsMostRecentFirst(before);
      assert log == before + [s];
      if s != "" {
        MoveToFront(before, s, Recent(before));
      } else {
        var r := Recent(before);
        forall i, j | 0 <= i < j < |r| ensures LastUse(log, r[i]) > LastUse(log, r[j]) {
          assert r[i] in r && r[j] in r;
          LastUseAfter(before, s, r[i]);
          LastUseAfter(before, s, r[j]);
        }
      }
    }
  }

  lemma {:induction false} LastUseInjective(log: seq<string>, a: string, b: string)
    requires LastUse(log, a) == LastUse(log, b) > 0
    ensures a == b
  {
    if log[|log| - 1] != a && log[|log| - 1] != b {
      LastUseInjective(log[..|log| - 1], a, b);
    }
  }

  /** After equal beginnings, the next line of h is used at least as recently as the next line of g. */
  lemma NextAtLeast(log: seq<string>, g: seq<string>, h: seq<string>, n: nat)
    requires MostRecentFirst(log, g) && MostRecentFirst(log, h)
    requires n < |g| && n <= |h| && g[..n] == h[..n]
    ensures n < |h| && LastUse(log, h[n]) >= LastUse(log, g[n]) > 0
  {
    hide LastUse;
    assert forall k | 0 <= k < n :: g[..n][k] == h[..n][k];
    assert forall k | 0 <= k < n :: h[k] == g[k] != g[n];
    assert g[n] in g && g[n] in h;
    var j :| 0 <= j < |h| && h[j] == g[n];
    assert g[n] in log;
  }

  lemma {:induction false} MostRecentFirstUnique(log: seq<string>, g: seq<string>, h: seq<string>, n: nat)
    requires MostRecentFirst(log, g) && MostRecentFirst(log, h)
    requires n <= |g| && n <= |h| && g[..n] == h[..n]
    ensures g == h
    decreases |g| - n
  {
    if n < |g| {
      NextAtLeast(log, g, h, n);
      NextAtLeast(log, h, g, n);
      LastUseInjective(log, g[n], h[n]);
      assert g[..n + 1] == g[..n] + [g[n]] && h[..n + 1] == h[..n] + [h[n]];
      MostRecentFirstUnique(log, g, h, n + 1);
    } else if n < |h| {
      NextAtLeast(log, h, g, n);
    }
  }

  function Take(h: seq<string>): seq<string> {
    if |h| <= HISTORY_MAX then h else h[..HISTORY_MAX]
  }

  lemma {:induction false} IndexOfTake(h: seq<string>, s: string, n: nat)
    requires n <= |h|
    ensures IndexOf(h[..n], s) == if IndexOf(h, s) < n then IndexOf(h, s) else n
  {
    if n > 0 && h[0] != s {
      IndexOfTake(h[1..], s, n - 1);
      assert h[..n][1..] == h[1..][..n - 1];
    }
  }

  lemma RemoveTaken(r: seq<string>, i: nat)
    requires i < |r| && i < HISTORY_MAX
    ensures var n := if |r| <= HISTORY_MAX then |r| else HISTORY_MAX;
            (r[..i] + r[i + 1..])[..n - 1] == r[..n][..i] + r[..n][i + 1..]
  {
  }

  lemma AddTakeFound(r: seq<string>, s: string)
    requires s != "" && IndexOf(r, s) < |Take(r)| && IndexOf(Take(r), s) == IndexOf(r, s)
    ensures Take([s] + Remove(r, s)) == Add(Take(r), s)
  {
    hide IndexOf;
    var t, i := Take(r), IndexOf(r, s);
    RemoveTaken(r, i);
  }

  /** Bounding first or last makes no difference. */
  lemma AddTake(r: seq<string>, s: string)
    requires s != ""
    ensures Take([s] + Remove(r, s)) == Add(Take(r), s)
  {
    var t, i := Take(r), IndexOf(r, s);
    IndexOfTake(r, s, |t|);
    assert r[..|t|] == t;
    if i < |t| {
      AddTakeFound(r, s);
    } else if |r| < HISTORY_MAX {
      assert s !in t && t == r;
    } else {
      assert s !in t && |t| == HISTORY_MAX;
      assert Remove(r, s)[..HISTORY_MAX - 1] == t[..HISTORY_MAX - 1];
    }
  }

  /** After any sequence of commands the list holds the 100 most recently used distinct non-empty lines. */
  lemma {:induction false} HistoryIsRecent(log: seq<string>)
    ensures AddAll([], log) == Take(Recent(log))
    ensures MostRecentFirst(log, Recent(log))
  {
    RecentIsMostRecentFirst(log);
    if log != [] {
      HistoryIsRecent(log[..|log| - 1]);
      if log[|log| - 1] != "" {
        AddTake(Recent(log[..|log| - 1]), log[|log| - 1]);
      }
    }
  }

  // ----- Navigation -----

  /** The list with the selected entry, the line being edited, and the line set aside by the first step back. */
  datatype Nav = Nav(list: seq<string>, curr: Option<nat>, line: string, saved: Option<string>)

  predicate Sound(n: Nav) { n.curr.Some? ==> n.curr.value < |n.list| }

  /** history_prev. */
  function Prev(n: Nav): (m: Nav)
    requires Sound(n)
    ensures Sound(m)
  {
    if n.curr.None? then n
    else if n.curr.value == 0 && n.saved.None? then n.(saved := Some(n.line), line := n.list[0])
    else if n.curr.value == |n.list| - 1 then n
    else n.(curr := Some(n.curr.value + 1), line := n.list[n.curr.value + 1])
  }

  /** history_next. */
  function Next(n: Nav): (m: Nav)
    requires Sound(n)
    ensures Sound(m)
  {
    if n.curr.None? || n.curr.value == 0 then
      if n.saved.Some? then n.(saved := None, line := BeforeNul(n.saved.value)) else n
    else n.(curr := Some(n.curr.value - 1), line := n.list[n.curr.value - 1])
  }

  function PrevTimes(n: Nav, k: nat): (m: Nav)
    requires Sound(n)
    ensures Sound(m)
  {
    if k == 0 then n else Prev(PrevTimes(n, k - 1))
  }

  function NextTimes(n: Nav, k: nat): (m: Nav)
    requires Sound(n)
    ensures Sound(m)
    decreases k
  {
    if k == 0 then n else NextTimes(Next(n), k - 1)
  }

  /** k steps back from the newest entry select entry k - 1, or the oldest. */
  lemma {:induction false} PrevReaches(n: Nav, k: nat)
    requires Sound(n) && n.curr == Some(0) && n.saved == None && k > 0
    ensures var i := if k <= |n.list| then k - 1 else |n.list| - 1;
            PrevTimes(n, k) == Nav(n.list, Some(i), n.list[i], Some(n.line))
  {
    if k > 1 {
      PrevReaches(n, k - 1);
    }
  }

  lemma {:induction false} NextReturns(n: Nav, i: nat, k: nat)
    requires Sound(n) && n.curr == Some(i) && n.saved.Some? && k > i
    ensures NextTimes(n, k) == Nav(n.list, Some(0), BeforeNul(n.saved.value), None)
    decreases k
  {
    if i > 0 {
      NextReturns(Next(n), i - 1, k - 1);
    } else {
      NextStays(Next(n), k - 1);
    }
  }

  lemma {:induction false} NextStays(n: Nav, k: nat)
    requires Sound(n) && n.curr == Some(0) && n.saved == None
    ensures NextTimes(n, k) == n
  {
    if k > 0 {
      NextStays(n, k - 1);
    }
  }

  /** However many steps back, as many forward restore the line, unless it has a NUL in it. */
  lemma BackAndForth(n: Nav, k: nat)
    requires Sound(n) && n.curr == Some(0) && n.saved == None
    ensures NextTimes(PrevTimes(n, k), k) == if k == 0 then n else n.(line := BeforeNul(n.line))
    ensures k > 0 ==> (NextTimes(PrevTimes(n, k), k) == n <==> forall i | 0 <= i < |n.line| :: n.line[i] != '\0')
  {
    if k > 0 {
      PrevReaches(n, k);
      var m := PrevTimes(n, k);
      NextReturns(m, m.curr.value, k);
      BeforeNulWhole(n.line);
    }
  }
}
