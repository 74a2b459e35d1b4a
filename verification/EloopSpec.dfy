/**
The timeout scheduler of tools/wifi_wpa_cli/eloop.c as a transition system. Handlers may
register and cancel at any point, so a run is any sequence of the operations below; the
event loop itself contributes `Fire`. Clock readings are part of the operations and only
have to be monotone.
*/
module EloopSpec {
  import opened RelTime

  /** `id` counts registrations; it stands for the identity of the allocated timeout. */
  datatype Timeout = Timeout(id: nat, time: Time, handler: int, eloopData: int, userData: int)

  const ALL_CTX: int := -1  // ELOOP_ALL_CTX

  datatype Firing = Firing(timeout: Timeout, at: Time)

  datatype Sched = Sched(
    queue: seq<Timeout>,
    clock: Time,
    nextId: nat,
    fired: seq<Firing>,
    registered: multiset<Timeout>,
    cancelled: multiset<Timeout>)

  datatype Op =
    | Register(now: Time, secs: nat, usecs: nat, handler: int, eloopData: int, userData: int)
    | Cancel(handler: int, eloopData: int, userData: int)
    | CancelOne(now: Time, handler: int, eloopData: int, userData: int)
    | Deplete(now: Time, secs: nat, usecs: nat, handler: int, eloopData: int, userData: int, again: Time)
    | Replenish(now: Time, secs: nat, usecs: nat, handler: int, eloopData: int, userData: int, again: Time)
    | Fire(now: Time)

  // ----- The queue -----

  /** Inserted before the first timeout with a later deadline. */
  function Insert(q: seq<Timeout>, t: Timeout): seq<Timeout> {
    if q == [] then [t]
    else if Before(t.time, q[0].time) then [t] + q
    else [q[0]] + Insert(q[1..], t)
  }

  /** The test of eloop_cancel_timeout, wildcards included. */
  predicate Matches(t: Timeout, handler: int, eloopData: int, userData: int) {
    && t.handler == handler
    && (t.eloopData == eloopData || eloopData == ALL_CTX)
    && (t.userData == userData || userData == ALL_CTX)
  }

  /** The test of every other operation. */
  predicate Exact(t: Timeout, handler: int, eloopData: int, userData: int) {
    t.handler == handler && t.eloopData == eloopData && t.userData == userData
  }

  function Kept(q: seq<Timeout>, handler: int, eloopData: int, userData: int): seq<Timeout> {
    if q == [] then []
    else if Matches(q[0], handler, eloopData, userData) then Kept(q[1..], handler, eloopData, userData)
    else [q[0]] + Kept(q[1..], handler, eloopData, userData)
  }

  function Dropped(q: seq<Timeout>, handler: int, eloopData: int, userData: int): seq<Timeout> {
    if q == [] then []
    else if Matches(q[0], handler, eloopData, userData) then [q[0]] + Dropped(q[1..], handler, eloopData, userData)
    else Dropped(q[1..], handler, eloopData, userData)
  }

  /** Position of the first exact match, or the length of the queue. */
  function Find(q: seq<Timeout>, handler: int, eloopData: int, userData: int): (i: nat)
    ensures i <= |q| && (i < |q| ==> Exact(q[i], handler, eloopData, userData))
    ensures forall k | 0 <= k < i :: !Exact(q[k], handler, eloopData, userData)
  {
    if q == [] || Exact(q[0], handler, eloopData, userData) then 0
    else 1 + Find(q[1..], handler, eloopData, userData)
  }

  // ----- Steps -----

  predicate Later(now: Time, clock: Time) { Normal(now) && !Before(now, clock) }

  /** Clock readings never go back. */
  predicate Enabled(s: Sched, op: Op) {
    match op
    case Register(now, _, _, _, _, _) => Later(now, s.clock)
    case Cancel(_, _, _) => true
    case CancelOne(now, _, _, _) => Later(now, s.clock)
    case Deplete(now, _, _, _, _, _, again) => Later(now, s.clock) && Later(again, now)
    case Replenish(now, _, _, _, _, _, again) => Later(now, s.clock) && Later(again, now)
    case Fire(now) => Later(now, s.clock)
  }

  function RegisterStep(s: Sched, now: Time, secs: nat, usecs: nat, handler: int, eloopData: int, userData: int): Sched
    requires Normal(now)
  {
    var t := Timeout(s.nextId, After(now, secs, usecs), handler, eloopData, userData);
    s.(queue := Insert(s.queue, t), clock := now, nextId := s.nextId + 1, registered := s.registered + multiset{t})
  }

  function CancelStep(s: Sched, handler: int, eloopData: int, userData: int): Sched {
    s.(queue := Kept(s.queue, handler, eloopData, userData),
       cancelled := s.cancelled + multiset(Dropped(s.queue, handler, eloopData, userData)))
  }

  /** `deplete`: the first match is due later than requested; `replenish`: sooner. */
  predicate Rearms(s: Sched, deplete: bool, now: Time, secs: nat, usecs: nat, handler: int, eloopData: int, userData: int) {
    var i := Find(s.queue, handler, eloopData, userData);
    i < |s.queue| &&
    var remaining := Sub(s.queue[i].time, now);
    if deplete then Before(Time(secs, usecs), remaining) else Before(remaining, Time(secs, usecs))
  }

  function RearmStep(s: Sched, deplete: bool, now: Time, secs: nat, usecs: nat,
                     handler: int, eloopData: int, userData: int, again: Time): Sched
    requires Normal(again)
  {
    if Find(s.queue, handler, eloopData, userData) == |s.queue| then s
    else if Rearms(s, deplete, now, secs, usecs, handler, eloopData, userData) then
      RegisterStep(CancelStep(s.(clock := now), handler, eloopData, userData),
                   again, secs, usecs, handler, eloopData, userData)
    else s.(clock := now)
  }

  function CancelOneStep(s: Sched, now: Time, handler: int, eloopData: int, userData: int): Sched {
    var i := Find(s.queue, handler, eloopData, userData);
    if i == |s.queue| then s.(clock := now)
    else s.(queue := s.queue[..i] + s.queue[i + 1..], clock := now, cancelled := s.cancelled + multiset{s.queue[i]})
  }

  function FireStep(s: Sched, now: Time): Sched {
    if s.queue == [] then s
    else if Before(now, s.queue[0].time) then s.(clock := now)
    else s.(queue := s.queue[1..], clock := now, fired := s.fired + [Firing(s.queue[0], now)])
  }

  function Step(s: Sched, op: Op): Sched
    requires Enabled(s, op)
  {
    match op
    case Register(now, secs, usecs, h, ed, ud) => RegisterStep(s, now, secs, usecs, h, ed, ud)
    case Cancel(h, ed, ud) => CancelStep(s, h, ed, ud)
    case CancelOne(now, h, ed, ud) => CancelOneStep(s, now, h, ed, ud)
    case Deplete(now, secs, usecs, h, ed, ud, again) => RearmStep(s, true, now, secs, usecs, h, ed, ud, again)
    case Replenish(now, secs, usecs, h, ed, ud, again) => RearmStep(s, false, now, secs, usecs, h, ed, ud, again)
    case Fire(now) => FireStep(s, now)
  }

  function Start(clock: Time): Sched {
    Sched([], clock, 0, [], multiset{}, multiset{})
  }

  predicate ValidRun(s: Sched, ops: seq<Op>)
    decreases |ops|
  {
    ops == [] || (Enabled(s, ops[0]) && ValidRun(Step(s, ops[0]), ops[1..]))
  }

  function Run(s: Sched, ops: seq<Op>): Sched
    requires ValidRun(s, ops)
    decreases |ops|
  {
    if ops == [] then s else Run(Step(s, ops[0]), ops[1..])
  }

  // ----- What every step keeps -----

  /** Firing order: different timeouts, by deadline, then by registration. */
  predicate Precedes(a: Timeout, b: Timeout) {
    a.id != b.id && (Before(a.time, b.time) || (a.time == b.time && a.id < b.id))
  }

  predicate Ordered(q: seq<Timeout>) {
    forall i, j | 0 <= i < j < |q| :: Precedes(q[i], q[j])
  }

  function Timeouts(fired: seq<Firing>): (q: seq<Timeout>)
    ensures |q| == |fired|
  {
    seq(|fired|, i requires 0 <= i < |fired| => fired[i].timeout)
  }

  /** Everything fired so far followed by everything queued is one ordered sequence. */
  ghost predicate Inv(s: Sched) {
    && Normal(s.clock)
    && Ordered(Timeouts(s.fired) + s.queue)
    && (forall i | 0 <= i < |s.queue| :: Normal(s.queue[i].time) && s.queue[i].id < s.nextId)
    && (forall i | 0 <= i < |s.fired| ::
          var f := s.fired[i];
          Normal(f.timeout.time) && f.timeout.id < s.nextId
          && Normal(f.at) && !Before(f.at, f.timeout.time) && !Before(s.clock, f.at))
    && (forall i, j | 0 <= i < j < |s.fired| :: !Before(s.fired[j].at, s.fired[i].at))
    && s.registered == multiset(Timeouts(s.fired)) + multiset(s.queue) + s.cancelled
  }

  /** Queue order follows from insertion order. */
  lemma {:induction false} InsertOrdered(q: seq<Timeout>, t: Timeout)
    requires Ordered(q)
    requires forall i | 0 <= i < |q| :: q[i].id < t.id && Normal(q[i].time)
    requires Normal(t.time)
    ensures Ordered(Insert(q, t))
    ensures multiset(Insert(q, t)) == multiset(q) + multiset{t}
    ensures forall x | x in Insert(q, t) :: x == t || x in q
  {
    if q == [] {
    } else if Before(t.time, q[0].time) {
    } else {
      InsertOrdered(q[1..], t);
      var r := Insert(q[1..], t);
      assert q == [q[0]] + q[1..];
      forall j | 0 <= j < |r|
        ensures Precedes(q[0], r[j])
      {
        assert r[j] in r;
      }
    }
  }

  lemma {:induction false} KeptOrdered(q: seq<Timeout>, handler: int, eloopData: int, userData: int)
    ensures var k := Kept(q, handler, eloopData, userData);
            (forall x | x in k :: x in q) && (Ordered(q) ==> Ordered(k))
  {
    if q != [] {
      KeptOrdered(q[1..], handler, eloopData, userData);
      var k := Kept(q[1..], handler, eloopData, userData);
      forall j | 0 <= j < |k| ensures k[j] in q[1..] {
        assert k[j] in k;
      }
    }
  }

  /** Every queued timeout is either kept or dropped, and the dropped ones are the matches. */
  lemma {:induction false} KeptOrDropped(q: seq<Timeout>, handler: int, eloopData: int, userData: int)
    ensures var k, d := Kept(q, handler, eloopData, userData), Dropped(q, handler, eloopData, userData);
            && multiset(q) == multiset(k) + multiset(d)
            && (forall x | x in k :: !Matches(x, handler, eloopData, userData))
            && (forall x | x in d :: Matches(x, handler, eloopData, userData))
  {
    if q != [] {
      KeptOrDropped(q[1..], handler, eloopData, userData);
      assert q == [q[0]] + q[1..];
    }
  }

  /** Ordering of a concatenation, piece by piece. */
  lemma OrderedConcat(a: seq<Timeout>, b: seq<Timeout>)
    ensures Ordered(a + b) <==>
              Ordered(a) && Ordered(b) && forall x, y | x in a && y in b :: Precedes(x, y)
  {
    if Ordered(a + b) {
      forall i, j | 0 <= i < j < |a| ensures Precedes(a[i], a[j]) {
        assert (a + b)[i] == a[i] && (a + b)[j] == a[j];
      }
      forall i, j | 0 <= i < j < |b| ensures Precedes(b[i], b[j]) {
        assert (a + b)[|a| + i] == b[i] && (a + b)[|a| + j] == b[j];
      }
      forall x, y | x in a && y in b ensures Precedes(x, y) {
        var i :| 0 <= i < |a| && a[i] == x;
        var j :| 0 <= j < |b| && b[j] == y;
        assert (a + b)[i] == x && (a + b)[|a| + j] == y;
      }
    }
  }

  lemma RegisterKeeps(s: Sched, now: Time, secs: nat, usecs: nat, handler: int, eloopData: int, userData: int)
    requires Inv(s) && Later(now, s.clock)
    ensures Inv(RegisterStep(s, now, secs, usecs, handler, eloopData, userData))
  {
    var t := Timeout(s.nextId, After(now, secs, usecs), handler, eloopData, userData);
    var q := Insert(s.queue, t);
    RegisterOrdered(s, now, t);
    hide Insert, Ordered, Before, Timeouts, After;
    forall i | 0 <= i < |q| ensures Normal(q[i].time) && q[i].id < s.nextId + 1 {
      assert q[i] in q;
    }
  }

  lemma RegisterOrdered(s: Sched, now: Time, t: Timeout)
    requires Inv(s) && Later(now, s.clock)
    requires t.id == s.nextId && Normal(t.time) && !Before(t.time, now)
    ensures Ordered(Timeouts(s.fired) + Insert(s.queue, t))
    ensures multiset(Insert(s.queue, t)) == multiset(s.queue) + multiset{t}
    ensures forall x :: x in Insert(s.queue, t) <==> x == t || x in s.queue
  {
    var q := Insert(s.queue, t);
    var f := Timeouts(s.fired);
    OrderedConcat(f, s.queue);
    InsertOrdered(s.queue, t);
    hide Insert;
    assert forall x :: x in q <==> x in multiset(q);
    forall x, y | x in f && y in q
      ensures Precedes(x, y)
    {
      if y == t {
        var i :| 0 <= i < |f| && f[i] == x;
        NotBeforeTrans(t.time, now, s.clock, s.fired[i].at, x.time);
      }
    }
    OrderedConcat(f, q);
  }

  lemma NotBeforeTrans(a: Time, b: Time, c: Time, d: Time, e: Time)
    requires !Before(a, b) && !Before(b, c) && !Before(c, d) && !Before(d, e)
    ensures !Before(a, e) && !Before(b, d)
  {}

  lemma CancelKeeps(s: Sched, handler: int, eloopData: int, userData: int)
    requires Inv(s)
    ensures Inv(CancelStep(s, handler, eloopData, userData))
  {
    var f := Timeouts(s.fired);
    var k := Kept(s.queue, handler, eloopData, userData);
    KeptOrdered(s.queue, handler, eloopData, userData);
    KeptOrDropped(s.queue, handler, eloopData, userData);
    OrderedConcat(f, s.queue);
    OrderedConcat(f, k);
    forall i | 0 <= i < |k| ensures Normal(k[i].time) && k[i].id < s.nextId {
      assert k[i] in k;
    }
  }

  lemma CancelClock(s: Sched, handler: int, eloopData: int, userData: int)
    ensures CancelStep(s, handler, eloopData, userData).clock == s.clock
  {
  }

  lemma ClockKeeps(s: Sched, now: Time)
    requires Inv(s) && Later(now, s.clock)
    ensures Inv(s.(clock := now))
  {
    forall i | 0 <= i < |s.fired| ensures !Before(now, s.fired[i].at) {
      assert !Before(s.clock, s.fired[i].at);
    }
  }

  lemma RemoveKeeps(s: Sched, i: nat)
    requires Inv(s) && i < |s.queue|
    ensures Inv(s.(queue := s.queue[..i] + s.queue[i + 1..], cancelled := s.cancelled + multiset{s.queue[i]}))
  {
    var f, q := Timeouts(s.fired), s.queue;
    var k := q[..i] + q[i + 1..];
    OrderedConcat(f, q);
    WithoutOne(q, i);
    OrderedConcat(f, k);
    forall j | 0 <= j < |k| ensures Normal(k[j].time) && k[j].id < s.nextId {
      assert k[j] in k;
    }
  }

  lemma WithoutOne(q: seq<Timeout>, i: nat)
    requires i < |q|
    ensures var k := q[..i] + q[i + 1..];
            (forall x | x in k :: x in q) && (Ordered(q) ==> Ordered(k)) && multiset(q) == multiset(k) + multiset{q[i]}
  {
    assert q == q[..i] + [q[i]] + q[i + 1..];
  }

  lemma FireKeeps(s: Sched, now: Time)
    requires Inv(s) && Later(now, s.clock)
    ensures Inv(FireStep(s, now))
  {
    ClockKeeps(s, now);
    if s.queue != [] && !Before(now, s.queue[0].time) {
      FireMoves(s.fired, s.queue, now);
    }
  }

  lemma FireMoves(fired: seq<Firing>, q: seq<Timeout>, now: Time)
    requires q != []
    ensures var fired' := fired + [Firing(q[0], now)];
            && Timeouts(fired') + q[1..] == Timeouts(fired) + q
            && multiset(Timeouts(fired')) + multiset(q[1..]) == multiset(Timeouts(fired)) + multiset(q)
  {
    var fired' := fired + [Firing(q[0], now)];
    assert Timeouts(fired') == Timeouts(fired) + [q[0]];
    assert q == [q[0]] + q[1..];
  }

  lemma StepKeeps(s: Sched, op: Op)
    requires Inv(s) && Enabled(s, op)
    ensures Inv(Step(s, op))
  {
    match op
    case Register(now, secs, usecs, h, ed, ud) => RegisterKeeps(s, now, secs, usecs, h, ed, ud);
    case Cancel(h, ed, ud) => CancelKeeps(s, h, ed, ud);
    case CancelOne(now, h, ed, ud) => CancelOneKeeps(s, now, h, ed, ud);
    case Deplete(now, secs, usecs, h, ed, ud, again) => RearmKeeps(s, true, now, secs, usecs, h, ed, ud, again);
    case Replenish(now, secs, usecs, h, ed, ud, again) => RearmKeeps(s, false, now, secs, usecs, h, ed, ud, again);
    case Fire(now) => FireKeeps(s, now);
  }

  lemma CancelOneKeeps(s: Sched, now: Time, handler: int, eloopData: int, userData: int)
    requires Inv(s) && Later(now, s.clock)
    ensures Inv(CancelOneStep(s, now, handler, eloopData, userData))
  {
    hide Inv;
    ClockKeeps(s, now);
    var i := Find(s.queue, handler, eloopData, userData);
    if i < |s.queue| {
      RemoveKeeps(s.(clock := now), i);
    }
  }

  lemma RearmKeeps(s: Sched, deplete: bool, now: Time, secs: nat, usecs: nat,
                   handler: int, eloopData: int, userData: int, again: Time)
    requires Inv(s) && Later(now, s.clock) && Later(again, now)
    ensures Inv(RearmStep(s, deplete, now, secs, usecs, handler, eloopData, userData, again))
  {
    ClockKeeps(s, now);
    CancelKeeps(s.(clock := now), handler, eloopData, userData);
    RegisterKeeps(CancelStep(s.(clock := now), handler, eloopData, userData), again, secs, usecs, handler, eloopData, userData);
  }

  lemma {:induction false} RunKeeps(s: Sched, ops: seq<Op>)
    requires Inv(s) && ValidRun(s, ops)
    ensures Inv(Run(s, ops))
    decreases |ops|
  {
    if ops != [] {
      StepKeeps(s, ops[0]);
      RunKeeps(Step(s, ops[0]), ops[1..]);
    }
  }

  /** Safety over whole runs. */
  lemma RunIsSafe(clock: Time, ops: seq<Op>)
    requires Normal(clock) && ValidRun(Start(clock), ops)
    ensures var end := Run(Start(clock), ops);
            // never early
            && (forall i | 0 <= i < |end.fired| :: Micros(end.fired[i].timeout.time) <= Micros(end.fired[i].at))
            // at most once, in deadline order, ties in registration order
            && (forall i, j | 0 <= i < j < |end.fired| ::
                  var a, b := end.fired[i].timeout, end.fired[j].timeout;
                  a.id != b.id && Micros(a.time) <= Micros(b.time) && (a.time == b.time ==> a.id < b.id))
            // nothing is lost or invented
            && end.registered == multiset(Timeouts(end.fired)) + multiset(end.queue) + end.cancelled
  {
    assert Timeouts(Start(clock).fired) + Start(clock).queue == [];
    RunKeeps(Start(clock), ops);
    var end := Run(Start(clock), ops);
    var all := Timeouts(end.fired) + end.queue;
    forall i | 0 <= i < |end.fired| ensures Micros(end.fired[i].timeout.time) <= Micros(end.fired[i].at) {
      BeforeMicros(end.fired[i].at, end.fired[i].timeout.time);
    }
    forall i, j | 0 <= i < j < |end.fired|
      ensures var a, b := end.fired[i].timeout, end.fired[j].timeout;
              a.id != b.id && Micros(a.time) <= Micros(b.time) && (a.time == b.time ==> a.id < b.id)
    {
      assert all[i] == end.fired[i].timeout && all[j] == end.fired[j].timeout;
      assert Precedes(all[i], all[j]);
      BeforeMicros(all[j].time, all[i].time);
    }
  }

  // ----- Timeouts that are due do fire -----

  /** What one check for a due timeout finds: the head of the queue, if its deadline is not in the future. */
  function DueHead(q: seq<Timeout>, now: Time): seq<Timeout> {
    if q != [] && Micros(q[0].time) <= Micros(now) then [q[0]] else []
  }

  /** The check takes exactly that from the queue and fires it, and changes nothing else. */
  lemma FireFires(s: Sched, now: Time)
    requires Inv(s) && Later(now, s.clock)
    ensures var s', due := Step(s, Fire(now)), DueHead(s.queue, now);
            && Timeouts(s'.fired) == Timeouts(s.fired) + due && s.queue == due + s'.queue
            && s'.fired[..|s.fired|] == s.fired && (due != [] ==> s'.fired[|s.fired|] == Firing(s.queue[0], now))
            && s'.nextId == s.nextId && s'.registered == s.registered && s'.cancelled == s.cancelled
            && s'.clock == if s.queue == [] then s.clock else now
  {
    if s.queue != [] {
      BeforeMicros(now, s.queue[0].time);
    }
    var s', due := Step(s, Fire(now)), DueHead(s.queue, now);
    assert s'.fired == s.fired || s'.fired == s.fired + [Firing(s.queue[0], now)];
  }

  function Fires(now: Time, n: nat): (ops: seq<Op>)
    ensures |ops| == n && forall i | 0 <= i < n :: ops[i] == Fire(now)
  {
    seq(n, i => Fire(now))
  }

  /** How many timeouts at the front of the queue are due. */
  function DueCount(q: seq<Timeout>, now: Time): (n: nat)
    ensures n <= |q| && (forall i | 0 <= i < n :: Micros(q[i].time) <= Micros(now))
    ensures n < |q| ==> Micros(q[n].time) > Micros(now)
  {
    if q != [] && Micros(q[0].time) <= Micros(now) then 1 + DueCount(q[1..], now) else 0
  }

  lemma QueueOrdered(s: Sched)
    requires Inv(s)
    ensures Ordered(s.queue) && forall i | 0 <= i < |s.queue| :: Normal(s.queue[i].time)
  {
    OrderedConcat(Timeouts(s.fired), s.queue);
  }

  /** The queue is ordered, so these are all that are due. */
  lemma DueInFront(q: seq<Timeout>, now: Time, i: nat)
    requires Ordered(q) && (forall k | 0 <= k < |q| :: Normal(q[k].time)) && Normal(now) && i < |q|
    ensures i < DueCount(q, now) <==> Micros(q[i].time) <= Micros(now)
  {
    var n := DueCount(q, now);
    if n < i {
      assert Precedes(q[n], q[i]);
      BeforeMicros(q[n].time, q[i].time);
    }
  }

  lemma {:induction false} FireMany(s: Sched, now: Time, n: nat)
    requires Inv(s) && Later(now, s.clock) && n <= DueCount(s.queue, now)
    ensures ValidRun(s, Fires(now, n))
    ensures var end := Run(s, Fires(now, n));
            && end.queue == s.queue[n..] && Timeouts(end.fired) == Timeouts(s.fired) + s.queue[..n]
            && end.registered == s.registered && end.cancelled == s.cancelled
    decreases n
  {
    hide Inv, Timeouts, FireStep, Micros;
    if n > 0 {
      var s' := Step(s, Fire(now));
      assert Fires(now, n)[1..] == Fires(now, n - 1);
      FireFires(s, now);
      FireKeeps(s, now);
      DueOneLess(s.queue, now);
      assert DueHead(s.queue, now) == [s.queue[0]];
      PastHead(s.queue, s'.queue, n, Timeouts(s.fired));
      FireMany(s', now, n - 1);
    }
  }

  lemma DueOneLess(q: seq<Timeout>, now: Time)
    requires DueCount(q, now) > 0
    ensures q != [] && Micros(q[0].time) <= Micros(now) && DueCount(q[1..], now) == DueCount(q, now) - 1
  {
  }

  lemma PastHead(q: seq<Timeout>, rest: seq<Timeout>, n: nat, front: seq<Timeout>)
    requires 0 < n <= |q| && q == [q[0]] + rest
    ensures rest == q[1..] && q[n..] == rest[n - 1..] && front + q[..n] == front + [q[0]] + rest[..n - 1]
  {
    assert q[..n] == [q[0]] + rest[..n - 1];
  }

  /** As many turns as timeouts are due, with handlers that call nothing, fire every one of them, once and in
      deadline order, and no other; one more turn fires nothing. */
  lemma DueAllFire(s: Sched, now: Time)
    requires Inv(s) && Later(now, s.clock)
    ensures var n := DueCount(s.queue, now);
            && ValidRun(s, Fires(now, n))
            && var end := Run(s, Fires(now, n));
            && Timeouts(end.fired) == Timeouts(s.fired) + s.queue[..n] && end.queue == s.queue[n..]
            && (forall t | t in s.queue :: t in Timeouts(end.fired) <==> Micros(t.time) <= Micros(now))
            && (forall t | t in s.queue :: t in end.queue <==> Micros(now) < Micros(t.time))
            && DueHead(end.queue, now) == []
  {
    var n := DueCount(s.queue, now);
    FireMany(s, now, n);
    QueueOrdered(s);
    OrderedConcat(Timeouts(s.fired), s.queue);
    forall t | t in s.queue
      ensures t in Timeouts(s.fired) + s.queue[..n] <==> Micros(t.time) <= Micros(now)
      ensures t in s.queue[n..] <==> Micros(now) < Micros(t.time)
    {
      var i :| 0 <= i < |s.queue| && s.queue[i] == t;
      DueInFront(s.queue, now, i);
      WhereInQueue(s.queue, n, i);
      assert t in Timeouts(s.fired) ==> Precedes(t, t);
    }
  }

  lemma WhereInQueue(q: seq<Timeout>, n: nat, i: nat)
    requires n <= |q| && i < |q| && Ordered(q)
    ensures q[i] in q[..n] <==> i < n
    ensures q[i] in q[n..] <==> n <= i
  {
    if i < n {
      assert q[..n][i] == q[i];
      forall j | 0 <= j < |q[n..]| ensures q[n..][j] != q[i] {
        assert Precedes(q[i], q[n + j]);
      }
    } else {
      assert q[n..][i - n] == q[i];
      forall j | 0 <= j < n ensures q[..n][j] != q[i] {
        assert Precedes(q[j], q[i]);
      }
    }
  }

  // ----- None is starved -----

  /** Position of a timeout in the queue, or its length. */
  function Place(q: seq<Timeout>, t: Timeout): (i: nat)
    ensures i <= |q| && (i < |q| ==> q[i] == t) && (t in q <==> i < |q|)
  {
    if q == [] || q[0] == t then 0 else 1 + Place(q[1..], t)
  }

  /** What is registered once a timeout is due comes behind it. */
  lemma {:induction false} PlaceInsert(q: seq<Timeout>, t: Timeout, x: Timeout)
    requires x in q && Normal(t.time) && Ordered(q) && (forall k | 0 <= k < |q| :: Normal(q[k].time))
    requires Micros(x.time) <= Micros(t.time)
    ensures x in Insert(q, t) && Place(Insert(q, t), x) == Place(q, x)
  {
    BeforeMicros(t.time, x.time);
    if q[0] != x {
      var i := Place(q, x);
      assert Precedes(q[0], q[i]);
      BeforeMicros(t.time, q[0].time);
      BeforeMicros(q[0].time, x.time);
      PlaceInsert(q[1..], t, x);
      assert Insert(q, t)[1..] == Insert(q[1..], t);
    }
  }

  lemma {:induction false} PlaceKept(q: seq<Timeout>, handler: int, eloopData: int, userData: int, x: Timeout)
    requires x in q
    ensures var k := Kept(q, handler, eloopData, userData);
            if Matches(x, handler, eloopData, userData) then x in Dropped(q, handler, eloopData, userData)
            else x in k && Place(k, x) <= Place(q, x)
  {
    if q[0] != x {
      PlaceKept(q[1..], handler, eloopData, userData, x);
    }
    var k := Kept(q, handler, eloopData, userData);
    assert !Matches(q[0], handler, eloopData, userData) ==> k[1..] == Kept(q[1..], handler, eloopData, userData);
  }

  lemma PlaceWithout(q: seq<Timeout>, i: nat, x: Timeout)
    requires x in q && i < |q| && Ordered(q)
    ensures var k := q[..i] + q[i + 1..]; q[i] == x || (x in k && Place(k, x) <= Place(q, x))
  {
    var k, p := q[..i] + q[i + 1..], Place(q, x);
    if p < i {
      assert k[p] == x;
      PlaceFirst(k, p);
    } else if i < p {
      assert k[p - 1] == x;
      PlaceFirst(k, p - 1);
    }
  }

  lemma {:induction false} PlaceFirst(q: seq<Timeout>, i: nat)
    requires i < |q|
    ensures Place(q, q[i]) <= i
  {
    if i > 0 {
      PlaceFirst(q[1..], i - 1);
    }
  }

  /** The timeout has been served: fired or cancelled. */
  predicate Served(s: Sched, x: Timeout) { x in Timeouts(s.fired) || x in s.cancelled }

  /** A timeout that is due and has at most n others in front of it. */
  predicate Waits(s: Sched, x: Timeout, n: nat) {
    x in s.queue && Micros(x.time) <= Micros(s.clock) && Place(s.queue, x) <= n
  }

  lemma ServedStays(s: Sched, op: Op, x: Timeout)
    requires Inv(s) && Enabled(s, op) && Served(s, x)
    ensures Served(Step(s, op), x)
  {
    if op.Fire? {
      FireFires(s, op.now);
    }
  }

  lemma RegisterServes(s: Sched, now: Time, secs: nat, usecs: nat, handler: int, eloopData: int, userData: int, x: Timeout, n: nat)
    requires Inv(s) && Later(now, s.clock) && Waits(s, x, n)
    ensures Waits(RegisterStep(s, now, secs, usecs, handler, eloopData, userData), x, n)
  {
    QueueOrdered(s);
    hide Inv;
    BeforeMicros(now, s.clock);
    PlaceInsert(s.queue, Timeout(s.nextId, After(now, secs, usecs), handler, eloopData, userData), x);
  }

  lemma CancelServes(s: Sched, handler: int, eloopData: int, userData: int, x: Timeout, n: nat)
    requires Waits(s, x, n)
    ensures var s' := CancelStep(s, handler, eloopData, userData); Served(s', x) || Waits(s', x, n)
  {
    PlaceKept(s.queue, handler, eloopData, userData, x);
  }

  lemma FireServes(s: Sched, now: Time, x: Timeout, n: nat)
    requires Inv(s) && Later(now, s.clock) && Waits(s, x, n)
    ensures var s' := Step(s, Fire(now)); Served(s', x) || (n > 0 && Waits(s', x, n - 1))
  {
    FireFires(s, now);
    QueueOrdered(s);
    var i, s' := Place(s.queue, x), Step(s, Fire(now));
    BeforeMicros(now, s.clock);
    hide Inv, FireStep, Timeouts;
    if i > 0 {
      assert Precedes(s.queue[0], s.queue[i]);
      BeforeMicros(s.queue[0].time, x.time);
      assert s'.queue == s.queue[1..] && s'.queue[i - 1] == x;
      PlaceFirst(s'.queue, i - 1);
    } else {
      var all := Timeouts(s.fired) + [x];
      assert all[|all| - 1] == x;
    }
  }

  lemma RearmServes(s: Sched, deplete: bool, now: Time, secs: nat, usecs: nat, handler: int, eloopData: int, userData: int,
                    again: Time, x: Timeout, n: nat)
    requires Inv(s) && Later(now, s.clock) && Later(again, now) && Waits(s, x, n)
    ensures var s' := RearmStep(s, deplete, now, secs, usecs, handler, eloopData, userData, again); Served(s', x) || Waits(s', x, n)
  {
    ClockKeeps(s, now);
    var s0 := s.(clock := now);
    BeforeMicros(now, s.clock);
    CancelKeeps(s0, handler, eloopData, userData);
    CancelServes(s0, handler, eloopData, userData, x, n);
    var s1 := CancelStep(s0, handler, eloopData, userData);
    hide Inv, Waits, CancelStep;
    if Waits(s1, x, n) {
      CancelClock(s0, handler, eloopData, userData);
      RegisterServes(s1, again, secs, usecs, handler, eloopData, userData, x, n);
    }
  }

  lemma CancelOneServes(s: Sched, now: Time, handler: int, eloopData: int, userData: int, x: Timeout, n: nat)
    requires Inv(s) && Later(now, s.clock) && Waits(s, x, n)
    ensures var s' := CancelOneStep(s, now, handler, eloopData, userData); Served(s', x) || Waits(s', x, n)
  {
    QueueOrdered(s);
    BeforeMicros(now, s.clock);
    hide Inv;
    var i := Find(s.queue, handler, eloopData, userData);
    if i < |s.queue| {
      PlaceWithout(s.queue, i, x);
    }
  }

  function FireCount(ops: seq<Op>): nat {
    if ops == [] then 0 else (if ops[0].Fire? then 1 else 0) + FireCount(ops[1..])
  }

  lemma StepServes(s: Sched, op: Op, x: Timeout, n: nat)
    requires Inv(s) && Enabled(s, op) && Waits(s, x, n)
    ensures Served(Step(s, op), x) || Waits(Step(s, op), x, n)
    ensures op.Fire? ==> Served(Step(s, op), x) || (n > 0 && Waits(Step(s, op), x, n - 1))
  {
    hide Inv, Waits, Served, RegisterStep, CancelStep, CancelOneStep, RearmStep, FireStep;
    match op
    case Register(now, secs, usecs, h, ed, ud) => RegisterServes(s, now, secs, usecs, h, ed, ud, x, n);
    case Cancel(h, ed, ud) => CancelServes(s, h, ed, ud, x, n);
    case CancelOne(now, h, ed, ud) => CancelOneServes(s, now, h, ed, ud, x, n);
    case Deplete(now, secs, usecs, h, ed, ud, again) => RearmServes(s, true, now, secs, usecs, h, ed, ud, again, x, n);
    case Replenish(now, secs, usecs, h, ed, ud, again) => RearmServes(s, false, now, secs, usecs, h, ed, ud, again, x, n);
    case Fire(now) =>
      FireServes(s, now, x, n);
      WaitsMore(Step(s, op), x, n);
  }

  lemma WaitsMore(s: Sched, x: Timeout, n: nat)
    ensures n > 0 && Waits(s, x, n - 1) ==> Waits(s, x, n)
  {
  }

  lemma {:induction false} ServedForGood(s: Sched, ops: seq<Op>, x: Timeout)
    requires Inv(s) && ValidRun(s, ops) && Served(s, x)
    ensures Served(Run(s, ops), x)
    decreases |ops|
  {
    hide Inv, Served, Step, Enabled;
    if ops != [] {
      StepKeeps(s, ops[0]);
      ServedStays(s, ops[0], x);
      ServedForGood(Step(s, ops[0]), ops[1..], x);
    }
  }

  /** Whatever handlers do meanwhile, a timeout that is due, with n others in front of it, has been fired or
      cancelled after n + 1 turns. */
  lemma {:induction false} NoStarvation(s: Sched, ops: seq<Op>, x: Timeout, n: nat)
    requires Inv(s) && ValidRun(s, ops) && Waits(s, x, n) && FireCount(ops) > n
    ensures Served(Run(s, ops), x)
    decreases |ops|
  {
    hide Inv, Served, Waits, Step, Enabled;
    var s' := Step(s, ops[0]);
    StepKeeps(s, ops[0]);
    StepServes(s, ops[0], x, n);
    if Served(s', x) {
      ServedForGood(s', ops[1..], x);
    } else {
      NoStarvation(s', ops[1..], x, if ops[0].Fire? then n - 1 else n);
    }
  }

  // ----- What the other operations do to the queue -----

  /** A new timeout: due so long after the reading, behind all that are due no later, and no other is touched. */
  lemma RegisterAdds(s: Sched, now: Time, secs: nat, usecs: nat, handler: int, eloopData: int, userData: int)
    requires Inv(s) && Later(now, s.clock)
    ensures var s' := Step(s, Register(now, secs, usecs, handler, eloopData, userData));
            && s'.fired == s.fired && s'.cancelled == s.cancelled && Ordered(s'.queue)
            && exists t: Timeout ::
                 && Exact(t, handler, eloopData, userData) && Micros(t.time) == Micros(now) + secs * MILLION + usecs
                 && multiset(s'.queue) == multiset(s.queue) + multiset{t} && s'.registered == s.registered + multiset{t}
                 && forall x | x in s.queue :: x.id != t.id
  {
    var t := Timeout(s.nextId, After(now, secs, usecs), handler, eloopData, userData);
    QueueOrdered(s);
    InsertOrdered(s.queue, t);
    assert Exact(t, handler, eloopData, userData);
  }

  /** Cancelling takes out the timeouts of that handler whose data are those given, where ELOOP_ALL_CTX stands
      for any, and no others. */
  lemma CancelLeaves(s: Sched, handler: int, eloopData: int, userData: int, x: Timeout)
    requires x in s.queue
    ensures var s' := Step(s, Cancel(handler, eloopData, userData));
            var hit := x.handler == handler && eloopData in {ALL_CTX, x.eloopData} && userData in {ALL_CTX, x.userData};
            && (x in s'.queue <==> !hit) && (hit ==> x in s'.cancelled) && s'.fired == s.fired && s'.registered == s.registered
  {
    KeptOrDropped(s.queue, handler, eloopData, userData);
    assert x in multiset(s.queue);
    var k, d := Kept(s.queue, handler, eloopData, userData), Dropped(s.queue, handler, eloopData, userData);
    assert x in multiset(k) || x in multiset(d);
    assert (x in k <==> x in multiset(k)) && (x in d <==> x in multiset(d));
  }

  /** Cancelling one takes out the first of those that match exactly, and no other. */
  lemma CancelOneLeaves(s: Sched, now: Time, handler: int, eloopData: int, userData: int)
    requires Later(now, s.clock)
    ensures var s' := Step(s, CancelOne(now, handler, eloopData, userData));
            if forall x | x in s.queue :: !(x.handler == handler && x.eloopData == eloopData && x.userData == userData)
            then s'.queue == s.queue && s'.cancelled == s.cancelled
            else exists i | 0 <= i < |s.queue| ::
              && s.queue[i].handler == handler && s.queue[i].eloopData == eloopData && s.queue[i].userData == userData
              && (forall k | 0 <= k < i :: !Exact(s.queue[k], handler, eloopData, userData))
              && s.queue == s.queue[..i] + [s.queue[i]] + s.queue[i + 1..] && s'.queue == s.queue[..i] + s.queue[i + 1..]
              && s'.cancelled == s.cancelled + multiset{s.queue[i]}
  {
    var i := Find(s.queue, handler, eloopData, userData);
    if i == |s.queue| {
      forall x | x in s.queue ensures !Exact(x, handler, eloopData, userData) {
        var k :| 0 <= k < |s.queue| && s.queue[k] == x;
      }
    } else {
      assert Exact(s.queue[i], handler, eloopData, userData) && s.queue[i] in s.queue;
      assert s.queue == s.queue[..i] + [s.queue[i]] + s.queue[i + 1..];
    }
  }

  // ----- Depleting and replenishing -----

  /** When they rearm, the cancelled matches are replaced by exactly one, due at the requested
      time; otherwise the queue stays as it is. */
  lemma RearmReplaces(s: Sched, deplete: bool, now: Time, secs: nat, usecs: nat,
                      handler: int, eloopData: int, userData: int, again: Time)
    requires Inv(s) && Later(now, s.clock) && Later(again, now)
    ensures var s' := RearmStep(s, deplete, now, secs, usecs, handler, eloopData, userData, again);
            var t := Timeout(s.nextId, After(again, secs, usecs), handler, eloopData, userData);
            var kept := Kept(s.queue, handler, eloopData, userData);
            if Rearms(s, deplete, now, secs, usecs, handler, eloopData, userData) then
              && multiset(s'.queue) == multiset(kept) + multiset{t}
              && Ordered(s'.queue)
              && forall x | x in s'.queue :: Exact(x, handler, eloopData, userData) <==> x == t
            else s'.queue == s.queue && s'.nextId == s.nextId
  {
    if Rearms(s, deplete, now, secs, usecs, handler, eloopData, userData) {
      var t := Timeout(s.nextId, After(again, secs, usecs), handler, eloopData, userData);
      var kept := Kept(s.queue, handler, eloopData, userData);
      OrderedConcat(Timeouts(s.fired), s.queue);
      KeptOrdered(s.queue, handler, eloopData, userData);
      KeptOrDropped(s.queue, handler, eloopData, userData);
      forall i | 0 <= i < |kept| ensures kept[i].id < t.id && Normal(kept[i].time) {
        assert kept[i] in kept;
      }
      InsertOrdered(kept, t);
    }
  }

  /** The request is compared as the duration it means exactly when its microseconds are below one million,
      or, where it stands on the right, at most one million. */
  lemma RequestCompares(secs: nat, usecs: nat)
    ensures usecs < MILLION <==>
              forall r | Normal(r) :: Before(Time(secs, usecs), r) <==> secs * MILLION + usecs < Micros(r)
    ensures usecs <= MILLION <==>
              forall r | Normal(r) :: Before(r, Time(secs, usecs)) <==> Micros(r) < secs * MILLION + usecs
  {
    var r := Time(secs + 1, 0);
    assert Normal(r) && Before(Time(secs, usecs), r) && !Before(r, Time(secs, usecs));
  }

  /** The deadline of the first match. */
  function Due(s: Sched, handler: int, eloopData: int, userData: int): Time
    requires Find(s.queue, handler, eloopData, userData) < |s.queue|
  {
    s.queue[Find(s.queue, handler, eloopData, userData)].time
  }

  /** A state in which an operation finds a match. */
  predicate Found(s: Sched, now: Time, handler: int, eloopData: int, userData: int) {
    Later(now, s.clock) && Find(s.queue, handler, eloopData, userData) < |s.queue|
  }

  /** The match is rearmed exactly if the request is nearer than its deadline (deplete) or farther (replenish). */
  ghost predicate RearmsRightly(deplete: bool, secs: nat, usecs: nat) {
    forall s, now, h, ed, ud | Inv(s) && Found(s, now, h, ed, ud) ::
      var due, request := Micros(Due(s, h, ed, ud)), Micros(now) + secs * MILLION + usecs;
      Rearms(s, deplete, now, secs, usecs, h, ed, ud) <==> if deplete then request < due else due < request
  }

  /** Afterwards the match is due at the earlier (deplete) or the later (replenish) of the two. */
  ghost predicate MovesRightly(deplete: bool, secs: nat, usecs: nat) {
    forall s, now, h, ed, ud | Inv(s) && Found(s, now, h, ed, ud) ::
      var due, request := Micros(Due(s, h, ed, ud)), Micros(now) + secs * MILLION + usecs;
      var s' := RearmStep(s, deplete, now, secs, usecs, h, ed, ud, now);
      Found(s', now, h, ed, ud)
      && Micros(Due(s', h, ed, ud)) == if (if deplete then request < due else due < request) then request else due
  }

  lemma FoundDue(s: Sched, now: Time, handler: int, eloopData: int, userData: int)
    requires Inv(s) && Found(s, now, handler, eloopData, userData)
    ensures Normal(now) && Normal(Due(s, handler, eloopData, userData))
    ensures var r := Sub(Due(s, handler, eloopData, userData), now);
            Normal(r) && Micros(r) == Micros(Due(s, handler, eloopData, userData)) - Micros(now)
  {
  }

  /** One timeout and nothing else. */
  function Waiting(due: Time): Sched {
    var t := Timeout(0, due, 0, 0, 0);
    Sched([t], Time(0, 0), 1, [], multiset{t}, multiset{})
  }

  lemma WaitingFound(due: Time)
    requires Normal(due)
    ensures Inv(Waiting(due)) && Found(Waiting(due), Time(0, 0), 0, 0, 0) && Due(Waiting(due), 0, 0, 0) == due
  {
    var s := Waiting(due);
    assert Timeouts(s.fired) + s.queue == s.queue;
    assert multiset(s.queue) == multiset{s.queue[0]} && multiset(Timeouts(s.fired)) == multiset{};
  }

  /** Which requests each operation takes for what they mean. */
  lemma RearmsRightlyIff(deplete: bool, secs: nat, usecs: nat)
    ensures RearmsRightly(deplete, secs, usecs) <==> if deplete then usecs < MILLION else usecs <= MILLION
  {
    RequestCompares(secs, usecs);
    if (if deplete then usecs < MILLION else usecs <= MILLION) {
      forall s, now, h, ed, ud | Inv(s) && Found(s, now, h, ed, ud)
        ensures var due, request := Micros(Due(s, h, ed, ud)), Micros(now) + secs * MILLION + usecs;
                Rearms(s, deplete, now, secs, usecs, h, ed, ud) <==> if deplete then request < due else due < request
      {
        FoundDue(s, now, h, ed, ud);
      }
    } else {
      WaitingFound(Time(secs + 1, 0));
      var s := Waiting(Time(secs + 1, 0));
      assert Sub(Due(s, 0, 0, 0), Time(0, 0)) == Time(secs + 1, 0);
    }
  }

  lemma RearmedDue(s: Sched, deplete: bool, now: Time, secs: nat, usecs: nat, handler: int, eloopData: int, userData: int)
    requires Inv(s) && Found(s, now, handler, eloopData, userData)
    ensures var s' := RearmStep(s, deplete, now, secs, usecs, handler, eloopData, userData, now);
            Found(s', now, handler, eloopData, userData)
            && Micros(Due(s', handler, eloopData, userData))
               == if Rearms(s, deplete, now, secs, usecs, handler, eloopData, userData)
                  then Micros(now) + secs * MILLION + usecs else Micros(Due(s, handler, eloopData, userData))
  {
    RearmReplaces(s, deplete, now, secs, usecs, handler, eloopData, userData, now);
    var s' := RearmStep(s, deplete, now, secs, usecs, handler, eloopData, userData, now);
    if Rearms(s, deplete, now, secs, usecs, handler, eloopData, userData) {
      var t := Timeout(s.nextId, After(now, secs, usecs), handler, eloopData, userData);
      assert t in multiset(s'.queue);
      assert t in s'.queue;
    }
  }

  /** The deadline comes out right if and only if the microseconds are at most one million. */
  lemma MovesRightlyIff(deplete: bool, secs: nat, usecs: nat)
    ensures MovesRightly(deplete, secs, usecs) <==> usecs <= MILLION
  {
    hide RearmStep, Inv;
    RearmsRightlyIff(deplete, secs, usecs);
    RequestCompares(secs, usecs);
    if usecs <= MILLION {
      forall s, now, h, ed, ud | Inv(s) && Found(s, now, h, ed, ud)
        ensures var due, request := Micros(Due(s, h, ed, ud)), Micros(now) + secs * MILLION + usecs;
                var s' := RearmStep(s, deplete, now, secs, usecs, h, ed, ud, now);
                Found(s', now, h, ed, ud)
                && Micros(Due(s', h, ed, ud)) == if (if deplete then request < due else due < request) then request else due
      {
        FoundDue(s, now, h, ed, ud);
        RearmedDue(s, deplete, now, secs, usecs, h, ed, ud);
        BeforeMicros(Time(secs + 1, 0), Sub(Due(s, h, ed, ud), now));
      }
    } else {
      var due := Time(secs + 1, 0);
      WaitingFound(due);
      var s := Waiting(due);
      assert Sub(Due(s, 0, 0, 0), Time(0, 0)) == due;
      RearmedDue(s, deplete, Time(0, 0), secs, usecs, 0, 0, 0);
    }
  }

  /** With one second left, depleting to five million microseconds postpones the timeout to five seconds. */
  lemma DepletePostpones()
    ensures var s := Waiting(Time(1, 0));
            && Inv(s) && Rearms(s, true, Time(0, 0), 0, 5 * MILLION, 0, 0, 0)
            && var s' := RearmStep(s, true, Time(0, 0), 0, 5 * MILLION, 0, 0, 0, Time(0, 0));
            Found(s', Time(0, 0), 0, 0, 0) && Micros(Due(s', 0, 0, 0)) == 5 * MILLION > Micros(Due(s, 0, 0, 0))
  {
    hide RearmStep;
    WaitingFound(Time(1, 0));
    RearmedDue(Waiting(Time(1, 0)), true, Time(0, 0), 0, 5 * MILLION, 0, 0, 0);
  }
}
