/**
The timeout half of tools/wifi_wpa_cli/eloop.c on its circular list. Every method is
proved to make the step that EloopSpec gives for it, so what holds of all runs there
holds of the loop below.
*/
module Eloop {
  import opened DlList
  import opened EloopSpec
  import opened Options
  import opened RelTime

  // ----- Insertion and deletion, by position -----

  lemma {:induction false} InsertAt(q: seq<Timeout>, t: Timeout, i: nat)
    requires i <= |q|
    requires forall k | 0 <= k < i :: !Before(t.time, q[k].time)
    requires i < |q| ==> Before(t.time, q[i].time)
    ensures Insert(q, t) == q[..i] + [t] + q[i..]
  {
    if i > 0 {
      InsertAt(q[1..], t, i - 1);
      assert q[..i] == [q[0]] + q[1..][..i - 1] && q[1..][i - 1..] == q[i..];
    }
  }

  lemma {:induction false} FindAt(q: seq<Timeout>, handler: int, eloopData: int, userData: int, i: nat)
    requires i <= |q|
    requires forall k | 0 <= k < i :: !Exact(q[k], handler, eloopData, userData)
    requires i < |q| ==> Exact(q[i], handler, eloopData, userData)
    ensures Find(q, handler, eloopData, userData) == i
  {
    if i > 0 {
      FindAt(q[1..], handler, eloopData, userData, i - 1);
    }
  }

  lemma {:induction false} SplitAppend(q: seq<Timeout>, t: Timeout, handler: int, eloopData: int, userData: int)
    ensures var m := Matches(t, handler, eloopData, userData);
            && Kept(q + [t], handler, eloopData, userData)
               == Kept(q, handler, eloopData, userData) + (if m then [] else [t])
            && Dropped(q + [t], handler, eloopData, userData)
               == Dropped(q, handler, eloopData, userData) + (if m then [t] else [])
  {
    if q == [] {
      assert q + [t] == [t] && [t][1..] == [];
    } else {
      assert (q + [t])[1..] == q[1..] + [t];
      SplitAppend(q[1..], t, handler, eloopData, userData);
    }
  }

  /** What happens during one turn of eloop_run: signal handlers, the check for a due timeout,
      then the timeout's handler and the socket handlers. */
  datatype Turn = Turn(before: seq<Op>, now: Time, after: seq<Op>, sockets: bool, selectFailed: bool, terminate: bool)

  predicate HandlerOps(ops: seq<Op>) { forall i | 0 <= i < |ops| :: !ops[i].Fire? }

  /** The operations of the turns, in order; a failed select ends the loop before any of its turn. */
  function Flatten(turns: seq<Turn>): seq<Op> {
    if turns == [] then []
    else turns[0].before + [Fire(turns[0].now)] + turns[0].after + Flatten(turns[1..])
  }

  /** Nothing stops the loop before turn i: there is something to wait for, waiting works, and the turn
      before it did not ask for termination. */
  ghost predicate MakesTurn(start: Sched, terminated: bool, turns: seq<Turn>, i: nat)
    requires i < |turns|
  {
    && ValidRun(start, Flatten(turns[..i]))
    && !(if i == 0 then terminated else turns[i - 1].terminate)
    && (Run(start, Flatten(turns[..i])).queue != [] || turns[i].sockets)
    && !turns[i].selectFailed
  }

  lemma {:induction false} RunConcat(s: Sched, a: seq<Op>, b: seq<Op>)
    ensures ValidRun(s, a + b) <==> ValidRun(s, a) && ValidRun(Run(s, a), b)
    ensures ValidRun(s, a + b) ==> Run(s, a + b) == Run(Run(s, a), b)
    decreases |a|
  {
    if a == [] {
      assert a + b == b;
    } else {
      assert (a + b)[0] == a[0] && (a + b)[1..] == a[1..] + b;
      if Enabled(s, a[0]) {
        RunConcat(Step(s, a[0]), a[1..], b);
      }
    }
  }

  lemma FlattenNone(s: Sched, turns: seq<Turn>)
    ensures ValidRun(s, Flatten(turns[..0])) && Run(s, Flatten(turns[..0])) == s
  {}

  lemma {:induction false} FlattenAppend(turns: seq<Turn>, turn: Turn)
    ensures Flatten(turns + [turn]) == Flatten(turns) + (turn.before + [Fire(turn.now)] + turn.after)
  {
    if turns == [] {
      assert turns + [turn] == [turn] && [turn][1..] == [];
    } else {
      assert (turns + [turn])[1..] == turns[1..] + [turn];
      FlattenAppend(turns[1..], turn);
    }
  }

  lemma {:induction false} FlattenConcat(a: seq<Turn>, b: seq<Turn>)
    ensures Flatten(a + b) == Flatten(a) + Flatten(b)
  {
    if a == [] {
      assert a + b == b;
    } else {
      assert (a + b)[1..] == a[1..] + b;
      FlattenConcat(a[1..], b);
    }
  }

  /** One more turn: its pieces are runs from where the earlier turns ended. */
  lemma TurnSplit(s: Sched, turns: seq<Turn>, k: nat)
    requires k < |turns| && ValidRun(s, Flatten(turns))
    ensures ValidRun(s, Flatten(turns[..k])) && ValidRun(s, Flatten(turns[..k + 1]))
    ensures var s0, turn := Run(s, Flatten(turns[..k])), turns[k];
            && ValidRun(s0, turn.before)
            && var s1 := Run(s0, turn.before);
            && Later(turn.now, s1.clock)
            && var s2 := FireStep(s1, turn.now);
            && ValidRun(s2, turn.after)
            && Run(s, Flatten(turns[..k + 1])) == Run(s2, turn.after)
  {
    var turn := turns[k];
    var ops := turn.before + [Fire(turn.now)] + turn.after;
    assert turns == turns[..k + 1] + turns[k + 1..] && turns[..k + 1] == turns[..k] + [turn];
    FlattenConcat(turns[..k + 1], turns[k + 1..]);
    FlattenAppend(turns[..k], turn);
    hide Flatten, Step, FireStep;
    RunConcat(s, Flatten(turns[..k + 1]), Flatten(turns[k + 1..]));
    RunConcat(s, Flatten(turns[..k]), ops);
    OneTurn(Run(s, Flatten(turns[..k])), turn);
  }

  /** The queue at the check for a due timeout in turn k. */
  ghost function AtCheck(s: Sched, turns: seq<Turn>, k: nat): seq<Timeout>
    requires k < |turns| && ValidRun(s, Flatten(turns))
  {
    TurnSplit(s, turns, k);
    Run(Run(s, Flatten(turns[..k])), turns[k].before).queue
  }

  /** The timeouts whose handlers the first n turns are to call: in each the head of the queue, if it is due. */
  ghost function Called(s: Sched, turns: seq<Turn>, n: nat): seq<Timeout>
    requires n <= |turns| && ValidRun(s, Flatten(turns))
  {
    if n == 0 then [] else Called(s, turns, n - 1) + DueHead(AtCheck(s, turns, n - 1), turns[n - 1].now)
  }

  lemma {:induction false} HandlersFireNothing(s: Sched, ops: seq<Op>)
    requires ValidRun(s, ops) && HandlerOps(ops)
    ensures Run(s, ops).fired == s.fired
    decreases |ops|
  {
    if ops != [] {
      assert Step(s, ops[0]).fired == s.fired;
      HandlersFireNothing(Step(s, ops[0]), ops[1..]);
    }
  }

  /** What is called is what is fired, so the safety of all runs speaks of the calls of the loop. */
  lemma {:induction false} CalledIsFired(s: Sched, turns: seq<Turn>, n: nat)
    requires Inv(s) && n <= |turns| && ValidRun(s, Flatten(turns))
    requires forall i | 0 <= i < |turns| :: HandlerOps(turns[i].before) && HandlerOps(turns[i].after)
    ensures ValidRun(s, Flatten(turns[..n]))
    ensures Timeouts(Run(s, Flatten(turns[..n])).fired) == Timeouts(s.fired) + Called(s, turns, n)
  {
    hide Inv, Step, Enabled, Flatten, Timeouts, HandlerOps, DueHead, Run, ValidRun, FireStep, Later;
    if n == 0 {
      FlattenNone(s, turns);
      assert Timeouts(s.fired) + [] == Timeouts(s.fired);
    } else {
      TurnSplit(s, turns, n - 1);
      CalledIsFired(s, turns, n - 1);
      var s0 := Run(s, Flatten(turns[..n - 1]));
      RunKeeps(s, Flatten(turns[..n - 1]));
      TurnFires(s0, turns[n - 1]);
      var due := DueHead(AtCheck(s, turns, n - 1), turns[n - 1].now);
      assert Timeouts(s.fired) + Called(s, turns, n - 1) + due == Timeouts(s.fired) + (Called(s, turns, n - 1) + due);
    }
  }

  lemma TurnFires(s: Sched, turn: Turn)
    requires Inv(s) && ValidRun(s, turn.before) && Later(turn.now, Run(s, turn.before).clock)
    requires ValidRun(FireStep(Run(s, turn.before), turn.now), turn.after) && HandlerOps(turn.before) && HandlerOps(turn.after)
    ensures Timeouts(Run(FireStep(Run(s, turn.before), turn.now), turn.after).fired)
         == Timeouts(s.fired) + DueHead(Run(s, turn.before).queue, turn.now)
  {
    hide Inv, Step, Enabled, Timeouts, HandlerOps, DueHead, FireStep, Run, ValidRun;
    var s1 := Run(s, turn.before);
    RunKeeps(s, turn.before);
    HandlersFireNothing(s, turn.before);
    CheckEnabled(s1, turn.now);
    FireFires(s1, turn.now);
    HandlersFireNothing(FireStep(s1, turn.now), turn.after);
  }

  lemma CheckEnabled(s: Sched, now: Time)
    requires Later(now, s.clock)
    ensures Enabled(s, Fire(now)) && Step(s, Fire(now)) == FireStep(s, now)
  {
  }

  lemma OneTurn(s: Sched, turn: Turn)
    requires ValidRun(s, turn.before + [Fire(turn.now)] + turn.after)
    ensures ValidRun(s, turn.before)
    ensures var s1 := Run(s, turn.before);
            && Later(turn.now, s1.clock)
            && var s2 := FireStep(s1, turn.now);
            && ValidRun(s2, turn.after)
            && Run(s, turn.before + [Fire(turn.now)] + turn.after) == Run(s2, turn.after)
  {
    var rest := [Fire(turn.now)] + turn.after;
    assert turn.before + [Fire(turn.now)] + turn.after == turn.before + rest;
    RunConcat(s, turn.before, rest);
    assert rest[1..] == turn.after && rest[0] == Fire(turn.now);
  }

  class EventLoop {
    const head: Link<Timeout>
    ghost var nodes: seq<Link<Timeout>>
    var nextId: nat
    var terminate: bool
    ghost var model: Sched

    ghost predicate Valid()
      reads this, nodes
    {
      && Ring(nodes) && nodes[0] == head
      && model.queue == Values(nodes)
      && model.nextId == nextId
      && Inv(model)
    }

    constructor (ghost clock: Time)
      requires Normal(clock)
      ensures Valid() && model == Start(clock) && !terminate
      ensures fresh(nodes)
    {
      head := new Link(Head);
      nextId, terminate := 0, false;
      model := Start(clock);
      new;
      nodes := Init(head);
      assert Timeouts(model.fired) + model.queue == [];
    }

    /** The ring and the specification's state after a step. */
    ghost method Commit(model': Sched, ring: seq<Link<Timeout>>)
      requires Ring(ring) && ring[0] == head && Values(ring) == model'.queue
      requires Inv(model') && model'.nextId == nextId
      modifies this`model, this`nodes
      ensures Valid() && model == model' && nodes == ring
    {
      hide Inv;
      model := model';
      nodes := ring;
    }

    /** The loop of eloop_register_timeout, which links the timeout before the first one due later. */
    method LinkTimeout(timeout: Timeout, ghost all: seq<Link<Timeout>>) returns (ghost ring: seq<Link<Timeout>>)
      requires Ring(all) && all[0] == head
      modifies all
      ensures Ring(ring) && ring[0] == head
      ensures forall j | 0 <= j < |ring| :: ring[j] in all || fresh(ring[j])
      ensures Values(ring) == Insert(Values(all), timeout)
    {
      var tmp, i := FindLater(timeout, all);
      InsertAt(Values(all), timeout, i);
      RingEntries(all);
      hide Ring, Entries, Values, Insert, Before;
      At(all, if i + 1 < |all| then i + 1 else 0);
      var item := new Link(Entry(timeout));
      ring := DlList.Add(tmp.prev, item, all, i);
    }

    /** The first timeout due later, or the head. */
    method FindLater(timeout: Timeout, ghost all: seq<Link<Timeout>>) returns (tmp: Link<Timeout>, ghost i: nat)
      requires Ring(all) && all[0] == head
      ensures i < |all| && i <= |Values(all)| && tmp == all[if i + 1 < |all| then i + 1 else 0]
      ensures forall k | 0 <= k < i :: !Before(timeout.time, Values(all)[k].time)
      ensures i < |Values(all)| ==> Before(timeout.time, Values(all)[i].time)
    {
      RingEntries(all);
      hide Ring, Entries, Values;
      At(all, 0);
      if |all| > 1 { At(all, 1); }
      tmp, i := head.next, 0;
      while tmp != head && !Before(timeout.time, tmp.data.value.time)
        invariant i < |all|
        invariant tmp == all[if i + 1 < |all| then i + 1 else 0]
        invariant i + 1 < |all| ==> tmp.data == Entry(Values(all)[i]) && tmp != head
        invariant forall k | 0 <= k < i :: !Before(timeout.time, Values(all)[k].time)
        decreases |all| - i
      {
        At(all, i + 1);
        tmp, i := tmp.next, i + 1;
        if i + 1 < |all| { At(all, i + 1); }
      }
    }

    /** eloop_register_timeout. */
    method RegisterTimeout(now: Time, secs: nat, usecs: nat, handler: int, eloopData: int, userData: int)
      requires Valid() && Later(now, model.clock)
      modifies this, nodes
      ensures Valid() && model == RegisterStep(old(model), now, secs, usecs, handler, eloopData, userData)
      ensures terminate == old(terminate)
      ensures forall i | 0 <= i < |nodes| :: nodes[i] in old(nodes) || fresh(nodes[i])
    {
      hide Inv, Insert, After, Ring, Values;
      var time := Deadline(now, secs, usecs);
      RegisterKeeps(model, now, secs, usecs, handler, eloopData, userData);
      ghost var ring := LinkTimeout(Timeout(nextId, time, handler, eloopData, userData), nodes);
      nextId := nextId + 1;
      Commit(RegisterStep(model, now, secs, usecs, handler, eloopData, userData), ring);
    }

    /** eloop_cancel_timeout: exactly the matches go, and their number is returned. */
    method CancelTimeout(handler: int, eloopData: int, userData: int) returns (removed: nat)
      requires Valid()
      modifies this, nodes
      ensures Valid() && model == CancelStep(old(model), handler, eloopData, userData)
      ensures removed == |Dropped(old(model).queue, handler, eloopData, userData)|
      ensures terminate == old(terminate) && nextId == old(nextId)
      ensures Within(nodes, old(nodes))
    {
      ghost var ring;
      removed, ring := RemoveMatches(handler, eloopData, userData, nodes);
      CancelKeeps(model, handler, eloopData, userData);
      hide Inv, Kept, Dropped;
      Commit(CancelStep(model, handler, eloopData, userData), ring);
    }

    /** One visit of the traversal below: the k-th node goes if it matches. */
    method Visit(timeout: Link<Timeout>, handler: int, eloopData: int, userData: int, 
                 ghost ring: seq<Link<Timeout>>, ghost k: nat, ghost all: seq<Link<Timeout>>)
      returns (matched: bool, ghost ring': seq<Link<Timeout>>)
      requires Ring(ring) && 1 <= k < |ring| && ring[k] == timeout && Within(ring, all)
      modifies all
      ensures matched == Matches(Values(ring)[k - 1], handler, eloopData, userData)
      ensures Ring(ring') && ring' == (if matched then ring[..k] + ring[k + 1..] else ring) && Within(ring', all)
      ensures Values(ring') == Values(ring)[..k - 1] + (if matched then [] else [Values(ring)[k - 1]]) + Values(ring)[k..]
    {
      matched, ring' := false, ring;
      if Matches(timeout.data.value, handler, eloopData, userData) {
        matched := true;
        ring' := Del(timeout, ring, k);
      }
    }

    /** The traversal has visited the first i timeouts of q: the matches are gone and counted,
        the others kept, and `timeout` is the next one to visit. */
    ghost predicate Visited(handler: int, eloopData: int, userData: int, q: seq<Timeout>, i: nat,
                            ring: seq<Link<Timeout>>, timeout: Link<Timeout>, removed: nat)
      reads ring
    {
      && Ring(ring) && ring[0] == head && i <= |q|
      && var kept := Kept(q[..i], handler, eloopData, userData);
      && Values(ring) == kept + q[i..]
      && removed == |Dropped(q[..i], handler, eloopData, userData)|
      && timeout == (if i < |q| then ring[|kept| + 1] else head)
    }

    /** One turn of the traversal, which has read the next link before it deletes anything. */
    method VisitNext(handler: int, eloopData: int, userData: int, ghost q: seq<Timeout>, ghost i: nat,
                     ghost ring: seq<Link<Timeout>>, timeout: Link<Timeout>, next: Link<Timeout>, removed: nat, ghost all: seq<Link<Timeout>>)
      returns (ghost ring': seq<Link<Timeout>>, removed': nat)
      requires Within(ring, all) && Visited(handler, eloopData, userData, q, i, ring, timeout, removed)
      requires timeout != head && timeout.next == next
      modifies all
      ensures Within(ring', all) && i < |q| && Visited(handler, eloopData, userData, q, i + 1, ring', next, removed')
    {
      ghost var kept := Kept(q[..i], handler, eloopData, userData);
      RingEntries(ring);
      At(ring, |kept| + 1);
      assert q[..i + 1] == q[..i] + [q[i]];
      SplitAppend(q[..i], q[i], handler, eloopData, userData);
      PastOne(kept, q, i);
      hide Entries, Values, Kept, Dropped, Matches, Within;
      var matched;
      matched, ring' := Visit(timeout, handler, eloopData, userData, ring, |kept| + 1, all);
      removed' := if matched then removed + 1 else removed;
    }

    /** The traversal of eloop_cancel_timeout. */
    method RemoveMatches(handler: int, eloopData: int, userData: int, ghost all: seq<Link<Timeout>>)
      returns (removed: nat, ghost ring: seq<Link<Timeout>>)
      requires Ring(all) && all[0] == head
      modifies all
      ensures Ring(ring) && ring[0] == head && Within(ring, all)
      ensures Values(ring) == Kept(Values(all), handler, eloopData, userData)
      ensures removed == |Dropped(Values(all), handler, eloopData, userData)|
    {
      ghost var q, i := Values(all), 0;
      removed, ring := 0, all;
      At(all, 0);
      var timeout: Link<Timeout> := head.next;
      while timeout != head
        invariant i <= |q| && Within(ring, all)
        invariant Visited(handler, eloopData, userData, q, i, ring, timeout, removed)
        decreases |q| - i
      {
        NotLast(ring, timeout);
        var next := timeout.next;
        ring, removed := VisitNext(handler, eloopData, userData, q, i, ring, timeout, next, removed, all);
        timeout, i := next, i + 1;
      }
      assert i == |q| && q[..i] == q;
    }

    /** The search shared by the operations that look for one exact match. */
    method FindExact(handler: int, eloopData: int, userData: int) returns (tmp: Link<Timeout>, ghost i: nat)
      requires Valid()
      ensures i == Find(model.queue, handler, eloopData, userData) && i < |nodes|
      ensures tmp == nodes[if i + 1 < |nodes| then i + 1 else 0]
      ensures i < |model.queue| ==> tmp != head && tmp.data == Entry(model.queue[i])
    {
      RingEntries(nodes);
      hide Ring, Entries, Values, Find, Inv;
      At(nodes, 0);
      if |nodes| > 1 { At(nodes, 1); }
      tmp, i := head.next, 0;
      while tmp != head && !Exact(tmp.data.value, handler, eloopData, userData)
        invariant i < |nodes|
        invariant tmp == nodes[if i + 1 < |nodes| then i + 1 else 0]
        invariant i + 1 < |nodes| ==> tmp.data == Entry(model.queue[i]) && tmp != head
        invariant forall k | 0 <= k < i :: !Exact(model.queue[k], handler, eloopData, userData)
        decreases |nodes| - i
      {
        At(nodes, i + 1);
        tmp, i := tmp.next, i + 1;
        if i + 1 < |nodes| { At(nodes, i + 1); }
      }
      FindAt(model.queue, handler, eloopData, userData, i);
    }

    /** eloop_is_timeout_registered. */
    method IsRegistered(handler: int, eloopData: int, userData: int) returns (found: bool)
      requires Valid()
      ensures found <==> exists t :: t in model.queue && Exact(t, handler, eloopData, userData)
    {
      var tmp, i := FindExact(handler, eloopData, userData);
      found := tmp != head;
      assert !found ==> i == |model.queue|;
      assert found ==> model.queue[i] in model.queue;
    }

    /** eloop_cancel_timeout_one: the first exact match goes, and what was left of it is reported. */
    method CancelTimeoutOne(now: Time, handler: int, eloopData: int, userData: int) returns (removed: bool, remaining: Time)
      requires Valid() && Later(now, model.clock)
      modifies this, nodes
      ensures Valid() && model == CancelOneStep(old(model), now, handler, eloopData, userData)
      ensures var i := Find(old(model).queue, handler, eloopData, userData);
              && (removed <==> i < |old(model).queue|)
              && Normal(remaining)
              && Micros(remaining) == if removed && Micros(now) < Micros(old(model).queue[i].time)
                                      then Micros(old(model).queue[i].time) - Micros(now) else 0
      ensures terminate == old(terminate)
      ensures Within(nodes, old(nodes))
    {
      var tmp, i := FindExact(handler, eloopData, userData);
      CancelOneKeeps(model, now, handler, eloopData, userData);
      removed, remaining := tmp != head, Time(0, 0);
      if removed {
        QueueNormal(model, i);
        hide Inv, Find, Ring, Values, Sub, Before, Micros;
        remaining := Left(now, tmp.data.value.time);
        TakeOut(tmp, i, CancelOneStep(model, now, handler, eloopData, userData));
      } else {
        hide Inv, Find, Ring, Values, Sub, Before;
        Commit(CancelOneStep(model, now, handler, eloopData, userData), nodes);
      }
    }

    /** One timeout leaves the queue. */
    method TakeOut(item: Link<Timeout>, ghost i: nat, ghost after: Sched)
      requires Valid() && Inv(after) && after.nextId == nextId
      requires i + 1 < |nodes| && nodes[i + 1] == item && i < |model.queue|
      requires after.queue == model.queue[..i] + model.queue[i + 1..]
      modifies this, nodes
      ensures Valid() && model == after && terminate == old(terminate) && Within(nodes, old(nodes))
    {
      hide Inv, Ring, Values;
      ghost var ring := RemoveLink(item, i);
      Commit(after, ring);
    }

    method Left(now: Time, time: Time) returns (remaining: Time)
      requires Normal(now) && Normal(time)
      ensures Normal(remaining)
      ensures Micros(remaining) == if Micros(now) < Micros(time) then Micros(time) - Micros(now) else 0
    {
      BeforeMicros(now, time);
      remaining := if Before(now, time) then Sub(time, now) else Time(0, 0);
    }

    method RemoveLink(item: Link<Timeout>, ghost i: nat) returns (ghost ring: seq<Link<Timeout>>)
      requires Ring(nodes) && nodes[0] == head && i + 1 < |nodes| && nodes[i + 1] == item
      modifies nodes
      ensures Ring(ring) && ring[0] == head && Within(ring, nodes)
      ensures Values(ring) == Values(nodes)[..i] + Values(nodes)[i + 1..]
    {
      ring := Del(item, nodes, i + 1);
    }

    /** All matches go, and one timeout takes their place. */
    method Replace(again: Time, secs: nat, usecs: nat, handler: int, eloopData: int, userData: int)
      requires Valid() && Later(again, model.clock)
      modifies this, nodes
      ensures Valid() && model == RegisterStep(CancelStep(old(model), handler, eloopData, userData),
                                               again, secs, usecs, handler, eloopData, userData)
      ensures terminate == old(terminate)
      ensures forall i | 0 <= i < |nodes| :: nodes[i] in old(nodes) || fresh(nodes[i])
    {
      hide Inv, Find, Ring, Values, CancelStep, RegisterStep, Dropped, Kept;
      CancelClock(model, handler, eloopData, userData);
      var _ := CancelTimeout(handler, eloopData, userData);
      RegisterTimeout(again, secs, usecs, handler, eloopData, userData);
    }

    /** eloop_deplete_timeout and eloop_replenish_timeout, which differ in one comparison. */
    method Rearm(deplete: bool, now: Time, secs: nat, usecs: nat, handler: int, eloopData: int, userData: int, again: Time)
      returns (r: int)
      requires Valid() && Later(now, model.clock) && Later(again, now)
      modifies this, nodes
      ensures Valid() && model == RearmStep(old(model), deplete, now, secs, usecs, handler, eloopData, userData, again)
      ensures r == if Find(old(model).queue, handler, eloopData, userData) == |old(model).queue| then -1
                   else if Rearms(old(model), deplete, now, secs, usecs, handler, eloopData, userData) then 1 else 0
      ensures terminate == old(terminate)
      ensures forall i | 0 <= i < |nodes| :: nodes[i] in old(nodes) || fresh(nodes[i])
    {
      var tmp, i := FindExact(handler, eloopData, userData);
      if tmp == head { return -1; }
      ClockKeeps(model, now);
      hide Inv, Find, Ring, Values, CancelStep, RegisterStep, Dropped, Kept;
      var requested := Time(secs, usecs);
      var remaining := Sub(tmp.data.value.time, now);
      model := model.(clock := now);
      if (if deplete then Before(requested, remaining) else Before(remaining, requested)) {
        Replace(again, secs, usecs, handler, eloopData, userData);
        return 1;
      }
      r := 0;
    }

    /** The check for a due timeout in eloop_run; the timeout leaves the queue before its handler is called. */
    method FireDue(now: Time) returns (handler: Option<Timeout>)
      requires Valid() && Later(now, model.clock)
      modifies this, nodes
      ensures Valid() && model == FireStep(old(model), now)
      ensures var q := old(model).queue;
              handler == if q != [] && Micros(q[0].time) <= Micros(now) then Some(q[0]) else None
      ensures terminate == old(terminate)
      ensures Within(nodes, old(nodes))
    {
      handler := None;
      FireKeeps(model, now);
      HeadDue(model, now);
      var timeout := First();
      hide Inv, Ring, Entries, Values;
      if timeout != null && !Before(now, timeout.data.value.time) {
        handler := Some(timeout.data.value);
        TakeOut(timeout, 0, FireStep(model, now));
      } else {
        Commit(FireStep(model, now), nodes);
      }
    }

    /** How long eloop_run lets select sleep: until the first deadline, or for good if there is none. */
    method Wait(now: Time) returns (tv: Option<Time>)
      requires Valid() && Normal(now)
      ensures tv.None? <==> model.queue == []
      ensures tv.Some? ==>
                var left := Micros(model.queue[0].time) - Micros(now);
                Normal(tv.value) && Micros(tv.value) == if left > 0 then left else 0
    {
      HeadDue(model, now);
      var timeout := First();
      if timeout == null { return None; }
      QueueNormal(model, 0);
      hide Inv;
      tv := Some(if Before(now, timeout.data.value.time) then Sub(timeout.data.value.time, now) else Time(0, 0));
    }

    /** dl_list_first. */
    method First() returns (timeout: Link?<Timeout>)
      requires Valid()
      ensures timeout == null <==> model.queue == []
      ensures timeout != null ==> |nodes| > 1 && timeout == nodes[1] && timeout.data == Entry(model.queue[0])
    {
      hide Inv;
      At(nodes, 0);
      if |nodes| > 1 { At(nodes, 1); }
      timeout := if head.next == head then null else head.next;
    }

    /** The calls a handler makes. */
    method Apply(op: Op)
      requires Valid() && Enabled(model, op) && !op.Fire?
      modifies this, nodes
      ensures Valid() && model == Step(old(model), op) && terminate == old(terminate)
      ensures forall i | 0 <= i < |nodes| :: nodes[i] in old(nodes) || fresh(nodes[i])
    {
      hide Inv, Ring, Values, RegisterStep, CancelStep, CancelOneStep, RearmStep;
      match op
      case Register(now, secs, usecs, h, ed, ud) => RegisterTimeout(now, secs, usecs, h, ed, ud);
      case Cancel(h, ed, ud) => var _ := CancelTimeout(h, ed, ud);
      case CancelOne(now, h, ed, ud) => var _, _ := CancelTimeoutOne(now, h, ed, ud);
      case Deplete(now, secs, usecs, h, ed, ud, again) => var _ := Rearm(true, now, secs, usecs, h, ed, ud, again);
      case Replenish(now, secs, usecs, h, ed, ud, again) => var _ := Rearm(false, now, secs, usecs, h, ed, ud, again);
    }

    method Handle(ops: seq<Op>)
      requires Valid() && ValidRun(model, ops) && HandlerOps(ops)
      modifies this, nodes
      ensures Valid() && model == Run(old(model), ops) && terminate == old(terminate)
      ensures forall i | 0 <= i < |nodes| :: nodes[i] in old(nodes) || fresh(nodes[i])
    {
      hide Inv, Step, Ring, Values, Enabled;
      ghost var start := model;
      assert ops[0..] == ops;
      for i := 0 to |ops|
        invariant Valid() && terminate == old(terminate)
        invariant ValidRun(model, ops[i..]) && Run(model, ops[i..]) == Run(start, ops)
        invariant forall k | 0 <= k < |nodes| :: nodes[k] in old(nodes) || fresh(nodes[k])
      {
        assert ops[i..][1..] == ops[i + 1..];
        Apply(ops[i]);
      }
    }

    /** eloop_run, driven by what the environment does in each turn; `done` is how many turns it made.
        It makes every turn up to the first that it must not, and no other. */
    method EventLoopRun(turns: seq<Turn>) returns (done: nat, called: seq<Timeout>)
      requires Valid() && ValidRun(model, Flatten(turns))
      requires forall i | 0 <= i < |turns| :: HandlerOps(turns[i].before) && HandlerOps(turns[i].after)
      modifies this, nodes
      ensures Valid() && done <= |turns| && !terminate
      ensures ValidRun(old(model), Flatten(turns[..done])) && model == Run(old(model), Flatten(turns[..done]))
      ensures called == Called(old(model), turns, done)
      ensures forall i | 0 <= i < done :: MakesTurn(old(model), old(terminate), turns, i)
      ensures done < |turns| ==> !MakesTurn(old(model), old(terminate), turns, done)
    {
      hide Inv, Step, Ring, Values, Enabled, Flatten, Run, ValidRun, FireStep, HandlerOps, AtCheck;
      done, called := 0, [];
      FlattenNone(model, turns);
      ghost var start := model;
      while done < |turns| && !terminate
        invariant Valid() && done <= |turns|
        invariant terminate == if done == 0 then old(terminate) else turns[done - 1].terminate
        invariant ValidRun(start, Flatten(turns[..done])) && model == Run(start, Flatten(turns[..done]))
        invariant called == Called(start, turns, done)
        invariant forall i | 0 <= i < done :: MakesTurn(start, old(terminate), turns, i)
        invariant forall k | 0 <= k < |nodes| :: nodes[k] in old(nodes) || fresh(nodes[k])
        decreases |turns| - done
      {
        var first := First();
        if (first == null && !turns[done].sockets) || turns[done].selectFailed {
          break;
        }
        var handler := MakeTurn(start, turns, done);
        called := called + if handler.Some? then [handler.value] else [];
        done := done + 1;
        if turns[done - 1].terminate { terminate := true; }
      }
      terminate := false;
    }

    /** The body of the loop: pending signals, a due timeout, the ready sockets. */
    method MakeTurn(ghost start: Sched, turns: seq<Turn>, k: nat) returns (handler: Option<Timeout>)
      requires Valid() && k < |turns| && ValidRun(start, Flatten(turns))
      requires ValidRun(start, Flatten(turns[..k])) && model == Run(start, Flatten(turns[..k]))
      requires HandlerOps(turns[k].before) && HandlerOps(turns[k].after)
      modifies this, nodes
      ensures Valid() && terminate == old(terminate)
      ensures DueHead(AtCheck(start, turns, k), turns[k].now) == if handler.Some? then [handler.value] else []
      ensures ValidRun(start, Flatten(turns[..k + 1])) && model == Run(start, Flatten(turns[..k + 1]))
      ensures forall i | 0 <= i < |nodes| :: nodes[i] in old(nodes) || fresh(nodes[i])
    {
      hide Inv, Step, Ring, Values, Enabled, Flatten, Run, ValidRun, FireStep;
      TurnSplit(start, turns, k);
      Handle(turns[k].before);
      handler := FireDue(turns[k].now);
      Handle(turns[k].after);
    }

    lemma NotLast(ring: seq<Link<Timeout>>, timeout: Link<Timeout>)
      requires Ring(ring) && timeout in ring
      ensures timeout.next != null
    {
      var k :| 0 <= k < |ring| && ring[k] == timeout;
      At(ring, k);
    }
  }

  lemma HeadDue(s: Sched, now: Time)
    requires Inv(s) && Normal(now)
    ensures s.queue != [] ==> (Before(now, s.queue[0].time) <==> Micros(now) < Micros(s.queue[0].time))
  {
    QueueOrdered(s);
    if s.queue != [] {
      BeforeMicros(now, s.queue[0].time);
    }
  }

  lemma QueueNormal(s: Sched, i: nat)
    requires Inv(s) && i < |s.queue|
    ensures Normal(s.queue[i].time)
  {}

  /** Taking out, or moving past, the first unvisited element. */
  lemma PastOne<T>(kept: seq<T>, q: seq<T>, i: nat)
    requires i < |q|
    ensures var all := kept + q[i..];
            && all[|kept|] == q[i]
            && all[..|kept|] + [] + all[|kept| + 1..] == kept + q[i + 1..]
            && all[..|kept|] + [q[i]] + all[|kept| + 1..] == kept + [q[i]] + q[i + 1..]
  {}
}
