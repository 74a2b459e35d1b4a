/**
Signals in tools/wifi_wpa_cli/eloop.c. A signal handler may interrupt the main thread between any two
of its accesses, so the processing pass and the registration of a signal are split into those accesses,
and a run is any interleaving of them with deliveries.
*/
module EloopSignals {
  import opened Options

  /** One entry of the table. */
  datatype Entry = Entry(sig: int, signaled: nat)

  /** Where eloop_process_pending_signals is. */
  datatype Pc =
    | Idle
    | Clearing            // has seen `signaled` non-zero, is about to reset it
    | Testing             // at the test of `pending_terminate`
    | Disarming           // is about to call off the alarm
    | Forgetting          // is about to reset `pending_terminate`
    | Visiting(i: nat)    // at the loop test for index i
    | Resetting(i: nat)   // has seen counter i non-zero, is about to reset it
    | Calling(i: nat)     // is about to call handler i

  /** Where eloop_register_signal is; `tmp` is the table it has copied the entries to, unless the memory grew
      in place. */
  datatype Reg =
    | Outside
    | Copied(sig: int, tmp: Option<seq<Entry>>)    // is about to raise `signal_count`
    | Counted(sig: int, tmp: Option<seq<Entry>>)   // is about to assign the table
    | Assigned(sig: int)                           // is about to install the handler

  /** `signals` is the table eloop points to, `owed` counts for each entry the deliveries that no call of its
      handler has followed yet, `installed` are the signals that eloop_handle_signal gets, `pending` is
      pending_terminate, `alarm` whether the alarm that kills a busy loop is set. */
  datatype State = State(signaled: nat, signals: seq<Entry>, count: nat, owed: seq<nat>, installed: set<int>,
                         pc: Pc, reg: Reg, pending: bool, alarm: bool)

  const SIGINT: int := 2
  const SIGTERM: int := 15

  datatype Event =
    | Deliver(sig: int)
    | RegisterSignal(sig: int, moves: bool)  // whether reallocation moves the table
    | Main

  /** The first entry for a signal, or the length of the table. */
  function Index(signals: seq<Entry>, sig: int): (i: nat)
    ensures i <= |signals|
    ensures i < |signals| ==> signals[i].sig == sig
    ensures forall k | 0 <= k < i :: signals[k].sig != sig
  {
    if signals == [] || signals[0].sig == sig then 0 else 1 + Index(signals[1..], sig)
  }

  function Bump(signals: seq<Entry>, i: nat): seq<Entry>
    requires i < |signals|
  {
    signals[i := signals[i].(signaled := signals[i].signaled + 1)]
  }

  /** eloop_handle_signal, if it is installed for the signal: it goes through the table eloop points to. */
  function DeliverStep(s: State, sig: int): State {
    if sig !in s.installed then s
    else
      var t := if (sig == SIGINT || sig == SIGTERM) && !s.pending then s.(pending := true, alarm := true) else s;
      var i := Index(s.signals, sig);
      if i >= |s.signals| || i >= |s.owed| then t.(signaled := s.signaled + 1)
      else t.(signaled := s.signaled + 1, signals := Bump(s.signals, i), owed := s.owed[i := s.owed[i] + 1])
  }

  /** The reallocation at the start of eloop_register_signal, and the new entry. The main thread registers
      outside the pass or in a handler it has just called. */
  function RegisterStep(s: State, sig: int, moves: bool): State {
    var more := s.signals + [Entry(sig, 0)];
    if !s.reg.Outside? || !(s.pc.Idle? || s.pc.Visiting?) then s
    else if moves then s.(reg := Copied(sig, Some(more)), owed := s.owed + [0])
    else s.(reg := Copied(sig, None), signals := more, owed := s.owed + [0])
  }

  /** The next access of the main thread: of a registration, of eloop_process_pending_signals, or the next call of it. */
  function MainStep(s: State): State
    requires InTable(s)
  {
    match s.reg
    case Copied(sig, tmp) => s.(count := s.count + 1, reg := Counted(sig, tmp))
    case Counted(sig, tmp) => s.(signals := if tmp.Some? then tmp.value else s.signals, reg := Assigned(sig))
    case Assigned(sig) => s.(installed := s.installed + {sig}, reg := Outside)
    case Outside =>
      match s.pc
      case Idle => if s.signaled == 0 then s else s.(pc := Clearing)
      case Clearing => s.(signaled := 0, pc := Testing)
      case Testing => s.(pc := if s.pending then Disarming else Visiting(0))
      case Disarming => s.(alarm := false, pc := Forgetting)
      case Forgetting => s.(pending := false, pc := Visiting(0))
      case Visiting(i) =>
        if i >= s.count then s.(pc := Idle)
        else if s.signals[i].signaled != 0 then s.(pc := Resetting(i))
        else s.(pc := Visiting(i + 1))
      case Resetting(i) => s.(signals := s.signals[i := s.signals[i].(signaled := 0)], pc := Calling(i))
      case Calling(i) => s.(owed := s.owed[i := 0], pc := Visiting(i + 1))
  }

  /** Every access is inside the table; as long as the count is ahead of it, the pass stands still. */
  predicate InTable(s: State) {
    && |s.owed| == |Live(s)|
    && (s.reg.Outside? || s.pc.Idle? || s.pc.Visiting?)
    && (s.reg.Outside? || s.reg.Assigned? ==> s.count == |s.signals|)
    && (s.pc.Resetting? || s.pc.Calling? ==> s.pc.i < |s.signals|)
  }

  /** The table that eloop points to once the registration under way is finished. */
  function Live(s: State): seq<Entry> {
    if (s.reg.Copied? || s.reg.Counted?) && s.reg.tmp.Some? then s.reg.tmp.value else s.signals
  }

  function Next(s: State, e: Event): State
    requires InTable(s)
  {
    match e
    case Deliver(sig) => DeliverStep(s, sig)
    case RegisterSignal(sig, moves) => RegisterStep(s, sig, moves)
    case Main => MainStep(s)
  }

  /** The pass has not yet come to index k. */
  predicate Ahead(pc: Pc, k: nat) {
    match pc
    case Idle => false
    case Visiting(i) => i <= k
    case Resetting(i) => i <= k
    case Calling(i) => i < k
    case _ => true
  }

  /** The live table repeats the signals of the old one, with one more entry. */
  predicate Extends(before: seq<Entry>, live: seq<Entry>) {
    |live| == |before| + 1 && forall i | 0 <= i < |before| :: live[i].sig == before[i].sig
  }

  /** How far the registration has come. */
  predicate Registering(s: State) {
    && (!s.reg.Outside? ==> Index(Live(s), s.reg.sig) < |Live(s)|)
    && match s.reg
       case Copied(_, tmp) => s.count + 1 == |Live(s)| && (tmp.Some? ==> Extends(s.signals, tmp.value))
       case Counted(_, tmp) => s.count == |Live(s)| && (tmp.Some? ==> Extends(s.signals, tmp.value))
       case _ => s.count == |s.signals|
  }

  /** What is installed has an entry within the count. */
  ghost predicate Found(s: State) {
    forall g | g in s.installed :: Index(s.signals, g) < |s.signals| && Index(s.signals, g) < s.count
  }

  ghost predicate Inv(s: State) {
    && InTable(s) && Registering(s) && Found(s)
    && (s.alarm <==> s.pending && s.pc != Forgetting)
    && (s.pending ==> s.signaled > 0 || s.pc in {Clearing, Testing, Disarming, Forgetting})
    && (s.pc == Disarming ==> s.pending)
    && (s.pc == Forgetting ==> s.pending)
    && (s.pc.Resetting? ==> s.signals[s.pc.i].signaled > 0)
    && forall k | 0 <= k < |Live(s)| :: Live(s)[k].signaled > 0 ==> s.signaled > 0 || Ahead(s.pc, k)
  }

  /** Deliveries owed to entry k are on record: in its counter, or its handler is about to be called. */
  predicate Recorded(s: State, k: nat)
    requires k < |s.owed| == |Live(s)|
  {
    s.owed[k] > 0 ==> Live(s)[k].signaled > 0 || s.pc == Calling(k)
  }

  /** A delivery for entry k while the table is being moved, when no earlier one was copied with it. */
  predicate Misses(s: State, e: Event, k: nat) {
    && (s.reg.Copied? || s.reg.Counted?) && s.reg.tmp.Some?
    && e.Deliver? && e.sig in s.installed && Index(s.signals, e.sig) == k
    && k < |s.reg.tmp.value| && s.reg.tmp.value[k].signaled == 0
  }

  lemma SameIndex(a: seq<Entry>, b: seq<Entry>, sig: int)
    requires |a| <= |b| && (forall i | 0 <= i < |a| :: a[i].sig == b[i].sig) && Index(a, sig) < |a|
    ensures Index(b, sig) == Index(a, sig)
  {
  }

  /** A delivery never reads behind the table it goes through, not even where signal_count is ahead of it. */
  lemma SearchStaysInside(s: State, sig: int)
    requires Inv(s) && sig in s.installed
    ensures Index(s.signals, sig) < |s.signals| && Index(s.signals, sig) < s.count && Index(s.signals, sig) < |s.owed|
  {
  }

  lemma FoundKeeps(s: State, s': State)
    requires Found(s) && s'.installed == s.installed && |s.signals| <= |s'.signals| && s.count <= s'.count
    requires forall i | 0 <= i < |s.signals| :: s'.signals[i].sig == s.signals[i].sig
    ensures Found(s')
  {
    forall g | g in s'.installed ensures Index(s'.signals, g) < |s'.signals| && Index(s'.signals, g) < s'.count {
      SameIndex(s.signals, s'.signals, g);
    }
  }

  lemma DeliverKeeps(s: State, sig: int)
    requires Inv(s)
    ensures Inv(DeliverStep(s, sig))
  {
    if sig in s.installed {
      SearchStaysInside(s, sig);
      FoundKeeps(s, DeliverStep(s, sig));
      SigsKept(s, sig);
    }
  }

  /** The entries keep their signals, so the registration under way goes on undisturbed. */
  lemma SigsKept(s: State, sig: int)
    requires Inv(s) && sig in s.installed
    ensures Registering(DeliverStep(s, sig))
  {
    var s' := DeliverStep(s, sig);
    if !s.reg.Outside? {
      SameIndex(Live(s), Live(s'), s.reg.sig);
    }
  }

  lemma RegisterKeeps(s: State, sig: int, moves: bool)
    requires Inv(s)
    ensures Inv(RegisterStep(s, sig, moves))
  {
    var more := s.signals + [Entry(sig, 0)];
    assert more[|s.signals|].sig == sig;
    FoundKeeps(s, RegisterStep(s, sig, moves));
    hide Index;
  }

  /** The accesses of a registration behind the first. */
  lemma RegistrationKeeps(s: State)
    requires Inv(s) && !s.reg.Outside?
    ensures Inv(MainStep(s))
  {
    var s' := MainStep(s);
    FoundKeeps(s, s'.(installed := s.installed));
    hide Index;
    assert Found(s') by {
      forall g | g in s'.installed ensures Index(s'.signals, g) < |s'.signals| && Index(s'.signals, g) < s'.count {
        assert g in s.installed || (s.reg.Assigned? && g == s.reg.sig);
      }
    }
    hide Found;
  }

  /** The accesses of the pass. */
  lemma PassKeeps(s: State)
    requires Inv(s) && s.reg.Outside?
    ensures Inv(MainStep(s))
  {
    FoundKeeps(s, MainStep(s));
    hide Found, Index;
  }

  lemma NextKeeps(s: State, e: Event)
    requires Inv(s)
    ensures Inv(Next(s, e))
  {
    match e
    case Deliver(sig) => DeliverKeeps(s, sig);
    case RegisterSignal(sig, moves) => RegisterKeeps(s, sig, moves);
    case Main => if s.reg.Outside? { PassKeeps(s); } else { RegistrationKeeps(s); }
  }

  // ----- Whole runs -----

  const START := State(0, [], 0, [], {}, Idle, Outside, false, false)

  lemma StartInv()
    ensures Inv(START)
  {
  }

  /** After the events, the last one last. */
  ghost function After(events: seq<Event>): (s: State)
    ensures Inv(s)
  {
    if events == [] then StartInv(); START
    else
      var s := After(events[..|events| - 1]);
      NextKeeps(s, events[|events| - 1]);
      Next(s, events[|events| - 1])
  }

  /** One step: what was on record stays on record unless the event is a delivery that is missed. */
  lemma RecordKept(s: State, e: Event, k: nat)
    requires Inv(s) && k < |s.owed| && Recorded(s, k)
    ensures InTable(Next(s, e)) && |s.owed| <= |Next(s, e).owed|
    ensures Recorded(Next(s, e), k) <==> !Misses(s, e, k)
  {
    hide Found, Index, Registering;
    NextKeeps(s, e);
    if e.Deliver? {
      DeliverRecords(s, e.sig, k);
    }
  }

  lemma DeliverRecords(s: State, sig: int, k: nat)
    requires Inv(s) && k < |s.owed| && Recorded(s, k)
    ensures InTable(DeliverStep(s, sig)) && |s.owed| <= |DeliverStep(s, sig).owed|
    ensures Recorded(DeliverStep(s, sig), k) <==> !Misses(s, Deliver(sig), k)
  {
    if sig in s.installed {
      SearchStaysInside(s, sig);
      hide Found, Index;
    }
  }

  lemma AfterOne(events: seq<Event>, e: Event)
    ensures After(events + [e]) == Next(After(events), e)
  {
    assert (events + [e])[..|events|] == events;
  }

  /** Entry k is on record after each of the first n events. */
  ghost predicate Kept(events: seq<Event>, n: nat, k: nat)
    requires n <= |events|
  {
    forall i | 0 <= i <= n :: k < |After(events[..i]).owed| ==> Recorded(After(events[..i]), k)
  }

  lemma NewEntry(s: State, e: Event, k: nat)
    requires Inv(s) && |s.owed| <= k
    ensures InTable(Next(s, e)) && (k < |Next(s, e).owed| ==> Recorded(Next(s, e), k))
    ensures !Misses(s, e, k)
  {
    hide Found, Index, Registering;
    NextKeeps(s, e);
    if e.Deliver? && e.sig in s.installed {
      SearchStaysInside(s, e.sig);
    }
  }

  lemma {:induction false} KeptExactly(events: seq<Event>, n: nat, k: nat)
    requires n <= |events|
    ensures Kept(events, n, k) <==> forall i | 0 <= i < n :: !Misses(After(events[..i]), events[i], k)
  {
    hide Found, Registering, Index, Next, Misses, Recorded, After;
    if n == 0 {
      assert events[..0] == [];
      NothingOwed();
    } else {
      KeptExactly(events, n - 1, k);
      var s, e := After(events[..n - 1]), events[n - 1];
      assert events[..n] == events[..n - 1] + [e];
      AfterOne(events[..n - 1], e);
      if k < |s.owed| {
        if Recorded(s, k) { RecordKept(s, e, k); }
      } else {
        NewEntry(s, e, k);
      }
    }
  }

  lemma NothingOwed()
    ensures After([]).owed == []
  {
  }

  /** In every interleaving: the deliveries for an entry are on record all along if and only if none of them is
      missed, coming while a registration is moving the table. On record means that the flag is set, the pass
      has still to come to it, or its handler is about to be called, so when the loop is idle with the flag
      clear, every delivery has been handled. */
  lemma NoSignalLost(events: seq<Event>, k: nat)
    ensures Kept(events, |events|, k) <==> forall i | 0 <= i < |events| :: !Misses(After(events[..i]), events[i], k)
    ensures var s := After(events);
            k < |s.owed| && Recorded(s, k) ==>
              && (s.owed[k] > 0 ==> s.signaled > 0 || Ahead(s.pc, k) || s.pc == Calling(k))
              && (s.pc == Idle && s.signaled == 0 ==> s.owed[k] == 0)
  {
    KeptExactly(events, |events|, k);
  }

  /** The alarm that would kill a busy loop is set exactly while a termination is pending, up to the access that
      forgets it. */
  lemma AlarmCalledOff(events: seq<Event>)
    ensures var s := After(events);
            && (s.alarm <==> s.pending && s.pc != Forgetting)
            && (s.pc == Idle && s.signaled == 0 ==> !s.alarm && !s.pending)
  {
    hide After;
  }

  /** What sets it: either of the two signals, but between the two accesses that call it off; no other signal does. */
  lemma TerminationArms(events: seq<Event>, sig: int)
    requires sig in After(events).installed
    ensures var s, s' := After(events), After(events + [Deliver(sig)]);
            if sig in {SIGINT, SIGTERM} then s'.pending && (s'.alarm <==> s.pc != Forgetting)
            else s'.pending == s.pending && s'.alarm == s.alarm
  {
    var longer := events + [Deliver(sig)];
    assert longer[..|longer| - 1] == events;
    NextKeeps(After(events), Deliver(sig));
    hide Found, Index, Registering;
  }

  // ----- Left alone, the main thread catches up -----

  function Todo(s: State): nat {
    var n := |s.owed|;
    match s.pc
    case Idle => if s.signaled == 0 then 0 else 3 * n + 7
    case Clearing => 3 * n + 6
    case Testing => 3 * n + 5
    case Disarming => 3 * n + 4
    case Forgetting => 3 * n + 3
    case Visiting(i) => if i >= n then 1 else 3 * (n - i) + 2
    case Resetting(i) => if i >= n then 0 else 3 * (n - i) + 1
    case Calling(i) => if i >= n then 0 else 3 * (n - i)
  }

  /** How many accesses are left if nothing interrupts any more. */
  function Rank(s: State): nat {
    Todo(s) + (if s.signaled > 0 && !s.pc.Idle? && !s.pc.Clearing? then 3 * |s.owed| + 8 else 0)
    + match s.reg
      case Outside => 0
      case Assigned(_) => 1
      case Counted(_, _) => 2
      case Copied(_, _) => 3
  }

  predicate Settled(s: State) { s.reg == Outside && s.pc == Idle && s.signaled == 0 }

  lemma SizeKept(s: State)
    requires Inv(s)
    ensures |MainStep(s).owed| == |s.owed|
  {
    hide Found, Index, Registering;
  }

  lemma Progress(s: State)
    requires Inv(s) && !Settled(s)
    ensures InTable(MainStep(s)) && Inv(MainStep(s)) && Rank(MainStep(s)) < Rank(s)
  {
    hide Found, Index, Registering;
    NextKeeps(s, Main);
    hide Inv;
    SizeKept(s);
  }

  /** The rest of the registration and the pass, and further passes if signals came during it, with no more
      interruptions. */
  function Settle(s: State): State
    requires Inv(s)
    decreases Rank(s)
  {
    if Settled(s) then s else Progress(s); Settle(MainStep(s))
  }

  /** One access of the main thread neither finds nor loses anything. */
  lemma MainRecords(s: State, k: nat)
    requires Inv(s) && k < |s.owed|
    ensures var s' := MainStep(s);
            InTable(s') && |s'.owed| == |s.owed| && Live(s')[k].sig == Live(s)[k].sig && (Recorded(s', k) <==> Recorded(s, k))
  {
    hide Found, Index, Registering;
    NextKeeps(s, Main);
  }

  /** Once deliveries stop, the handler of every entry on record is called, and of no other: what was missed
      stays missed. */
  lemma {:induction false} SettleHandles(s: State)
    requires Inv(s)
    ensures var t := Settle(s);
            && t.reg == Outside && t.pc == Idle && t.signaled == 0 && !t.alarm && !t.pending
            && |t.signals| == |Live(s)| == |t.owed|
            && forall k | 0 <= k < |t.signals| ::
                 t.signals[k].signaled == 0 && t.signals[k].sig == Live(s)[k].sig && (t.owed[k] == 0 <==> Recorded(s, k))
    decreases Rank(s)
  {
    hide Found, Index, Registering;
    if !Settled(s) {
      Progress(s);
      var s' := MainStep(s);
      forall k | 0 <= k < |s.owed|
        ensures |s'.owed| == |s.owed| && Live(s')[k].sig == Live(s)[k].sig && (Recorded(s', k) <==> Recorded(s, k))
      {
        MainRecords(s, k);
      }
      SizeKept(s);
      hide MainStep, Live, Recorded, Rank, Todo;
      SettleHandles(s');
    }
  }

  /** SIGINT, registered, comes while SIGTERM is being registered behind it. */
  const INTERRUPTED: seq<Event> :=
    [RegisterSignal(SIGINT, true), Main, Main, Main, RegisterSignal(SIGTERM, true), Deliver(SIGINT)]

  lemma AfterPrefix(events: seq<Event>, i: nat)
    requires i < |events|
    ensures After(events[..i + 1]) == Next(After(events[..i]), events[i])
  {
    assert events[..i + 1] == events[..i] + [events[i]];
    AfterOne(events[..i], events[i]);
  }

  /** A registration that nothing interrupts. */
  lemma Registers(s: State, sig: int, moves: bool)
    requires Inv(s) && s.reg.Outside? && s.pc.Idle?
    ensures var s1 := RegisterStep(s, sig, moves);
            && InTable(s1) && InTable(MainStep(s1)) && InTable(MainStep(MainStep(s1)))
            && MainStep(MainStep(MainStep(s1)))
               == s.(signals := s.signals + [Entry(sig, 0)], count := s.count + 1, owed := s.owed + [0], installed := s.installed + {sig})
  {
    hide Found, Index;
  }

  lemma FirstRegistered()
    ensures After(INTERRUPTED[..4]) == State(0, [Entry(SIGINT, 0)], 1, [0], {SIGINT}, Idle, Outside, false, false)
  {
    var es := INTERRUPTED;
    AfterPrefix(es, 0);
    AfterPrefix(es, 1);
    AfterPrefix(es, 2);
    AfterPrefix(es, 3);
    AfterNone();
    assert es[..0] == [];
    Registers(START, SIGINT, true);
    hide After, MainStep, RegisterStep, Inv, InTable;
  }

  lemma AfterNone()
    ensures After([]) == START
  {
  }

  /** What a delivery makes of that state while another entry is on its way. */
  lemma SecondMissed(s: State)
    requires s == State(0, [Entry(SIGINT, 0)], 1, [0], {SIGINT}, Idle, Outside, false, false)
    ensures var t := DeliverStep(RegisterStep(s, SIGTERM, true), SIGINT);
            && t.owed == [1, 0] && t.alarm && t.reg == Copied(SIGTERM, Some([Entry(SIGINT, 0), Entry(SIGTERM, 0)])) && t.pc == Idle
  {
    assert [Entry(SIGINT, 0)] + [Entry(SIGTERM, 0)] == [Entry(SIGINT, 0), Entry(SIGTERM, 0)];
    assert [0] + [0] == [0, 0] && [0, 0][0 := 1] == [1, 0];
  }

  /** Its handler is never called, and the alarm is called off all the same. */
  lemma TerminationMissed()
    ensures var s := After(INTERRUPTED);
            && s.owed == [1, 0] && s.alarm && !Recorded(s, 0)
            && |Settle(s).owed| == 2 && Settle(s).owed[0] > 0 && !Settle(s).alarm && !Settle(s).pending
  {
    hide After, RegisterStep, DeliverStep, MainStep, Found, Index, Registering;
    FirstRegistered();
    AfterPrefix(INTERRUPTED, 4);
    AfterPrefix(INTERRUPTED, 5);
    SecondMissed(After(INTERRUPTED[..4]));
    assert INTERRUPTED[..6] == INTERRUPTED;
    hide Inv;
    var s := After(INTERRUPTED);
    assert |Live(s)| == 2;
    SettleHandles(s);
    hide Settle;
  }

  // ----- The handler's own loop -----

  class SignalTable {
    var signaled: nat
    var signals: seq<Entry>
    var count: nat
    ghost var owed: seq<nat>
    ghost var installed: set<int>
    var pendingTerminate: bool
    var alarm: bool

    ghost function Now(pc: Pc, reg: Reg): State
      reads this
    {
      State(signaled, signals, count, owed, installed, pc, reg, pendingTerminate, alarm)
    }

    /** eloop_handle_signal, wherever it interrupts the main thread: the alarm, the flag and the search of the table. */
    method HandleSignal(sig: int, ghost pc: Pc, ghost reg: Reg)
      requires Inv(Now(pc, reg)) && sig in installed
      modifies this
      ensures Now(pc, reg) == DeliverStep(old(Now(pc, reg)), sig)
    {
      hide Found, Registering;
      SearchStaysInside(Now(pc, reg), sig);
      hide Inv, Index;
      ghost var at, was := Index(signals, sig), signals;
      if (sig == SIGINT || sig == SIGTERM) && !pendingTerminate {
        pendingTerminate, alarm := true, true;
      }
      signaled := signaled + 1;
      var i := 0;
      while i < count
        invariant i <= at < |signals| && at < count && signals == was
      {
        if signals[i].sig == sig {
          signals := Bump(signals, i);
          owed := owed[i := owed[i] + 1];
          return;
        }
        i := i + 1;
      }
    }
  }
}
