/** The latest-value mailbox between a ROS timer thread and an asyncio thread: one slot, one
    lock, a flag that says a drain is on its way. Every section under the lock is one step. */
module PoseBridges {
  import opened Common

  /** The fields guarded by the lock. Messages are numbered as produced; sockets have names. */
  datatype Mailbox = Mailbox(ws: Option<nat>, asyncLoop: bool, pending: Option<nat>, drainScheduled: bool)

  /** _ws_is_open, given the sockets that are open. */
  predicate IsOpen(ws: Option<nat>, open: set<nat>) {
    ws.Some? && ws.value in open
  }

  /** The section in _on_timer: store, and schedule a drain if there is none and the socket is open. */
  function Store(b: Mailbox, message: nat, open: set<nat>): (Mailbox, bool) {
    var schedule := b.asyncLoop && IsOpen(b.ws, open) && !b.drainScheduled;
    (b.(pending := Some(message), drainScheduled := b.drainScheduled || schedule), schedule)
  }

  /** The first section in _drain: empty the slot and remember the socket. */
  function Take(b: Mailbox): Mailbox {
    b.(pending := None)
  }

  /** The last section in _drain. */
  function Finish(b: Mailbox): Mailbox {
    b.(drainScheduled := false)
  }

  /** The section in set_ws: a waiting message is scheduled as soon as there is a socket. */
  function Connect(b: Mailbox, ws: Option<nat>): (Mailbox, bool) {
    var schedule := ws.Some? && b.pending.Some? && !b.drainScheduled;
    (b.(ws := ws, asyncLoop := true, drainScheduled := b.drainScheduled || schedule), schedule)
  }

  // ----- the protocol -----

  /** Where one drain is: decided but not yet handed to the loop, waiting in the loop, holding
      what it took, or done with it. */
  datatype Drain = Decided | Queued | Holding(data: Option<nat>, socket: Option<nat>) | Ending

  /** The mailbox, the drains outstanding, the open sockets; and what became of the messages. */
  datatype System = System(box: Mailbox, drains: seq<Drain>, open: set<nat>,
                           produced: nat, sent: seq<nat>, overwritten: set<nat>, discarded: set<nat>)

  const START := System(Mailbox(None, false, None, false), [], {}, 0, [], {}, {})

  datatype Event =
    | Timer            // a transform was found and packed
    | Submit(i: nat)   // run_coroutine_threadsafe
    | DrainTakes(i: nat)
    | DrainSends(i: nat, ok: bool)  // `ok`: send does not raise
    | DrainEnds(i: nat)
    | SetWs(ws: Option<nat>)
    | Opens(id: nat)
    | Closes(id: nat)

  predicate Enabled(s: System, e: Event) {
    match e
    case Timer => true
    case Submit(i) => i < |s.drains| && s.drains[i].Decided?
    case DrainTakes(i) => i < |s.drains| && s.drains[i].Queued?
    case DrainSends(i, _) => i < |s.drains| && s.drains[i].Holding?
    case DrainEnds(i) => i < |s.drains| && s.drains[i].Ending?
    case SetWs(_) => true
    case Opens(_) => true
    case Closes(_) => true
  }

  function Scheduled(drains: seq<Drain>, schedule: bool): seq<Drain> {
    if schedule then drains + [Decided] else drains
  }

  function Step(s: System, e: Event): System
    requires Enabled(s, e)
  {
    match e
    case Timer =>
      var (box, schedule) := Store(s.box, s.produced, s.open);
      s.(box := box, drains := Scheduled(s.drains, schedule), produced := s.produced + 1,
      overwritten := s.overwritten + if s.box.pending.Some? then {s.box.pending.value} else {})
    case Submit(i) => s.(drains := s.drains[i := Queued])
    case DrainTakes(i) => s.(box := Take(s.box), drains := s.drains[i := Holding(s.box.pending, s.box.ws)])
    case DrainSends(i, ok) =>
      var d := s.drains[i];
      var t := s.(drains := s.drains[i := Ending]);
      if d.data.None? then t
      else if IsOpen(d.socket, s.open) && ok then t.(sent := s.sent + [d.data.value])
      else t.(discarded := s.discarded + {d.data.value})
    case DrainEnds(i) => s.(box := Finish(s.box), drains := s.drains[..i] + s.drains[i + 1..])
    case SetWs(ws) =>
      var (box, schedule) := Connect(s.box, ws);
      s.(box := box, drains := Scheduled(s.drains, schedule))
    case Opens(ws) => s.(open := s.open + {ws})
    case Closes(ws) => s.(open := s.open - {ws})
  }

  predicate Possible(s: System, events: seq<Event>)
    decreases |events|
  {
    events == [] || (Enabled(s, events[0]) && Possible(Step(s, events[0]), events[1..]))
  }

  function Run(s: System, events: seq<Event>): System
    requires Possible(s, events)
    decreases |events|
  {
    if events == [] then s else Run(Step(s, events[0]), events[1..])
  }

  // ----- what every interleaving keeps -----

  /** The flag is up exactly while a drain is outstanding, and there is never a second one. */
  predicate OneDrain(s: System) {
    |s.drains| == if s.box.drainScheduled then 1 else 0
  }

  /** The message a drain holds. */
  function Held(s: System): Option<nat> {
    if s.drains != [] && s.drains[0].Holding? then s.drains[0].data else None
  }

  function Is(slot: Option<nat>, m: nat): nat {
    if slot == Some(m) then 1 else 0
  }

  function In(messages: set<nat>, m: nat): nat {
    if m in messages then 1 else 0
  }

  /** In how many places a message is. */
  function Places(s: System, m: nat): nat {
    Is(s.box.pending, m) + Is(Held(s), m) + multiset(s.sent)[m] + In(s.overwritten, m) + In(s.discarded, m)
  }

  ghost predicate Increasing(ms: seq<nat>) {
    forall i, j | 0 <= i < j < |ms| :: ms[i] < ms[j]
  }

  /** What is sent, what is held and what is pending are in the order of production. */
  ghost predicate Ordered(s: System) {
    && Increasing(s.sent)
    && (forall i | 0 <= i < |s.sent| :: s.sent[i] < s.produced && (Held(s).Some? ==> s.sent[i] < Held(s).value)
                                        && (s.box.pending.Some? ==> s.sent[i] < s.box.pending.value))
    && (Held(s).Some? ==> Held(s).value < s.produced && (s.box.pending.Some? ==> Held(s).value < s.box.pending.value))
    && (s.box.pending.Some? ==> s.box.pending.value == s.produced - 1)
  }

  ghost predicate Kept(s: System) {
    && OneDrain(s) && Ordered(s)
    && forall m: nat :: Places(s, m) == if m < s.produced then 1 else 0
  }

  lemma StepKeepsDrain(s: System, e: Event)
    requires OneDrain(s) && Enabled(s, e)
    ensures OneDrain(Step(s, e))
  {
  }

  lemma StepKeepsOrder(s: System, e: Event)
    requires OneDrain(s) && Ordered(s) && Enabled(s, e)
    ensures Ordered(Step(s, e))
  {
  }

  lemma StepKeepsPlaces(s: System, e: Event, m: nat)
    requires OneDrain(s) && Ordered(s) && Enabled(s, e)
    requires forall m: nat :: Places(s, m) == if m < s.produced then 1 else 0
    ensures Places(Step(s, e), m) == if m < Step(s, e).produced then 1 else 0
  {
    assert Places(s, m) == if m < s.produced then 1 else 0;
  }

  lemma StepKeeps(s: System, e: Event)
    requires Kept(s) && Enabled(s, e)
    ensures Kept(Step(s, e))
  {
    var t := Step(s, e);
    StepKeepsDrain(s, e);
    StepKeepsOrder(s, e);
    forall m: nat ensures Places(t, m) == if m < t.produced then 1 else 0 {
      StepKeepsPlaces(s, e, m);
    }
  }

  /** Under every interleaving: the scheduled flag is up exactly while there is one drain
      outstanding; what is transmitted is a strictly increasing subsequence of what was produced;
      and every produced message is in exactly one place: pending, in flight, sent, overwritten
      or discarded. */
  lemma {:induction false} RunKeeps(s: System, events: seq<Event>)
    requires Kept(s) && Possible(s, events)
    ensures Kept(Run(s, events))
    decreases |events|
  {
    if events != [] {
      StepKeeps(s, events[0]);
      RunKeeps(Step(s, events[0]), events[1..]);
    }
  }

  lemma StartKept()
    ensures Kept(START)
  {
  }

  // ----- the message that arrives while a drain is out -----

  /** A message waits and nothing is on its way to fetch it. */
  predicate Parked(s: System, m: nat) {
    s.box.pending == Some(m) && s.drains == [] && !s.box.drainScheduled
  }

  /** It does so although the socket is open. */
  predicate Stranded(s: System, m: nat) {
    Parked(s, m) && s.box.asyncLoop && IsOpen(s.box.ws, s.open)
  }

  /** The end of a drain strands a message exactly when one was stored since the drain took
      its own, and the socket is open: the last section does not look at the slot. */
  lemma DrainEndStrandsIff(s: System, i: nat, m: nat)
    requires Kept(s) && Enabled(s, DrainEnds(i))
    ensures Stranded(Step(s, DrainEnds(i)), m)
       <==> s.box.pending == Some(m) && s.box.asyncLoop && IsOpen(s.box.ws, s.open)
  {
  }

  lemma {:induction false} RunConcat(s: System, a: seq<Event>, b: seq<Event>)
    requires Possible(s, a) && Possible(Run(s, a), b)
    ensures Possible(s, a + b) && Run(s, a + b) == Run(Run(s, a), b)
    decreases |a|
  {
    if a == [] {
      assert a + b == b;
    } else {
      assert (a + b)[1..] == a[1..] + b;
      RunConcat(Step(s, a[0]), a[1..], b);
    }
  }

  const FIRST_SEND := [Opens(7), SetWs(Some(7)), Timer, Submit(0), DrainTakes(0)]
  const SECOND_MESSAGE := [Timer, DrainSends(0, true), DrainEnds(0)]

  /** While the first message is with the drain. */
  const SENDING := START.(box := Mailbox(Some(7), true, None, true),
                          drains := [Holding(Some(0), Some(7))], open := {7}, produced := 1)

  lemma FirstSend()
    ensures Possible(START, FIRST_SEND) && Run(START, FIRST_SEND) == SENDING
  {
    var events := FIRST_SEND;
    assert events[1..] == [SetWs(Some(7)), Timer, Submit(0), DrainTakes(0)];
    assert events[1..][1..] == [Timer, Submit(0), DrainTakes(0)];
    assert events[1..][1..][1..] == [Submit(0), DrainTakes(0)];
    assert events[1..][1..][1..][1..] == [DrainTakes(0)];
  }

  lemma SecondMessage()
    ensures Possible(SENDING, SECOND_MESSAGE)
    ensures var t := Run(SENDING, SECOND_MESSAGE); Stranded(t, 1) && t.sent == [0]
  {
    assert SECOND_MESSAGE[1..] == [DrainSends(0, true), DrainEnds(0)];
    assert SECOND_MESSAGE[1..][1..] == [DrainEnds(0)];
  }

  /** It happens: the second message is stored while the first is being sent. */
  lemma MessageStranded()
    ensures Possible(START, FIRST_SEND + SECOND_MESSAGE)
    ensures var t := Run(START, FIRST_SEND + SECOND_MESSAGE); Stranded(t, 1) && t.sent == [0]
  {
    FirstSend();
    SecondMessage();
    RunConcat(START, FIRST_SEND, SECOND_MESSAGE);
  }

  /** Whatever follows. */
  lemma {:induction false} OverwrittenNeverSent(s: System, m: nat, events: seq<Event>)
    requires Kept(s) && m in s.overwritten && Possible(s, events)
    ensures m !in Run(s, events).sent
    decreases |events|
  {
    assert Places(s, m) == if m < s.produced then 1 else 0;
    if events == [] {
      assert m in s.sent ==> multiset(s.sent)[m] > 0;
    } else {
      StepKeeps(s, events[0]);
      OverwrittenNeverSent(Step(s, events[0]), m, events[1..]);
    }
  }

  /** No reconnection comes before the next message. */
  predicate TimerFirst(events: seq<Event>) {
    events == [] || events[0].Timer? || (!events[0].SetWs? && TimerFirst(events[1..]))
  }

  /** A parked message is never sent, unless a reconnection comes before the next message: that one
      overwrites it. */
  lemma {:induction false} ParkedNeverSent(s: System, m: nat, events: seq<Event>)
    requires Kept(s) && Parked(s, m) && Possible(s, events) && TimerFirst(events)
    ensures m !in Run(s, events).sent
    decreases |events|
  {
    assert Places(s, m) == if m < s.produced then 1 else 0;
    if events == [] {
      assert m in s.sent ==> multiset(s.sent)[m] > 0;
    } else {
      StepKeeps(s, events[0]);
      if events[0].Timer? {
        OverwrittenNeverSent(Step(s, events[0]), m, events[1..]);
      } else {
        ParkedNeverSent(Step(s, events[0]), m, events[1..]);
      }
    }
  }

  // ----- the message that nothing disturbs -----

  /** A message, and its drain from beginning to end. */
  function Undisturbed(ok: bool): seq<Event> {
    [Timer, Submit(0), DrainTakes(0), DrainSends(0, ok), DrainEnds(0)]
  }

  /** The drain runs alone. */
  lemma RunsAlone(s: System, ok: bool)
    requires Kept(s) && s.drains == [] && s.box.asyncLoop && IsOpen(s.box.ws, s.open)
    ensures Possible(s, Undisturbed(ok))
    ensures var t := Run(s, Undisturbed(ok));
            && t.box == s.box.(pending := None) && t.drains == [] && t.produced == s.produced + 1 && t.open == s.open
            && t.sent == (if ok then s.sent + [s.produced] else s.sent)
            && t.discarded == (if ok then s.discarded else s.discarded + {s.produced})
            && t.overwritten == s.overwritten + (if s.box.pending.Some? then {s.box.pending.value} else {})
  {
    var es := Undisturbed(ok);
    assert es[1..] == [Submit(0), DrainTakes(0), DrainSends(0, ok), DrainEnds(0)];
    assert es[1..][1..] == [DrainTakes(0), DrainSends(0, ok), DrainEnds(0)];
    assert es[1..][1..][1..] == [DrainSends(0, ok), DrainEnds(0)];
    assert es[1..][1..][1..][1..] == [DrainEnds(0)];
    var a := Step(s, es[0]);
    assert a.drains == [Decided] && a.box.drainScheduled;
    var b := Step(a, es[1]);
    var c := Step(b, es[2]);
    assert c.drains == [Holding(Some(s.produced), s.box.ws)];
    var d := Step(c, es[3]);
    assert d.drains == [Ending];
    var e := Step(d, es[4]);
    assert e.drains == [];
  }

  /** What a drain holds is sent exactly when the socket it took is open and the send does not raise;
      otherwise it is discarded, and either way it is gone. */
  lemma HeldIsSentIff(s: System, i: nat, ok: bool)
    requires Kept(s) && Enabled(s, DrainSends(i, ok)) && s.drains[i].data.Some?
    ensures var t, m, socket := Step(s, DrainSends(i, ok)), s.drains[i].data.value, s.drains[i].socket;
            && Held(t).None? && t.box == s.box
            && (t.sent == s.sent + [m] <==> socket.Some? && socket.value in s.open && ok)
            && (m in t.discarded <==> t.sent == s.sent)
  {
    var m := s.drains[i].data.value;
    assert i == 0 && Held(s) == Some(m);
    assert Places(s, m) == 1;
  }

  // ----- the bridge in place -----

  /** The bridge. Each section under the lock is the step of the protocol it stands for, so that
      what every interleaving keeps holds of the fields. */
  class PoseBridge {
    // changed only inside the lock
    var ws: Option<nat>
    var asyncLoop: bool
    var pending: Option<nat>
    var drainScheduled: bool
    /** The system around the mailbox. */
    ghost var world: System

    ghost predicate Valid()
      reads this
    {
      world.box == Mailbox(ws, asyncLoop, pending, drainScheduled) && Kept(world)
    }

    constructor ()
      ensures Valid() && world == START
    {
      ws, asyncLoop, pending, drainScheduled := None, false, None, false;
      world := START;
      new;
      StartKept();
    }

    /** The section in _on_timer. The message is the one that waits now; a drain is asked for
        exactly when none is outstanding and the socket is open. */
    method OnTimer(packed: nat, open: set<nat>) returns (shouldSchedule: bool)
      requires Valid() && packed == world.produced && open == world.open
      modifies `pending, `drainScheduled, `world
      ensures Valid() && world == Step(old(world), Timer)
      ensures pending == Some(packed)
      ensures shouldSchedule <==> asyncLoop && IsOpen(ws, open) && old(world).drains == []
      ensures shouldSchedule <==> world.drains != old(world).drains
    {
      StepKeeps(world, Timer);
      world := Step(world, Timer);
      pending := Some(packed);
      shouldSchedule := asyncLoop && IsOpen(ws, open) && !drainScheduled;
      if shouldSchedule {
        drainScheduled := true;
      }
    }

    /** The first section in _drain. What it takes is the newest message there is, newer than
        everything sent; it is with this drain and nowhere else. */
    method DrainTake() returns (data: Option<nat>, socket: Option<nat>)
      requires Valid() && world.drains == [Queued]
      modifies `pending, `world
      ensures Valid() && world == Step(old(world), DrainTakes(0))
      ensures pending == None && world.drains == [Holding(data, socket)]
      ensures data.Some? ==> data.value == world.produced - 1 && forall m | m in world.sent :: m < data.value
    {
      StepKeeps(world, DrainTakes(0));
      world := Step(world, DrainTakes(0));
      data := pending;
      pending := None;
      socket := ws;
    }

    /** The last section in _drain. No drain is left, so a message that has come since is parked. */
    method DrainFinish()
      requires Valid() && world.drains == [Ending]
      modifies `drainScheduled, `world
      ensures Valid() && world == Step(old(world), DrainEnds(0))
      ensures world.drains == [] && (pending.Some? ==> Parked(world, pending.value))
    {
      StepKeeps(world, DrainEnds(0));
      world := Step(world, DrainEnds(0));
      drainScheduled := false;
    }

    /** The section in set_ws. With a socket, a waiting message has a drain on its way afterwards:
        the one asked for now, or one that was outstanding. */
    method SetWs(ws: Option<nat>) returns (scheduleDrain: bool)
      requires Valid()
      modifies `ws, `asyncLoop, `drainScheduled, `world
      ensures Valid() && world == Step(old(world), Event.SetWs(ws))
      ensures this.ws == ws && pending == old(pending)
      ensures scheduleDrain <==> ws.Some? && pending.Some? && old(world).drains == []
      ensures scheduleDrain <==> world.drains != old(world).drains
      ensures ws.Some? && pending.Some? ==> world.drains != []
    {
      StepKeeps(world, Event.SetWs(ws));
      world := Step(world, Event.SetWs(ws));
      scheduleDrain := false;
      this.ws := ws;
      asyncLoop := true;
      if ws.Some? && pending.Some? && !drainScheduled {
        drainScheduled := true;
        scheduleDrain := true;
      }
    }

    /** What happens outside the lock: a drain is handed to the loop or sends, a socket opens or
        closes. */
    ghost method Elsewhere(e: Event)
      requires Valid() && Enabled(world, e) && (e.Submit? || e.DrainSends? || e.Opens? || e.Closes?)
      modifies `world
      ensures Valid() && world == Step(old(world), e)
    {
      StepKeeps(world, e);
      world := Step(world, e);
    }
  }
}
