/** The pool of WebRTC connections behind the video panels: counted by their holders, and torn
    down only some time after the last one has gone. */
module WebRtcPool {
  import opened Common

  const DISPOSE_DELAY_MS: nat := 5000

  const NUL: char := '\0'

  function PKey(robotId: string, signalingUrl: string): string {
    robotId + [NUL] + signalingUrl
  }

  lemma KeyWithoutNul(r: string, u: string, r': string, u': string)
    requires NUL !in r && NUL !in u && PKey(r, u) == PKey(r', u')
    ensures r == r' && u == u'
  {
    var k := PKey(r, u);
    assert k[|r'|] == NUL;
    assert forall i | 0 <= i < |r| :: k[i] == r[i];
    assert forall i | 0 <= i < |u| :: k[|r| + 1 + i] == u[i];
    assert |r'| == |r|;
    assert r == k[..|r|] && r' == k[..|r|];
    assert u == k[|r| + 1..] && u' == k[|r| + 1..];
  }

  lemma KeyWithNul(r: string, u: string) returns (r': string, u': string)
    requires NUL in r || NUL in u
    ensures PKey(r, u) == PKey(r', u') && r != r'
  {
    if NUL in r {
      var i :| 0 <= i < |r| && r[i] == NUL;
      r', u' := r[..i], r[i + 1..] + [NUL] + u;
    } else {
      var i :| 0 <= i < |u| && u[i] == NUL;
      r', u' := r + [NUL] + u[..i], u[i + 1..];
    }
  }

  /** No other pair has the key of a robot and an address exactly when there is no NUL in either. */
  lemma PKeyIdentifiesIff(r: string, u: string)
    ensures (forall r', u' :: PKey(r, u) == PKey(r', u') ==> r == r' && u == u') <==> NUL !in r && NUL !in u
  {
    if NUL !in r && NUL !in u {
      forall r', u' | PKey(r, u) == PKey(r', u') ensures r == r' && u == u' {
        KeyWithoutNul(r, u, r', u');
      }
    } else {
      var r', u' := KeyWithNul(r, u);
    }
  }

  // ----- the pool, the event loop's timers and the mounted hooks -----

  /** A PoolEntry; `isOpen` stands for its peer connection, socket and statistics timer. The key
      it was made under and the last time it had a holder are for the record. */
  datatype Entry = Entry(key: string, refCount: int, disposeTimer: Option<nat>, isOpen: bool, lastHeld: nat)

  /** A pending setTimeout: what its callback captured, and the earliest time it can run. */
  datatype Timer = Timer(key: string, entry: nat, due: nat)

  /** A mounted hook: its arguments and the entry it was given. */
  datatype Hold = Hold(robotId: string, signalingUrl: string, entry: nat)

  datatype State = State(pool: map<string, nat>, entries: map<nat, Entry>, timers: map<nat, Timer>,
                         holders: map<nat, Hold>, now: nat, nextEntry: nat, nextTimer: nat)

  const START := State(map[], map[], map[], map[], 0, 0, 0)

  /** acquireConnection; the entry is pool[key] afterwards. */
  function Acquire(s: State, key: string): State
    requires key in s.pool ==> s.pool[key] in s.entries
  {
    if key in s.pool then
      var id := s.pool[key];
      var e := s.entries[id];
      s.(entries := s.entries[id := e.(disposeTimer := None, refCount := e.refCount + 1, lastHeld := s.now)],
      timers := if e.disposeTimer.Some? then s.timers - {e.disposeTimer.value} else s.timers)
    else
      s.(entries := s.entries[s.nextEntry := Entry(key, 1, None, true, s.now)],
      pool := s.pool[key := s.nextEntry], nextEntry := s.nextEntry + 1)
  }

  /** An entry with one holder fewer, held until now. */
  function Lost(e: Entry, now: nat): Entry {
    e.(refCount := e.refCount - 1, lastHeld := now)
  }

  /** The last holder has gone and no disposal is pending. */
  predicate ToDispose(e: Entry) {
    e.refCount <= 0 && e.disposeTimer.None?
  }

  /** Take one holder from an entry, and note its disposal if it is due for one. */
  function WithLost(s: State, id: nat): State
    requires id in s.entries
  {
    var e := Lost(s.entries[id], s.now);
    s.(entries := s.entries[id := if ToDispose(e) then e.(disposeTimer := Some(s.nextTimer)) else e])
  }

  /** setTimeout. */
  function WithTimeout(s: State, timer: Timer): State {
    s.(timers := s.timers[s.nextTimer := timer], nextTimer := s.nextTimer + 1)
  }

  /** releaseConnection. */
  function Release(s: State, key: string): State
    requires key in s.pool ==> s.pool[key] in s.entries
  {
    if key !in s.pool then s
    else
      var id := s.pool[key];
      var lost := WithLost(s, id);
      if ToDispose(Lost(s.entries[id], s.now))
      then WithTimeout(lost, Timer(key, id, s.now + DISPOSE_DELAY_MS)) else lost
  }

  /** The dispose timer's callback: close what it captured, and drop the key. */
  function Dispose(s: State, t: nat): State
    requires t in s.timers && s.timers[t].entry in s.entries
  {
    var timer := s.timers[t];
    s.(entries := s.entries[timer.entry := s.entries[timer.entry].(isOpen := false)],
    pool := s.pool - {timer.key}, timers := s.timers - {t})
  }

  datatype Event =
    | Mount(hook: nat, robotId: string, signalingUrl: string)
    | Unmount(hook: nat)
    | Fire(timer: nat)
    | Elapse(ms: nat)

  /** A hook is mounted once at a time; a timer does not fire before it is due. */
  predicate Enabled(s: State, e: Event) {
    match e
    case Mount(h, _, _) => h !in s.holders
    case Unmount(h) => h in s.holders
    case Fire(t) => t in s.timers && s.timers[t].due <= s.now
    case Elapse(_) => true
  }

  function Step(s: State, e: Event): State
    requires Sound(s) && Enabled(s, e)
  {
    match e
    case Mount(h, robotId, url) =>
      if robotId == "" then s
      else
        var t := Acquire(s, PKey(robotId, url));
        t.(holders := t.holders[h := Hold(robotId, url, t.pool[PKey(robotId, url)])])
    case Unmount(h) =>
      Release(s.(holders := s.holders - {h}), PKey(s.holders[h].robotId, s.holders[h].signalingUrl))
    case Fire(t) => Dispose(s, t)
    case Elapse(ms) => s.(now := s.now + ms)
  }

  // ----- what every interleaving keeps -----

  /** The hooks that hold an entry. */
  ghost function HoldersOf(holders: map<nat, Hold>, id: nat): set<nat> {
    set h | h in holders && holders[h].entry == id
  }

  /** The pool lists exactly the open entries, each under its own key. */
  ghost predicate PoolSound(s: State) {
    && (forall k | k in s.pool ::
          s.pool[k] in s.entries && s.entries[s.pool[k]].isOpen && s.entries[s.pool[k]].key == k)
    && (forall id | id in s.entries :: id < s.nextEntry && s.entries[id].lastHeld <= s.now)
    && (forall id | id in s.entries && s.entries[id].isOpen ::
          s.entries[id].key in s.pool && s.pool[s.entries[id].key] == id)
  }

  /** Every hook holds an open entry of its own key, and the counts are those of the holders. */
  ghost predicate HoldersSound(s: State) {
    && (forall h | h in s.holders ::
          var hold := s.holders[h];
          && hold.entry in s.entries && s.entries[hold.entry].isOpen
          && s.entries[hold.entry].key == PKey(hold.robotId, hold.signalingUrl))
    && forall id | id in s.entries :: s.entries[id].isOpen ==> s.entries[id].refCount == |HoldersOf(s.holders, id)|
  }

  /** An open entry has its dispose timer armed exactly when it has no holder, for the full
      delay after it last had one; and no other timer is pending. */
  ghost predicate TimersSound(s: State) {
    && (forall id | id in s.entries && s.entries[id].isOpen ::
          var e := s.entries[id];
          && (e.refCount == 0 <==> e.disposeTimer.Some?)
          && (e.disposeTimer.Some? ==>
                && e.disposeTimer.value in s.timers
                && s.timers[e.disposeTimer.value] == Timer(e.key, id, e.lastHeld + DISPOSE_DELAY_MS)))
    && (forall t | t in s.timers ::
          && t < s.nextTimer && s.timers[t].entry in s.entries
          && s.entries[s.timers[t].entry].isOpen && s.entries[s.timers[t].entry].disposeTimer == Some(t))
  }

  ghost predicate Sound(s: State) {
    PoolSound(s) && HoldersSound(s) && TimersSound(s)
  }

  lemma StartSound()
    ensures Sound(START)
  {
  }

  lemma HolderAdded(holders: map<nat, Hold>, h: nat, hold: Hold, id: nat)
    requires h !in holders
    ensures |HoldersOf(holders[h := hold], id)| == |HoldersOf(holders, id)| + if hold.entry == id then 1 else 0
  {
    var after, before := HoldersOf(holders[h := hold], id), HoldersOf(holders, id);
    assert after == if hold.entry == id then before + {h} else before;
  }

  lemma HolderRemoved(holders: map<nat, Hold>, h: nat, id: nat)
    requires h in holders
    ensures |HoldersOf(holders - {h}, id)| == |HoldersOf(holders, id)| - if holders[h].entry == id then 1 else 0
  {
    var after, before := HoldersOf(holders - {h}, id), HoldersOf(holders, id);
    assert before == if holders[h].entry == id then after + {h} else after;
  }

  /** Mounting under a key adds one holder to the pooled entry. */
  lemma MountKeepsHolders(s: State, h: nat, robotId: string, url: string)
    requires Sound(s) && h !in s.holders && robotId != ""
    ensures HoldersSound(Step(s, Mount(h, robotId, url)))
  {
    var t := Step(s, Mount(h, robotId, url));
    forall id | id in t.entries ensures t.entries[id].isOpen ==> t.entries[id].refCount == |HoldersOf(t.holders, id)| {
      HolderAdded(s.holders, h, t.holders[h], id);
      if id !in s.entries {
        assert HoldersOf(s.holders, id) == {};
      }
    }
  }

  lemma AcquireKeepsPool(s: State, key: string)
    requires PoolSound(s)
    ensures PoolSound(Acquire(s, key))
  {
  }

  lemma AcquireKeepsTimers(s: State, key: string)
    requires Sound(s)
    ensures TimersSound(Acquire(s, key))
  {
    if key in s.pool {
      ReuseKeepsTimers(s, key);
    } else {
      NewKeepsTimers(s, key);
    }
  }

  lemma ReuseKeepsTimers(s: State, key: string)
    requires Sound(s) && key in s.pool
    ensures TimersSound(Acquire(s, key))
  {
  }

  lemma NewKeepsTimers(s: State, key: string)
    requires PoolSound(s) && TimersSound(s) && key !in s.pool
    ensures TimersSound(Acquire(s, key))
  {
  }

  /** Pool and timers do not depend on who holds what. */
  lemma SoundWith(s: State, t: State)
    requires PoolSound(s) && TimersSound(s) && t == s.(holders := t.holders) && HoldersSound(t)
    ensures Sound(t)
  {
  }

  lemma UnmountKeepsHolders(s: State, h: nat)
    requires Sound(s) && h in s.holders
    ensures HoldersSound(Step(s, Unmount(h)))
  {
    var t := Step(s, Unmount(h));
    forall id | id in t.entries ensures t.entries[id].isOpen ==> t.entries[id].refCount == |HoldersOf(t.holders, id)| {
      HolderRemoved(s.holders, h, id);
    }
  }

  lemma ReleaseKeepsPool(s: State, key: string)
    requires PoolSound(s)
    ensures PoolSound(Release(s, key))
  {
  }

  lemma ReleaseKeepsTimers(s: State, key: string)
    requires PoolSound(s) && TimersSound(s) && key in s.pool && s.entries[s.pool[key]].refCount > 0
    ensures TimersSound(Release(s, key))
  {
  }

  lemma UnmountKeepsSound(s: State, h: nat)
    requires Sound(s) && h in s.holders
    ensures Sound(Step(s, Unmount(h)))
  {
    var t, key := s.(holders := s.holders - {h}), PKey(s.holders[h].robotId, s.holders[h].signalingUrl);
    UnmountKeepsHolders(s, h);
    assert HoldersOf(s.holders, s.pool[key]) != {} by {
      assert h in HoldersOf(s.holders, s.pool[key]);
    }
    assert PoolSound(t) && TimersSound(t);
    ReleaseKeepsPool(t, key);
    ReleaseKeepsTimers(t, key);
  }

  lemma MountKeepsSound(s: State, h: nat, robotId: string, url: string)
    requires Sound(s) && h !in s.holders
    ensures Sound(Step(s, Mount(h, robotId, url)))
  {
    if robotId != "" {
      MountKeepsHolders(s, h, robotId, url);
      AcquireKeepsPool(s, PKey(robotId, url));
      AcquireKeepsTimers(s, PKey(robotId, url));
      SoundWith(Acquire(s, PKey(robotId, url)), Step(s, Mount(h, robotId, url)));
    }
  }

  /** The entry of a pending timer has no holder. */
  lemma TimedHasNoHolder(s: State, t: nat)
    requires Sound(s) && t in s.timers
    ensures forall h | h in s.holders :: s.holders[h].entry != s.timers[t].entry
  {
    var id := s.timers[t].entry;
    assert |HoldersOf(s.holders, id)| == 0;
    assert HoldersOf(s.holders, id) == {};
    forall h | h in s.holders ensures s.holders[h].entry != id {
      assert h !in HoldersOf(s.holders, id);
    }
  }

  lemma DisposeKeepsPool(s: State, t: nat)
    requires PoolSound(s) && TimersSound(s) && t in s.timers
    ensures PoolSound(Dispose(s, t)) && TimersSound(Dispose(s, t))
  {
  }

  lemma FireKeepsSound(s: State, t: nat)
    requires Sound(s) && Enabled(s, Fire(t))
    ensures Sound(Step(s, Fire(t)))
  {
    TimedHasNoHolder(s, t);
    DisposeKeepsPool(s, t);
  }

  /** Under every interleaving of mounting, unmounting, timers and time. */
  lemma StepKeepsSound(s: State, e: Event)
    requires Sound(s) && Enabled(s, e)
    ensures Sound(Step(s, e))
  {
    match e
    case Mount(h, robotId, url) => MountKeepsSound(s, h, robotId, url);
    case Unmount(h) => UnmountKeepsSound(s, h);
    case Fire(t) => FireKeepsSound(s, t);
    case Elapse(_) =>
  }

  ghost predicate Possible(s: State, events: seq<Event>)
    requires Sound(s)
    decreases |events|
  {
    events == [] || (Enabled(s, events[0]) && (StepKeepsSound(s, events[0]); Possible(Step(s, events[0]), events[1..])))
  }

  ghost function Run(s: State, events: seq<Event>): (t: State)
    requires Sound(s) && Possible(s, events)
    ensures Sound(t) && s.now <= t.now
    decreases |events|
  {
    if events == [] then s
    else
      StepKeepsSound(s, events[0]);
      Run(Step(s, events[0]), events[1..])
  }

  // ----- what holders can rely on -----

  /** Hooks with the same arguments share one open entry, the pooled one. */
  lemma HoldersShare(s: State, h: nat, h': nat)
    requires Sound(s) && h in s.holders && h' in s.holders
    requires s.holders[h].robotId == s.holders[h'].robotId && s.holders[h].signalingUrl == s.holders[h'].signalingUrl
    ensures s.holders[h].entry == s.holders[h'].entry && s.entries[s.holders[h].entry].isOpen
    ensures s.pool[PKey(s.holders[h].robotId, s.holders[h].signalingUrl)] == s.holders[h].entry
  {
  }

  /** A step closes an open entry only when no hook holds it, and none has for the full delay. */
  lemma ClosedOnlyWhenIdle(s: State, e: Event, id: nat)
    requires Sound(s) && Enabled(s, e) && id in s.entries && s.entries[id].isOpen
    ensures id in Step(s, e).entries
    ensures !Step(s, e).entries[id].isOpen ==>
              HoldersOf(s.holders, id) == {} && s.entries[id].lastHeld + DISPOSE_DELAY_MS <= s.now
  {
    var n := |HoldersOf(s.holders, id)|;
    assert n == 0 ==> HoldersOf(s.holders, id) == {};
  }

  /** An entry stays open, and pooled for the next hook with its key, until the delay since it
      was last held has passed. */
  lemma {:induction false} OpenThroughoutDelay(s: State, events: seq<Event>, id: nat)
    requires Sound(s) && Possible(s, events) && id in s.entries && s.entries[id].isOpen
    requires Run(s, events).now < s.entries[id].lastHeld + DISPOSE_DELAY_MS
    ensures var t := Run(s, events);
            id in t.entries && t.entries[id].isOpen && t.entries[id].key == s.entries[id].key
            && t.pool[s.entries[id].key] == id
    decreases |events|
  {
    if events != [] {
      var t := Step(s, events[0]);
      StepKeepsSound(s, events[0]);
      ClosedOnlyWhenIdle(s, events[0], id);
      StepKeepsRecord(s, events[0], id);
      OpenThroughoutDelay(t, events[1..], id);
    }
  }

  lemma StepKeepsRecord(s: State, e: Event, id: nat)
    requires Sound(s) && Enabled(s, e) && id in s.entries
    ensures var t := Step(s, e);
            id in t.entries && t.entries[id].key == s.entries[id].key
            && s.entries[id].lastHeld <= t.entries[id].lastHeld <= t.now
  {
    match e
    case Mount(h, robotId, url) =>
      if robotId != "" { AcquireKeepsRecord(s, PKey(robotId, url), id); }
    case Unmount(h) =>
      ReleaseKeepsRecord(s.(holders := s.holders - {h}), PKey(s.holders[h].robotId, s.holders[h].signalingUrl), id);
    case Fire(_) =>
    case Elapse(_) =>
  }

  lemma AcquireKeepsRecord(s: State, key: string, id: nat)
    requires PoolSound(s) && id in s.entries
    ensures var t := Acquire(s, key);
            id in t.entries && t.entries[id].key == s.entries[id].key && t.now == s.now
            && s.entries[id].lastHeld <= t.entries[id].lastHeld <= t.now
  {
  }

  lemma ReleaseKeepsRecord(s: State, key: string, id: nat)
    requires PoolSound(s) && id in s.entries
    ensures var t := Release(s, key);
            id in t.entries && t.entries[id].key == s.entries[id].key && t.now == s.now
            && s.entries[id].lastHeld <= t.entries[id].lastHeld <= t.now
  {
  }

  /** Held, or held at some time from `since` on. */
  ghost predicate HeldSince(s: State, id: nat, since: nat) {
    id in s.entries && since <= s.now && (HoldersOf(s.holders, id) != {} || since <= s.entries[id].lastHeld)
  }

  lemma StepKeepsHeld(s: State, e: Event, id: nat, since: nat)
    requires Sound(s) && Enabled(s, e) && HeldSince(s, id, since)
    ensures HeldSince(Step(s, e), id, since)
  {
    StepKeepsRecord(s, e, id);
    var t := Step(s, e);
    if HoldersOf(s.holders, id) != {} && HoldersOf(t.holders, id) == {} {
      var h :| h in HoldersOf(s.holders, id);
      assert h !in HoldersOf(t.holders, id);
      LeftIsNoted(s, e, h, id);
    }
  }

  /** When a holder leaves, the entry notes the time. */
  lemma LeftIsNoted(s: State, e: Event, h: nat, id: nat)
    requires Sound(s) && Enabled(s, e) && id in s.entries && h in s.holders && s.holders[h].entry == id
    requires h !in Step(s, e).holders || Step(s, e).holders[h].entry != id
    ensures id in Step(s, e).entries && Step(s, e).entries[id].lastHeld == s.now
  {
  }

  /** A connection somebody holds now stays open, and pooled for the next hook with its key, for five
      seconds from now whatever happens, and as much longer as it is held again. */
  lemma {:induction false} HeldStaysOpen(s: State, events: seq<Event>, id: nat, since: nat)
    requires Sound(s) && Possible(s, events) && HeldSince(s, id, since) && s.entries[id].isOpen
    requires Run(s, events).now < since + 5000
    ensures var t := Run(s, events);
            id in t.entries && t.entries[id].isOpen && t.entries[id].key == s.entries[id].key
            && t.pool[s.entries[id].key] == id
    decreases |events|
  {
    if events != [] {
      StepKeepsSound(s, events[0]);
      StepKeepsRecord(s, events[0], id);
      StepKeepsHeld(s, events[0], id, since);
      ClosedOnlyWhenIdle(s, events[0], id);
      HeldStaysOpen(Step(s, events[0]), events[1..], id, since);
    }
  }

  /** What a mounted hook gets: the pooled entry of its key, or where there is none a new one; always an
      open one. A hook without a robot gets none, and no other hook is touched. */
  lemma MountGives(s: State, h: nat, robotId: string, url: string)
    requires Sound(s) && h !in s.holders
    ensures var t := Step(s, Mount(h, robotId, url));
            if robotId == "" then t == s
            else
              && h in t.holders && t.holders == s.holders[h := Hold(robotId, url, t.holders[h].entry)]
              && t.holders[h].entry in t.entries && t.entries[t.holders[h].entry].isOpen
              && (if PKey(robotId, url) in s.pool then t.holders[h].entry == s.pool[PKey(robotId, url)]
                  else t.holders[h].entry !in s.entries)
  {
    if robotId != "" { MountKeepsSound(s, h, robotId, url); }
  }

  /** Unmounting takes away that hook alone; a timer that runs closes its entry, drops it from the pool
      and is gone. */
  lemma OthersDo(s: State, h: nat, timer: nat)
    requires Sound(s)
    ensures h in s.holders ==> Step(s, Unmount(h)).holders == s.holders - {h}
    ensures Enabled(s, Fire(timer)) ==>
              var t, id := Step(s, Fire(timer)), s.timers[timer].entry;
              && id in t.entries && !t.entries[id].isOpen && timer !in t.timers
              && t.pool == s.pool - {s.entries[id].key} && t.holders == s.holders
  {
  }

  // ----- the pool in place -----

  class PoolEntry {
    const id: nat
    const key: string
    var refCount: int
    var disposeTimer: Option<nat>
    var isOpen: bool
    ghost var lastHeld: nat

    constructor (id: nat, key: string, now: nat)
      ensures this.id == id && View() == Entry(key, 1, None, true, now)
    {
      this.id, this.key, refCount, disposeTimer, isOpen, lastHeld := id, key, 1, None, true, now;
    }

    ghost function View(): Entry
      reads this
    {
      Entry(key, refCount, disposeTimer, isOpen, lastHeld)
    }

    /** One more holder; a pending disposal is called off. */
    method Gain(now: nat)
      modifies this
      ensures View() == old(View()).(disposeTimer := None, refCount := old(refCount) + 1, lastHeld := now)
    {
      disposeTimer := None;
      refCount := refCount + 1;
      lastHeld := now;
    }

    /** One holder fewer; without any, `timer` is the disposal to arm unless one is pending. */
    method Lose(now: nat, timer: nat) returns (armed: bool)
      modifies this
      ensures var e := Lost(old(View()), now);
              armed == ToDispose(e) && View() == if armed then e.(disposeTimer := Some(timer)) else e
    {
      refCount := refCount - 1;
      lastHeld := now;
      armed := refCount <= 0 && disposeTimer.None?;
      if armed {
        disposeTimer := Some(timer);
      }
    }

    method Close()
      modifies this
      ensures View() == old(View()).(isOpen := false)
    {
      isOpen := false;
    }
  }

  class ConnectionPool {
    /** References to entries are their numbers; `made` is where they lead. */
    var pool: map<string, nat>
    var made: map<nat, PoolEntry>
    // the event loop
    var timeouts: map<nat, Timer>
    var now: nat
    var nextEntry: nat
    var nextTimer: nat
    ghost var holders: map<nat, Hold>

    ghost predicate Valid()
      reads `pool, `timeouts, `made, `nextEntry
    {
      && (forall id | id in made :: made[id].id == id && id < nextEntry)
      && (forall k | k in pool :: pool[k] in made)
      && (forall t | t in timeouts :: timeouts[t].entry in made)
    }

    ghost function Entries(): map<nat, Entry>
      reads `made, made.Values
    {
      map id | id in made :: made[id].View()
    }

    ghost function View(): State
      reads this, made.Values
    {
      State(pool, Entries(), timeouts, holders, now, nextEntry, nextTimer)
    }

    constructor ()
      ensures Valid() && View() == START
    {
      pool, timeouts, now, nextEntry, nextTimer, made, holders := map[], map[], 0, 0, 0, map[], map[];
    }

    /** Changing one entry changes one of the values. */
    twostate lemma OneChanged(entry: PoolEntry)
      requires old(Valid()) && made == old(made) && entry.id in made && made[entry.id] == entry
      requires forall e | e in made.Values && e != entry :: unchanged(e)
      ensures Entries() == old(Entries())[entry.id := entry.View()]
    {
      forall id | id in made && id != entry.id ensures made[id].View() == old(made[id].View()) {
        assert made[id] in made.Values;
      }
    }

    method AcquireConnection(robotId: string, signalingUrl: string) returns (entry: PoolEntry)
      requires Valid()
      modifies `pool, `timeouts, `nextEntry, `made, made.Values
      ensures Valid() && View() == Acquire(old(View()), PKey(robotId, signalingUrl))
      ensures var key := PKey(robotId, signalingUrl); key in pool && entry == made[pool[key]]
    {
      var key := PKey(robotId, signalingUrl);
      if key in pool {
        entry := made[pool[key]];
        assert entry in made.Values;
        Reuse(key);
      } else {
        entry := MakeEntry(key);
      }
    }

    method Reuse(key: string)
      requires Valid() && key in pool
      modifies `timeouts, made[pool[key]]
      ensures Valid() && View() == Acquire(old(View()), key)
    {
      var entry := made[pool[key]];
      if entry.disposeTimer.Some? {
        timeouts := timeouts - {entry.disposeTimer.value};
      }
      entry.Gain(now);
      OneChanged(entry);
    }

    method MakeEntry(key: string) returns (entry: PoolEntry)
      requires Valid() && key !in pool
      modifies `pool, `nextEntry, `made
      ensures Valid() && View() == Acquire(old(View()), key)
      ensures key in pool && pool[key] in made && entry == made[pool[key]]
    {
      entry := new PoolEntry(nextEntry, key, now);
      made := made[nextEntry := entry];
      pool := pool[key := nextEntry];
      nextEntry := nextEntry + 1;
      assert Entries() == old(Entries())[entry.id := entry.View()];
    }

    method ReleaseConnection(robotId: string, signalingUrl: string)
      requires Valid()
      modifies `timeouts, `nextTimer, made.Values
      ensures Valid() && View() == Release(old(View()), PKey(robotId, signalingUrl))
    {
      var key := PKey(robotId, signalingUrl);
      if key !in pool {
        return;
      }
      assert made[pool[key]] in made.Values;
      Drop(key);
    }

    method Drop(key: string)
      requires Valid() && key in pool
      modifies `timeouts, `nextTimer, made[pool[key]]
      ensures Valid() && View() == Release(old(View()), key)
    {
      var armed := LoseHolder(pool[key]);
      if armed {
        SetTimeout(Timer(key, pool[key], now + DISPOSE_DELAY_MS));
      }
    }

    method LoseHolder(id: nat) returns (armed: bool)
      requires Valid() && id in made
      modifies made[id]
      ensures Valid()
      ensures armed == ToDispose(Lost(old(View()).entries[id], now)) && View() == WithLost(old(View()), id)
    {
      armed := made[id].Lose(now, nextTimer);
      OneChanged(made[id]);
    }

    method SetTimeout(timer: Timer)
      requires Valid() && timer.entry in made
      modifies `timeouts, `nextTimer
      ensures Valid()
      ensures View() == WithTimeout(old(View()), timer)
    {
      timeouts := timeouts[nextTimer := timer];
      nextTimer := nextTimer + 1;
    }

    /** The event loop runs a timeout that is due. */
    method OnTimeout(t: nat)
      requires Valid() && t in timeouts
      modifies `pool, `timeouts, made[timeouts[t].entry]
      ensures Valid() && View() == Dispose(old(View()), t)
    {
      var key, entry := timeouts[t].key, made[timeouts[t].entry];
      entry.Close();
      OneChanged(entry);
      timeouts := timeouts - {t};
      pool := pool - {key};
    }
  }
}
