/** What the updates of a run get from the IMU queue, when they happen, and what the two modes
    of SyncPackages do at their edges. */
module SensorBatches {
  import opened Common
  import opened SensorSync

  /** The samples not after `t`, in order. */
  function Upto(imus: seq<Imu>, t: real): seq<Imu> {
    if imus == [] then []
    else (if imus[0].stamp <= t then [imus[0]] else []) + Upto(imus[1..], t)
  }

  /** The samples in (lo, hi], in order. */
  function Between(imus: seq<Imu>, lo: real, hi: real): seq<Imu> {
    Upto(After(imus, lo), hi)
  }

  ghost predicate AllAfter(imus: seq<Imu>, t: real) {
    forall i | 0 <= i < |imus| :: imus[i].stamp > t
  }

  ghost predicate AllUpto(imus: seq<Imu>, t: real) {
    forall i | 0 <= i < |imus| :: imus[i].stamp <= t
  }

  ghost predicate Sorted(imus: seq<Imu>) {
    |imus| <= 1 || (imus[0].stamp <= imus[1].stamp && Sorted(imus[1..]))
  }

  lemma {:induction false} SortedPush(imus: seq<Imu>, imu: Imu)
    requires Sorted(imus) && (imus != [] ==> imus[|imus| - 1].stamp <= imu.stamp)
    ensures Sorted(imus + [imu])
  {
    if |imus| > 1 {
      SortedPush(imus[1..], imu);
      assert (imus + [imu])[1..] == imus[1..] + [imu];
    }
  }

  lemma {:induction false} SortedDrop(imus: seq<Imu>, k: nat)
    requires Sorted(imus) && k <= |imus|
    ensures Sorted(imus[k..])
  {
    if k > 0 {
      assert Sorted(imus[1..]);
      SortedDrop(imus[1..], k - 1);
      assert imus[1..][k - 1..] == imus[k..];
    }
  }

  lemma {:induction false} SortedAllAfter(imus: seq<Imu>, t: real)
    requires Sorted(imus) && (imus != [] ==> imus[0].stamp > t)
    ensures AllAfter(imus, t)
  {
    if |imus| > 1 {
      SortedAllAfter(imus[1..], t);
    }
  }

  ghost predicate StrictlySorted(imus: seq<Imu>) {
    forall i, j | 0 <= i < j < |imus| :: imus[i].stamp < imus[j].stamp
  }

  lemma {:induction false} AfterConcat(a: seq<Imu>, b: seq<Imu>, t: real)
    ensures After(a + b, t) == After(a, t) + After(b, t)
  {
    if a == [] {
      assert a + b == b;
    } else {
      AfterConcat(a[1..], b, t);
      assert (a + b)[1..] == a[1..] + b;
      HeadConcat(if a[0].stamp > t then [a[0]] else [], After(a[1..], t), After(b, t));
    }
  }

  lemma {:induction false} UptoConcat(a: seq<Imu>, b: seq<Imu>, t: real)
    ensures Upto(a + b, t) == Upto(a, t) + Upto(b, t)
  {
    if a == [] {
      assert a + b == b;
    } else {
      UptoConcat(a[1..], b, t);
      assert (a + b)[1..] == a[1..] + b;
      HeadConcat(if a[0].stamp <= t then [a[0]] else [], Upto(a[1..], t), Upto(b, t));
    }
  }

  lemma HeadConcat<T>(head: seq<T>, a: seq<T>, b: seq<T>)
    ensures head + (a + b) == head + a + b
  {
  }

  lemma {:induction false} AfterAll(imus: seq<Imu>, t: real)
    ensures AllAfter(imus, t) ==> After(imus, t) == imus && Upto(imus, t) == []
    ensures AllUpto(imus, t) ==> After(imus, t) == [] && Upto(imus, t) == imus
  {
    if imus != [] {
      AfterAll(imus[1..], t);
    }
  }

  lemma {:induction false} AfterWithin(imus: seq<Imu>, t: real, u: real)
    ensures AllAfter(After(imus, t), t)
    ensures AllUpto(imus, u) ==> AllUpto(After(imus, t), u)
  {
    if imus != [] {
      AfterWithin(imus[1..], t, u);
    }
  }

  lemma {:induction false} AfterAfter(imus: seq<Imu>, t: real, u: real)
    requires t <= u
    ensures After(After(imus, t), u) == After(imus, u)
  {
    if imus != [] {
      AfterAfter(imus[1..], t, u);
      var head := if imus[0].stamp > t then [imus[0]] else [];
      AfterConcat(head, After(imus[1..], t), u);
    }
  }

  /** The samples that reach `lio` are the front of a sorted queue. */
  lemma FrontAndRest(imus: seq<Imu>, last: real, lio: real)
    requires Sorted(imus) && last <= lio
    ensures var k := Reached(imus, lio);
            && After(imus, last) == After(imus[..k], last) + imus[k..]
            && AllUpto(After(imus[..k], last), lio) && AllAfter(imus[k..], lio)
  {
    var k := Reached(imus, lio);
    assert imus == imus[..k] + imus[k..];
    AfterConcat(imus[..k], imus[k..], last);
    AfterWithin(imus[..k], last, lio);
    SortedDrop(imus, k);
    SortedAllAfter(imus[k..], lio);
    AfterAll(imus[k..], last);
  }

  // ----- batches over a run -----

  /** The queue holds sorted samples, none after the last accepted one. */
  ghost predicate QueueSorted(s: State) {
    Sorted(s.imus) && forall i | 0 <= i < |s.imus| :: 0.0 <= s.imus[i].stamp <= s.lastImu
  }

  /** The samples on time and after the first base are those delivered and those still queued
      for a later update. */
  ghost predicate Batched(r: Run) {
    var s := r.state;
    && QueueSorted(s)
    && if s.lastUpdate < 0.0 then r.batches == [] && r.updates == [] && r.onTime == r.samples == s.imus
       else
         && 0.0 <= r.start <= s.lastUpdate
         && After(r.onTime, r.start) == r.batches + After(s.imus, s.lastUpdate)
         && AllUpto(r.batches, s.lastUpdate)
  }

  lemma ImuStepBatched(r: Run, imu: Imu)
    requires Batched(r) && Allowed(r.state, Inertial(imu))
    ensures Batched(ImuStep(r, imu))
  {
    var s, q := r.state, ImuStep(r, imu);
    if ImuAccepted(s, imu.stamp) {
      SortedPush(s.imus, imu);
      if s.lastUpdate >= 0.0 {
        AfterConcat(s.imus, [imu], s.lastUpdate);
        AfterConcat(r.onTime, [imu], r.start);
        assert [imu][1..] == [];
        assert After([imu], s.lastUpdate) == if imu.stamp > s.lastUpdate then [imu] else [];
      }
    }
  }

  lemma IdleBatched(r: Run, exposure: real)
    requires Orderly(r.state) && Batched(r) && !Cuts(r.state, exposure)
    ensures Batched(SyncStep(r, exposure))
  {
    if Ready(r.state) && r.state.lastUpdate < 0.0 {
      assert r.state.headers[0] >= 0.0;
    }
  }

  /** The first base: this one until there has been an update. */
  function FirstBase(r: Run): real
    requires r.state.headers != []
  {
    if r.state.lastUpdate < 0.0 then Base(r.state) else r.start
  }

  /** The base an update starts from keeps the account when it is set for the first time. */
  lemma BaseBatched(r: Run)
    requires Orderly(r.state) && Batched(r) && Ready(r.state)
    ensures && 0.0 <= FirstBase(r) <= Base(r.state)
            && After(r.onTime, FirstBase(r)) == r.batches + After(r.state.imus, Base(r.state))
            && AllUpto(r.batches, Base(r.state))
  {
    assert r.state.headers[0] >= 0.0;
  }

  /** The samples since the previous update, up to the next, are the front of the queue. */
  lemma Window(onTime: seq<Imu>, start: real, batches: seq<Imu>, imus: seq<Imu>, last: real, lio: real)
    requires After(onTime, start) == batches + After(imus, last)
    requires AllUpto(batches, last) && Sorted(imus) && start <= last <= lio
    ensures After(imus[..Reached(imus, lio)], last) == Between(onTime, last, lio)
  {
    var k := Reached(imus, lio);
    var batch := After(imus[..k], last);
    assert After(onTime, last) == After(imus, last) by {
      AfterAfter(onTime, start, last);
      AfterConcat(batches, After(imus, last), last);
      AfterAll(batches, last);
      AfterAfter(imus, last, last);
      assert [] + After(imus, last) == After(imus, last);
    }
    FrontAndRest(imus, last, lio);
    UptoConcat(batch, imus[k..], lio);
    AfterAll(batch, lio);
    AfterAll(imus[k..], lio);
    assert batch + [] == batch;
  }

  /** What an update does to the account. */
  lemma NextBatch(onTime: seq<Imu>, start: real, batches: seq<Imu>, imus: seq<Imu>, last: real, lio: real)
    requires After(onTime, start) == batches + After(imus, last)
    requires AllUpto(batches, last) && Sorted(imus) && start <= last <= lio
    ensures var k := Reached(imus, lio);
            var batch := After(imus[..k], last);
            After(onTime, start) == batches + batch + After(imus[k..], lio) && AllUpto(batches + batch, lio)
  {
    var k := Reached(imus, lio);
    var batch := After(imus[..k], last);
    FrontAndRest(imus, last, lio);
    AfterAll(imus[k..], lio);
    HeadConcat(batches, batch, imus[k..]);
  }

  /** What a cutting step does to the IMU queue. */
  lemma CutFields(r: Run, exposure: real)
    requires Safe(r.state) && Cuts(r.state, exposure)
    ensures var s, q, lio := r.state, SyncStep(r, exposure), r.state.imageTimes[0] + exposure;
            var k, batch := Reached(s.imus, lio), After(s.imus[..Reached(s.imus, lio)], Base(s));
            && SyncLivo(s, exposure).measures[0] == MeasureGroup(lio, batch, Some(s.images[0]))
            && q.state.imus == s.imus[k..] && q.state.lastUpdate == lio && q.state.lastImu == s.lastImu
            && q.batches == r.batches + batch && q.updates == r.updates + [lio]
            && q.samples == r.samples && q.onTime == r.onTime
            && q.start == FirstBase(r)
  {
  }

  /** `q` is what `r` becomes when the samples up to `lio` are taken. */
  ghost predicate Taken(r: Run, q: Run, start: real, last: real, lio: real) {
    var k := Reached(r.state.imus, lio);
    && 0.0 <= start <= last <= lio
    && q.state.imus == r.state.imus[k..] && q.state.lastUpdate == lio && q.state.lastImu == r.state.lastImu
    && q.batches == r.batches + After(r.state.imus[..k], last)
    && q.onTime == r.onTime && q.start == start
  }

  lemma TakenBatched(r: Run, q: Run, start: real, last: real, lio: real)
    requires QueueSorted(r.state) && Taken(r, q, start, last, lio)
    requires After(r.onTime, start) == r.batches + After(r.state.imus, last) && AllUpto(r.batches, last)
    ensures Batched(q)
  {
    SortedDrop(r.state.imus, Reached(r.state.imus, lio));
    NextBatch(r.onTime, start, r.batches, r.state.imus, last, lio);
  }

  lemma CutTakes(r: Run, exposure: real) returns (q: Run, last: real, lio: real)
    requires Orderly(r.state) && Batched(r) && Cuts(r.state, exposure)
    ensures q == SyncStep(r, exposure) && Taken(r, q, q.start, last, lio)
    ensures After(r.onTime, q.start) == r.batches + After(r.state.imus, last) && AllUpto(r.batches, last)
  {
    q, last, lio := SyncStep(r, exposure), Base(r.state), r.state.imageTimes[0] + exposure;
    BaseBatched(r);
    CutFields(r, exposure);
  }

  lemma CutBatched(r: Run, exposure: real)
    requires Orderly(r.state) && Batched(r) && Cuts(r.state, exposure)
    ensures Batched(SyncStep(r, exposure))
  {
    var q, last, lio := CutTakes(r, exposure);
    TakenBatched(r, q, q.start, last, lio);
  }

  lemma CutWindow(r: Run, exposure: real)
    requires Orderly(r.state) && Batched(r) && Cuts(r.state, exposure)
    ensures SyncLivo(r.state, exposure).measures[0].imu
         == Between(r.onTime, Base(r.state), r.state.imageTimes[0] + exposure)
  {
    var last, lio := Base(r.state), r.state.imageTimes[0] + exposure;
    var batch := After(r.state.imus[..Reached(r.state.imus, lio)], last);
    SyncHandsOut(r.state, exposure);
    assert batch == Between(r.onTime, last, lio) by {
      QueueWindow(r, lio);
    }
  }

  lemma QueueWindow(r: Run, lio: real)
    requires Orderly(r.state) && Batched(r) && Ready(r.state) && Base(r.state) <= lio
    ensures After(r.state.imus[..Reached(r.state.imus, lio)], Base(r.state)) == Between(r.onTime, Base(r.state), lio)
  {
    BaseBatched(r);
    Window(r.onTime, FirstBase(r), r.batches, r.state.imus, Base(r.state), lio);
  }

  lemma StepBatched(r: Run, e: Event, exposure: real)
    requires Orderly(r.state) && Batched(r) && Allowed(r.state, e)
    ensures Batched(Step(r, e, exposure))
  {
    match e
    case Scan(_, _) =>
    case Inertial(imu) => ImuStepBatched(r, imu);
    case Frame(_, _) =>
    case Sync =>
      if Cuts(r.state, exposure) {
        CutBatched(r, exposure);
      } else {
        IdleBatched(r, exposure);
      }
  }

  lemma {:induction false} RunBatched(events: seq<Event>, exposure: real, r: Run)
    requires Reaches(events, exposure, r)
    ensures Orderly(r.state) && Batched(r)
    decreases |events|
  {
    PointsConserved(events, exposure, r);
    if events != [] {
      var n := |events| - 1;
      var q: Run :| Reaches(events[..n], exposure, q) && Safe(q.state) && Paired(q.state)
        && Allowed(q.state, events[n]) && r == Step(q, events[n], exposure);
      RunBatched(events[..n], exposure, q);
      StepBatched(q, events[n], exposure);
    }
  }

  /** Over any run, the batches together are exactly the samples that were on time, after the
      first base and not after the last update, each once and in order. */
  lemma BatchesExact(events: seq<Event>, exposure: real, r: Run)
    requires Reaches(events, exposure, r) && r.state.lastUpdate >= 0.0
    ensures r.batches == Between(r.onTime, r.start, r.state.lastUpdate)
  {
    RunBatched(events, exposure, r);
    var s := r.state;
    UptoConcat(r.batches, After(s.imus, s.lastUpdate), s.lastUpdate);
    AfterAll(r.batches, s.lastUpdate);
    AfterWithin(s.imus, s.lastUpdate, s.lastUpdate);
    AfterAll(After(s.imus, s.lastUpdate), s.lastUpdate);
  }

  /** Each update's batch is the on-time samples since the previous update, up to this one. */
  lemma BatchIsWindow(events: seq<Event>, exposure: real, r: Run)
    requires Reaches(events, exposure, r) && Safe(r.state) && Cuts(r.state, exposure)
    ensures SyncLivo(r.state, exposure).measures[0].imu
         == Between(r.onTime, Base(r.state), r.state.imageTimes[0] + exposure)
  {
    RunBatched(events, exposure, r);
    CutWindow(r, exposure);
  }

  // ----- no sample is late when stamps strictly increase -----

  /** The last update is not after the newest sample, or there has been none. */
  ghost predicate Caught(r: Run) {
    && (r.samples != [] ==> r.samples[|r.samples| - 1].stamp == r.state.lastImu)
    && (r.samples == [] ==> r.state.imus == [] && r.updates == [])
    && (r.state.lastUpdate >= 0.0 ==>
          && (r.updates == [] ==> r.state.lastUpdate == r.start)
          && (r.updates != [] ==> r.start < r.state.lastUpdate <= r.state.lastImu))
  }

  lemma StepCaught(r: Run, e: Event, exposure: real)
    requires Orderly(r.state) && Batched(r) && Caught(r) && Allowed(r.state, e)
    ensures Caught(Step(r, e, exposure))
  {
    match e
    case Scan(_, _) =>
    case Inertial(_) =>
    case Frame(_, _) =>
    case Sync =>
      if Cuts(r.state, exposure) {
        CutFields(r, exposure);
        BaseBatched(r);
      }
  }

  lemma {:induction false} RunCaught(events: seq<Event>, exposure: real, r: Run)
    requires Reaches(events, exposure, r)
    ensures Orderly(r.state) && Batched(r) && Caught(r)
    decreases |events|
  {
    RunBatched(events, exposure, r);
    if events != [] {
      var n := |events| - 1;
      var q: Run :| Reaches(events[..n], exposure, q) && Safe(q.state) && Paired(q.state)
        && Allowed(q.state, events[n]) && r == Step(q, events[n], exposure);
      RunCaught(events[..n], exposure, q);
      StepCaught(q, events[n], exposure);
    }
  }

  /** After an update, an accepted sample is late exactly when its stamp is that update's time:
      the queue has already been emptied up to and including it. */
  lemma LateIff(events: seq<Event>, exposure: real, r: Run, imu: Imu)
    requires Reaches(events, exposure, r) && r.updates != [] && r.state.lastUpdate >= 0.0
    requires ImuAccepted(r.state, imu.stamp)
    ensures IsLate(r.state, imu) <==> imu.stamp == r.state.lastUpdate
  {
    RunCaught(events, exposure, r);
  }

  /** The samples on time after the first base are all of those after it. */
  ghost predicate NoneLate(r: Run) {
    r.state.lastUpdate >= 0.0 ==> After(r.onTime, r.start) == After(r.samples, r.start)
  }

  lemma {:induction false} OnTimeWhenStrict(events: seq<Event>, exposure: real, r: Run)
    requires Reaches(events, exposure, r) && StrictlySorted(r.samples)
    ensures NoneLate(r)
    decreases |events|
  {
    if events != [] {
      var n := |events| - 1;
      var q: Run :| Reaches(events[..n], exposure, q) && Safe(q.state) && Paired(q.state)
        && Allowed(q.state, events[n]) && r == Step(q, events[n], exposure);
      SamplesGrow(q, events[n], exposure);
      OnTimeWhenStrict(events[..n], exposure, q);
      RunCaught(events[..n], exposure, q);
      NextOnTime(q, events[n], exposure);
    }
  }

  lemma SamplesGrow(q: Run, e: Event, exposure: real)
    requires Safe(q.state) && Paired(q.state)
    ensures StrictlySorted(Step(q, e, exposure).samples) ==> StrictlySorted(q.samples)
  {
    assert q.samples <= Step(q, e, exposure).samples;
  }

  lemma NextOnTime(q: Run, e: Event, exposure: real)
    requires Orderly(q.state) && Batched(q) && Caught(q) && Allowed(q.state, e)
    requires StrictlySorted(Step(q, e, exposure).samples) && NoneLate(q)
    ensures NoneLate(Step(q, e, exposure))
  {
    match e
    case Scan(_, _) =>
    case Inertial(imu) => NextSampleOnTime(q, imu);
    case Frame(_, _) =>
    case Sync =>
      if Cuts(q.state, exposure) {
        CutFields(q, exposure);
        BaseBatched(q);
      }
  }

  lemma NextSampleOnTime(q: Run, imu: Imu)
    requires Batched(q) && Caught(q) && Allowed(q.state, Inertial(imu))
    requires StrictlySorted(ImuStep(q, imu).samples) && NoneLate(q)
    ensures NoneLate(ImuStep(q, imu))
  {
    var r := ImuStep(q, imu);
    if ImuAccepted(q.state, imu.stamp) {
      AfterConcat(q.onTime, [imu], q.start);
      AfterConcat(q.samples, [imu], q.start);
      assert r.samples[|r.samples| - 1] == imu;
      if q.samples != [] {
        assert r.samples[|q.samples| - 1] == q.samples[|q.samples| - 1];
      }
      if IsLate(q.state, imu) {
        assert imu.stamp <= q.start;
        AfterAll([imu], q.start);
      }
    }
  }

  /** With strictly increasing accepted stamps no sample after the first base is lost or
      repeated. */
  lemma NoSampleLost(events: seq<Event>, exposure: real, r: Run)
    requires Reaches(events, exposure, r) && r.state.lastUpdate >= 0.0 && StrictlySorted(r.samples)
    ensures r.batches == Between(r.samples, r.start, r.state.lastUpdate)
  {
    BatchesExact(events, exposure, r);
    OnTimeWhenStrict(events, exposure, r);
  }

  /** And each update's batch is all the accepted samples since the previous update, up to this one. */
  lemma BatchIsSampleWindow(events: seq<Event>, exposure: real, r: Run)
    requires Reaches(events, exposure, r) && Safe(r.state) && Cuts(r.state, exposure) && StrictlySorted(r.samples)
    ensures SyncLivo(r.state, exposure).measures[0].imu
         == Between(r.samples, Base(r.state), r.state.imageTimes[0] + exposure)
  {
    BatchIsWindow(events, exposure, r);
    RunBatched(events, exposure, r);
    OnTimeWhenStrict(events, exposure, r);
    if r.state.lastUpdate >= 0.0 {
      AfterAfter(r.onTime, r.start, Base(r.state));
      AfterAfter(r.samples, r.start, Base(r.state));
    }
  }

  /** A repeated stamp at an update's boundary is accepted but comes too late. */
  lemma RepeatedStampLost()
    ensures Reaches(FIRST_EVENTS + [Sync], 0.0, Step(AtRest(2), Sync, 0.0))
    ensures var r := Step(AtRest(2), Sync, 0.0);
            && r.samples == [Imu(0, 1.05)] && r.updates == [1.05]
            && ImuAccepted(r.state, 1.05) && IsLate(r.state, Imu(1, 1.05))
  {
    FirstUpdate();
    FirstStepsReached();
    assert (FIRST_EVENTS + [Sync])[..3] == FIRST_EVENTS;
    Continues(FIRST_EVENTS + [Sync], 3, AtRest(2), 0.0);
  }

  const FIRST_EVENTS := [Scan(1.0, [Point(0, 100.0)]), Inertial(Imu(0, 1.05)), Frame(0, 1.05)]

  lemma FirstStepsReached()
    ensures Reaches(FIRST_EVENTS, 0.0, AtRest(2))
  {
    FirstSteps();
    assert Reaches([], 0.0, START);
    Extends(FIRST_EVENTS, 0, START, 0.0);
    Extends(FIRST_EVENTS, 1, AtRest(0), 0.0);
    Extends(FIRST_EVENTS, 2, AtRest(1), 0.0);
    assert FIRST_EVENTS[..3] == FIRST_EVENTS;
  }

  /** One scan at 1.0 s; then a sample at 1.05 s too; then also an image at 1.05 s. */
  function AtRest(n: nat): (r: Run)
    ensures Safe(r.state) && Paired(r.state)
  {
    var scan, imu := [Point(0, 100.0)], Imu(0, 1.05);
    var r := START.(arrived := [Cloud(1.0, scan)],
                    state := INITIAL.(scans := [scan], headers := [1.0], lastLidar := 1.0));
    if n == 0 then r
    else
      var q := r.(samples := [imu], onTime := [imu], state := r.state.(imus := [imu], lastImu := 1.05));
      if n == 1 then q else q.(state := q.state.(images := [0], imageTimes := [1.05], lastImage := 1.05))
  }

  lemma FirstSteps()
    ensures Step(START, Scan(1.0, [Point(0, 100.0)]), 0.0) == AtRest(0)
    ensures Step(AtRest(0), Inertial(Imu(0, 1.05)), 0.0) == AtRest(1)
    ensures Step(AtRest(1), Frame(0, 1.05), 0.0) == AtRest(2)
  {
  }

  lemma FirstUpdate()
    ensures var r := Step(AtRest(2), Sync, 0.0);
            && r.updates == [1.05] && r.samples == [Imu(0, 1.05)]
            && r.state.lastUpdate == 1.05 && r.state.lastImu == 1.05 && r.state.lastLidar == 1.0
  {
    assert Cuts(AtRest(2).state, 0.0);
  }

  /** One more event of a run. */
  lemma Continues(events: seq<Event>, n: nat, q: Run, exposure: real)
    requires |events| == n + 1 && Reaches(events[..n], exposure, q)
    requires Safe(q.state) && Paired(q.state) && Allowed(q.state, events[n])
    ensures Reaches(events, exposure, Step(q, events[n], exposure))
  {
  }

  lemma Extends(events: seq<Event>, n: nat, q: Run, exposure: real)
    requires n < |events| && Reaches(events[..n], exposure, q)
    requires Safe(q.state) && Paired(q.state) && Allowed(q.state, events[n])
    ensures Reaches(events[..n + 1], exposure, Step(q, events[n], exposure))
  {
    var longer := events[..n + 1];
    assert longer[..n] == events[..n] && longer[n] == events[n];
    Continues(longer, n, q, exposure);
  }

  // ----- update times -----

  ghost predicate Growing(times: seq<real>) {
    forall i, j | 0 <= i < j < |times| :: times[i] + 0.00001 <= times[j]
  }

  ghost predicate UpdatesFrom(r: Run) {
    && Growing(r.updates)
    && (r.updates != [] ==>
          r.updates[0] >= r.start + 0.00001 && r.updates[|r.updates| - 1] == r.state.lastUpdate >= 0.0)
  }

  /** Over any run the update times start at least 10 microseconds after the first base and
      grow by at least as much. */
  lemma {:induction false} UpdatesGrow(events: seq<Event>, exposure: real, r: Run)
    requires Reaches(events, exposure, r)
    ensures UpdatesFrom(r)
    decreases |events|
  {
    if events != [] {
      var n := |events| - 1;
      var q: Run :| Reaches(events[..n], exposure, q) && Safe(q.state) && Paired(q.state)
        && Allowed(q.state, events[n]) && r == Step(q, events[n], exposure);
      UpdatesGrow(events[..n], exposure, q);
      RunCaught(events[..n], exposure, q);
      NextUpdateGrows(q, events[n], exposure);
    }
  }

  lemma NextUpdateGrows(q: Run, e: Event, exposure: real)
    requires Orderly(q.state) && Batched(q) && Caught(q) && Allowed(q.state, e) && UpdatesFrom(q)
    ensures UpdatesFrom(Step(q, e, exposure))
  {
    match e
    case Scan(_, _) =>
    case Inertial(_) =>
    case Frame(_, _) =>
    case Sync =>
      if Cuts(q.state, exposure) {
        CutGrows(q, exposure);
      }
  }

  lemma CutGrows(q: Run, exposure: real)
    requires Orderly(q.state) && Cuts(q.state, exposure) && UpdatesFrom(q)
    requires q.updates == [] && q.state.lastUpdate >= 0.0 ==> q.state.lastUpdate == q.start
    ensures UpdatesFrom(SyncStep(q, exposure))
  {
    CutFields(q, exposure);
    GrowingSnoc(q.updates, q.state.imageTimes[0] + exposure);
    assert Base(q.state) >= 0.0 by {
      assert q.state.headers[0] >= 0.0;
    }
  }

  lemma GrowingSnoc(times: seq<real>, t: real)
    requires Growing(times) && (times != [] ==> times[|times| - 1] + 0.00001 <= t)
    ensures Growing(times + [t])
  {
  }
}
