/** Delivered clouds and the backward sweep, which was made for points in order of time: scans that
    follow each other are delivered in order, scans that overlap need not be. */
module DeliveredOrder {
  import opened Common
  import opened SensorSync
  import opened SensorBatches
  import Motion = ImuProcessing

  /** The absolute times of points. */
  function TimesOf(base: real, points: seq<Point>): (ts: seq<real>)
    ensures |ts| == |points|
  {
    if points == [] then [] else [base + points[0].curvature / 1000.0] + TimesOf(base, points[1..])
  }

  function TimesAll(clouds: seq<Cloud>): seq<real> {
    if clouds == [] then [] else TimesOf(clouds[0].base, clouds[0].points) + TimesAll(clouds[1..])
  }

  ghost predicate AtMost(x: real, ts: seq<real>) {
    forall t | t in ts :: x <= t
  }

  ghost predicate Rise(ts: seq<real>) {
    ts == [] || (AtMost(ts[0], ts[1..]) && Rise(ts[1..]))
  }

  ghost predicate Precede(a: seq<real>, b: seq<real>) {
    forall x | x in a :: AtMost(x, b)
  }

  lemma AtMostConcat(x: real, a: seq<real>, b: seq<real>)
    ensures AtMost(x, a + b) <==> AtMost(x, a) && AtMost(x, b)
  {
    assert forall t :: t in a + b <==> t in a || t in b;
  }

  lemma PrecedeCons(x: real, a: seq<real>, b: seq<real>)
    ensures Precede([x] + a, b) <==> AtMost(x, b) && Precede(a, b)
  {
    assert forall t :: t in [x] + a <==> t == x || t in a;
  }

  lemma PrecedeConcat(a: seq<real>, b: seq<real>, c: seq<real>)
    ensures Precede(a, b + c) <==> Precede(a, b) && Precede(a, c)
  {
    forall x | x in a ensures AtMost(x, b + c) <==> AtMost(x, b) && AtMost(x, c) { AtMostConcat(x, b, c); }
  }

  ghost predicate Within(a: seq<real>, b: seq<real>) {
    forall t | t in a :: t in b
  }

  lemma PrecedeWithin(a: seq<real>, b: seq<real>, c: seq<real>, d: seq<real>)
    requires Precede(a, b) && Within(c, a) && Within(d, b)
    ensures Precede(c, d)
  {
  }

  lemma {:induction false} RiseConcat(a: seq<real>, b: seq<real>)
    ensures Rise(a + b) <==> Rise(a) && Rise(b) && Precede(a, b)
  {
    if a == [] {
      assert a + b == b;
    } else {
      RiseConcat(a[1..], b);
      assert (a + b)[1..] == a[1..] + b && a == [a[0]] + a[1..];
      AtMostConcat(a[0], a[1..], b);
      PrecedeCons(a[0], a[1..], b);
    }
  }

  /** Leaving out the middle. */
  lemma RiseDrop(a: seq<real>, b: seq<real>, c: seq<real>)
    requires Rise(a + (b + c))
    ensures Rise(a + c) && Within(a + c, a + (b + c))
  {
    RiseConcat(a, b + c);
    PrecedeConcat(a, b, c);
    RiseConcat(b, c);
    RiseConcat(a, c);
  }

  lemma {:induction false} RiseAt(ts: seq<real>, i: nat, j: nat)
    requires Rise(ts) && i < j < |ts|
    ensures ts[i] <= ts[j]
  {
    if i == 0 {
      assert ts[1..][j - 1] in ts[1..];
    } else {
      RiseAt(ts[1..], i - 1, j - 1);
    }
  }

  /** The times before `t`, in order. */
  function Below(ts: seq<real>, t: real): seq<real> {
    if ts == [] then [] else (if ts[0] < t then [ts[0]] else []) + Below(ts[1..], t)
  }

  /** The others. */
  function From(ts: seq<real>, t: real): seq<real> {
    if ts == [] then [] else (if ts[0] < t then [] else [ts[0]]) + From(ts[1..], t)
  }

  lemma {:induction false} PartMembers(ts: seq<real>, t: real)
    ensures Within(Below(ts, t), ts) && Within(From(ts, t), ts)
  {
    if ts != [] { PartMembers(ts[1..], t); }
  }

  lemma {:induction false} PartsRise(ts: seq<real>, t: real)
    requires Rise(ts)
    ensures Rise(Below(ts, t)) && Rise(From(ts, t))
  {
    if ts != [] {
      var head := if ts[0] < t then [ts[0]] else [];
      PartsRise(ts[1..], t);
      PartMembers(ts[1..], t);
      RiseConcat([ts[0]], Below(ts[1..], t));
      RiseConcat([ts[0]], From(ts[1..], t));
      assert [] + Below(ts[1..], t) == Below(ts[1..], t) && [] + From(ts[1..], t) == From(ts[1..], t);
    }
  }

  lemma {:induction false} PartsConcat(a: seq<real>, b: seq<real>, t: real)
    ensures Below(a + b, t) == Below(a, t) + Below(b, t) && From(a + b, t) == From(a, t) + From(b, t)
  {
    if a == [] {
      assert a + b == b;
    } else {
      PartsConcat(a[1..], b, t);
      assert (a + b)[1..] == a[1..] + b;
      HeadConcat(if a[0] < t then [a[0]] else [], Below(a[1..], t), Below(b, t));
      HeadConcat(if a[0] < t then [] else [a[0]], From(a[1..], t), From(b, t));
    }
  }

  lemma {:induction false} TimesConcat(base: real, a: seq<Point>, b: seq<Point>)
    ensures TimesOf(base, a + b) == TimesOf(base, a) + TimesOf(base, b)
  {
    if a == [] {
      assert a + b == b;
    } else {
      TimesConcat(base, a[1..], b);
      assert (a + b)[1..] == a[1..] + b;
      HeadConcat([base + a[0].curvature / 1000.0], TimesOf(base, a[1..]), TimesOf(base, b));
    }
  }

  lemma {:induction false} TimesAllConcat(a: seq<Cloud>, b: seq<Cloud>)
    ensures TimesAll(a + b) == TimesAll(a) + TimesAll(b)
  {
    if a == [] {
      assert a + b == b;
    } else {
      TimesAllConcat(a[1..], b);
      assert (a + b)[1..] == a[1..] + b;
      HeadConcat(TimesOf(a[0].base, a[0].points), TimesAll(a[1..]), TimesAll(b));
    }
  }

  lemma TimesOne(c: Cloud)
    ensures TimesAll([c]) == TimesOf(c.base, c.points)
  {
    assert [c][1..] == [];
  }

  /** Cutting a scan cuts its times. */
  lemma {:induction false} ScanTimes(scan: seq<Point>, header: real, last: real, lio: real)
    ensures TimesOf(last, EarlyPoints(scan, header, last, lio)) == Below(TimesOf(header, scan), lio)
    ensures TimesOf(lio, LatePoints(scan, header, lio)) == From(TimesOf(header, scan), lio)
  {
    if scan != [] {
      var ts := TimesOf(header, scan);
      ScanTimes(scan[1..], header, last, lio);
      assert ts[1..] == TimesOf(header, scan[1..]);
      PointTime(scan[0], header, last, lio);
      var early, late := EarlyPoints(scan[1..], header, last, lio), LatePoints(scan[1..], header, lio);
      TimesConcat(last, if IsEarly(scan[0], header, lio) then [Rebased(scan[0], header, last)] else [], early);
      TimesConcat(lio, if IsEarly(scan[0], header, lio) then [] else [Rebased(scan[0], header, lio)], late);
      assert [Rebased(scan[0], header, last)][1..] == [] && [Rebased(scan[0], header, lio)][1..] == [];
    }
  }

  lemma PointTime(p: Point, header: real, last: real, lio: real)
    ensures IsEarly(p, header, lio) <==> header + p.curvature / 1000.0 < lio
    ensures last + Rebased(p, header, last).curvature / 1000.0 == header + p.curvature / 1000.0
    ensures lio + Rebased(p, header, lio).curvature / 1000.0 == header + p.curvature / 1000.0
  {
  }

  /** One more scan in front of what has been cut. */
  lemma CutFront(scan: seq<Point>, header: real, last: real, lio: real,
                 early: seq<Point>, late: seq<Point>, ts: seq<real>)
    requires TimesOf(last, early) == Below(ts, lio) && TimesOf(lio, late) == From(ts, lio)
    ensures TimesOf(last, EarlyPoints(scan, header, last, lio) + early) == Below(TimesOf(header, scan) + ts, lio)
    ensures TimesOf(lio, LatePoints(scan, header, lio) + late) == From(TimesOf(header, scan) + ts, lio)
  {
    ScanTimes(scan, header, last, lio);
    TimesConcat(last, EarlyPoints(scan, header, last, lio), early);
    TimesConcat(lio, LatePoints(scan, header, lio), late);
    PartsConcat(TimesOf(header, scan), ts, lio);
  }

  /** The times of the scans begun by the image. */
  function BegunTimes(scans: seq<seq<Point>>, headers: seq<real>, lio: real): seq<real>
    requires |scans| <= |headers|
  {
    TimesAll(Clouds(scans, headers)[..Begun(scans, headers, lio)])
  }

  lemma BegunFront(scans: seq<seq<Point>>, headers: seq<real>, lio: real)
    requires |scans| <= |headers| && scans != [] && headers[0] <= lio
    ensures BegunTimes(scans, headers, lio) == TimesOf(headers[0], scans[0]) + BegunTimes(scans[1..], headers[1..], lio)
  {
    var n := Begun(scans, headers, lio);
    assert Clouds(scans, headers)[..n][1..] == Clouds(scans[1..], headers[1..])[..n - 1];
  }

  /** Cutting the queue. */
  lemma {:induction false} QueueTimes(scans: seq<seq<Point>>, headers: seq<real>, last: real, lio: real)
    requires |scans| <= |headers|
    ensures TimesOf(last, Early(scans, headers, last, lio)) == Below(BegunTimes(scans, headers, lio), lio)
    ensures TimesOf(lio, Late(scans, headers, lio)) == From(BegunTimes(scans, headers, lio), lio)
  {
    if scans != [] && headers[0] <= lio {
      QueueTimes(scans[1..], headers[1..], last, lio);
      BegunFront(scans, headers, lio);
      CutFront(scans[0], headers[0], last, lio, Early(scans[1..], headers[1..], last, lio),
               Late(scans[1..], headers[1..], lio), BegunTimes(scans[1..], headers[1..], lio));
    }
  }

  // ----- over a run -----

  /** The times of what is carried over and of what is queued, in that order. */
  function Waiting(s: State): seq<real>
    requires Safe(s)
  {
    TimesOf(s.lastUpdate, s.next) + TimesAll(Clouds(s.scans, s.headers))
  }

  ghost predicate AllRise(clouds: seq<Cloud>) {
    forall c | c in clouds :: Rise(TimesOf(c.base, c.points))
  }

  /** What waits is in order and has arrived; what has been delivered was in order. */
  ghost predicate InOrder(r: Run) {
    Safe(r.state) && Rise(Waiting(r.state)) && Within(Waiting(r.state), TimesAll(r.arrived)) && AllRise(r.delivered)
  }

  lemma ScanInOrder(r: Run, header: real, points: seq<Point>)
    requires Orderly(r.state) && InOrder(r) && Allowed(r.state, Scan(header, points))
    requires Rise(TimesAll(ScanStep(r, header, points).arrived))
    ensures InOrder(ScanStep(r, header, points))
  {
    var s, q := r.state, ScanStep(r, header, points);
    LidarKeepsSafe(s, header, points);
    TimesAllConcat(r.arrived, [Cloud(header, points)]);
    TimesOne(Cloud(header, points));
    RiseConcat(TimesAll(r.arrived), TimesOf(header, points));
    PrecedeWithin(TimesAll(r.arrived), TimesOf(header, points), Waiting(s), TimesOf(header, points));
    LidarInOrder(s, header, points);
  }

  /** The queue with a new scan, before it is trimmed. */
  function Pushed(s: State, header: real, points: seq<Point>): State {
    s.(scans := s.scans + [points], headers := s.headers + [header])
  }

  /** Its clouds: those that are trimmed and those that stay. */
  function Trimmed(s: State): seq<Cloud>
    requires |s.scans| <= |s.headers|
  {
    Clouds(s.scans, s.headers)[..Excess(s)]
  }

  function Staying(s: State): seq<Cloud>
    requires |s.scans| <= |s.headers|
  {
    Clouds(s.scans, s.headers)[Excess(s)..]
  }

  lemma QueuedTimes(s: State, header: real, points: seq<Point>)
    requires Safe(s) && Paired(s)
    ensures var p := Pushed(s, header, points);
            TimesAll(Clouds(s.scans, s.headers)) + TimesOf(header, points)
            == TimesAll(Trimmed(p)) + TimesAll(Staying(p))
  {
    var p := Pushed(s, header, points);
    TimesAllConcat(Clouds(s.scans, s.headers), [Cloud(header, points)]);
    TimesOne(Cloud(header, points));
    CloudsPushed(s.scans, s.headers, header, points);
    TimesAllConcat(Trimmed(p), Staying(p));
    CloudsCut(p.scans, p.headers, Excess(p));
  }

  lemma LidarWaiting(s: State, header: real, points: seq<Point>)
    requires Safe(s) && Paired(s) && s.lastLidar <= header && points != []
    ensures Safe(Lidar(s, header, points))
    ensures Waiting(Lidar(s, header, points))
         == TimesOf(s.lastUpdate, s.next) + TimesAll(Staying(Pushed(s, header, points)))
  {
    LidarKeepsSafe(s, header, points);
    var p, t := Pushed(s, header, points), Lidar(s, header, points);
    assert Excess(p) == Excess(p.(lastLidar := header));
    assert Staying(p) == Clouds(t.scans, t.headers);
  }

  lemma LidarInOrder(s: State, header: real, points: seq<Point>)
    requires Safe(s) && Paired(s) && s.lastLidar <= header && Safe(Lidar(s, header, points))
    requires Rise(Waiting(s)) && Rise(TimesOf(header, points)) && Precede(Waiting(s), TimesOf(header, points))
    ensures Rise(Waiting(Lidar(s, header, points)))
    ensures Within(Waiting(Lidar(s, header, points)), Waiting(s) + TimesOf(header, points))
  {
    if points != [] {
      var p := Pushed(s, header, points);
      LidarWaiting(s, header, points);
      QueuedTimes(s, header, points);
      QueueRises(TimesOf(s.lastUpdate, s.next), TimesAll(Clouds(s.scans, s.headers)), TimesOf(header, points),
                 TimesAll(Trimmed(p)), TimesAll(Staying(p)));
    }
  }

  lemma QueueRises(carried: seq<real>, queue: seq<real>, ts: seq<real>, cut: seq<real>, kept: seq<real>)
    requires Rise(carried + queue) && Rise(ts) && Precede(carried + queue, ts) && queue + ts == cut + kept
    ensures Rise(carried + kept) && Within(carried + kept, carried + queue + ts)
  {
    RiseConcat(carried + queue, ts);
    HeadConcat(carried, queue, ts);
    RiseDrop(carried, cut, kept);
  }

  /** What a cut does to the times: `carried`, then those of the scans begun, then the rest. */
  lemma CutRises(carried: seq<real>, begun: seq<real>, rest: seq<real>, lio: real)
    requires Rise(carried + (begun + rest))
    ensures Rise(carried + Below(begun, lio)) && Rise(From(begun, lio) + rest)
    ensures Within(From(begun, lio) + rest, carried + (begun + rest))
  {
    RiseConcat(carried, begun + rest);
    PrecedeConcat(carried, begun, rest);
    RiseConcat(begun, rest);
    PartsRise(begun, lio);
    PartMembers(begun, lio);
    PrecedeWithin(carried, begun, carried, Below(begun, lio));
    RiseConcat(carried, Below(begun, lio));
    PrecedeWithin(begun, rest, From(begun, lio), rest);
    RiseConcat(From(begun, lio), rest);
  }

  lemma CutWaiting(s: State, t: State, last: real, lio: real)
    requires Safe(s) && Safe(t) && CutAt(s, t, last, lio) && (s.lastUpdate == last || s.next == [])
    ensures var carried, begun := TimesOf(s.lastUpdate, s.next), BegunTimes(s.scans, s.headers, lio);
            var rest := TimesAll(Clouds(t.scans, t.headers));
            && TimesOf(last, t.cur) == carried + Below(begun, lio)
            && Waiting(t) == From(begun, lio) + rest && Waiting(s) == carried + (begun + rest)
  {
    var n, clouds := Begun(s.scans, s.headers, lio), Clouds(s.scans, s.headers);
    QueueTimes(s.scans, s.headers, last, lio);
    TimesConcat(last, s.next, Early(s.scans, s.headers, last, lio));
    TimesAllConcat(clouds[..n], clouds[n..]);
    CloudsCut(s.scans, s.headers, n);
  }

  lemma CutInOrder(s: State, t: State, last: real, lio: real)
    requires Safe(s) && Safe(t) && CutAt(s, t, last, lio) && (s.lastUpdate == last || s.next == []) && Rise(Waiting(s))
    ensures Rise(TimesOf(last, t.cur)) && Rise(Waiting(t)) && Within(Waiting(t), Waiting(s))
  {
    CutWaiting(s, t, last, lio);
    CutRises(TimesOf(s.lastUpdate, s.next), BegunTimes(s.scans, s.headers, lio),
             TimesAll(Clouds(t.scans, t.headers)), lio);
  }

  lemma SyncInOrder(r: Run, exposure: real)
    requires Orderly(r.state) && InOrder(r)
    ensures InOrder(SyncStep(r, exposure))
  {
    if Cuts(r.state, exposure) {
      CutDelivers(r, exposure);
    } else {
      IdleInOrder(r.state, exposure);
    }
  }

  lemma CutDelivers(r: Run, exposure: real)
    requires Orderly(r.state) && InOrder(r) && Cuts(r.state, exposure)
    ensures InOrder(SyncStep(r, exposure))
  {
    var s, t := r.state, Undistorted(SyncLivo(r.state, exposure));
    SyncOrderly(s, exposure);
    SyncCutsAt(s, exposure);
    CutInOrder(s, t, Base(s), s.imageTimes[0] + exposure);
    DeliveredRises(r.delivered, Cloud(Base(s), t.cur));
    WithinWithin(Waiting(t), Waiting(s), TimesAll(r.arrived));
    DeliveredFields(r, exposure);
  }

  lemma DeliveredRises(delivered: seq<Cloud>, c: Cloud)
    requires AllRise(delivered) && Rise(TimesOf(c.base, c.points))
    ensures AllRise(delivered + [c])
  {
  }

  lemma WithinWithin(a: seq<real>, b: seq<real>, c: seq<real>)
    requires Within(a, b) && Within(b, c)
    ensures Within(a, c)
  {
  }

  lemma IdleInOrder(s: State, exposure: real)
    requires Orderly(s) && !Cuts(s, exposure)
    ensures Safe(SyncLivo(s, exposure)) && Waiting(SyncLivo(s, exposure)) == Waiting(s)
  {
    SyncOrderly(s, exposure);
    var t := SyncLivo(s, exposure);
    assert t.scans == s.scans && t.headers == s.headers && t.next == s.next;
    // before the first update nothing is carried over
    assert TimesOf(t.lastUpdate, s.next) == TimesOf(s.lastUpdate, s.next);
  }

  lemma StepInOrder(r: Run, e: Event, exposure: real)
    requires Orderly(r.state) && InOrder(r) && Allowed(r.state, e) && Rise(TimesAll(Step(r, e, exposure).arrived))
    ensures InOrder(Step(r, e, exposure))
  {
    match e
    case Scan(header, points) => ScanInOrder(r, header, points);
    case Inertial(_) =>
    case Frame(_, _) =>
    case Sync => SyncInOrder(r, exposure);
  }

  lemma ArrivedBefore(r: Run, e: Event, exposure: real)
    requires Safe(r.state) && Paired(r.state) && Rise(TimesAll(Step(r, e, exposure).arrived))
    ensures Rise(TimesAll(r.arrived))
  {
    if e.Scan? {
      TimesAllConcat(r.arrived, [Cloud(e.header, e.points)]);
      RiseConcat(TimesAll(r.arrived), TimesAll([Cloud(e.header, e.points)]));
    }
  }

  lemma {:induction false} RunInOrder(events: seq<Event>, exposure: real, r: Run)
    requires Reaches(events, exposure, r) && Rise(TimesAll(r.arrived))
    ensures InOrder(r)
    decreases |events|
  {
    PointsConserved(events, exposure, r);
    if events != [] {
      var n := |events| - 1;
      var q: Run :| Reaches(events[..n], exposure, q) && Safe(q.state) && Paired(q.state)
        && Allowed(q.state, events[n]) && r == Step(q, events[n], exposure);
      ArrivedBefore(q, events[n], exposure);
      RunInOrder(events[..n], exposure, q);
      PointsConserved(events[..n], exposure, q);
      StepInOrder(q, events[n], exposure);
    }
  }

  /** The cloud as the sweep sees it carries the same curvatures. */
  ghost predicate SameCurvatures(points: seq<Point>, cloud: seq<Motion.Point>) {
    |cloud| == |points| && forall i | 0 <= i < |points| :: cloud[i].curvature == points[i].curvature
  }

  lemma {:induction false} TimesAt(base: real, points: seq<Point>, i: nat)
    requires i < |points|
    ensures TimesOf(base, points)[i] == base + points[i].curvature / 1000.0
  {
    if i > 0 { TimesAt(base, points[1..], i - 1); }
  }

  /** In every run whose scans, taken together, arrive in order of time, every delivered cloud is
      in order of time: the sweep then moves each point from its own pose, as SweepMovesOnce says. */
  lemma DeliveredSorted(events: seq<Event>, exposure: real, r: Run, c: Cloud, cloud: seq<Motion.Point>)
    requires Reaches(events, exposure, r) && Rise(TimesAll(r.arrived))
    requires c in r.delivered && SameCurvatures(c.points, cloud)
    ensures Motion.SortedByTime(cloud)
  {
    RunInOrder(events, exposure, r);
    forall i, j | 0 <= i < j < |cloud| ensures Motion.NoLater(cloud, i, j) {
      RiseAt(TimesOf(c.base, c.points), i, j);
      TimesAt(c.base, c.points, i);
      TimesAt(c.base, c.points, j);
    }
  }

  // ----- scans that overlap -----

  const FIRST_SCAN := [Point(0, 10.0), Point(1, 90.0)]
  const SECOND_SCAN := [Point(2, 10.0), Point(3, 60.0)]

  /** A scan from 1.01 s to 1.09 s, one from 1.06 s to 1.11 s, samples and an image at 1.1 s. */
  const OVERLAP := [Scan(1.0, FIRST_SCAN), Scan(1.05, SECOND_SCAN), Inertial(Imu(0, 1.07)), Inertial(Imu(1, 1.1)),
                    Frame(0, 1.1)]

  /** The run after each of these events. */
  const SCANNED := START.(arrived := [Cloud(1.0, FIRST_SCAN)],
                          state := INITIAL.(scans := [FIRST_SCAN], headers := [1.0], lastLidar := 1.0))
  const SCANNED_TWICE := START.(
    arrived := [Cloud(1.0, FIRST_SCAN), Cloud(1.05, SECOND_SCAN)],
    state := INITIAL.(scans := [FIRST_SCAN, SECOND_SCAN], headers := [1.0, 1.05], lastLidar := 1.05))
  const SAMPLED := SCANNED_TWICE.(
    samples := [Imu(0, 1.07)], onTime := [Imu(0, 1.07)],
    state := SCANNED_TWICE.state.(imus := [Imu(0, 1.07)], lastImu := 1.07))
  const SAMPLED_TWICE := SAMPLED.(
    samples := [Imu(0, 1.07), Imu(1, 1.1)], onTime := [Imu(0, 1.07), Imu(1, 1.1)],
    state := SAMPLED.state.(imus := [Imu(0, 1.07), Imu(1, 1.1)], lastImu := 1.1))
  const SEEN := SAMPLED_TWICE.(
    state := SAMPLED_TWICE.state.(images := [0], imageTimes := [1.1], lastImage := 1.1))

  lemma OverlapSteps()
    ensures Step(START, OVERLAP[0], 0.0) == SCANNED && Step(SCANNED, OVERLAP[1], 0.0) == SCANNED_TWICE
    ensures Step(SCANNED_TWICE, OVERLAP[2], 0.0) == SAMPLED && Step(SAMPLED, OVERLAP[3], 0.0) == SAMPLED_TWICE
    ensures Step(SAMPLED_TWICE, OVERLAP[4], 0.0) == SEEN
  {
  }

  lemma OverlapScanned()
    ensures Reaches(OVERLAP[..2], 0.0, SCANNED_TWICE)
  {
    OverlapSteps();
    assert Reaches([], 0.0, START);
    Extends(OVERLAP, 0, START, 0.0);
    Extends(OVERLAP, 1, SCANNED, 0.0);
  }

  lemma OverlapSampled()
    ensures Reaches(OVERLAP[..4], 0.0, SAMPLED_TWICE)
  {
    OverlapScanned();
    OverlapSteps();
    Extends(OVERLAP, 2, SCANNED_TWICE, 0.0);
    SampledTwice();
  }

  lemma SampledTwice()
    requires Reaches(OVERLAP[..3], 0.0, SAMPLED)
    ensures Reaches(OVERLAP[..4], 0.0, SAMPLED_TWICE)
  {
    OverlapSteps();
    Extends(OVERLAP, 3, SAMPLED, 0.0);
  }

  lemma OverlapReached()
    ensures Reaches(OVERLAP, 0.0, SEEN)
  {
    OverlapSampled();
    OverlapSteps();
    Extends(OVERLAP, 4, SAMPLED_TWICE, 0.0);
    assert OVERLAP[..5] == OVERLAP;
  }

  const DELIVERED := [Point(0, 10.0), Point(1, 90.0), Point(2, 60.0)]

  lemma OverlapEarly()
    ensures Early([FIRST_SCAN, SECOND_SCAN], [1.0, 1.05], 1.0, 1.1) == DELIVERED
  {
    var scans, headers := [FIRST_SCAN, SECOND_SCAN], [1.0, 1.05];
    assert FIRST_SCAN[1..] == [Point(1, 90.0)] && SECOND_SCAN[1..] == [Point(3, 60.0)];
    assert EarlyPoints(FIRST_SCAN[1..], 1.0, 1.0, 1.1) == [Point(1, 90.0)];
    assert EarlyPoints(FIRST_SCAN, 1.0, 1.0, 1.1) == FIRST_SCAN;
    assert EarlyPoints(SECOND_SCAN[1..], 1.05, 1.0, 1.1) == [];
    assert EarlyPoints(SECOND_SCAN, 1.05, 1.0, 1.1) == [Point(2, 60.0)];
    assert scans[1..] == [SECOND_SCAN] && headers[1..] == [1.05];
    assert Early(scans[1..], headers[1..], 1.0, 1.1) == [Point(2, 60.0)];
  }

  lemma OverlapCuts()
    ensures Orderly(SEEN.state) && Cuts(SEEN.state, 0.0)
    ensures Base(SEEN.state) == 1.0 && SEEN.state.imageTimes[0] + 0.0 == 1.1
    ensures SEEN.state.scans == [FIRST_SCAN, SECOND_SCAN] && SEEN.state.headers == [1.0, 1.05] && SEEN.state.next == []
    ensures SEEN.delivered == []
  {
  }

  lemma OverlapDelivers(r: Run)
    requires Orderly(r.state) && Cuts(r.state, 0.0) && Base(r.state) == 1.0 && r.state.imageTimes[0] + 0.0 == 1.1
    requires r.state.scans == [FIRST_SCAN, SECOND_SCAN] && r.state.headers == [1.0, 1.05]
    requires r.state.next == [] && r.delivered == []
    ensures Step(r, Sync, 0.0).delivered == [Cloud(1.0, DELIVERED)]
  {
    OverlapEarly();
    SyncCutsAt(r.state, 0.0);
    DeliveredFields(r, 0.0);
    assert [] + DELIVERED == DELIVERED && [] + [Cloud(1.0, DELIVERED)] == [Cloud(1.0, DELIVERED)];
  }

  /** It happens: of the two scans a cloud is delivered out of order, and with a pose at 1.07 s its
      second point, at 1.09 s, is not moved from that. */
  lemma OverlappingScans(cloud: seq<Motion.Point>, poses: seq<Motion.Pose>)
    requires SameCurvatures(DELIVERED, cloud) && |poses| == 3
    requires poses[0].offset == 0.0 && poses[1].offset == 0.07 && poses[2].offset == 0.1
    ensures Reaches(OVERLAP + [Sync], 0.0, Step(SEEN, Sync, 0.0))
    ensures Step(SEEN, Sync, 0.0).delivered == [Cloud(1.0, DELIVERED)]
    ensures !Motion.SortedByTime(cloud)
    ensures !forall g, end :: Motion.Sweep(g, end, poses, cloud)[1] == Motion.MovedOnce(g, end, poses, 2, cloud[1])
  {
    OverlapReached();
    assert (OVERLAP + [Sync])[..5] == OVERLAP;
    Continues(OVERLAP + [Sync], 5, SEEN, 0.0);
    OverlapCuts();
    OverlapDelivers(SEEN);
    OverlapMoved(cloud, poses);
  }

  lemma OverlapMoved(cloud: seq<Motion.Point>, poses: seq<Motion.Pose>)
    requires SameCurvatures(DELIVERED, cloud) && |poses| == 3
    requires poses[0].offset == 0.0 && poses[1].offset == 0.07 && poses[2].offset == 0.1
    ensures !Motion.SortedByTime(cloud)
    ensures !forall g, end :: Motion.Sweep(g, end, poses, cloud)[1] == Motion.MovedOnce(g, end, poses, 2, cloud[1])
  {
    assert !Motion.NoLater(cloud, 1, 2);
    Motion.OwnPoseIff(poses, cloud, 1);
    assert Motion.Least(cloud, 2, 2) == 0.06;
    assert Motion.LatestBefore(poses, 1, 0.06) == 0;
  }
}
