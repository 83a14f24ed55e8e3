/** Where SyncPackages keeps its promises and where it does not: points carried past an image,
    a package without undistortion, and the lidar-only mode. */
module SensorModes {
  import opened Common
  import opened SensorSync
  import opened SensorBatches

  // ----- delivered points and the image they belong before -----

  /** Every point is before time `t`. */
  ghost predicate AllBefore(base: real, points: seq<Point>, t: real) {
    forall i | 0 <= i < |points| :: base + points[i].curvature / 1000.0 < t
  }

  lemma BeforeConcat(base: real, a: seq<Point>, b: seq<Point>, t: real)
    ensures AllBefore(base, a + b, t) <==> AllBefore(base, a, t) && AllBefore(base, b, t)
  {
    var s := a + b;
    assert forall i | 0 <= i < |b| :: s[|a| + i] == b[i];
    assert forall i | 0 <= i < |a| :: s[i] == a[i];
  }

  lemma {:induction false} EarlyPointsBefore(scan: seq<Point>, header: real, last: real, lio: real)
    ensures AllBefore(last, EarlyPoints(scan, header, last, lio), lio)
  {
    if scan != [] {
      EarlyPointsBefore(scan[1..], header, last, lio);
      var head := if IsEarly(scan[0], header, lio) then [Rebased(scan[0], header, last)] else [];
      BeforeConcat(last, head, EarlyPoints(scan[1..], header, last, lio), lio);
    }
  }

  lemma {:induction false} EarlyBefore(scans: seq<seq<Point>>, headers: seq<real>, last: real, lio: real)
    requires |scans| <= |headers|
    ensures AllBefore(last, Early(scans, headers, last, lio), lio)
  {
    if scans != [] && headers[0] <= lio {
      EarlyBefore(scans[1..], headers[1..], last, lio);
      EarlyPointsBefore(scans[0], headers[0], last, lio);
      BeforeConcat(last, EarlyPoints(scans[0], headers[0], last, lio), Early(scans[1..], headers[1..], last, lio), lio);
    }
  }

  /** A delivered cloud lies before its image exactly when no carried point is at or past it:
      carried points are delivered with the next image whatever their time. */
  lemma DeliveredBeforeIff(s: State, exposure: real)
    requires Safe(s) && Cuts(s, exposure)
    ensures var lio := s.imageTimes[0] + exposure;
            AllBefore(Base(s), SyncLivo(s, exposure).cur, lio) <==> AllBefore(Base(s), s.next, lio)
  {
    var lio := s.imageTimes[0] + exposure;
    EarlyBefore(s.scans, s.headers, Base(s), lio);
    BeforeConcat(Base(s), s.next, Early(s.scans, s.headers, Base(s), lio), lio);
  }

  const LONG_SCAN := [Point(0, 10.0), Point(1, 90.0)]

  /** A scan from 1.01 s to 1.09 s with images at 1.02 s and 1.05 s inside it; the first is cut, and
      the next scan arrives. */
  const SPANNING := [Scan(1.0, LONG_SCAN), Inertial(Imu(0, 1.01)), Frame(0, 1.02), Frame(1, 1.05),
                     Inertial(Imu(1, 1.1)), Sync, Scan(1.1, [Point(2, 90.0)])]

  /** The run after each of the events up to the first image's package. */
  const SCANNED := START.(arrived := [Cloud(1.0, LONG_SCAN)],
                          state := INITIAL.(scans := [LONG_SCAN], headers := [1.0], lastLidar := 1.0))
  const SAMPLED := SCANNED.(samples := [Imu(0, 1.01)], onTime := [Imu(0, 1.01)],
                            state := SCANNED.state.(imus := [Imu(0, 1.01)], lastImu := 1.01))
  const SEEN := SAMPLED.(state := SAMPLED.state.(images := [0], imageTimes := [1.02], lastImage := 1.02))
  const SEEN_TWICE := SEEN.(state := SEEN.state.(images := [0, 1], imageTimes := [1.02, 1.05], lastImage := 1.05))
  const COVERED := SEEN_TWICE.(samples := [Imu(0, 1.01), Imu(1, 1.1)], onTime := [Imu(0, 1.01), Imu(1, 1.1)],
                               state := SEEN_TWICE.state.(imus := [Imu(0, 1.01), Imu(1, 1.1)], lastImu := 1.1))

  lemma SpanningSteps()
    ensures Step(START, SPANNING[0], 0.0) == SCANNED && Step(SCANNED, SPANNING[1], 0.0) == SAMPLED
    ensures Step(SAMPLED, SPANNING[2], 0.0) == SEEN && Step(SEEN, SPANNING[3], 0.0) == SEEN_TWICE
    ensures Step(SEEN_TWICE, SPANNING[4], 0.0) == COVERED
  {
  }

  lemma CoveredReached()
    ensures Reaches(SPANNING[..5], 0.0, COVERED)
  {
    SpanningSteps();
    assert Reaches([], 0.0, START);
    Extends(SPANNING, 0, START, 0.0);
    Extends(SPANNING, 1, SCANNED, 0.0);
    Extends(SPANNING, 2, SAMPLED, 0.0);
    Extends(SPANNING, 3, SEEN, 0.0);
    Extends(SPANNING, 4, SEEN_TWICE, 0.0);
  }

  lemma LongScanCut()
    ensures Late([LONG_SCAN], [1.0], 1.02) == [Point(1, 70.0)] && Begun([LONG_SCAN], [1.0], 1.02) == 1
    ensures Reached([Imu(0, 1.01), Imu(1, 1.1)], 1.02) == 1
  {
    assert LONG_SCAN[1..] == [Point(1, 90.0)] && [Point(1, 90.0)][1..] == [];
    assert LatePoints(LONG_SCAN[1..], 1.0, 1.02) == [Point(1, 70.0)];
    assert LatePoints(LONG_SCAN, 1.0, 1.02) == [Point(1, 70.0)];
    assert [LONG_SCAN][1..] == [];
    assert [Imu(0, 1.01), Imu(1, 1.1)][1..] == [Imu(1, 1.1)];
  }

  lemma CoveredCuts()
    ensures Orderly(COVERED.state) && Cuts(COVERED.state, 0.0)
    ensures var t := Step(COVERED, Sync, 0.0).state;
            && Safe(t) && Paired(t) && t.scans == [] && t.headers == [] && t.next == [Point(1, 70.0)]
            && t.imus == [Imu(1, 1.1)] && t.lastUpdate == 1.02 && t.lastLidar == 1.0
            && t.imageTimes == [1.05] && t.images == [1]
  {
    LongScanCut();
    assert Cuts(COVERED.state, 0.0);
  }

  /** The run after all of the events. */
  function Spanned(): (r: Run)
    ensures Safe(r.state) && Paired(r.state)
  {
    CoveredCuts();
    var q := Step(COVERED, Sync, 0.0);
    LidarKeepsSafe(q.state, 1.1, [Point(2, 90.0)]);
    Step(q, SPANNING[6], 0.0)
  }

  lemma SpannedReached()
    ensures Reaches(SPANNING, 0.0, Spanned())
  {
    CoveredReached();
    CoveredCuts();
    Extends(SPANNING, 5, COVERED, 0.0);
    NextScanReached(Step(COVERED, Sync, 0.0));
  }

  lemma NextScanReached(q: Run)
    requires Reaches(SPANNING[..6], 0.0, q) && Safe(q.state) && Paired(q.state) && q.state.lastLidar == 1.0
    ensures Reaches(SPANNING, 0.0, Step(q, SPANNING[6], 0.0))
  {
    Extends(SPANNING, 6, q, 0.0);
    assert SPANNING[..7] == SPANNING;
  }

  lemma SpannedCuts()
    ensures var s := Spanned().state;
            Cuts(s, 0.0) && s.imageTimes == [1.05] && Base(s) == 1.02 && s.next == [Point(1, 70.0)]
  {
    CoveredCuts();
    NextScanCuts(Step(COVERED, Sync, 0.0).state);
  }

  lemma NextScanCuts(t: State)
    requires Safe(t) && t.scans == [] && t.headers == [] && t.next == [Point(1, 70.0)] && t.lastUpdate == 1.02
    requires t.imus == [Imu(1, 1.1)] && t.imageTimes == [1.05] && t.images == [1] && t.lastLidar == 1.0
    ensures var s := Lidar(t, 1.1, [Point(2, 90.0)]);
            && Safe(s) && Cuts(s, 0.0) && s.imageTimes == [1.05] && s.lastUpdate == Base(s) == 1.02
            && s.next == [Point(1, 70.0)]
  {
    assert Lidar(t, 1.1, [Point(2, 90.0)]).scans == [[Point(2, 90.0)]];
  }

  /** It happens: the scan spans two images, and its last point, at 1.09 s, is delivered with the
      second, at 1.05 s. */
  lemma ScanSpanningTwoImages()
    ensures Reaches(SPANNING, 0.0, Spanned()) && Cuts(Spanned().state, 0.0)
    ensures !AllBefore(Base(Spanned().state), SyncLivo(Spanned().state, 0.0).cur, Spanned().state.imageTimes[0])
  {
    SpannedReached();
    SpannedCuts();
    DeliveredBeforeIff(Spanned().state, 0.0);
    assert Spanned().state.next[0].curvature == 70.0;
  }

  /** A package that is not undistorted (as while the IMU initialises) leaves the update time
      behind, and every carried point is then read as earlier than it was, by the package's
      whole length. */
  lemma SkippedUndistortion(s: State, exposure: real, i: nat)
    requires Safe(s) && Cuts(s, exposure)
    ensures var t, lio := SyncLivo(s, exposure), s.imageTimes[0] + exposure;
            i < |t.next| ==> StampOf(t.lastUpdate, t.next[i]).time == StampOf(lio, t.next[i]).time - (lio - Base(s))
                             < StampOf(lio, t.next[i]).time
  {
  }

  // ----- lidar only -----

  /** A pushed scan is still the front of its queue. */
  ghost predicate Pushed(s: State) {
    s.lidarPushed ==>
      && s.scans != [] && |s.scans| <= |s.headers| && |s.scans[0]| > 1
      && s.cur == s.lidar == s.scans[0]
      && s.frameEnd == s.headers[0] + s.scans[0][|s.scans[0]| - 1].curvature / 1000.0
  }

  /** One lidar-only package is one whole scan, its points untouched, with all queued samples up
      to its last point. */
  lemma LioDeliversFront(s: State)
    requires Safe(s) && Pushed(s) && SyncLio(s).1
    ensures var t := SyncLio(s).0;
            && Pushed(t)
            && s.scans != [] && t.cur == s.scans[0] && t.scans == s.scans[1..] && t.headers == s.headers[1..]
            && |t.measures| == |s.measures| + 1 && t.measures[..|s.measures|] == s.measures
            && var m := t.measures[|t.measures| - 1];
               && m.imu + t.imus == s.imus && m.image == None
               && m.lioTime == s.headers[0] + s.scans[0][|s.scans[0]| - 1].curvature / 1000.0 <= s.lastImu
               && (forall i | 0 <= i < |m.imu| :: m.imu[i].stamp <= m.lioTime)
               && (t.imus != [] ==> t.imus[0].stamp > m.lioTime)
  {
  }

  /** A call without a package takes nothing from the queues and keeps a pushed scan the front. */
  lemma LioWaits(s: State)
    requires Safe(s) && Pushed(s) && !SyncLio(s).1
    ensures var t := SyncLio(s).0;
            Pushed(t) && t.scans == s.scans && t.headers == s.headers && t.imus == s.imus && t.measures == s.measures
  {
  }

  /** When a package is ready: the front scan has at least two points and the IMU has passed
      its end. */
  lemma LioReadyIff(s: State)
    requires Safe(s) && Pushed(s)
    ensures SyncLio(s).1 <==>
              && s.scans != [] && s.imus != [] && |s.scans[0]| > 1
              && s.headers[0] + s.scans[0][|s.scans[0]| - 1].curvature / 1000.0 <= s.lastImu
  {
  }

  /** The lidar-only loop: callbacks and packages, each package followed by undistortion. */
  function LioStep(s: State, e: Event): State
    requires Safe(s)
  {
    match e
    case Scan(header, points) => Lidar(s, header, points)
    case Inertial(imu) => Sample(s, imu)
    case Frame(id, time) => Image(s, id, time)
    case Sync => if SyncLio(s).1 then Undistorted(SyncLio(s).0) else SyncLio(s).0
  }

  lemma LioStepSafe(s: State, e: Event)
    requires Safe(s)
    ensures Safe(LioStep(s, e))
  {
    match e
    case Scan(header, points) => LidarKeepsSafe(s, header, points);
    case Inertial(_) =>
    case Frame(_, _) =>
    case Sync => SyncLioKeepsSafe(s);
  }

  function LioRun(s: State, events: seq<Event>): (t: State)
    requires Safe(s)
    ensures Safe(t)
    decreases |events|
  {
    if events == [] then s
    else
      LioStepSafe(s, events[0]);
      LioRun(LioStep(s, events[0]), events[1..])
  }

  /** The front scan has a single point, and no package has been finished yet. */
  ghost predicate Stuck(s: State) {
    !s.lidarPushed && s.scans != [] && |s.scans[0]| <= 1 && !s.firstFrameFinished && s.measures == []
  }

  /** Header times never go back below the newest one. */
  ghost predicate NeverBack(events: seq<Event>, last: real)
    decreases |events|
  {
    events == [] ||
    match events[0]
    case Scan(header, _) => last <= header && NeverBack(events[1..], header)
    case Inertial(_) => NeverBack(events[1..], last)
    case Frame(_, _) => NeverBack(events[1..], last)
    case Sync => NeverBack(events[1..], last)
  }

  /** Once a one-point scan is at the front before the first package, the lidar-only mode never
      delivers anything again, whatever arrives, unless time goes back. */
  lemma {:induction false} StuckForever(s: State, events: seq<Event>, last: real)
    requires Safe(s) && Stuck(s) && s.lastLidar <= last && NeverBack(events, last)
    ensures Stuck(LioRun(s, events))
    decreases |events|
  {
    if events != [] {
      var next := if events[0].Scan? then events[0].header else last;
      LioStepSafe(s, events[0]);
      assert Stuck(LioStep(s, events[0]));
      StuckForever(LioStep(s, events[0]), events[1..], next);
    }
  }

  /** It happens, whenever the first scan of all has a single point. */
  lemma StuckFromStart(header: real, p: Point, events: seq<Event>)
    requires NeverBack(events, header)
    ensures Safe(Lidar(INITIAL, header, [p])) && Stuck(LioRun(Lidar(INITIAL, header, [p]), events))
  {
    LidarKeepsSafe(INITIAL, header, [p]);
    StuckForever(Lidar(INITIAL, header, [p]), events, header);
  }
}
