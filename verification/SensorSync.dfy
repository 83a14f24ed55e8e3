/** Sensor synchronisation: the three queues, the callbacks that fill them and SyncPackages,
    which cuts the scans at image times. A pure account of each step, and what whole runs keep. */
module SensorSync {
  import opened Common

  /** A lidar point; `curvature` is its time in milliseconds after some base time. */
  datatype Point = Point(id: nat, curvature: real)

  datatype Imu = Imu(id: nat, stamp: real)

  /** MeasureGroup: what one update gets besides the points. */
  datatype MeasureGroup = MeasureGroup(lioTime: real, imu: seq<Imu>, image: Option<nat>)

  /** The fields of LIVMapper and of its LidarMeasureGroup that take part. */
  datatype State = State(
    scans: seq<seq<Point>>, headers: seq<real>,
    images: seq<nat>, imageTimes: seq<real>,
    imus: seq<Imu>,
    lastLidar: real, lastImu: real, lastImage: real,
    lidarPushed: bool, firstFrameFinished: bool,
    lastUpdate: real, frameEnd: real,
    lidar: seq<Point>, cur: seq<Point>, next: seq<Point>, measures: seq<MeasureGroup>)

  const MAX_LIDAR_BUFFER_SIZE := 100

  const INITIAL := State([], [], [], [], [], -1.0, -1.0, -1.0, false, false, -1.0, 0.0, [], [], [], [])

  /** What keeps SyncPackages within its queues: no queued scan is empty, every queued scan
      has a header time, and images and their times are paired. */
  predicate Safe(s: State) {
    && |s.scans| <= |s.headers| && |s.images| == |s.imageTimes|
    && forall i | 0 <= i < |s.scans| :: s.scans[i] != []
  }

  predicate Paired(s: State) {
    |s.scans| == |s.headers|
  }

  // ----- the callbacks -----

  /** LivoxCbk: a loop back in time clears the scans but not their header times. */
  function Lidar(s: State, header: real, points: seq<Point>): State
    requires |s.scans| <= |s.headers|
  {
    var cleared := if header < s.lastLidar then s.(scans := []) else s;
    if points == [] then cleared
    else Trim(cleared.(scans := cleared.scans + [points], headers := cleared.headers + [header], lastLidar := header))
  }

  /** How many of the oldest scans a full queue gives up. */
  function Excess(s: State): nat {
    if s.firstFrameFinished && |s.scans| > MAX_LIDAR_BUFFER_SIZE then |s.scans| - MAX_LIDAR_BUFFER_SIZE else 0
  }

  function Trim(s: State): State
    requires |s.scans| <= |s.headers|
  {
    s.(scans := s.scans[Excess(s)..], headers := s.headers[Excess(s)..])
  }

  predicate ImuAccepted(s: State, stamp: real) {
    s.lastLidar >= 0.0 && !(s.lastImu > 0.0 && stamp < s.lastImu)
  }

  /** ImuCbk, with the stamp already shifted by the configured offset. */
  function Sample(s: State, imu: Imu): State {
    if ImuAccepted(s, imu.stamp) then s.(imus := s.imus + [imu], lastImu := imu.stamp) else s
  }

  predicate ImageAccepted(s: State, time: real) {
    !(-0.001 < time - s.lastImage < 0.001) && s.lastLidar >= 0.0 && time - s.lastImage >= 0.02
  }

  /** ImageCbk; an image less than 20 ms after the last one is skipped, an earlier one too. */
  function Image(s: State, id: nat, time: real): State {
    if ImageAccepted(s, time) then
      s.(images := s.images + [id], imageTimes := s.imageTimes + [time], lastImage := time)
    else s
  }

  // ----- SyncPackages -----

  /** How many samples at the front are not after `t`. */
  function Reached(imus: seq<Imu>, t: real): (k: nat)
    ensures k <= |imus| && (forall i | 0 <= i < k :: imus[i].stamp <= t) && (k < |imus| ==> imus[k].stamp > t)
  {
    if imus == [] || imus[0].stamp > t then 0 else 1 + Reached(imus[1..], t)
  }

  /** How many scans at the front begin no later than `t`. */
  function Begun(scans: seq<seq<Point>>, headers: seq<real>, t: real): (k: nat)
    requires |scans| <= |headers|
    ensures k <= |scans|
  {
    if scans == [] || headers[0] > t then 0 else 1 + Begun(scans[1..], headers[1..], t)
  }

  lemma {:induction false} BegunNoLater(scans: seq<seq<Point>>, headers: seq<real>, t: real)
    requires |scans| <= |headers|
    ensures var k := Begun(scans, headers, t);
            (forall i | 0 <= i < k :: headers[i] <= t) && (k < |scans| ==> headers[k] > t)
  {
    if scans != [] && headers[0] <= t {
      BegunNoLater(scans[1..], headers[1..], t);
      assert forall i | 1 <= i < |headers| :: headers[i] == headers[1..][i - 1];
    }
  }

  /** The samples after `t`, in order. */
  function After(imus: seq<Imu>, t: real): seq<Imu> {
    if imus == [] then []
    else (if imus[0].stamp > t then [imus[0]] else []) + After(imus[1..], t)
  }

  /** A scan's point goes to the current cloud when it is before the image. */
  predicate IsEarly(p: Point, header: real, lio: real) {
    p.curvature < (lio - header) * 1000.0
  }

  function Rebased(p: Point, header: real, base: real): Point {
    p.(curvature := p.curvature + (header - base) * 1000.0)
  }

  function EarlyPoints(scan: seq<Point>, header: real, last: real, lio: real): seq<Point> {
    if scan == [] then []
    else (if IsEarly(scan[0], header, lio) then [Rebased(scan[0], header, last)] else [])
         + EarlyPoints(scan[1..], header, last, lio)
  }

  function LatePoints(scan: seq<Point>, header: real, lio: real): seq<Point> {
    if scan == [] then []
    else (if IsEarly(scan[0], header, lio) then [] else [Rebased(scan[0], header, lio)])
         + LatePoints(scan[1..], header, lio)
  }

  /** The early points of all scans begun by the image. */
  function Early(scans: seq<seq<Point>>, headers: seq<real>, last: real, lio: real): seq<Point>
    requires |scans| <= |headers|
  {
    if scans == [] || headers[0] > lio then []
    else EarlyPoints(scans[0], headers[0], last, lio) + Early(scans[1..], headers[1..], last, lio)
  }

  function Late(scans: seq<seq<Point>>, headers: seq<real>, lio: real): seq<Point>
    requires |scans| <= |headers|
  {
    if scans == [] || headers[0] > lio then []
    else LatePoints(scans[0], headers[0], lio) + Late(scans[1..], headers[1..], lio)
  }

  /** The update time in force: the first header time until there has been an update. */
  function Base(s: State): real
    requires s.headers != []
  {
    if s.lastUpdate < 0.0 then s.headers[0] else s.lastUpdate
  }

  /** The time of the newest queued point. */
  function LidarNewest(s: State): real
    requires Safe(s) && s.scans != []
  {
    var scan := s.scans[|s.scans| - 1];
    s.headers[|s.headers| - 1] + scan[|scan| - 1].curvature / 1000.0
  }

  predicate Ready(s: State) {
    s.scans != [] && s.images != [] && s.imus != []
  }

  /** SyncPackages in LIVO mode returns true: the image is neither stale nor ahead of the
      lidar or the IMU. */
  predicate Cuts(s: State, exposure: real)
    requires Safe(s)
  {
    && Ready(s)
    && var capture := s.imageTimes[0] + exposure;
    && capture >= Base(s) + 0.00001
    && capture <= LidarNewest(s) && capture <= s.imus[|s.imus| - 1].stamp
  }

  predicate Stale(s: State, exposure: real)
    requires Safe(s) && Ready(s)
  {
    s.imageTimes[0] + exposure < Base(s) + 0.00001
  }

  /** SyncPackages, LIVO mode. */
  function SyncLivo(s: State, exposure: real): State
    requires Safe(s)
  {
    if Cuts(s, exposure) then Cut(s.(lastUpdate := Base(s)), s.imageTimes[0] + exposure)
    else if !Ready(s) then s
    else if !Stale(s, exposure) then s.(lastUpdate := Base(s))
    else s.(lastUpdate := Base(s), images := s.images[1..], imageTimes := s.imageTimes[1..])
  }

  function Cut(s: State, lio: real): State
    requires |s.scans| <= |s.headers| && 0 < |s.images| <= |s.imageTimes|
  {
    var k, n := Reached(s.imus, lio), Begun(s.scans, s.headers, lio);
    s.(
    imus := s.imus[k..], scans := s.scans[n..], headers := s.headers[n..],
    images := s.images[1..], imageTimes := s.imageTimes[1..],
    cur := s.next + Early(s.scans, s.headers, s.lastUpdate, lio),
    next := Late(s.scans, s.headers, lio),
    measures := [MeasureGroup(lio, After(s.imus[..k], s.lastUpdate), Some(s.images[0]))])
  }

  /** The state after UndistortPcl: the update time is the frame's end. */
  function Undistorted(s: State): State
    requires s.measures != []
  {
    s.(lastUpdate := s.measures[|s.measures| - 1].lioTime, firstFrameFinished := true)
  }

  /** SyncPackages, ONLY_LIO mode. */
  function SyncLio(s: State): (r: (State, bool))
    requires Safe(s)
  {
    if s.scans == [] || s.imus == [] then (s, false)
    else
      var t := s.(lastUpdate := Base(s));
      if !s.lidarPushed && |s.scans[0]| <= 1 then (t.(lidar := s.scans[0]), false)
      else
        var u := if s.lidarPushed then t
                 else t.(lidar := s.scans[0], cur := s.scans[0], lidarPushed := true,
                         frameEnd := s.headers[0] + s.scans[0][|s.scans[0]| - 1].curvature / 1000.0);
        if u.lastImu < u.frameEnd then (u, false)
        else
          var k := Reached(u.imus, u.frameEnd);
          (u.(imus := u.imus[k..], scans := u.scans[1..], headers := u.headers[1..], lidarPushed := false,
              measures := u.measures + [MeasureGroup(u.frameEnd, u.imus[..k], None)]), true)
  }

  // ----- the callbacks keep the queues safe -----

  lemma LidarKeepsSafe(s: State, header: real, points: seq<Point>)
    requires Safe(s)
    ensures Safe(Lidar(s, header, points))
  {
  }

  /** A new scan is the newest queued, behind as many of the older ones as a full queue keeps;
      after the first frame there are never more than 100. */
  lemma LidarKeepsNewest(s: State, header: real, points: seq<Point>)
    requires Safe(s) && s.lastLidar <= header && points != []
    ensures var t, all := Lidar(s, header, points), s.scans + [points];
            && t.scans == all[|all| - |t.scans|..] && t.scans != [] && t.scans[|t.scans| - 1] == points
            && t.headers != [] && t.headers[|t.headers| - 1] == header
            && (if s.firstFrameFinished && |all| > MAX_LIDAR_BUFFER_SIZE then |t.scans| == MAX_LIDAR_BUFFER_SIZE
                else t.scans == all)
  {
    var all := s.scans + [points];
    assert all[0..] == all;
  }

  lemma SyncLivoKeepsSafe(s: State, exposure: real)
    requires Safe(s)
    ensures Safe(SyncLivo(s, exposure))
    ensures Paired(s) ==> Paired(SyncLivo(s, exposure))
  {
  }

  lemma SyncLioKeepsSafe(s: State)
    requires Safe(s)
    ensures Safe(SyncLio(s).0)
    ensures Paired(s) ==> Paired(SyncLio(s).0)
  {
  }

  /** The loop-back branch clears one of two paired queues: scans and header times stay paired
      exactly when it is not taken or there was nothing to clear. */
  lemma LidarPairedIff(s: State, header: real, points: seq<Point>)
    requires Safe(s) && Paired(s)
    ensures Paired(Lidar(s, header, points)) <==> header >= s.lastLidar || s.scans == []
  {
  }

  // ----- points -----

  /** A point's identity and absolute time. */
  datatype Stamp = Stamp(id: nat, time: real)

  function StampOf(base: real, p: Point): Stamp {
    Stamp(p.id, base + p.curvature / 1000.0)
  }

  /** Points with the time their curvatures count from. */
  datatype Cloud = Cloud(base: real, points: seq<Point>)

  /** How often the identity and absolute time `p` occurs. */
  function Count(base: real, points: seq<Point>, p: Stamp): nat {
    if points == [] then 0
    else (if StampOf(base, points[0]) == p then 1 else 0) + Count(base, points[1..], p)
  }

  function CountAll(clouds: seq<Cloud>, p: Stamp): nat {
    if clouds == [] then 0 else Count(clouds[0].base, clouds[0].points, p) + CountAll(clouds[1..], p)
  }

  /** The queued scans with their header times. */
  function Clouds(scans: seq<seq<Point>>, headers: seq<real>): (clouds: seq<Cloud>)
    requires |scans| <= |headers|
    ensures |clouds| == |scans|
  {
    seq(|scans|, i requires 0 <= i < |scans| => Cloud(headers[i], scans[i]))
  }

  /** Clouds of the queues cut at `n`, and of the queues with one scan pushed. */
  lemma CloudsCut(scans: seq<seq<Point>>, headers: seq<real>, n: nat)
    requires |scans| <= |headers| && n <= |scans|
    ensures Clouds(scans, headers)[n..] == Clouds(scans[n..], headers[n..])
    ensures Clouds(scans, headers) == Clouds(scans, headers)[..n] + Clouds(scans, headers)[n..]
  {
  }

  lemma CloudsPushed(scans: seq<seq<Point>>, headers: seq<real>, header: real, points: seq<Point>)
    requires |scans| == |headers|
    ensures Clouds(scans + [points], headers + [header]) == Clouds(scans, headers) + [Cloud(header, points)]
  {
  }

  lemma {:induction false} CountConcat(base: real, a: seq<Point>, b: seq<Point>, p: Stamp)
    ensures Count(base, a + b, p) == Count(base, a, p) + Count(base, b, p)
  {
    if a == [] {
      assert a + b == b;
    } else {
      assert (a + b)[1..] == a[1..] + b;
      CountConcat(base, a[1..], b, p);
    }
  }

  lemma {:induction false} CountAllConcat(a: seq<Cloud>, b: seq<Cloud>, p: Stamp)
    ensures CountAll(a + b, p) == CountAll(a, p) + CountAll(b, p)
  {
    if a == [] {
      assert a + b == b;
    } else {
      assert (a + b)[1..] == a[1..] + b;
      CountAllConcat(a[1..], b, p);
    }
  }

  lemma RebasedKeepsTime(p: Point, header: real, base: real)
    ensures StampOf(base, Rebased(p, header, base)) == StampOf(header, p)
  {
  }

  /** Cutting one scan: each point goes to exactly one side, at its original time. */
  lemma {:induction false} ScanCut(scan: seq<Point>, header: real, last: real, lio: real, p: Stamp)
    ensures Count(last, EarlyPoints(scan, header, last, lio), p) + Count(lio, LatePoints(scan, header, lio), p)
         == Count(header, scan, p)
  {
    if scan != [] {
      ScanCut(scan[1..], header, last, lio, p);
      RebasedKeepsTime(scan[0], header, last);
      RebasedKeepsTime(scan[0], header, lio);
      var e, l := EarlyPoints(scan[1..], header, last, lio), LatePoints(scan[1..], header, lio);
      CountConcat(last, [Rebased(scan[0], header, last)], e, p);
      CountConcat(lio, [Rebased(scan[0], header, lio)], l, p);
      assert [] + e == e && [] + l == l;
    }
  }

  /** Cutting the queue. */
  lemma {:induction false} QueueCut(scans: seq<seq<Point>>, headers: seq<real>, last: real, lio: real, p: Stamp)
    requires |scans| <= |headers|
    ensures Count(last, Early(scans, headers, last, lio), p) + Count(lio, Late(scans, headers, lio), p)
         == CountAll(Clouds(scans, headers)[..Begun(scans, headers, lio)], p)
  {
    if scans != [] && headers[0] <= lio {
      QueueCut(scans[1..], headers[1..], last, lio, p);
      ScanCut(scans[0], headers[0], last, lio, p);
      CountConcat(last, EarlyPoints(scans[0], headers[0], last, lio), Early(scans[1..], headers[1..], last, lio), p);
      CountConcat(lio, LatePoints(scans[0], headers[0], lio), Late(scans[1..], headers[1..], lio), p);
      var n := Begun(scans, headers, lio);
      assert Clouds(scans, headers)[..n][1..] == Clouds(scans[1..], headers[1..])[..n - 1];
    }
  }

  /** Cutting at an image: what is delivered, carried and queued after is what was carried and
      queued before. */
  lemma CutConserves(next: seq<Point>, scans: seq<seq<Point>>, headers: seq<real>, last: real, lio: real, p: Stamp)
    requires |scans| <= |headers|
    ensures var n := Begun(scans, headers, lio);
            Count(last, next + Early(scans, headers, last, lio), p) + Count(lio, Late(scans, headers, lio), p)
              + CountAll(Clouds(scans[n..], headers[n..]), p)
            == Count(last, next, p) + CountAll(Clouds(scans, headers), p)
  {
    var n, queue := Begun(scans, headers, lio), Clouds(scans, headers);
    CountConcat(last, next, Early(scans, headers, last, lio), p);
    QueueCut(scans, headers, last, lio, p);
    CountAllConcat(queue[..n], queue[n..], p);
    assert queue[..n] + queue[n..] == queue && queue[n..] == Clouds(scans[n..], headers[n..]);
  }

  // ----- whole runs -----

  datatype Event =
    | Scan(header: real, points: seq<Point>)
    | Inertial(imu: Imu)
    | Frame(id: nat, time: real)
    | Sync  // SyncPackages and, when it returns true, the undistortion that follows

  /** A run so far: the state, and a record of what has passed through it. */
  datatype Run = Run(state: State,
    arrived: seq<Cloud>, trimmed: seq<Cloud>, delivered: seq<Cloud>,
    samples: seq<Imu>, onTime: seq<Imu>, batches: seq<Imu>,
    start: real, updates: seq<real>)

  const START := Run(INITIAL, [], [], [], [], [], [], -1.0, [])

  /** Header times never go back, and no stamp is negative: a negative update time is the
      program's own mark for "none yet". */
  predicate Allowed(s: State, e: Event) {
    match e
    case Scan(header, _) => 0.0 <= header && s.lastLidar <= header
    case Inertial(imu) => 0.0 <= imu.stamp
    case Frame(_, _) => true
    case Sync => true
  }

  function Step(r: Run, e: Event, exposure: real): Run
    requires Safe(r.state) && Paired(r.state)
  {
    match e
    case Scan(header, points) => ScanStep(r, header, points)
    case Inertial(imu) => ImuStep(r, imu)
    case Frame(id, time) => r.(state := Image(r.state, id, time))
    case Sync => SyncStep(r, exposure)
  }

  function ScanStep(r: Run, header: real, points: seq<Point>): Run
    requires Safe(r.state)
  {
    r.(state := Lidar(r.state, header, points),
    arrived := r.arrived + [Cloud(header, points)],
    trimmed := r.trimmed + Overflow(r.state, header, points))
  }

  /** The scans a full queue gives up for a new one. */
  function Overflow(s: State, header: real, points: seq<Point>): seq<Cloud>
    requires Safe(s)
  {
    if points == [] || header < s.lastLidar then []
    else
      var pushed := s.(scans := s.scans + [points], headers := s.headers + [header]);
      Clouds(pushed.scans, pushed.headers)[..Excess(pushed)]
  }

  /** A sample is late when it arrives after the update its stamp belongs before. */
  predicate IsLate(s: State, imu: Imu) {
    0.0 <= s.lastUpdate && imu.stamp <= s.lastUpdate
  }

  function ImuStep(r: Run, imu: Imu): Run {
    if !ImuAccepted(r.state, imu.stamp) then r
    else r.(state := Sample(r.state, imu), samples := r.samples + [imu],
            onTime := if IsLate(r.state, imu) then r.onTime else r.onTime + [imu])
  }

  function SyncStep(r: Run, exposure: real): Run
    requires Safe(r.state)
  {
    var s, t := r.state, SyncLivo(r.state, exposure);
    var q := r.(start := if Ready(s) && s.lastUpdate < 0.0 then Base(s) else r.start);
    if !Cuts(s, exposure) then q.(state := t)
    else q.(state := Undistorted(t),
            delivered := r.delivered + [Cloud(Base(s), t.cur)],
            batches := r.batches + t.measures[0].imu,
            updates := r.updates + [t.measures[0].lioTime])
  }

  /** What the accounting rests on: nothing is carried over before the first update. */
  ghost predicate Orderly(s: State) {
    && Safe(s) && Paired(s)
    && (s.lastUpdate < 0.0 ==> s.next == [])
    && forall i | 0 <= i < |s.headers| :: 0.0 <= s.headers[i]
  }

  /** Every point that has arrived, with its original time, is accounted for exactly as often:
      in a trimmed scan, in a delivered cloud, carried over, or still queued. */
  ghost predicate Conserved(r: Run)
    requires Safe(r.state)
  {
    forall p: Stamp :: CountAll(r.arrived, p) == CountAll(r.trimmed, p) + CountAll(r.delivered, p) + Held(r.state, p)
  }

  /** How often `p` is carried over or queued. */
  function Held(s: State, p: Stamp): nat
    requires Safe(s)
  {
    Count(s.lastUpdate, s.next, p) + CountAll(Clouds(s.scans, s.headers), p)
  }

  lemma LidarOrderly(s: State, header: real, points: seq<Point>)
    requires Orderly(s) && Allowed(s, Scan(header, points))
    ensures Orderly(Lidar(s, header, points))
  {
    LidarKeepsSafe(s, header, points);
    LidarPairedIff(s, header, points);
  }

  /** Queueing a scan: what is trimmed and what stays add up. */
  lemma ScanConserves(r: Run, header: real, points: seq<Point>)
    requires Orderly(r.state) && Conserved(r) && Allowed(r.state, Scan(header, points))
    ensures Safe(ScanStep(r, header, points).state) && Conserved(ScanStep(r, header, points))
  {
    var s, q := r.state, ScanStep(r, header, points);
    LidarKeepsSafe(s, header, points);
    var added := [Cloud(header, points)];
    forall p: Stamp
      ensures CountAll(q.arrived, p) == CountAll(q.trimmed, p) + CountAll(q.delivered, p) + Held(q.state, p)
    {
      CountAllConcat(r.arrived, added, p);
      CountAllConcat(r.trimmed, Overflow(s, header, points), p);
      LidarHeld(s, header, points, p);
      assert added[1..] == [];
    }
  }

  lemma LidarHeld(s: State, header: real, points: seq<Point>, p: Stamp)
    requires Safe(s) && Paired(s) && s.lastLidar <= header
    ensures Safe(Lidar(s, header, points))
    ensures CountAll(Overflow(s, header, points), p) + Held(Lidar(s, header, points), p)
         == Held(s, p) + Count(header, points, p)
  {
    LidarKeepsSafe(s, header, points);
    if points != [] {
      PushedCount(s.scans, s.headers, header, points, p);
      var scans, headers := s.scans + [points], s.headers + [header];
      var n, queue := Excess(s.(scans := scans, headers := headers)), Clouds(scans, headers);
      CountAllConcat(queue[..n], queue[n..], p);
      CloudsCut(scans, headers, n);
    }
  }

  lemma PushedCount(scans: seq<seq<Point>>, headers: seq<real>, header: real, points: seq<Point>, p: Stamp)
    requires |scans| == |headers|
    ensures CountAll(Clouds(scans + [points], headers + [header]), p)
         == CountAll(Clouds(scans, headers), p) + Count(header, points, p)
  {
    var added := [Cloud(header, points)];
    CountAllConcat(Clouds(scans, headers), added, p);
    CloudsPushed(scans, headers, header, points);
    assert added[1..] == [];
  }

  lemma SyncIdles(s: State, exposure: real)
    requires Safe(s) && !Ready(s)
    ensures SyncLivo(s, exposure) == s && !Cuts(s, exposure)
  {
  }

  lemma SyncWaits(s: State, exposure: real)
    requires Safe(s) && Ready(s) && !Stale(s, exposure) && !Cuts(s, exposure)
    ensures SyncLivo(s, exposure) == s.(lastUpdate := Base(s))
  {
  }

  lemma SyncDrops(s: State, exposure: real)
    requires Safe(s) && Ready(s) && Stale(s, exposure)
    ensures SyncLivo(s, exposure) == s.(lastUpdate := Base(s), images := s.images[1..], imageTimes := s.imageTimes[1..])
    ensures !Cuts(s, exposure)
  {
  }

  /** The IMU samples of the package a cut makes. */
  function BatchOf(s: State, exposure: real): seq<Imu>
    requires Safe(s) && Ready(s)
  {
    After(s.imus[..Reached(s.imus, s.imageTimes[0] + exposure)], Base(s))
  }

  lemma SyncHandsOut(s: State, exposure: real)
    requires Safe(s) && Cuts(s, exposure)
    ensures SyncLivo(s, exposure).measures
         == [MeasureGroup(s.imageTimes[0] + exposure, BatchOf(s, exposure), Some(s.images[0]))]
  {
  }

  lemma SyncOrderly(s: State, exposure: real)
    requires Orderly(s)
    ensures Safe(SyncLivo(s, exposure)) && Paired(SyncLivo(s, exposure))
    ensures Ready(s) ==> Base(s) >= 0.0
    ensures !Cuts(s, exposure) ==> Orderly(SyncLivo(s, exposure))
    ensures Cuts(s, exposure) ==> Orderly(Undistorted(SyncLivo(s, exposure)))
  {
    SyncLivoKeepsSafe(s, exposure);
    if Ready(s) {
      assert s.headers[0] >= 0.0;
    }
  }

  /** `t` is what `s` becomes when its queue is cut at `lio`, with `last` the base of the carry-over. */
  ghost predicate CutAt(s: State, t: State, last: real, lio: real)
    requires |s.scans| <= |s.headers|
  {
    var n := Begun(s.scans, s.headers, lio);
    && t.scans == s.scans[n..] && t.headers == s.headers[n..] && t.lastUpdate == lio
    && t.cur == s.next + Early(s.scans, s.headers, last, lio) && t.next == Late(s.scans, s.headers, lio)
  }

  lemma SyncCutsAt(s: State, exposure: real)
    requires Orderly(s) && Cuts(s, exposure)
    ensures var t := Undistorted(SyncLivo(s, exposure));
            Safe(t) && t.cur == SyncLivo(s, exposure).cur && CutAt(s, t, Base(s), s.imageTimes[0] + exposure)
  {
    SyncOrderly(s, exposure);
  }

  lemma CutHeld(s: State, t: State, last: real, lio: real, p: Stamp)
    requires Safe(s) && Safe(t) && CutAt(s, t, last, lio) && (s.lastUpdate == last || s.next == [])
    ensures Count(last, t.cur, p) + Held(t, p) == Held(s, p)
  {
    CutConserves(s.next, s.scans, s.headers, last, lio, p);
  }

  lemma SyncHoldsAll(s: State, exposure: real, p: Stamp)
    requires Orderly(s) && !Cuts(s, exposure)
    ensures Safe(SyncLivo(s, exposure)) && Held(SyncLivo(s, exposure), p) == Held(s, p)
  {
    SyncOrderly(s, exposure);
    var t := SyncLivo(s, exposure);
    assert t.scans == s.scans && t.headers == s.headers && t.next == s.next;
    // before the first update nothing is carried over
    assert Count(t.lastUpdate, s.next, p) == Count(s.lastUpdate, s.next, p);
  }

  /** What a cut does to the record. */
  lemma DeliveredFields(r: Run, exposure: real)
    requires Safe(r.state) && Cuts(r.state, exposure)
    ensures var q, t := SyncStep(r, exposure), Undistorted(SyncLivo(r.state, exposure));
            && q.state == t && q.arrived == r.arrived && q.trimmed == r.trimmed
            && q.delivered == r.delivered + [Cloud(Base(r.state), t.cur)]
  {
  }

  lemma DeliveryConserves(r: Run, q: Run, last: real, lio: real)
    requires Safe(r.state) && Safe(q.state) && Conserved(r) && CutAt(r.state, q.state, last, lio)
    requires r.state.lastUpdate == last || r.state.next == []
    requires q.arrived == r.arrived && q.trimmed == r.trimmed
    requires q.delivered == r.delivered + [Cloud(last, q.state.cur)]
    ensures Conserved(q)
  {
    var cloud := [Cloud(last, q.state.cur)];
    assert cloud[1..] == [];
    forall p: Stamp
      ensures CountAll(q.arrived, p) == CountAll(q.trimmed, p) + CountAll(q.delivered, p) + Held(q.state, p)
    {
      CutHeld(r.state, q.state, last, lio, p);
      CountAllConcat(r.delivered, cloud, p);
    }
  }

  lemma SyncConserves(r: Run, exposure: real)
    requires Orderly(r.state) && Conserved(r)
    ensures Safe(SyncStep(r, exposure).state) && Conserved(SyncStep(r, exposure))
  {
    var s, q := r.state, SyncStep(r, exposure);
    if Cuts(s, exposure) {
      SyncCutsAt(s, exposure);
      DeliveredFields(r, exposure);
      // before the first update nothing is carried over
      DeliveryConserves(r, q, Base(s), s.imageTimes[0] + exposure);
    } else {
      SyncOrderly(s, exposure);
      forall p: Stamp
        ensures CountAll(q.arrived, p) == CountAll(q.trimmed, p) + CountAll(q.delivered, p) + Held(q.state, p)
      {
        SyncHoldsAll(s, exposure, p);
      }
    }
  }

  lemma StepConserves(r: Run, e: Event, exposure: real)
    requires Orderly(r.state) && Conserved(r) && Allowed(r.state, e)
    ensures Orderly(Step(r, e, exposure).state) && Conserved(Step(r, e, exposure))
  {
    match e
    case Scan(header, points) =>
      LidarOrderly(r.state, header, points);
      ScanConserves(r, header, points);
    case Inertial(_) =>
    case Frame(_, _) =>
    case Sync =>
      SyncOrderly(r.state, exposure);
      SyncConserves(r, exposure);
  }

  /** `r` is where the events lead, from the start, with no step outside the assumptions. */
  ghost predicate Reaches(events: seq<Event>, exposure: real, r: Run)
    decreases |events|
  {
    if events == [] then r == START
    else
      var n := |events| - 1;
      exists q: Run ::
        && Reaches(events[..n], exposure, q) && Safe(q.state) && Paired(q.state)
        && Allowed(q.state, events[n]) && r == Step(q, events[n], exposure)
  }

  /** Over any run, every point of every scan that arrived is in exactly one delivered cloud, or
      carried over, or queued, or was trimmed from a full queue: always with base time plus
      curvature its original header time plus offset. */
  lemma {:induction false} PointsConserved(events: seq<Event>, exposure: real, r: Run)
    requires Reaches(events, exposure, r)
    ensures Orderly(r.state) && Conserved(r)
    decreases |events|
  {
    if events != [] {
      var n := |events| - 1;
      var q: Run :| Reaches(events[..n], exposure, q) && Safe(q.state) && Paired(q.state)
        && Allowed(q.state, events[n]) && r == Step(q, events[n], exposure);
      PointsConserved(events[..n], exposure, q);
      StepConserves(q, events[n], exposure);
    }
  }
}
