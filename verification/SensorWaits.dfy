/** What the callbacks let in, and that no package runs ahead of the sensors, over whole runs. */
module SensorWaits {
  import opened SensorSync

  /** Some scan that arrived has its last point at `t` or later. */
  ghost predicate ScannedTo(clouds: seq<Cloud>, t: real) {
    exists c :: c in clouds && EndsFrom(c, t)
  }

  predicate EndsFrom(c: Cloud, t: real) {
    c.points != [] && t <= c.base + c.points[|c.points| - 1].curvature / 1000.0
  }

  /** And some sample is stamped then or later. */
  ghost predicate SampledTo(imus: seq<Imu>, t: real) {
    exists i :: 0 <= i < |imus| && t <= imus[i].stamp
  }

  ghost predicate QueuedArrived(r: Run) {
    && |r.state.scans| <= |r.state.headers|
    && (forall i | 0 <= i < |r.state.scans| :: Cloud(r.state.headers[i], r.state.scans[i]) in r.arrived)
    && (forall x | x in r.state.imus :: x in r.samples)
  }

  ghost predicate Waited(r: Run) {
    QueuedArrived(r) && forall u | u in r.updates :: ScannedTo(r.arrived, u) && SampledTo(r.samples, u)
  }

  lemma ScannedMore(a: seq<Cloud>, b: seq<Cloud>, t: real)
    requires ScannedTo(a, t)
    ensures ScannedTo(a + b, t)
  {
    var c :| c in a && EndsFrom(c, t);
    assert c in a + b;
  }

  lemma SampledMore(a: seq<Imu>, b: seq<Imu>, t: real)
    requires SampledTo(a, t)
    ensures SampledTo(a + b, t)
  {
    var i :| 0 <= i < |a| && t <= a[i].stamp;
    assert (a + b)[i] == a[i];
  }

  lemma ScanWaits(r: Run, header: real, points: seq<Point>)
    requires Orderly(r.state) && Waited(r) && Allowed(r.state, Scan(header, points))
    ensures Waited(ScanStep(r, header, points))
  {
    var q := ScanStep(r, header, points);
    forall u | u in r.updates ensures ScannedTo(q.arrived, u) {
      ScannedMore(r.arrived, [Cloud(header, points)], u);
    }
    ScanQueued(r, header, points);
  }

  lemma ScanQueued(r: Run, header: real, points: seq<Point>)
    requires Orderly(r.state) && QueuedArrived(r) && Allowed(r.state, Scan(header, points))
    ensures QueuedArrived(ScanStep(r, header, points))
  {
    var q := ScanStep(r, header, points);
    assert q.arrived[|r.arrived|] == Cloud(header, points);
  }

  lemma SampleWaits(r: Run, imu: Imu)
    requires Waited(r)
    ensures Waited(ImuStep(r, imu))
  {
    var q := ImuStep(r, imu);
    if q.samples != r.samples {
      forall u | u in r.updates ensures SampledTo(q.samples, u) { SampledMore(r.samples, [imu], u); }
      assert q.samples[|r.samples|] == imu;
    }
  }

  lemma CutWaits(r: Run, exposure: real)
    requires Orderly(r.state) && QueuedArrived(r) && Cuts(r.state, exposure)
    ensures var u := r.state.imageTimes[0] + exposure; ScannedTo(r.arrived, u) && SampledTo(r.samples, u)
  {
    var s, u := r.state, r.state.imageTimes[0] + exposure;
    var c := Cloud(s.headers[|s.scans| - 1], s.scans[|s.scans| - 1]);
    assert c in r.arrived && EndsFrom(c, u);
    assert s.imus[|s.imus| - 1] in r.samples;
  }

  lemma SyncQueued(r: Run, exposure: real)
    requires Orderly(r.state) && QueuedArrived(r)
    ensures QueuedArrived(SyncStep(r, exposure))
    ensures SyncStep(r, exposure).updates
         == if Cuts(r.state, exposure) then r.updates + [r.state.imageTimes[0] + exposure] else r.updates
  {
  }

  lemma StepWaits(r: Run, e: Event, exposure: real)
    requires Orderly(r.state) && Waited(r) && Allowed(r.state, e)
    ensures Waited(Step(r, e, exposure))
  {
    match e
    case Scan(header, points) => ScanWaits(r, header, points);
    case Inertial(imu) => SampleWaits(r, imu);
    case Frame(_, _) =>
    case Sync =>
      SyncQueued(r, exposure);
      if Cuts(r.state, exposure) { CutWaits(r, exposure); }
  }

  /** Over any run every update time is at most that of the last point of some scan that arrived,
      and of some accepted sample: no package is made ahead of the sensors. */
  lemma {:induction false} UpdatesCovered(events: seq<Event>, exposure: real, r: Run)
    requires Reaches(events, exposure, r)
    ensures Orderly(r.state) && Waited(r)
    decreases |events|
  {
    PointsConserved(events, exposure, r);
    if events != [] {
      var n := |events| - 1;
      var q: Run :| Reaches(events[..n], exposure, q) && Safe(q.state) && Paired(q.state)
        && Allowed(q.state, events[n]) && r == Step(q, events[n], exposure);
      UpdatesCovered(events[..n], exposure, q);
      StepWaits(q, events[n], exposure);
    }
  }

  // ----- what the callbacks let in -----

  ghost predicate AnyPoints(clouds: seq<Cloud>) {
    exists i :: 0 <= i < |clouds| && clouds[i].points != []
  }

  ghost predicate Recorded(r: Run) {
    && (r.state.lastLidar >= 0.0 <==> AnyPoints(r.arrived))
    && r.state.lastImu == if r.samples == [] then -1.0 else r.samples[|r.samples| - 1].stamp
  }

  lemma ScanRecorded(r: Run, header: real, points: seq<Point>)
    requires Orderly(r.state) && Recorded(r) && Allowed(r.state, Scan(header, points))
    ensures Recorded(ScanStep(r, header, points))
  {
    var q := ScanStep(r, header, points);
    assert q.arrived[|r.arrived|].points == points;
    if AnyPoints(r.arrived) {
      var i :| 0 <= i < |r.arrived| && r.arrived[i].points != [];
      assert q.arrived[i].points != [];
    }
  }

  lemma SyncRecorded(r: Run, exposure: real)
    requires Orderly(r.state) && Recorded(r)
    ensures Recorded(SyncStep(r, exposure))
  {
  }

  lemma {:induction false} RunRecorded(events: seq<Event>, exposure: real, r: Run)
    requires Reaches(events, exposure, r)
    ensures Recorded(r)
    decreases |events|
  {
    if events != [] {
      var n := |events| - 1;
      var q: Run :| Reaches(events[..n], exposure, q) && Safe(q.state) && Paired(q.state)
        && Allowed(q.state, events[n]) && r == Step(q, events[n], exposure);
      PointsConserved(events[..n], exposure, q);
      RunRecorded(events[..n], exposure, q);
      StepRecorded(q, events[n], exposure);
    }
  }

  lemma StepRecorded(q: Run, e: Event, exposure: real)
    requires Orderly(q.state) && Recorded(q) && Allowed(q.state, e)
    ensures Recorded(Step(q, e, exposure))
  {
    match e
    case Scan(header, points) => ScanRecorded(q, header, points);
    case Inertial(_) =>
    case Frame(_, _) =>
    case Sync => SyncRecorded(q, exposure);
  }

  /** In any run a sample is queued exactly when some scan with points has arrived before it and it is
      stamped no earlier than the last one queued, which counts only if that is after 0; otherwise it
      changes nothing. */
  lemma SampleQueuedIff(events: seq<Event>, exposure: real, r: Run, imu: Imu)
    requires Reaches(events, exposure, r)
    ensures var q := ImuStep(r, imu);
            if AnyPoints(r.arrived)
               && (r.samples != [] && r.samples[|r.samples| - 1].stamp > 0.0
                   ==> imu.stamp >= r.samples[|r.samples| - 1].stamp)
            then q.samples == r.samples + [imu] && q.state.imus == r.state.imus + [imu]
            else q == r
  {
    RunRecorded(events, exposure, r);
  }

  /** Queued images are at least 20 ms apart, and none is after the last one let in. */
  ghost predicate Spaced(s: State) {
    && (forall i | 0 <= i < |s.imageTimes| - 1 :: s.imageTimes[i] + 0.02 <= s.imageTimes[i + 1])
    && (s.imageTimes != [] ==> s.imageTimes[|s.imageTimes| - 1] <= s.lastImage)
  }

  /** An image is let in exactly when it comes 20 ms or more after the last one and some scan with
      points has arrived. */
  lemma ImageQueuedIff(events: seq<Event>, exposure: real, r: Run, id: nat, time: real)
    requires Reaches(events, exposure, r)
    ensures Image(r.state, id, time)
         == if AnyPoints(r.arrived) && time >= r.state.lastImage + 0.02
            then r.state.(images := r.state.images + [id], imageTimes := r.state.imageTimes + [time], lastImage := time)
            else r.state
  {
    RunRecorded(events, exposure, r);
  }

  lemma StepSpaced(r: Run, e: Event, exposure: real)
    requires Orderly(r.state) && Spaced(r.state)
    ensures Spaced(Step(r, e, exposure).state)
  {
    match e
    case Scan(_, _) =>
    case Inertial(_) =>
    case Frame(id, time) => ImageSpaced(r.state, id, time);
    case Sync =>
      SyncTimes(r, exposure);
      SyncSpaced(r.state, SyncStep(r, exposure).state);
  }

  lemma ImageSpaced(s: State, id: nat, time: real)
    requires Spaced(s)
    ensures Spaced(Image(s, id, time))
  {
  }

  lemma SyncTimes(r: Run, exposure: real)
    requires Orderly(r.state)
    ensures var s, t := r.state, SyncStep(r, exposure).state;
            t.lastImage == s.lastImage
            && (t.imageTimes == s.imageTimes || (s.imageTimes != [] && t.imageTimes == s.imageTimes[1..]))
  {
  }

  lemma SyncSpaced(s: State, t: State)
    requires Spaced(s) && t.lastImage == s.lastImage
    requires t.imageTimes == s.imageTimes || (s.imageTimes != [] && t.imageTimes == s.imageTimes[1..])
    ensures Spaced(t)
  {
  }

  lemma {:induction false} ImagesApart(events: seq<Event>, exposure: real, r: Run)
    requires Reaches(events, exposure, r)
    ensures Spaced(r.state)
    decreases |events|
  {
    if events != [] {
      var n := |events| - 1;
      var q: Run :| Reaches(events[..n], exposure, q) && Safe(q.state) && Paired(q.state)
        && Allowed(q.state, events[n]) && r == Step(q, events[n], exposure);
      PointsConserved(events[..n], exposure, q);
      ImagesApart(events[..n], exposure, q);
      StepSpaced(q, events[n], exposure);
    }
  }

  // ----- going back in time -----

  /** A loop back drops every queued scan and no header time. */
  lemma LoopBackDrops(s: State, header: real, points: seq<Point>)
    requires Safe(s) && header < s.lastLidar
    ensures var t := Lidar(s, header, points);
            && t.scans == (if points == [] then [] else [points])
            && t.headers == (if points == [] then s.headers else s.headers + [header])
            && t.lastLidar == (if points == [] then s.lastLidar else header)
  {
    assert (s.headers + [header])[0..] == s.headers + [header];
    assert [points][0..] == [points];
  }
}
