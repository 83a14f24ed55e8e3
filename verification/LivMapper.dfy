/** LIVMapper: the buffers its callbacks fill and SyncPackages empties, changed in place. Each
    method's new state is the step of SensorSync it performs. */
module LivMapper {
  import opened Common
  import opened SensorSync

  datatype SlamMode = OnlyLio | Livo

  class LIVMapper {
    // lid_raw_data_buffer_, lid_header_time_buffer_
    var scans: seq<seq<Point>>
    var headers: seq<real>
    // img_buffer_, img_time_buffer_
    var images: seq<nat>
    var imageTimes: seq<real>
    var imus: seq<Imu>
    var lastTimestampLidar: real
    var lastTimestampImu: real
    var lastTimestampImg: real
    var lidarPushed: bool
    var firstFrameFinished: bool
    const slamMode: SlamMode
    const exposureTimeInit: real
    // Lidar_measures_
    var lastLioUpdateTime: real
    var lidarFrameEndTime: real
    var lidar: seq<Point>
    var pclProcCur: seq<Point>
    var pclProcNext: seq<Point>
    var measures: seq<MeasureGroup>

    ghost function State(): State
      reads this
    {
      SensorSync.State.State(scans, headers, images, imageTimes, imus,
                             lastTimestampLidar, lastTimestampImu, lastTimestampImg,
                  lidarPushed, firstFrameFinished, lastLioUpdateTime, lidarFrameEndTime,
                  lidar, pclProcCur, pclProcNext, measures)
    }

    constructor (slamMode: SlamMode, exposureTimeInit: real)
      ensures State() == INITIAL && this.slamMode == slamMode && this.exposureTimeInit == exposureTimeInit
    {
      this.slamMode, this.exposureTimeInit := slamMode, exposureTimeInit;
      scans, headers, images, imageTimes, imus := [], [], [], [], [];
      lastTimestampLidar, lastTimestampImu, lastTimestampImg := -1.0, -1.0, -1.0;
      lidarPushed, firstFrameFinished := false, false;
      lastLioUpdateTime, lidarFrameEndTime := -1.0, 0.0;
      lidar, pclProcCur, pclProcNext, measures := [], [], [], [];
    }

    /** `points` is what the preprocessing makes of the message. */
    method LivoxCbk(header: real, points: seq<Point>)
      requires Safe(State())
      modifies this
      ensures State() == Lidar(old(State()), header, points) && Safe(State())
      ensures points == [] && header >= old(lastTimestampLidar) ==> State() == old(State())
    {
      LidarKeepsSafe(State(), header, points);
      if header < lastTimestampLidar {
        scans := [];
      }
      if points == [] {
        return;
      }
      scans := scans + [points];
      headers := headers + [header];
      lastTimestampLidar := header;
      TrimLidar();
    }

    /** After the first frame the queue keeps its newest 100 scans. */
    method TrimLidar()
      requires |scans| <= |headers|
      modifies `scans, `headers
      ensures State() == Trim(old(State()))
    {
      if firstFrameFinished {
        ghost var n, scans0, headers0 := 0, scans, headers;
        while |scans| > MAX_LIDAR_BUFFER_SIZE
          invariant n <= |scans0| <= |headers0| && scans == scans0[n..] && headers == headers0[n..]
          invariant n <= Excess(old(State()))
        {
          scans, headers, n := scans[1..], headers[1..], n + 1;
        }
      }
    }

    /** The stamp is the message's, less the configured offset. */
    method ImuCbk(imu: Imu)
      modifies `imus, `lastTimestampImu
      ensures State() == Sample(old(State()), imu)
      ensures imus == if lastTimestampLidar >= 0.0
                         && (old(lastTimestampImu) <= 0.0 || imu.stamp >= old(lastTimestampImu))
                      then old(imus) + [imu] else old(imus)
      ensures lastTimestampImu == if imus == old(imus) then old(lastTimestampImu) else imu.stamp
    {
      if lastTimestampLidar < 0.0 {
        return;
      }
      if lastTimestampImu > 0.0 && imu.stamp < lastTimestampImu {
        return;
      }
      lastTimestampImu := imu.stamp;
      imus := imus + [imu];
    }

    /** The time is the message's, plus the configured offset. */
    method ImageCbk(id: nat, time: real)
      modifies `images, `imageTimes, `lastTimestampImg
      ensures State() == Image(old(State()), id, time)
      ensures if lastTimestampLidar >= 0.0 && time >= old(lastTimestampImg) + 0.02
              then images == old(images) + [id] && imageTimes == old(imageTimes) + [time] && lastTimestampImg == time
              else images == old(images) && imageTimes == old(imageTimes) && lastTimestampImg == old(lastTimestampImg)
    {
      if -0.001 < time - lastTimestampImg < 0.001 {
        return;
      }
      if lastTimestampLidar < 0.0 {
        return;
      }
      if time < lastTimestampImg {
        return;
      }
      if time - lastTimestampImg < 0.02 {
        return;
      }
      images, imageTimes := images + [id], imageTimes + [time];
      lastTimestampImg := time;
    }

    method SyncPackages() returns (ok: bool)
      requires Safe(State())
      modifies this
      ensures Safe(State())
      ensures slamMode.Livo? ==>
                State() == SyncLivo(old(State()), exposureTimeInit) && ok == Cuts(old(State()), exposureTimeInit)
      // a package waits for both sensors to pass the image, and for the image to pass the last update
      ensures slamMode.Livo? ==> (ok <==>
                && old(scans) != [] && old(images) != [] && old(imus) != []
                && var capture, back := old(imageTimes)[0] + exposureTimeInit, old(scans)[|old(scans)| - 1];
                   && capture >= 0.00001 + old(if lastLioUpdateTime < 0.0 then headers[0] else lastLioUpdateTime)
                   && capture <= old(imus)[|old(imus)| - 1].stamp
                   && capture <= old(headers)[|old(headers)| - 1] + back[|back| - 1].curvature / 1000.0)
      ensures slamMode.OnlyLio? ==> (State(), ok) == SyncLio(old(State()))
    {
      match slamMode
      case Livo =>
        SyncLivoKeepsSafe(State(), exposureTimeInit);
        ok := SyncPackagesLivo();
      case OnlyLio =>
        SyncLioKeepsSafe(State());
        ok := SyncPackagesLio();
    }

    method SyncPackagesLio() returns (ok: bool)
      requires Safe(State())
      modifies this
      ensures (State(), ok) == SyncLio(old(State()))
    {
      if scans == [] || imus == [] {
        return false;
      }
      SetFirstUpdateTime();
      if !lidarPushed {
        var enough := PushLidar();
        if !enough {
          return false;
        }
      }
      if lastTimestampImu < lidarFrameEndTime {
        return false;
      }
      PackLidar();
      return true;
    }

    /** The first header time stands in for the update there has not been. */
    method SetFirstUpdateTime()
      requires Safe(State()) && scans != []
      modifies `lastLioUpdateTime
      ensures State() == old(State()).(lastUpdate := Base(old(State())))
    {
      if lastLioUpdateTime < 0.0 {
        lastLioUpdateTime := headers[0];
      }
    }

    /** Take up the front scan, unless it has no more than one point. */
    method PushLidar() returns (enough: bool)
      requires Safe(State()) && scans != []
      modifies `lidar, `lidarFrameEndTime, `pclProcCur, `lidarPushed
      ensures enough == (|scans[0]| > 1)
      ensures State() == if !enough then old(State()).(lidar := scans[0])
                         else old(State()).(lidar := scans[0], cur := scans[0], lidarPushed := true,
                                            frameEnd := headers[0] + scans[0][|scans[0]| - 1].curvature / 1000.0)
    {
      lidar := scans[0];
      if |lidar| <= 1 {
        return false;
      }
      lidarFrameEndTime := headers[0] + lidar[|lidar| - 1].curvature / 1000.0;
      pclProcCur := lidar;
      lidarPushed := true;
      return true;
    }

    method PackLidar()
      requires Safe(State()) && scans != []
      modifies `imus, `scans, `headers, `measures, `lidarPushed
      ensures var s := old(State());
              var k := Reached(s.imus, s.frameEnd);
              State() == s.(imus := s.imus[k..], scans := s.scans[1..], headers := s.headers[1..], lidarPushed := false,
                            measures := s.measures + [MeasureGroup(s.frameEnd, s.imus[..k], None)])
    {
      var batch := TakeImus(lidarFrameEndTime, None);
      PopLidar();
      measures := measures + [MeasureGroup(lidarFrameEndTime, batch, None)];
      lidarPushed := false;
    }

    method PopLidar()
      requires scans != [] && headers != []
      modifies `scans, `headers
      ensures State() == old(State()).(scans := old(scans)[1..], headers := old(headers)[1..])
    {
      scans, headers := scans[1..], headers[1..];
    }

    /** Pop the samples not after `end`, keeping those after `since`. */
    method TakeImus(end: real, since: Option<real>) returns (batch: seq<Imu>)
      modifies `imus
      ensures var k := Reached(old(imus), end);
              State() == old(State()).(imus := old(imus)[k..]) && batch == Kept(old(imus)[..k], since)
    {
      batch := [];
      ghost var n, all := 0, imus;
      while imus != []
        invariant n <= |all| && imus == all[n..] && TakenSoFar(all, n, end, since, batch)
        decreases |imus|
      {
        if imus[0].stamp > end {
          break;
        }
        TakeOne(all, n, end, since, batch);
        if since.None? || imus[0].stamp > since.value {
          batch := batch + [imus[0]];
        }
        imus, n := imus[1..], n + 1;
      }
      TakeDone(all, n, end, since, batch);
    }

    method SyncPackagesLivo() returns (ok: bool)
      requires Safe(State())
      modifies this
      ensures State() == SyncLivo(old(State()), exposureTimeInit) && ok == Cuts(old(State()), exposureTimeInit)
      ensures ok <==>
                && old(scans) != [] && old(images) != [] && old(imus) != []
                && var capture, back := old(imageTimes)[0] + exposureTimeInit, old(scans)[|old(scans)| - 1];
                   && capture >= 0.00001 + old(if lastLioUpdateTime < 0.0 then headers[0] else lastLioUpdateTime)
                   && capture <= old(imus)[|old(imus)| - 1].stamp
                   && capture <= old(headers)[|old(headers)| - 1] + back[|back| - 1].curvature / 1000.0
      // the package is the front image's; without one only an image too early to use is dropped
      ensures if ok then |measures| == 1 && measures[0].image == Some(old(images)[0])
                         && measures[0].lioTime == old(imageTimes)[0] + exposureTimeInit
              else scans == old(scans) && headers == old(headers) && imus == old(imus) && measures == old(measures)
      ensures old(scans) != [] && old(images) != [] && old(imus) != [] && !ok ==>
                var early := old(imageTimes)[0] + exposureTimeInit < lastLioUpdateTime + 0.00001;
                images == if early then old(images)[1..] else old(images)
    {
      if scans == [] || images == [] || imus == [] {
        SyncIdles(State(), exposureTimeInit);
        return false;
      }
      ghost var s := State();
      SetFirstUpdateTime();
      ok := CutIfCovered(s);
    }

    /** Drop an image that is too old, wait for lidar and IMU to pass it, or make its package. */
    method CutIfCovered(ghost s: State) returns (ok: bool)
      requires Safe(s) && Ready(s) && State() == s.(lastUpdate := Base(s))
      modifies this
      ensures State() == SyncLivo(s, exposureTimeInit) && ok == Cuts(s, exposureTimeInit)
    {
      var capture := imageTimes[0] + exposureTimeInit;
      var back := scans[|scans| - 1];
      var lidNewest := headers[|headers| - 1] + back[|back| - 1].curvature / 1000.0;
      var imuNewest := imus[|imus| - 1].stamp;
      if capture < lastLioUpdateTime + 0.00001 {
        SyncDrops(s, exposureTimeInit);
        PopImage();
        return false;
      }
      if capture > lidNewest || capture > imuNewest {
        SyncWaits(s, exposureTimeInit);
        return false;
      }
      CutAtImage(capture);
      return true;
    }

    /** The package itself: the IMU samples, the points, the image. */
    method CutAtImage(lioTime: real)
      requires |scans| <= |headers| && 0 < |images| <= |imageTimes|
      modifies `imus, `scans, `headers, `images, `imageTimes, `pclProcCur, `pclProcNext, `measures
      ensures State() == Cut(old(State()), lioTime)
    {
      var batch := TakeImus(lioTime, Some(lastLioUpdateTime));
      CutLidar(lioTime);
      PackImage(lioTime, batch);
    }

    method PopImage()
      requires 0 < |images| <= |imageTimes|
      modifies `images, `imageTimes
      ensures State() == old(State()).(images := old(images)[1..], imageTimes := old(imageTimes)[1..])
    {
      images, imageTimes := images[1..], imageTimes[1..];
    }

    method PackImage(lioTime: real, batch: seq<Imu>)
      requires 0 < |images| <= |imageTimes|
      modifies `images, `imageTimes, `measures
      ensures State() == old(State()).(images := old(images)[1..], imageTimes := old(imageTimes)[1..],
                                       measures := [MeasureGroup(lioTime, batch, Some(old(images)[0]))])
    {
      measures := [MeasureGroup(lioTime, batch, Some(images[0]))];
      PopImage();
    }

    /** What was carried over becomes current; then the scans begun by the image are cut. */
    method CutLidar(lioTime: real)
      requires |scans| <= |headers|
      modifies `scans, `headers, `pclProcCur, `pclProcNext
      ensures var s := old(State());
              var n := Begun(s.scans, s.headers, lioTime);
              State() == s.(scans := s.scans[n..], headers := s.headers[n..],
                            cur := s.next + Early(s.scans, s.headers, s.lastUpdate, lioTime),
                            next := Late(s.scans, s.headers, lioTime))
    {
      pclProcCur, pclProcNext := pclProcNext, [];
      CutScans(lioTime);
      assert pclProcNext == Late(old(scans), old(headers), lioTime);
    }

    method CutScans(lioTime: real)
      requires |scans| <= |headers|
      modifies `scans, `headers, `pclProcCur, `pclProcNext
      ensures var n := Begun(old(scans), old(headers), lioTime);
              scans == old(scans)[n..] && headers == old(headers)[n..]
      ensures pclProcCur == old(pclProcCur) + Early(old(scans), old(headers), lastLioUpdateTime, lioTime)
      ensures pclProcNext == old(pclProcNext) + Late(old(scans), old(headers), lioTime)
    {
      ghost var n, scans0, headers0 := 0, scans, headers;
      while scans != []
        invariant n <= |scans0| <= |headers0| && scans == scans0[n..] && headers == headers0[n..]
        invariant Begun(scans0, headers0, lioTime) == n + Begun(scans, headers, lioTime)
        invariant pclProcCur + Early(scans, headers, lastLioUpdateTime, lioTime)
               == old(pclProcCur) + Early(scans0, headers0, lastLioUpdateTime, lioTime)
        invariant pclProcNext + Late(scans, headers, lioTime) == old(pclProcNext) + Late(scans0, headers0, lioTime)
        decreases |scans|
      {
        if headers[0] > lioTime {
          break;
        }
        Assoc(pclProcCur, EarlyPoints(scans[0], headers[0], lastLioUpdateTime, lioTime),
              Early(scans[1..], headers[1..], lastLioUpdateTime, lioTime));
        Assoc(pclProcNext, LatePoints(scans[0], headers[0], lioTime), Late(scans[1..], headers[1..], lioTime));
        CutScan(scans[0], headers[0], lioTime);
        scans, headers, n := scans[1..], headers[1..], n + 1;
      }
    }

    /** Rebase a scan's points: those before the image on the last update, the rest on the image. */
    method CutScan(pcl: seq<Point>, frameHeaderTime: real, lioTime: real)
      modifies `pclProcCur, `pclProcNext
      ensures pclProcCur == old(pclProcCur) + EarlyPoints(pcl, frameHeaderTime, lastLioUpdateTime, lioTime)
      ensures pclProcNext == old(pclProcNext) + LatePoints(pcl, frameHeaderTime, lioTime)
    {
      var maxOffsTimeMs := (lioTime - frameHeaderTime) * 1000.0;
      for i := 0 to |pcl|
        invariant pclProcCur + EarlyPoints(pcl[i..], frameHeaderTime, lastLioUpdateTime, lioTime)
               == old(pclProcCur) + EarlyPoints(pcl, frameHeaderTime, lastLioUpdateTime, lioTime)
        invariant pclProcNext + LatePoints(pcl[i..], frameHeaderTime, lioTime)
               == old(pclProcNext) + LatePoints(pcl, frameHeaderTime, lioTime)
      {
        NextPoint(pclProcCur, pclProcNext, pcl, i, frameHeaderTime, lastLioUpdateTime, lioTime);
        CutPoint(pcl[i], frameHeaderTime, lioTime, maxOffsTimeMs);
      }
    }

    method CutPoint(point: Point, frameHeaderTime: real, lioTime: real, maxOffsTimeMs: real)
      requires maxOffsTimeMs == (lioTime - frameHeaderTime) * 1000.0
      modifies `pclProcCur, `pclProcNext
      ensures pclProcCur == if IsEarly(point, frameHeaderTime, lioTime)
                            then old(pclProcCur) + [Rebased(point, frameHeaderTime, lastLioUpdateTime)]
                            else old(pclProcCur)
      ensures pclProcNext == if IsEarly(point, frameHeaderTime, lioTime)
                             then old(pclProcNext) else old(pclProcNext) + [Rebased(point, frameHeaderTime, lioTime)]
    {
      var pt := point;
      if point.curvature < maxOffsTimeMs {
        pt := pt.(curvature := pt.curvature + (frameHeaderTime - lastLioUpdateTime) * 1000.0);
        pclProcCur := pclProcCur + [pt];
      } else {
        pt := pt.(curvature := pt.curvature + (frameHeaderTime - lioTime) * 1000.0);
        pclProcNext := pclProcNext + [pt];
      }
    }

    /** One pass of the main loop: synchronise and, with a package, process it. It is the Sync step
        of the runs: after it every point that has arrived is still accounted for. */
    method RunOnce(ghost r: Run) returns (ok: bool, ghost q: Run)
      requires slamMode.Livo? && r.state == State() && Orderly(State()) && Conserved(r)
      modifies this
      ensures q == Step(r, Sync, exposureTimeInit) && q.state == State()
      ensures Orderly(State()) && Conserved(q)
      // a package's image time becomes the update time, and from the first one on the queue is bounded
      ensures ok ==> old(imageTimes) != [] && lastLioUpdateTime == old(imageTimes)[0] + exposureTimeInit
                     && firstFrameFinished
      ensures q.updates == if ok then r.updates + [lastLioUpdateTime] else r.updates
      ensures q.delivered == if ok then r.delivered + [Cloud(Base(old(State())), pclProcCur)] else r.delivered
    {
      StepConserves(r, Sync, exposureTimeInit);
      q := Step(r, Sync, exposureTimeInit);
      ok := SyncPackages();
      if ok {
        AfterPackage();
      }
    }

    /** What UndistortPcl and HandleFirstFrame leave behind in these fields. */
    method AfterPackage()
      requires measures != []
      modifies `lastLioUpdateTime, `firstFrameFinished
      ensures State() == Undistorted(old(State()))
      ensures firstFrameFinished && lastLioUpdateTime == measures[|measures| - 1].lioTime
    {
      lastLioUpdateTime := measures[|measures| - 1].lioTime;
      firstFrameFinished := true;
    }
  }

  /** Of samples taken from the queue, those a package keeps. */
  function Kept(imus: seq<Imu>, since: Option<real>): seq<Imu> {
    match since
    case None => imus
    case Some(t) => After(imus, t)
  }

  /** The first `n` samples are reached, and `batch` is what is kept of them. */
  ghost predicate TakenSoFar(all: seq<Imu>, n: nat, end: real, since: Option<real>, batch: seq<Imu>)
    requires n <= |all|
  {
    Reached(all, end) == n + Reached(all[n..], end) && batch == Kept(all[..n], since)
  }

  lemma TakeOne(all: seq<Imu>, n: nat, end: real, since: Option<real>, batch: seq<Imu>)
    requires n < |all| && all[n].stamp <= end && TakenSoFar(all, n, end, since, batch)
    ensures all[n..][0] == all[n] && all[n..][1..] == all[n + 1..]
    ensures TakenSoFar(all, n + 1, end, since,
                       if since.None? || all[n].stamp > since.value then batch + [all[n]] else batch)
  {
    assert all[..n + 1] == all[..n] + [all[n]];
    if since.Some? {
      AfterPush(all[..n], all[n], since.value);
    }
  }

  lemma TakeDone(all: seq<Imu>, n: nat, end: real, since: Option<real>, batch: seq<Imu>)
    requires n <= |all| && TakenSoFar(all, n, end, since, batch) && (n < |all| ==> all[n].stamp > end)
    ensures n == Reached(all, end) && batch == Kept(all[..n], since)
  {
  }

  lemma NextPoint(cur: seq<Point>, next: seq<Point>, pcl: seq<Point>, i: nat, header: real, last: real, lio: real)
    requires i < |pcl|
    ensures cur + EarlyPoints(pcl[i..], header, last, lio)
         == (if IsEarly(pcl[i], header, lio) then cur + [Rebased(pcl[i], header, last)] else cur)
            + EarlyPoints(pcl[i + 1..], header, last, lio)
    ensures next + LatePoints(pcl[i..], header, lio)
         == (if IsEarly(pcl[i], header, lio) then next else next + [Rebased(pcl[i], header, lio)])
            + LatePoints(pcl[i + 1..], header, lio)
  {
    assert pcl[i..][1..] == pcl[i + 1..];
    Shift(cur, Rebased(pcl[i], header, last), EarlyPoints(pcl[i + 1..], header, last, lio));
    Shift(next, Rebased(pcl[i], header, lio), LatePoints(pcl[i + 1..], header, lio));
  }

  lemma Assoc<T>(a: seq<T>, b: seq<T>, c: seq<T>)
    ensures a + (b + c) == a + b + c
  {
  }

  lemma Shift<T>(a: seq<T>, x: T, b: seq<T>)
    ensures a + ([x] + b) == a + [x] + b
  {
  }

  lemma {:induction false} AfterPush(imus: seq<Imu>, imu: Imu, t: real)
    ensures After(imus + [imu], t) == After(imus, t) + if imu.stamp > t then [imu] else []
  {
    if imus == [] {
      assert [] + [imu] == [imu] && [imu][1..] == [];
    } else {
      AfterPush(imus[1..], imu, t);
      assert (imus + [imu])[1..] == imus[1..] + [imu];
    }
  }
}
