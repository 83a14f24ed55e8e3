/** ImuProcess: the running mean of the initialisation, the forward propagation over a batch of
    IMU samples, and the backward sweep that moves each point to the frame's end. */
module ImuProcessing {

  datatype V3 = V3(x: real, y: real, z: real)

  datatype Imu = Imu(stamp: real, acc: V3, gyr: V3)

  /** Acceleration, angular velocity, velocity, position and rotation at one time; what they
      are is left to the propagation function. */
  datatype Motion = Motion(acc: V3, gyr: V3, vel: V3, pos: V3, rot: seq<real>)

  datatype Pose = Pose(offset: real, motion: Motion)

  /** `curvature` is the point's time in milliseconds after the frame's beginning. */
  datatype Point = Point(xyz: V3, curvature: real)

  function Time(p: Point): real {
    p.curvature / 1000.0
  }

  // ----- ImuInit -----

  function Add(a: V3, b: V3): V3 {
    V3(a.x + b.x, a.y + b.y, a.z + b.z)
  }

  function Scale(a: V3, k: real): V3 {
    V3(a.x * k, a.y * k, a.z * k)
  }

  const ZERO := V3(0.0, 0.0, 0.0)

  function Sum(vs: seq<V3>): V3 {
    if vs == [] then ZERO else Add(Sum(vs[..|vs| - 1]), vs[|vs| - 1])
  }

  /** `mean` is the arithmetic mean of `vs`. */
  ghost predicate IsMean(mean: V3, vs: seq<V3>) {
    Scale(mean, |vs| as real) == Sum(vs)
  }

  function Nudge(mean: real, x: real, n: nat): real
    requires n > 0
  {
    mean + (x - mean) / (n as real)
  }

  lemma NudgeMean(mean: real, x: real, n: nat)
    requires n > 0
    ensures Nudge(mean, x, n) * (n as real) == mean * ((n - 1) as real) + x
  {
    var k := n as real;
    var d := (x - mean) / k;
    Divided(x - mean, k);
    assert (mean + d) * k == mean * k + d * k;
    assert mean * k == mean * (k - 1.0) + mean;
  }

  lemma Divided(a: real, k: real)
    requires k != 0.0
    ensures a / k * k == a
  {
  }

  function NudgeAll(mean: V3, x: V3, n: nat): V3
    requires n > 0
  {
    V3(Nudge(mean.x, x.x, n), Nudge(mean.y, x.y, n), Nudge(mean.z, x.z, n))
  }

  /** One more sample keeps the running mean exact. */
  lemma MeanExtends(mean: V3, vs: seq<V3>, x: V3)
    requires IsMean(mean, vs)
    ensures IsMean(NudgeAll(mean, x, |vs| + 1), vs + [x])
  {
    var n := |vs| + 1;
    assert (vs + [x])[..|vs| + 1 - 1] == vs;
    NudgeMean(mean.x, x.x, n);
    NudgeMean(mean.y, x.y, n);
    NudgeMean(mean.z, x.z, n);
  }

  // ----- forward propagation -----

  /** One step of the propagation: how long it takes, and the offset of the pose it ends in. */
  datatype Step = Step(dt: real, offset: real)

  /** The pair of samples (v[i], v[i + 1]), which must not end before the frame. */
  function StepAt(v: seq<Imu>, i: nat, beg: real, end: real): Step
    requires i + 1 < |v|
  {
    var head, tail := v[i].stamp, v[i + 1].stamp;
    if head < beg then Step(tail - beg, tail - beg)
    else if i != |v| - 2 then Step(tail - head, tail - beg)
    else Step(end - head, end - beg)
  }

  /** The steps from the pair at `i` on; pairs that end before the frame are skipped. */
  function Steps(v: seq<Imu>, i: nat, beg: real, end: real): seq<Step>
    requires i < |v|
    decreases |v| - i
  {
    if i + 1 == |v| then []
    else (if v[i + 1].stamp < beg then [] else [StepAt(v, i, beg, end)]) + Steps(v, i + 1, beg, end)
  }

  function Total(steps: seq<Step>): real {
    if steps == [] then 0.0 else steps[0].dt + Total(steps[1..])
  }

  type Propagator = (Motion, Imu, Imu, real) -> Motion

  /** The poses recorded from the pair at `i` on. */
  function Poses(f: Propagator, v: seq<Imu>, i: nat, beg: real, end: real, m: Motion): seq<Pose>
    requires i < |v|
    decreases |v| - i
  {
    if i + 1 == |v| then []
    else if v[i + 1].stamp < beg then Poses(f, v, i + 1, beg, end, m)
    else
      var step := StepAt(v, i, beg, end);
      var next := f(m, v[i], v[i + 1], step.dt);
      [Pose(step.offset, next)] + Poses(f, v, i + 1, beg, end, next)
  }

  /** The motion the propagation ends with. */
  function LastMotion(m: Motion, poses: seq<Pose>): Motion {
    if poses == [] then m else poses[|poses| - 1].motion
  }

  /** Each recorded pose is the end of one step. */
  lemma {:induction false} PosesFollowSteps(f: Propagator, v: seq<Imu>, i: nat, beg: real, end: real, m: Motion)
    requires i < |v|
    ensures var poses, steps := Poses(f, v, i, beg, end, m), Steps(v, i, beg, end);
            |poses| == |steps| && forall k | 0 <= k < |steps| :: poses[k].offset == steps[k].offset
    decreases |v| - i
  {
    if i + 1 < |v| {
      if v[i + 1].stamp < beg {
        PosesFollowSteps(f, v, i + 1, beg, end, m);
      } else {
        PosesFollowSteps(f, v, i + 1, beg, end, f(m, v[i], v[i + 1], StepAt(v, i, beg, end).dt));
      }
    }
  }

  /** The samples of a frame: the carried-over one not after its beginning, the batch after
      its beginning, in order and not after its end. */
  ghost predicate FrameSamples(last: Imu, batch: seq<Imu>, beg: real, end: real) {
    && last.stamp <= beg < end
    && (forall i | 0 <= i < |batch| :: beg < batch[i].stamp <= end)
    && forall i, j | 0 <= i < j < |batch| :: batch[i].stamp <= batch[j].stamp
  }

  /** No step is negative, and the offsets rise from one time to at most another. */
  predicate StepsRise(steps: seq<Step>, from: real, to: real) {
    steps == [] || (steps[0].dt >= 0.0 && from <= steps[0].offset <= to && StepsRise(steps[1..], steps[0].offset, to))
  }

  /** `n` steps that take `total` and rise from one time to exactly another. */
  ghost predicate Take(steps: seq<Step>, n: nat, total: real, from: real, to: real) {
    && |steps| == n && Total(steps) == total && StepsRise(steps, from, to)
    && (steps != [] ==> steps[n - 1].offset == to)
  }

  lemma TakePrepend(step: Step, rest: seq<Step>, n: nat, total: real, from: real, next: real, to: real)
    requires Take(rest, n, total, next, to) && step.dt >= 0.0 && from <= step.offset <= to
    requires if rest == [] then step.offset == to else step.offset <= next
    ensures Take([step] + rest, n + 1, step.dt + total, from, to)
  {
    assert ([step] + rest)[1..] == rest;
  }

  lemma StepsNext(v: seq<Imu>, i: nat, beg: real, end: real)
    requires i + 1 < |v| && v[i + 1].stamp >= beg
    ensures Steps(v, i, beg, end) == [StepAt(v, i, beg, end)] + Steps(v, i + 1, beg, end)
  {
  }

  /** The samples from `i` on are within the frame, in order. */
  predicate Within(v: seq<Imu>, i: nat, beg: real, end: real)
    requires i < |v|
    decreases |v| - i
  {
    beg < v[i].stamp <= end && (i + 1 < |v| ==> v[i].stamp <= v[i + 1].stamp && Within(v, i + 1, beg, end))
  }

  lemma {:induction false} FrameWithin(last: Imu, batch: seq<Imu>, i: nat, beg: real, end: real)
    requires FrameSamples(last, batch, beg, end) && 0 < i <= |batch|
    ensures Within([last] + batch, i, beg, end)
    decreases |batch| - i
  {
    var v := [last] + batch;
    assert v[i] == batch[i - 1];
    if i < |batch| {
      assert v[i + 1] == batch[i];
      FrameWithin(last, batch, i + 1, beg, end);
    }
  }

  /** From a sample within the frame on, the steps take the time that is left. */
  lemma {:induction false} StepsFromWithin(v: seq<Imu>, i: nat, beg: real, end: real)
    requires 0 < i < |v| && Within(v, i, beg, end)
    ensures Take(Steps(v, i, beg, end), |v| - 1 - i, if i + 1 < |v| then end - v[i].stamp else 0.0,
                 v[i].stamp - beg, end - beg)
    decreases |v| - i
  {
    if i + 1 < |v| {
      var rest, left := Steps(v, i + 1, beg, end), if i + 2 < |v| then end - v[i + 1].stamp else 0.0;
      StepsFromWithin(v, i + 1, beg, end);
      StepsNext(v, i, beg, end);
      TakePrepend(StepAt(v, i, beg, end), rest, |v| - 2 - i, left, v[i].stamp - beg, v[i + 1].stamp - beg, end - beg);
    }
  }

  /** When the steps of a frame reach its end: with two samples they always do; one sample does
      if it is at the end, or if the carried-over one is at the beginning; none never does. */
  predicate Covered(last: Imu, batch: seq<Imu>, beg: real, end: real) {
    |batch| >= 2 || (|batch| == 1 && (batch[0].stamp == end || last.stamp == beg))
  }

  /** The steps of a frame are never negative, and they sum to the frame's length exactly when
      it is covered; the offsets then rise to that length. */
  lemma StepsCoverFrame(last: Imu, batch: seq<Imu>, beg: real, end: real)
    requires FrameSamples(last, batch, beg, end)
    ensures var steps := Steps([last] + batch, 0, beg, end);
            && |steps| == |batch|
            && (Total(steps) == end - beg <==> Covered(last, batch, beg, end))
            && StepsRise(steps, 0.0, end - beg)
            && (Covered(last, batch, beg, end) ==> steps[|steps| - 1].offset == end - beg)
  {
    if batch != [] {
      var v := [last] + batch;
      assert v[0] == last && v[1] == batch[0];
      FrameWithin(last, batch, 1, beg, end);
      StepsFromFirst(v, beg, end);
    }
  }

  /** With the pair that enters the frame. */
  lemma StepsFromFirst(v: seq<Imu>, beg: real, end: real)
    requires |v| >= 2 && v[0].stamp <= beg && Within(v, 1, beg, end)
    ensures var steps := Steps(v, 0, beg, end);
            && |steps| == |v| - 1
            && StepsRise(steps, 0.0, end - beg)
            && (Total(steps) == end - beg <==> |v| > 2 || v[1].stamp == end || v[0].stamp == beg)
            && (|v| > 2 || v[1].stamp == end || v[0].stamp == beg ==> steps[|steps| - 1].offset == end - beg)
  {
    var step, rest := StepAt(v, 0, beg, end), Steps(v, 1, beg, end);
    StepsFromWithin(v, 1, beg, end);
    StepsNext(v, 0, beg, end);
    assert ([step] + rest)[1..] == rest;
  }

  // ----- when each pose is, and from what it comes -----

  /** The time at which step `j` ends: its second sample's, but the frame's end for the last step,
      unless that one also enters the frame. */
  function StepEnd(v: seq<Imu>, j: nat, beg: real, end: real): real
    requires j + 1 < |v|
  {
    if j + 2 == |v| && v[j].stamp >= beg then end else v[j + 1].stamp
  }

  /** The time at which it begins: its first sample's, but not before the frame. */
  function StepBegin(v: seq<Imu>, j: nat, beg: real): real
    requires j < |v|
  {
    if v[j].stamp < beg then beg else v[j].stamp
  }

  /** The poses from pair `i` on: each is at the time its step ends, and its motion is the previous
      one's, propagated by the pair for the time between. */
  ghost predicate PosesTimed(f: Propagator, v: seq<Imu>, i: nat, beg: real, end: real, m: Motion, poses: seq<Pose>)
    requires i < |v|
  {
    && |poses| == |v| - 1 - i
    && forall k | 0 <= k < |poses| :: PoseTimed(f, v, i, beg, end, m, poses, k)
  }

  predicate PoseTimed(f: Propagator, v: seq<Imu>, i: nat, beg: real, end: real, m: Motion, poses: seq<Pose>, k: nat)
    requires i < |v| && |poses| == |v| - 1 - i && k < |poses|
  {
    && poses[k].offset == StepEnd(v, i + k, beg, end) - beg
    && poses[k].motion == f(if k == 0 then m else poses[k - 1].motion, v[i + k], v[i + k + 1],
                            StepEnd(v, i + k, beg, end) - StepBegin(v, i + k, beg))
  }

  /** It is so whenever no sample but the carried-over one is before the frame. */
  lemma {:induction false} PosesAreTimed(f: Propagator, v: seq<Imu>, i: nat, beg: real, end: real, m: Motion)
    requires i < |v| && forall j | i < j < |v| :: v[j].stamp >= beg
    ensures PosesTimed(f, v, i, beg, end, m, Poses(f, v, i, beg, end, m))
    decreases |v| - i
  {
    if i + 1 < |v| {
      var next := f(m, v[i], v[i + 1], StepAt(v, i, beg, end).dt);
      var poses, rest := Poses(f, v, i, beg, end, m), Poses(f, v, i + 1, beg, end, next);
      PosesAreTimed(f, v, i + 1, beg, end, next);
      assert poses == [Pose(StepAt(v, i, beg, end).offset, next)] + rest;
      forall k | 0 <= k < |poses| ensures PoseTimed(f, v, i, beg, end, m, poses, k) {
        if k > 0 {
          assert PoseTimed(f, v, i + 1, beg, end, next, rest, k - 1);
        }
      }
    }
  }

  /** Samples before the frame, but for the last of them, are skipped. */
  lemma {:induction false} EarlySkipped(f: Propagator, v: seq<Imu>, i: nat, n: nat, beg: real, end: real, m: Motion)
    requires i + n < |v| && forall j | i < j <= i + n :: v[j].stamp < beg
    ensures Poses(f, v, i, beg, end, m) == Poses(f, v, i + n, beg, end, m)
    decreases n
  {
    if n > 0 { EarlySkipped(f, v, i + 1, n - 1, beg, end, m); }
  }

  /** In a frame pose `k` is at the time of sample `k`, the last one at the frame's end if the frame is
      covered; and the offset of a pose is the time all steps up to it take. */
  lemma FrameOffsets(f: Propagator, last: Imu, batch: seq<Imu>, beg: real, end: real, m: Motion)
    requires FrameSamples(last, batch, beg, end)
    ensures var poses, steps := Poses(f, [last] + batch, 0, beg, end, m), Steps([last] + batch, 0, beg, end);
            && PosesTimed(f, [last] + batch, 0, beg, end, m, poses) && |poses| == |batch| == |steps|
            && (forall k | 0 <= k < |batch| - 1 :: poses[k].offset == batch[k].stamp - beg)
            && (batch != [] ==>
                  poses[|batch| - 1].offset
                  == (if Covered(last, batch, beg, end) then end else batch[|batch| - 1].stamp) - beg)
            && (forall k | 0 <= k < |batch| :: poses[k].offset == Total(steps[..k + 1]))
  {
    var v := [last] + batch;
    forall j | 0 < j < |v| ensures v[j].stamp >= beg { assert v[j] == batch[j - 1]; }
    PosesAreTimed(f, v, 0, beg, end, m);
    PosesFollowSteps(f, v, 0, beg, end, m);
    var poses, steps := Poses(f, v, 0, beg, end, m), Steps(v, 0, beg, end);
    forall k | 0 <= k < |batch|
      ensures poses[k].offset
           == (if k < |batch| - 1 || !Covered(last, batch, beg, end) then batch[k].stamp else end) - beg
      ensures poses[k].offset == Total(steps[..k + 1])
    {
      assert PoseTimed(f, v, 0, beg, end, m, poses, k);
      OffsetInFrame(f, last, batch, beg, end, m, poses, k);
      TotalIsOffset(last, batch, beg, end, k);
    }
  }

  lemma OffsetInFrame(f: Propagator, last: Imu, batch: seq<Imu>, beg: real, end: real, m: Motion, poses: seq<Pose>,
                      k: nat)
    requires FrameSamples(last, batch, beg, end) && |poses| == |batch| && k < |batch|
    requires PoseTimed(f, [last] + batch, 0, beg, end, m, poses, k)
    ensures poses[k].offset
         == (if k < |batch| - 1 || !Covered(last, batch, beg, end) then batch[k].stamp else end) - beg
  {
    assert ([last] + batch)[k + 1] == batch[k];
  }

  /** Step by step: how long each takes. */
  lemma {:induction false} StepTimed(v: seq<Imu>, i: nat, beg: real, end: real, k: nat)
    requires i < |v| && k < |v| - 1 - i && forall j | i < j < |v| :: v[j].stamp >= beg
    ensures |Steps(v, i, beg, end)| == |v| - 1 - i
    ensures Steps(v, i, beg, end)[k]
         == Step(StepEnd(v, i + k, beg, end) - StepBegin(v, i + k, beg), StepEnd(v, i + k, beg, end) - beg)
    decreases |v| - i
  {
    StepsNext(v, i, beg, end);
    if i + 2 < |v| { StepTimed(v, i + 1, beg, end, if k == 0 then 0 else k - 1); }
  }

  lemma {:induction false} TotalIsOffset(last: Imu, batch: seq<Imu>, beg: real, end: real, k: nat)
    requires FrameSamples(last, batch, beg, end) && k < |batch|
    ensures var steps := Steps([last] + batch, 0, beg, end);
            |steps| == |batch| && Total(steps[..k + 1]) == steps[k].offset
  {
    var v := [last] + batch;
    forall j | 0 < j < |v| ensures v[j].stamp >= beg { assert v[j] == batch[j - 1]; }
    StepTimed(v, 0, beg, end, k);
    var steps := Steps(v, 0, beg, end);
    TotalPush(steps[..k], steps[k]);
    assert steps[..k + 1] == steps[..k] + [steps[k]];
    if k > 0 {
      TotalIsOffset(last, batch, beg, end, k - 1);
      StepTimed(v, 0, beg, end, k - 1);
      assert v[k] == batch[k - 1];
    } else {
      assert steps[..0] == [];
    }
  }

  lemma {:induction false} TotalPush(steps: seq<Step>, step: Step)
    ensures Total(steps + [step]) == Total(steps) + step.dt
  {
    if steps == [] {
      assert [step][1..] == [];
    } else {
      TotalPush(steps[1..], step);
      assert (steps + [step])[1..] == steps[1..] + [step];
    }
  }

  // ----- the backward sweep -----

  /** Moves a point, seen from a pose a while before, to the frame's end. */
  type Compensator = (Motion, Motion, real, V3) -> V3

  function Moved(g: Compensator, end: Motion, pose: Pose, p: Point): Point {
    p.(xyz := g(pose.motion, end, Time(p) - pose.offset, p.xyz))
  }

  /** The inner loop for one pose: from point `it` down while the points are later than the
      pose. The first point is moved, but never passed. */
  function SweepPose(g: Compensator, end: Motion, pose: Pose, points: seq<Point>, it: nat): (r: (seq<Point>, nat))
    requires it < |points|
    ensures |r.0| == |points| && r.1 <= it
    decreases it
  {
    if Time(points[it]) <= pose.offset then (points, it)
    else
      var moved := points[it := Moved(g, end, pose, points[it])];
      if it == 0 then (moved, 0) else SweepPose(g, end, pose, moved, it - 1)
  }

  /** The outer loop: the poses before index `k`, latest first. */
  function SweepPoses(g: Compensator, end: Motion, poses: seq<Pose>, k: nat,
                      points: seq<Point>, it: nat): (r: seq<Point>)
    requires k <= |poses| && it < |points|
    ensures |r| == |points|
    decreases k
  {
    if k == 0 then points
    else
      var (swept, next) := SweepPose(g, end, poses[k - 1], points, it);
      SweepPoses(g, end, poses, k - 1, swept, next)
  }

  /** Every pose but the final one serves. */
  function Sweep(g: Compensator, end: Motion, poses: seq<Pose>, points: seq<Point>): (r: seq<Point>)
    ensures |r| == |points|
  {
    if points == [] || poses == [] then points
    else SweepPoses(g, end, poses, |poses| - 1, points, |points| - 1)
  }

  ghost predicate NoLater(points: seq<Point>, i: nat, j: nat)
    requires i < |points| && j < |points|
  {
    points[i].curvature <= points[j].curvature
  }

  ghost predicate SortedByTime(points: seq<Point>) {
    forall i, j | 0 <= i < j < |points| :: NoLater(points, i, j)
  }

  /** Of the first `k` poses, the last whose offset is below `t`. */
  function LatestBefore(poses: seq<Pose>, k: nat, t: real): (h: nat)
    requires k <= |poses|
    ensures h <= k
    ensures h < k ==> poses[h].offset < t
  {
    if k == 0 then 0
    else if poses[k - 1].offset < t then k - 1
    else
      var h := LatestBefore(poses, k - 1, t);
      if h == k - 1 then k else h
  }

  lemma {:induction false} LatestIs(poses: seq<Pose>, k: nat, t: real, i: nat)
    requires i < k <= |poses| && (LatestBefore(poses, k, t) < i || LatestBefore(poses, k, t) == k)
    ensures poses[i].offset >= t
  {
    if poses[k - 1].offset >= t && i < k - 1 { LatestIs(poses, k - 1, t, i); }
  }

  /** A point moved once, by the latest of the first `k` poses before `t`, or not at all. */
  function MovedAt(g: Compensator, end: Motion, poses: seq<Pose>, k: nat, p: Point, t: real): Point
    requires k <= |poses|
  {
    var h := LatestBefore(poses, k, t);
    if h == k then p else Moved(g, end, poses[h], p)
  }

  /** By the latest pose before its own time. */
  function MovedOnce(g: Compensator, end: Motion, poses: seq<Pose>, k: nat, p: Point): Point
    requires k <= |poses|
  {
    MovedAt(g, end, poses, k, p, Time(p))
  }

  /** A point moved by every one of the first `k` poses before it, latest first. */
  function MovedByAll(g: Compensator, end: Motion, poses: seq<Pose>, k: nat, p: Point): (r: Point)
    requires k <= |poses|
    ensures r.curvature == p.curvature
  {
    if k == 0 then p
    else MovedByAll(g, end, poses, k - 1, if poses[k - 1].offset < Time(p) then Moved(g, end, poses[k - 1], p) else p)
  }

  /** The least time of points `i` to `it`. */
  function Least(points: seq<Point>, i: nat, it: nat): (t: real)
    requires i <= it < |points|
    ensures t <= Time(points[i])
    decreases it - i
  {
    if i == it then Time(points[i])
    else
      var t := Least(points, i + 1, it);
      if Time(points[i]) <= t then Time(points[i]) else t
  }

  lemma {:induction false} LeastAbove(points: seq<Point>, i: nat, it: nat, t: real)
    requires i <= it < |points|
    ensures Least(points, i, it) > t <==> forall j | i <= j <= it :: Time(points[j]) > t
    decreases it - i
  {
    if i < it { LeastAbove(points, i + 1, it, t); }
  }

  /** Points that are all later than one before them make no difference. */
  lemma {:induction false} LeastCut(points: seq<Point>, i: nat, next: nat, it: nat, t: real)
    requires i <= next <= it < |points| && Time(points[next]) <= t
    requires forall j | next < j <= it :: Time(points[j]) > t
    ensures Least(points, i, it) == Least(points, i, next) <= t
    decreases next - i
  {
    if i < next {
      LeastCut(points, i + 1, next, it, t);
    } else if next < it {
      LeastAbove(points, next + 1, it, t);
    }
  }

  ghost predicate SameTimes(points: seq<Point>, others: seq<Point>) {
    |points| == |others| && forall i | 0 <= i < |points| :: points[i].curvature == others[i].curvature
  }

  lemma {:induction false} LeastSame(points: seq<Point>, others: seq<Point>, i: nat, it: nat)
    requires SameTimes(points, others) && i <= it < |points|
    ensures Least(points, i, it) == Least(others, i, it)
    decreases it - i
  {
    if i < it { LeastSame(points, others, i + 1, it); }
  }

  /** What one pose does to any cloud: it moves the points from `it` down to the first that is not
      later than it, where it stops; the first point it may move but not pass. */
  ghost predicate PoseSwept(g: Compensator, end: Motion, pose: Pose, points: seq<Point>, it: nat,
                            swept: seq<Point>, next: nat)
  {
    && next <= it < |points| && SameTimes(swept, points)
    && (forall i | 0 < i < |points| ::
          swept[i] == if next < i <= it then Moved(g, end, pose, points[i]) else points[i])
    && swept[0] == (if next == 0 && Time(points[0]) > pose.offset then Moved(g, end, pose, points[0]) else points[0])
    && (forall i | next < i <= it :: Time(points[i]) > pose.offset)
    && (next == 0 || Time(points[next]) <= pose.offset)
  }

  lemma {:induction false} SweepPoseMoves(g: Compensator, end: Motion, pose: Pose, points: seq<Point>, it: nat)
    requires it < |points|
    ensures var (swept, next) := SweepPose(g, end, pose, points, it); PoseSwept(g, end, pose, points, it, swept, next)
    decreases it
  {
    if Time(points[it]) > pose.offset && it > 0 {
      SweepPoseMoves(g, end, pose, points[it := Moved(g, end, pose, points[it])], it - 1);
    }
  }

  /** What becomes of the first point when the iterator is at `it`: once all others have been
      passed, it is moved by every pose before it. */
  function FirstMoved(g: Compensator, end: Motion, poses: seq<Pose>, k: nat, points: seq<Point>, it: nat): Point
    requires k <= |poses| && it < |points|
  {
    if it == 0 then MovedByAll(g, end, poses, k, points[0])
    else
      var h := LatestBefore(poses, k, Least(points, 1, it));
      if h == k then points[0] else MovedByAll(g, end, poses, h + 1, points[0])
  }

  /** The points one pose passes are its own; what is ahead of the others is as it was. */
  lemma LaterMoves(g: Compensator, end: Motion, poses: seq<Pose>, k: nat, points: seq<Point>, it: nat,
                   mid: seq<Point>, next: nat, i: nat)
    requires 0 < k <= |poses| && 0 < i <= it && PoseSwept(g, end, poses[k - 1], points, it, mid, next)
    ensures MovedAt(g, end, poses, k, points[i], Least(points, i, it))
         == if i > next then mid[i] else MovedAt(g, end, poses, k - 1, mid[i], Least(mid, i, next))
  {
    if i > next {
      LeastAbove(points, i, it, poses[k - 1].offset);
    } else {
      LeastCut(points, i, next, it, poses[k - 1].offset);
      LeastSame(mid, points, i, next);
    }
  }

  lemma FirstMoves(g: Compensator, end: Motion, poses: seq<Pose>, k: nat, points: seq<Point>, it: nat,
                   mid: seq<Point>, next: nat)
    requires 0 < k <= |poses| && PoseSwept(g, end, poses[k - 1], points, it, mid, next)
    ensures FirstMoved(g, end, poses, k, points, it) == FirstMoved(g, end, poses, k - 1, mid, next)
  {
    if it > 0 && next == 0 {
      LeastAbove(points, 1, it, poses[k - 1].offset);
    } else if it > 0 {
      LeastCut(points, 1, next, it, poses[k - 1].offset);
      LeastSame(mid, points, 1, next);
    }
  }

  /** Every point up to `it` but the first is moved once, from the latest pose before it and all
      points between it and `it`, or not at all; points behind `it` are left alone. */
  ghost predicate MovedByLeast(g: Compensator, end: Motion, poses: seq<Pose>, k: nat, points: seq<Point>, it: nat,
                               swept: seq<Point>)
    requires k <= |poses| && it < |points|
  {
    && |swept| == |points|
    && (forall i | it < i < |points| :: swept[i] == points[i])
    && (forall i | 0 < i <= it :: swept[i] == MovedAt(g, end, poses, k, points[i], Least(points, i, it)))
    && swept[0] == FirstMoved(g, end, poses, k, points, it)
  }

  lemma PointThen(g: Compensator, end: Motion, poses: seq<Pose>, k: nat, points: seq<Point>, it: nat,
                  mid: seq<Point>, next: nat, swept: seq<Point>, i: nat)
    requires 0 < k <= |poses| && PoseSwept(g, end, poses[k - 1], points, it, mid, next) && 0 < i < |points|
    requires MovedByLeast(g, end, poses, k - 1, mid, next, swept)
    ensures swept[i] == if i <= it then MovedAt(g, end, poses, k, points[i], Least(points, i, it)) else points[i]
  {
    if i <= it {
      LaterMoves(g, end, poses, k, points, it, mid, next, i);
    }
  }

  /** One pose, then those before it. */
  lemma SweptThen(g: Compensator, end: Motion, poses: seq<Pose>, k: nat, points: seq<Point>, it: nat,
                  mid: seq<Point>, next: nat, swept: seq<Point>)
    requires 0 < k <= |poses| && PoseSwept(g, end, poses[k - 1], points, it, mid, next)
    requires MovedByLeast(g, end, poses, k - 1, mid, next, swept)
    ensures MovedByLeast(g, end, poses, k, points, it, swept)
  {
    FirstMoves(g, end, poses, k, points, it, mid, next);
    forall i | 0 < i < |points|
      ensures swept[i] == if i <= it then MovedAt(g, end, poses, k, points[i], Least(points, i, it)) else points[i]
    {
      PointThen(g, end, poses, k, points, it, mid, next, swept, i);
    }
  }

  lemma {:induction false} SweepPosesMove(g: Compensator, end: Motion, poses: seq<Pose>, k: nat, points: seq<Point>,
                                          it: nat)
    requires k <= |poses| && it < |points|
    ensures MovedByLeast(g, end, poses, k, points, it, SweepPoses(g, end, poses, k, points, it))
    decreases k
  {
    if k > 0 {
      var (mid, next) := SweepPose(g, end, poses[k - 1], points, it);
      SweepPoseMoves(g, end, poses[k - 1], points, it);
      SweepPosesMove(g, end, poses, k - 1, mid, next);
      SweptThen(g, end, poses, k, points, it, mid, next, SweepPoses(g, end, poses, k - 1, mid, next));
    }
  }

  /** In any cloud the sweep moves every point but the first exactly once, or not at all: from the
      latest pose, other than the final one, that is before the point and all points behind it.
      The first is moved by every such pose that is before it, once all others have been moved. */
  lemma SweepMovesByLeast(g: Compensator, end: Motion, poses: seq<Pose>, points: seq<Point>)
    requires poses != [] && points != []
    ensures MovedByLeast(g, end, poses, |poses| - 1, points, |points| - 1, Sweep(g, end, poses, points))
  {
    SweepPosesMove(g, end, poses, |poses| - 1, points, |points| - 1);
  }

  lemma {:induction false} LeastSorted(points: seq<Point>, i: nat, it: nat)
    requires SortedByTime(points) && i <= it < |points|
    ensures Least(points, i, it) == Time(points[i])
    decreases it - i
  {
    if i < it {
      LeastSorted(points, i + 1, it);
      assert NoLater(points, i, i + 1);
    }
  }

  /** Poses that are not before a point make no difference to it. */
  lemma {:induction false} MovedByEarlier(g: Compensator, end: Motion, poses: seq<Pose>, h: nat, k: nat, p: Point)
    requires h <= k <= |poses| && forall i | h <= i < k :: poses[i].offset >= Time(p)
    ensures MovedByAll(g, end, poses, k, p) == MovedByAll(g, end, poses, h, p)
    decreases k
  {
    if h < k { MovedByEarlier(g, end, poses, h, k - 1, p); }
  }

  /** Every point but the first is moved once, from the latest of the first `k` poses before it, or
      not at all; the first by every one of them before it. */
  ghost predicate MovedByOwn(g: Compensator, end: Motion, poses: seq<Pose>, k: nat, points: seq<Point>,
                             swept: seq<Point>)
    requires k <= |poses|
  {
    && |swept| == |points|
    && (forall i | 0 < i < |points| :: swept[i] == MovedOnce(g, end, poses, k, points[i]))
    && (points != [] ==> swept[0] == MovedByAll(g, end, poses, k, points[0]))
  }

  lemma SweptAt(g: Compensator, end: Motion, poses: seq<Pose>, points: seq<Point>, i: nat)
    requires poses != [] && 0 < i < |points|
    ensures Sweep(g, end, poses, points)[i]
         == MovedAt(g, end, poses, |poses| - 1, points[i], Least(points, i, |points| - 1))
  {
    SweepMovesByLeast(g, end, poses, points);
  }

  lemma SweptOwn(g: Compensator, end: Motion, poses: seq<Pose>, points: seq<Point>, i: nat)
    requires poses != [] && SortedByTime(points) && 0 < i < |points|
    ensures Sweep(g, end, poses, points)[i] == MovedOnce(g, end, poses, |poses| - 1, points[i])
  {
    SweptAt(g, end, poses, points, i);
    LeastSorted(points, i, |points| - 1);
  }

  lemma SweptFirst(g: Compensator, end: Motion, poses: seq<Pose>, points: seq<Point>)
    requires poses != [] && SortedByTime(points) && points != []
    ensures Sweep(g, end, poses, points)[0] == MovedByAll(g, end, poses, |poses| - 1, points[0])
  {
    var swept := Sweep(g, end, poses, points);
    assert swept[0] == FirstMoved(g, end, poses, |poses| - 1, points, |points| - 1) by {
      SweepMovesByLeast(g, end, poses, points);
    }
    FirstMovedSorted(g, end, poses, |poses| - 1, points);
  }

  /** For points in order of time, the sweep moves every point but the first exactly once, from
      the latest pose before it other than the final one, or not at all when none is before it.
      The first point is moved by every such pose before it. */
  lemma SweepMovesOnce(g: Compensator, end: Motion, poses: seq<Pose>, points: seq<Point>)
    requires poses != [] && SortedByTime(points)
    ensures MovedByOwn(g, end, poses, |poses| - 1, points, Sweep(g, end, poses, points))
  {
    forall i | 0 < i < |points|
      ensures Sweep(g, end, poses, points)[i] == MovedOnce(g, end, poses, |poses| - 1, points[i])
    {
      SweptOwn(g, end, poses, points, i);
    }
    if points != [] { SweptFirst(g, end, poses, points); }
  }

  lemma FirstMovedSorted(g: Compensator, end: Motion, poses: seq<Pose>, k: nat, points: seq<Point>)
    requires k <= |poses| && points != [] && SortedByTime(points)
    ensures FirstMoved(g, end, poses, k, points, |points| - 1) == MovedByAll(g, end, poses, k, points[0])
  {
    if |points| > 1 {
      LeastSorted(points, 1, |points| - 1);
      assert NoLater(points, 0, 1);
      var h := LatestBefore(poses, k, Time(points[1]));
      var from := if h == k then 0 else h + 1;
      forall i | from <= i < k ensures poses[i].offset >= Time(points[0]) { LatestIs(poses, k, Time(points[1]), i); }
      MovedByEarlier(g, end, poses, from, k, points[0]);
    }
  }

  /** A compensation that shows how long before the point its pose is. */
  const SHOWING: Compensator := (pose: Motion, end: Motion, dt: real, xyz: V3) => V3(xyz.x + dt, xyz.y, xyz.z)

  lemma DifferentPosesShow(end: Motion, poses: seq<Pose>, k: nat, p: Point, t: real)
    requires k <= |poses| && t <= Time(p) && LatestBefore(poses, k, t) != LatestBefore(poses, k, Time(p))
    ensures MovedAt(SHOWING, end, poses, k, p, t) != MovedOnce(SHOWING, end, poses, k, p)
  {
    var h, h' := LatestBefore(poses, k, Time(p)), LatestBefore(poses, k, t);
    if h == k {
      LatestIs(poses, k, Time(p), h');
    } else if h' < k && h < h' {
      LatestIs(poses, k, Time(p), h');
    } else {
      LatestIs(poses, k, t, h);
    }
    assert MovedOnce(SHOWING, end, poses, k, p).xyz.x == p.xyz.x + (Time(p) - poses[h].offset);
    assert MovedAt(SHOWING, end, poses, k, p, t).xyz.x == p.xyz.x + if h' == k then 0.0 else Time(p) - poses[h'].offset;
  }

  /** A point of any cloud is moved from its own pose, whatever the motion, exactly when the latest
      pose before it is also the latest before the least time among it and the points behind it. */
  lemma OwnPoseIff(poses: seq<Pose>, points: seq<Point>, i: nat)
    requires poses != [] && 0 < i < |points|
    ensures (forall g, end :: Sweep(g, end, poses, points)[i] == MovedOnce(g, end, poses, |poses| - 1, points[i]))
       <==> LatestBefore(poses, |poses| - 1, Least(points, i, |points| - 1))
            == LatestBefore(poses, |poses| - 1, Time(points[i]))
  {
    var k, t := |poses| - 1, Least(points, i, |points| - 1);
    if LatestBefore(poses, k, t) == LatestBefore(poses, k, Time(points[i])) {
      forall g, end ensures Sweep(g, end, poses, points)[i] == MovedOnce(g, end, poses, k, points[i]) {
        SweptAt(g, end, poses, points, i);
      }
    } else {
      var end := Motion(ZERO, ZERO, ZERO, ZERO, []);
      SweptAt(SHOWING, end, poses, points, i);
      DifferentPosesShow(end, poses, k, points[i], t);
    }
  }

  // ----- what the pose list holds -----

  ghost predicate InOrder(poses: seq<Pose>, i: nat, j: nat)
    requires i < |poses| && j < |poses|
  {
    poses[i].offset <= poses[j].offset
  }

  ghost predicate Rising(poses: seq<Pose>) {
    forall i, j | 0 <= i < j < |poses| :: InOrder(poses, i, j)
  }

  /** How many of the first `k` poses are before `t`. */
  function Before(poses: seq<Pose>, k: nat, t: real): nat
    requires k <= |poses|
  {
    if k == 0 then 0 else Before(poses, k - 1, t) + if poses[k - 1].offset < t then 1 else 0
  }

  lemma {:induction false} NoneBefore(poses: seq<Pose>, k: nat, t: real)
    requires k <= |poses|
    ensures Before(poses, k, t) == 0 <==> LatestBefore(poses, k, t) == k
    ensures Before(poses, k, t) == 0 ==> forall g, end, p | Time(p) == t :: MovedByAll(g, end, poses, k, p) == p
  {
    if k > 0 {
      NoneBefore(poses, k - 1, t);
    }
  }

  /** With at most one pose before it, the first point is treated like every other. */
  lemma {:induction false} FirstMovedOnce(g: Compensator, end: Motion, poses: seq<Pose>, k: nat, p: Point)
    requires k <= |poses| && Before(poses, k, Time(p)) <= 1
    ensures MovedByAll(g, end, poses, k, p) == MovedOnce(g, end, poses, k, p)
  {
    if k > 0 {
      if poses[k - 1].offset < Time(p) {
        NoneBefore(poses, k - 1, Time(p));
      } else {
        FirstMovedOnce(g, end, poses, k - 1, p);
      }
    }
  }

  /** A compensation that counts itself. */
  const COUNTING: Compensator := (pose: Motion, end: Motion, dt: real, xyz: V3) => V3(xyz.x + 1.0, xyz.y, xyz.z)

  lemma {:induction false} CountingCounts(end: Motion, poses: seq<Pose>, k: nat, p: Point)
    requires k <= |poses|
    ensures MovedByAll(COUNTING, end, poses, k, p).xyz.x == p.xyz.x + Before(poses, k, Time(p)) as real
  {
    if k > 0 {
      CountingCounts(end, poses, k - 1,
                     if poses[k - 1].offset < Time(p) then Moved(COUNTING, end, poses[k - 1], p) else p);
    }
  }

  /** The first point is moved like every other, whatever the motion, exactly when at most one
      pose other than the final one is before it. */
  lemma FirstMovedOnceIff(poses: seq<Pose>, k: nat, p: Point)
    requires k <= |poses|
    ensures (forall g, end :: MovedByAll(g, end, poses, k, p) == MovedOnce(g, end, poses, k, p))
       <==> Before(poses, k, Time(p)) <= 1
  {
    if Before(poses, k, Time(p)) <= 1 {
      forall g, end ensures MovedByAll(g, end, poses, k, p) == MovedOnce(g, end, poses, k, p) {
        FirstMovedOnce(g, end, poses, k, p);
      }
    } else {
      var end := Motion(ZERO, ZERO, ZERO, ZERO, []);
      CountingCounts(end, poses, k, p);
      assert MovedOnce(COUNTING, end, poses, k, p).xyz.x <= p.xyz.x + 1.0;
      assert MovedByAll(COUNTING, end, poses, k, p) != MovedOnce(COUNTING, end, poses, k, p);
    }
  }

  /** In a rising list that is when the second pose is not before it. */
  lemma {:induction false} FewBeforeIff(poses: seq<Pose>, k: nat, t: real)
    requires k <= |poses| && Rising(poses)
    ensures Before(poses, k, t) <= 1 <==> k <= 1 || poses[1].offset >= t
  {
    if k > 0 {
      FewBeforeIff(poses, k - 1, t);
      assert Before(poses, 0, t) == 0;
      if k >= 2 && poses[1].offset >= t {
        assert k > 2 ==> InOrder(poses, 1, k - 1);
      }
      if k == 2 {
        assert InOrder(poses, 0, 1);
        assert Before(poses, 1, t) == Before(poses, 0, t) + if poses[0].offset < t then 1 else 0;
      }
    }
  }

  /** The list a frame sweeps with: poses left by earlier frames whose clouds were empty, the
      frame's beginning, its steps. */
  function FrameList(stale: seq<Pose>, m: Motion, steps: seq<Pose>): seq<Pose> {
    stale + [Pose(0.0, m)] + steps
  }

  /** A frame's own poses rise from 0. Behind left-over poses the whole list rises only if those
      do and none of them is after the beginning. */
  lemma ListRisesIff(stale: seq<Pose>, m: Motion, steps: seq<Pose>)
    requires Rising(steps) && forall i | 0 <= i < |steps| :: steps[i].offset >= 0.0
    ensures Rising(FrameList(stale, m, steps))
       <==> Rising(stale) && (stale == [] || stale[|stale| - 1].offset <= 0.0)
  {
    RisingConcat(stale + [Pose(0.0, m)], steps);
    RisingConcat(stale, [Pose(0.0, m)]);
  }

  lemma RisingConcat(a: seq<Pose>, b: seq<Pose>)
    ensures Rising(a + b) <==> Rising(a) && Rising(b) && (a == [] || b == [] || a[|a| - 1].offset <= b[0].offset)
  {
    var ab := a + b;
    if Rising(ab) {
      forall i, j | 0 <= i < j < |a| ensures InOrder(a, i, j) { assert InOrder(ab, i, j); }
      forall i, j | 0 <= i < j < |b| ensures InOrder(b, i, j) { assert InOrder(ab, |a| + i, |a| + j); }
      assert a != [] && b != [] ==> InOrder(ab, |a| - 1, |a|);
    }
    if Rising(a) && Rising(b) && (a == [] || b == [] || a[|a| - 1].offset <= b[0].offset) {
      forall i, j | 0 <= i < j < |ab| ensures InOrder(ab, i, j) {
        assert j < |a| ==> InOrder(a, i, j);
        assert i >= |a| ==> InOrder(b, i - |a|, j - |a|);
        assert i < |a| - 1 ==> InOrder(a, i, |a| - 1);
        assert j > |a| ==> InOrder(b, 0, j - |a|);
      }
    }
  }

  /** As long as the frame itself has a step, a point with positive time is moved by one of the
      frame's own poses, and one without is not moved, unless it is the first: left-over poses
      (never negative) make no difference to the rest. */
  lemma StaleTouchOnlyFirst(stale: seq<Pose>, m: Motion, steps: seq<Pose>, t: real)
    requires steps != [] && forall i | 0 <= i < |stale| :: stale[i].offset >= 0.0
    requires forall i | 0 <= i < |steps| :: steps[i].offset >= 0.0
    ensures var list := FrameList(stale, m, steps);
            var h := LatestBefore(list, |list| - 1, t);
            if t > 0.0 then |stale| <= h < |list| - 1 else h == |list| - 1
  {
    var list, n := FrameList(stale, m, steps), |stale|;
    assert list[n].offset == 0.0;
    forall i | 0 <= i < |list| ensures list[i].offset >= 0.0 {
      if i < n {
        assert list[i] == stale[i];
      } else if i > n {
        assert list[i] == steps[i - n - 1];
      }
    }
    var h := LatestBefore(list, |list| - 1, t);
    if t > 0.0 && (h < n || h == |list| - 1) { LatestIs(list, |list| - 1, t, n); }
  }

  // ----- the class -----

  class ImuProcess {
    const propagate: Propagator
    const compensate: Compensator

    var imuNeedInit: bool
    var firstFrame: bool
    var initIterNum: nat
    const maxIniCount: nat
    var meanAcc: V3
    var meanGyr: V3
    var lastImu: Imu
    var lastPropEndTime: real
    var imuPose: seq<Pose>

    /** The samples the means are taken over. */
    ghost var seen: seq<Imu>

    ghost predicate MeansExact()
      reads this
    {
      && (firstFrame ==> seen == [])
      && (!firstFrame ==>
            && seen != [] && initIterNum == |seen| + 1
            && IsMean(meanAcc, Accs(seen)) && IsMean(meanGyr, Gyrs(seen)))
    }

    constructor (propagate: Propagator, compensate: Compensator, maxIniCount: nat, lastImu: Imu, lastPropEndTime: real)
      ensures MeansExact() && firstFrame && imuNeedInit && imuPose == []
      ensures this.propagate == propagate && this.compensate == compensate && this.maxIniCount == maxIniCount
    {
      this.propagate, this.compensate, this.maxIniCount := propagate, compensate, maxIniCount;
      this.lastImu, this.lastPropEndTime := lastImu, lastPropEndTime;
      imuNeedInit, firstFrame, initIterNum, imuPose, seen := true, true, 1, [], [];
      meanAcc, meanGyr := V3(0.0, 0.0, -1.0), ZERO;
    }

    /** ImuInit: the means over all samples since the first frame, exactly. */
    method ImuInit(imus: seq<Imu>)
      requires MeansExact() && imus != []
      modifies `firstFrame, `initIterNum, `meanAcc, `meanGyr, `seen, `imuNeedInit, `imuPose
      ensures MeansExact() && !firstFrame && seen == old(seen) + imus
    {
      if firstFrame {
        imuNeedInit, imuPose := true, [];
        initIterNum := 1;
        firstFrame := false;
        meanAcc, meanGyr := imus[0].acc, imus[0].gyr;
      }
      for i := 0 to |imus|
        invariant !firstFrame && initIterNum == |seen| + 1 && seen == old(seen) + imus[..i]
        invariant seen == [] ==> i == 0 && meanAcc == imus[0].acc && meanGyr == imus[0].gyr
        invariant seen != [] ==> IsMean(meanAcc, Accs(seen)) && IsMean(meanGyr, Gyrs(seen))
      {
        Average(imus[i]);
        assert imus[..i + 1] == imus[..i] + [imus[i]];
      }
      assert imus[..|imus|] == imus;
    }

    /** One round of that loop; the first sample is its own mean. */
    method Average(imu: Imu)
      requires initIterNum == |seen| + 1
      requires seen == [] ==> meanAcc == imu.acc && meanGyr == imu.gyr
      requires seen != [] ==> IsMean(meanAcc, Accs(seen)) && IsMean(meanGyr, Gyrs(seen))
      modifies `initIterNum, `meanAcc, `meanGyr, `seen
      ensures initIterNum == |seen| + 1 && seen == old(seen) + [imu]
      ensures IsMean(meanAcc, Accs(seen)) && IsMean(meanGyr, Gyrs(seen))
    {
      MeanOfNext(meanAcc, Accs(seen), imu.acc);
      MeanOfNext(meanGyr, Gyrs(seen), imu.gyr);
      AxesPush(seen, imu);
      meanAcc := NudgeAll(meanAcc, imu.acc, initIterNum);
      meanGyr := NudgeAll(meanGyr, imu.gyr, initIterNum);
      initIterNum := initIterNum + 1;
      seen := seen + [imu];
    }

    /** Process, while the IMU initialises: an empty batch is not counted. */
    method Initialise(imus: seq<Imu>)
      requires MeansExact() && imuNeedInit
      modifies `firstFrame, `initIterNum, `meanAcc, `meanGyr, `seen, `imuNeedInit, `imuPose, `lastImu
      ensures MeansExact() && seen == old(seen) + imus
      ensures imus == [] ==> imuNeedInit && lastImu == old(lastImu)
      ensures imus != [] ==> lastImu == imus[|imus| - 1] && (!imuNeedInit <==> |seen| + 1 > maxIniCount)
    {
      if imus == [] {
        return;
      }
      ImuInit(imus);
      lastImu := imus[|imus| - 1];
      imuNeedInit := !(initIterNum > maxIniCount);
    }

    /** The propagation loop; returns the motion at the end and the total time. */
    method Propagate(v: seq<Imu>, propBegTime: real, propEndTime: real, state: Motion)
      returns (motion: Motion, dtAll: real)
      requires v != [] && lastPropEndTime == propBegTime
      modifies `imuPose
      ensures imuPose == old(imuPose) + Poses(propagate, v, 0, propBegTime, propEndTime, state)
      ensures motion == LastMotion(state, Poses(propagate, v, 0, propBegTime, propEndTime, state))
      ensures dtAll == Total(Steps(v, 0, propBegTime, propEndTime))
      ensures (forall j | 0 < j < |v| :: v[j].stamp >= propBegTime) ==>
                PosesTimed(propagate, v, 0, propBegTime, propEndTime, state, imuPose[|old(imuPose)|..])
    {
      motion, dtAll := PropagateAll(v, propBegTime, propEndTime, state);
      assert imuPose[|old(imuPose)|..] == Poses(propagate, v, 0, propBegTime, propEndTime, state);
      if forall j | 0 < j < |v| :: v[j].stamp >= propBegTime {
        PosesAreTimed(propagate, v, 0, propBegTime, propEndTime, state);
      }
    }

    /** The loop itself. */
    method PropagateAll(v: seq<Imu>, propBegTime: real, propEndTime: real, state: Motion)
      returns (motion: Motion, dtAll: real)
      requires v != [] && lastPropEndTime == propBegTime
      modifies `imuPose
      ensures imuPose == old(imuPose) + Poses(propagate, v, 0, propBegTime, propEndTime, state)
      ensures motion == LastMotion(state, Poses(propagate, v, 0, propBegTime, propEndTime, state))
      ensures dtAll == Total(Steps(v, 0, propBegTime, propEndTime))
    {
      motion, dtAll := state, 0.0;
      ghost var all := Poses(propagate, v, 0, propBegTime, propEndTime, state);
      for i := 0 to |v| - 1
        invariant imuPose + Poses(propagate, v, i, propBegTime, propEndTime, motion) == old(imuPose) + all
        invariant LastMotion(motion, Poses(propagate, v, i, propBegTime, propEndTime, motion)) == LastMotion(state, all)
        invariant dtAll + Total(Steps(v, i, propBegTime, propEndTime)) == Total(Steps(v, 0, propBegTime, propEndTime))
      {
        var head, tail := v[i], v[i + 1];
        if tail.stamp < propBegTime {
          assert Steps(v, i, propBegTime, propEndTime) == Steps(v, i + 1, propBegTime, propEndTime);
          continue;
        }
        var dt, offsT;
        if head.stamp < propBegTime {
          dt, offsT := tail.stamp - lastPropEndTime, tail.stamp - propBegTime;
        } else if i != |v| - 2 {
          dt, offsT := tail.stamp - head.stamp, tail.stamp - propBegTime;
        } else {
          dt, offsT := propEndTime - head.stamp, propEndTime - propBegTime;
        }
        NextStep(propagate, v, i, propBegTime, propEndTime, motion);
        dtAll := dtAll + dt;
        motion := propagate(motion, head, tail, dt);
        imuPose := imuPose + [Pose(offsT, motion)];
      }
    }

    /** UndistortPcl on the current cloud. The poses are dropped only when the cloud has points. */
    method UndistortPcl(cur: seq<Point>, imus: seq<Imu>, lioTime: real, state: Motion)
      returns (pclOut: seq<Point>, motion: Motion, dtAll: real)
      modifies `imuPose, `lastImu, `lastPropEndTime
      ensures var v, beg := [old(lastImu)] + imus, old(lastPropEndTime);
              var steps := Poses(propagate, v, 0, beg, lioTime, state);
              && motion == LastMotion(state, steps)
              && dtAll == Total(Steps(v, 0, beg, lioTime))
              && lastImu == v[|v| - 1] && lastPropEndTime == lioTime
              && imuPose == (if cur == [] then old(imuPose) + [Pose(0.0, state)] + steps else [])
              && pclOut == Sweep(compensate, motion, old(imuPose) + [Pose(0.0, state)] + steps, cur)
              // the sweep is over poses at the times of the samples they were propagated to
              && ((forall j | 0 <= j < |imus| :: imus[j].stamp >= beg) ==>
                    PosesTimed(propagate, v, 0, beg, lioTime, state, steps))
    {
      if forall j | 0 <= j < |imus| :: imus[j].stamp >= lastPropEndTime {
        PosesAreTimed(propagate, [lastImu] + imus, 0, lastPropEndTime, lioTime, state);
      }
      var v := [lastImu] + imus;
      imuPose := imuPose + [Pose(0.0, state)];
      motion, dtAll := Propagate(v, lastPropEndTime, lioTime, state);
      lastImu, lastPropEndTime := v[|v| - 1], lioTime;
      if |cur| < 1 {
        return [], motion, dtAll;
      }
      var wait := new Point[|cur|](i requires 0 <= i < |cur| => cur[i]);
      assert wait[..] == cur;
      SweepBack(wait, imuPose, motion);
      pclOut := wait[..];
      imuPose := [];
    }

    /** The sweep, in place: `it` stays where the next earlier pose takes over. */
    method SweepBack(wait: array<Point>, poses: seq<Pose>, end: Motion)
      requires wait.Length > 0 && poses != []
      modifies wait
      ensures wait[..] == Sweep(compensate, end, poses, old(wait[..]))
    {
      var it, kp: nat := wait.Length - 1, |poses| - 1;
      while kp != 0
        invariant kp < |poses| && 0 <= it < wait.Length
        invariant SweepPoses(compensate, end, poses, kp, wait[..], it) == Sweep(compensate, end, poses, old(wait[..]))
      {
        var head := poses[kp - 1];
        ghost var target := SweepPose(compensate, end, head, wait[..], it);
        while wait[it].curvature / 1000.0 > head.offset
          invariant 0 <= it < wait.Length
          invariant SweepPose(compensate, end, head, wait[..], it) == target
          decreases it
        {
          MoveBack(wait, it, head, end);
          if it == 0 {
            assert target == (wait[..], 0);
            break;
          }
          it := it - 1;
        }
        assert target == (wait[..], it);
        kp := kp - 1;
      }
    }

    /** The compensation of one point from one pose, in place. */
    method MoveBack(wait: array<Point>, it: nat, head: Pose, end: Motion)
      requires it < wait.Length
      modifies wait
      ensures wait[..] == old(wait[..])[it := Moved(compensate, end, head, old(wait[it]))]
      ensures wait[it].xyz == compensate(head.motion, end, old(wait[it].curvature) / 1000.0 - head.offset,
                                         old(wait[it].xyz))
      ensures wait[it].curvature == old(wait[it].curvature)
    {
      var dt := wait[it].curvature / 1000.0 - head.offset;
      wait[it] := wait[it].(xyz := compensate(head.motion, end, dt, wait[it].xyz));
    }
  }

  function Accs(imus: seq<Imu>): seq<V3> {
    seq(|imus|, i requires 0 <= i < |imus| => imus[i].acc)
  }

  function Gyrs(imus: seq<Imu>): seq<V3> {
    seq(|imus|, i requires 0 <= i < |imus| => imus[i].gyr)
  }

  lemma AxesPush(imus: seq<Imu>, imu: Imu)
    ensures Accs(imus + [imu]) == Accs(imus) + [imu.acc] && Gyrs(imus + [imu]) == Gyrs(imus) + [imu.gyr]
  {
  }

  /** The next mean, from the first sample standing in for the mean of none, or from a mean. */
  lemma MeanOfNext(mean: V3, vs: seq<V3>, x: V3)
    requires if vs == [] then mean == x else IsMean(mean, vs)
    ensures IsMean(NudgeAll(mean, x, |vs| + 1), vs + [x])
  {
    if vs == [] {
      assert ([] + [x])[..0] == [] && Sum([]) == ZERO;
      assert [] + [x] == [x] && Sum([x]) == Add(Sum([x][..0]), x) && [x][..0] == [];
    } else {
      MeanExtends(mean, vs, x);
    }
  }

  /** One round of the propagation loop. */
  lemma NextStep(f: Propagator, v: seq<Imu>, i: nat, beg: real, end: real, m: Motion)
    requires i + 1 < |v| && v[i + 1].stamp >= beg
    ensures var step := StepAt(v, i, beg, end);
            var next := f(m, v[i], v[i + 1], step.dt);
            && Poses(f, v, i, beg, end, m) == [Pose(step.offset, next)] + Poses(f, v, i + 1, beg, end, next)
            && LastMotion(m, Poses(f, v, i, beg, end, m)) == LastMotion(next, Poses(f, v, i + 1, beg, end, next))
            && Total(Steps(v, i, beg, end)) == step.dt + Total(Steps(v, i + 1, beg, end))
  {
    var step := StepAt(v, i, beg, end);
    assert ([step] + Steps(v, i + 1, beg, end))[1..] == Steps(v, i + 1, beg, end);
  }
}
