/** A visual map point: the list of patches that observe it, the one used as reference, and what
    a frame does to them: choosing a reference, adding and dropping observations, convergence. */
module VisualPoints {
  import opened Common
  import opened Sequences

  /** An observation: the frame it comes from, and its score; no score stands for a number that
      is not one. */
  datatype Obs = Obs(id: nat, score: Option<real>)

  /** A point as values; its reference is named by the frame it comes from. */
  datatype Point = Point(obs: seq<Obs>, reference: Option<nat>, converged: bool)

  const MAX_OBS := 30

  ghost predicate Distinct(obs: seq<Obs>) {
    obs == [] || (obs[0].id !in Ids(obs[1..]) && Distinct(obs[1..]))
  }

  function Ids(obs: seq<Obs>): set<nat> {
    set o | o in obs :: o.id
  }

  lemma {:induction false} DistinctAt(obs: seq<Obs>, i: nat, j: nat)
    requires Distinct(obs) && i < j < |obs|
    ensures obs[i].id != obs[j].id
  {
    if i > 0 {
      DistinctAt(obs[1..], i - 1, j - 1);
    } else {
      assert obs[1..][j - 1] in obs[1..];
    }
  }

  // ----- image_frame.cpp -----

  function Observed(p: Point, o: Obs): Point {
    p.(obs := [o] + p.obs)
  }

  /** The list without its first observation from frame `id`. */
  function Without(obs: seq<Obs>, id: nat): seq<Obs> {
    if obs == [] then []
    else if obs[0].id == id then obs[1..]
    else [obs[0]] + Without(obs[1..], id)
  }

  function Dropped(p: Point, id: nat): Point {
    p.(obs := Without(p.obs, id), reference := if p.reference == Some(id) then None else p.reference)
  }

  /** Index of the first of the lowest scores from `k` on, given the best index so far. */
  function MinScore(obs: seq<Obs>, k: nat, best: nat): (r: nat)
    requires best < |obs| && k <= |obs|
    ensures r < |obs|
    decreases |obs| - k
  {
    if k == |obs| then best
    else
      MinScore(obs, k + 1,
               if obs[k].score.Some? && (obs[best].score.None? || obs[k].score.value < obs[best].score.value)
               then k else best)
  }

  function OnlyReference(obs: seq<Obs>, reference: Option<nat>): seq<Obs> {
    if obs == [] then []
    else (if reference == Some(obs[0].id) then [obs[0]] else []) + OnlyReference(obs[1..], reference)
  }

  function Pruned(p: Point): Point {
    p.(obs := OnlyReference(p.obs, p.reference))
  }

  // ----- vio.cpp -----

  /** What the patches of two frames differ by, summed over their pixels. */
  type Difference = (nat, nat) -> real

  /** The summed difference of frame `id` to the other frames, and how many those are. */
  function Differences(obs: seq<Obs>, id: nat, diff: Difference): (real, nat) {
    if obs == [] then (0.0, 0)
    else
      var (sum, count) := Differences(obs[..|obs| - 1], id, diff);
      var o := obs[|obs| - 1];
      if o.id == id then (sum, count) else (sum + diff(id, o.id), count + 1)
  }

  /** The mean difference; with no other frame it is not a number. */
  function PhotometricError(obs: seq<Obs>, id: nat, diff: Difference): Option<real> {
    var (sum, count) := Differences(obs, id, diff);
    if count == 0 then None else Some(sum / (count as real))
  }

  /** The first of the smallest errors among the first `k` observations. */
  function LeastError(obs: seq<Obs>, k: nat, diff: Difference): (r: Option<nat>)
    requires k <= |obs|
    ensures r.Some? ==> r.value < k && PhotometricError(obs, obs[r.value].id, diff).Some?
  {
    if k == 0 then None
    else
      var best, e := LeastError(obs, k - 1, diff), PhotometricError(obs, obs[k - 1].id, diff);
      if e.None? then best
      else if best.None? || e.value < PhotometricError(obs, obs[best.value].id, diff).value then Some(k - 1)
      else best
  }

  /** The reference chosen when a point is retrieved; with several observations and no reference
      yet, the one that differs least from the others, if there is one. */
  function ChooseReference(p: Point, diff: Difference): Point {
    if |p.obs| == 1 then p.(reference := Some(p.obs[0].id))
    else if p.reference.Some? then p
    else
      var best := LeastError(p.obs, |p.obs|, diff);
      if best.None? then p else p.(reference := Some(p.obs[best.value].id))
  }

  /** A full point gives up its lowest-scored observation. */
  function Relieved(p: Point): Point
    requires p.obs != []
  {
    if |p.obs| >= MAX_OBS then Dropped(p, p.obs[MinScore(p.obs, 0, 0)].id) else p
  }

  /** UpdateVisualMapPoints: a converged point keeps its reference only; another gives up its
      lowest-scored observation when it has too many, and may gain one of this frame. */
  function UpdateObservations(p: Point, add: bool, frame: nat): Point
    requires p.converged || p.obs != []
  {
    if p.converged then Pruned(p)
    else
      var q := Relieved(p);
      if add then Observed(q, Obs(frame, Some(0.0))) else q
  }

  type Scoring = nat -> Option<real>

  function Rescored(obs: seq<Obs>, scoring: Scoring): seq<Obs> {
    seq(|obs|, i requires 0 <= i < |obs| => obs[i].(score := scoring(obs[i].id)))
  }

  const LOWEST := -1000.0

  /** Index of the first of the highest scores above -1000 among the first `k`. */
  function MaxScore(obs: seq<Obs>, k: nat): (r: Option<nat>)
    requires k <= |obs|
    ensures r.Some? ==> r.value < k && obs[r.value].score.Some? && obs[r.value].score.value > LOWEST
  {
    if k == 0 then None
    else
      var best, o := MaxScore(obs, k - 1), obs[k - 1];
      if o.score.Some? && o.score.value > (if best.Some? then obs[best.value].score.value else LOWEST)
      then Some(k - 1) else best
  }

  /** UpdateReferencePatch, for a point that gained an observation; `settled` is whether its
      normal has stopped changing. */
  function UpdateReference(p: Point, settled: bool, scoring: Scoring): Point {
    if p.converged || |p.obs| <= 5 then p
    else
      var q := p.(converged := settled && |p.obs| > 10, obs := Rescored(p.obs, scoring));
      var best := MaxScore(q.obs, |q.obs|);
      if best.None? then q else q.(reference := Some(q.obs[best.value].id))
  }

  /** What one frame decides about one point: whether it is retrieved as a candidate, kept in the
      submap, and seen from a new place. */
  datatype Frame = Frame(id: nat, candidate: bool, tracked: bool, add: bool, settled: bool,
                         diff: Difference, scoring: Scoring)

  /** ProcessFrame's steps in order. */
  function ProcessFrame(p: Point, f: Frame): Point
    requires Sound(p) && AllBefore(p, f.id)
  {
    var q := if f.candidate then ChooseReference(p, f.diff) else p;
    if !(f.candidate && f.tracked) then q
    else
      ChooseKeepsSound(p, f.diff);
      var added := f.add && !q.converged;
      var t := UpdateObservations(q, f.add, f.id);
      if added then UpdateReference(t, f.settled, f.scoring) else t
  }

  /** A point made in frame `id`. */
  function NewPoint(id: nat): Point {
    Point([Obs(id, Some(0.0))], None, false)
  }

  // ----- what every frame keeps -----

  /** At most 30 observations, of different frames, at least one; and the reference, when there
      is one, is among them. */
  ghost predicate Sound(p: Point) {
    && 0 < |p.obs| <= MAX_OBS && Distinct(p.obs)
    && (p.reference.Some? ==> p.reference.value in Ids(p.obs))
  }

  ghost predicate AllBefore(p: Point, id: nat) {
    forall o | o in p.obs :: o.id < id
  }

  lemma {:induction false} WithoutMembers(obs: seq<Obs>, id: nat)
    requires Distinct(obs)
    ensures var r := Without(obs, id);
            && Distinct(r) && Ids(r) == Ids(obs) - {id} && (forall o | o in r :: o in obs)
            && |r| == |obs| - if id in Ids(obs) then 1 else 0
  {
    if obs != [] {
      assert obs == [obs[0]] + obs[1..];
      WithoutMembers(obs[1..], id);
      if obs[0].id == id {
        assert id !in Ids(obs[1..]);
      } else {
        var r := Without(obs[1..], id);
        assert ([obs[0]] + r)[1..] == r;
        assert Ids([obs[0]] + r) == {obs[0].id} + Ids(r);
        assert Ids(obs) == {obs[0].id} + Ids(obs[1..]);
        assert obs[0] in obs;
      }
    }
  }

  /** Dropping an observation never leaves a reference behind. */
  lemma DeleteKeepsReference(p: Point, id: nat)
    requires Sound(p)
    ensures var q := Dropped(p, id);
            && Distinct(q.obs) && (q.reference.Some? ==> q.reference.value in Ids(q.obs)) && id !in Ids(q.obs)
            && |q.obs| == |p.obs| - (if id in Ids(p.obs) then 1 else 0) && forall o | o in q.obs :: o in p.obs
  {
    WithoutMembers(p.obs, id);
  }

  lemma {:induction false} OnlyReferenceIs(obs: seq<Obs>, reference: Option<nat>)
    requires Distinct(obs)
    ensures var r := OnlyReference(obs, reference);
            && (forall o | o in r :: o in obs && Some(o.id) == reference)
            && |r| == if reference.Some? && reference.value in Ids(obs) then 1 else 0
  {
    if obs != [] {
      assert obs == [obs[0]] + obs[1..];
      OnlyReferenceIs(obs[1..], reference);
      assert Ids(obs) == {obs[0].id} + Ids(obs[1..]);
      if reference == Some(obs[0].id) {
        assert obs[0].id !in Ids(obs[1..]);
      }
    }
  }

  lemma ChooseKeepsSound(p: Point, diff: Difference)
    requires Sound(p)
    ensures Sound(ChooseReference(p, diff)) && ChooseReference(p, diff).obs == p.obs
  {
    var best := LeastError(p.obs, |p.obs|, diff);
    if best.Some? {
      assert p.obs[best.value] in p.obs;
    }
    assert p.obs[0] in p.obs;
  }

  // ----- the choice of a reference -----

  lemma {:induction false} DifferencesCount(obs: seq<Obs>, id: nat, diff: Difference)
    ensures Differences(obs, id, diff).1 == 0 <==> forall o | o in obs :: o.id == id
  {
    if obs != [] {
      DifferencesCount(obs[..|obs| - 1], id, diff);
      assert obs == obs[..|obs| - 1] + [obs[|obs| - 1]];
    }
  }

  lemma {:induction false} LeastErrorIff(obs: seq<Obs>, k: nat, diff: Difference)
    requires k <= |obs|
    ensures LeastError(obs, k, diff).Some? <==> exists i | 0 <= i < k :: PhotometricError(obs, obs[i].id, diff).Some?
  {
    if k > 0 {
      LeastErrorIff(obs, k - 1, diff);
    }
  }

  /** For a point without a reference the choice among its observations is defined exactly when
      there is one, or when they do not all come from one frame. */
  lemma ChoiceDefinedIff(p: Point, diff: Difference)
    requires p.reference.None?
    ensures ChooseReference(p, diff).reference.Some? <==>
              |p.obs| == 1 || exists a, b | a in p.obs && b in p.obs :: a.id != b.id
  {
    LeastErrorIff(p.obs, |p.obs|, diff);
    if |p.obs| != 1 {
      if a, b :| a in p.obs && b in p.obs && a.id != b.id {
        var i :| 0 <= i < |p.obs| && p.obs[i] == a;
        DifferencesCount(p.obs, p.obs[i].id, diff);
        assert PhotometricError(p.obs, p.obs[i].id, diff).Some?;
      } else {
        forall i | 0 <= i < |p.obs| ensures PhotometricError(p.obs, p.obs[i].id, diff).None? {
          DifferencesCount(p.obs, p.obs[i].id, diff);
          assert p.obs[i] in p.obs;
        }
      }
    }
  }

  /** Every retrieved point gets a reference, and of several observations one that differs least. */
  lemma ChoiceAlwaysDefined(p: Point, diff: Difference)
    requires Sound(p)
    ensures ChooseReference(p, diff).reference.Some?
    ensures p.reference.None? && |p.obs| > 1 ==>
              exists i | 0 <= i < |p.obs| ::
                && ChooseReference(p, diff).reference == Some(p.obs[i].id)
                && PhotometricError(p.obs, p.obs[i].id, diff).Some?
                && forall j | 0 <= j < |p.obs| :: PhotometricError(p.obs, p.obs[j].id, diff).Some? ==>
                     PhotometricError(p.obs, p.obs[i].id, diff).value <=
                       PhotometricError(p.obs, p.obs[j].id, diff).value
  {
    if p.reference.None? {
      ChoiceDefinedIff(p, diff);
      if |p.obs| > 1 {
        assert p.obs[0] in p.obs && p.obs[1] in p.obs && p.obs[0].id != p.obs[1].id by {
          assert p.obs[1..][0] in p.obs[1..];
        }
        LeastErrorLeast(p.obs, |p.obs|, diff);
      }
    }
  }

  lemma {:induction false} LeastErrorLeast(obs: seq<Obs>, k: nat, diff: Difference)
    requires k <= |obs|
    ensures var r := LeastError(obs, k, diff);
            forall j | 0 <= j < k && PhotometricError(obs, obs[j].id, diff).Some? ::
              r.Some? && PhotometricError(obs, obs[r.value].id, diff).value
                        <= PhotometricError(obs, obs[j].id, diff).value
  {
    if k > 0 {
      LeastErrorLeast(obs, k - 1, diff);
    }
  }

  // ----- frames -----

  lemma {:induction false} MinScoreLowest(obs: seq<Obs>, k: nat, best: nat)
    requires best < |obs| && best <= k <= |obs|
    requires forall i | 0 <= i < k && obs[i].score.Some? ::
               obs[best].score.Some? && obs[best].score.value <= obs[i].score.value
    ensures var r := MinScore(obs, k, best);
            forall i | 0 <= i < |obs| && obs[i].score.Some? ::
              obs[r].score.Some? && obs[r].score.value <= obs[i].score.value
    decreases |obs| - k
  {
    if k < |obs| {
      var next := if obs[k].score.Some? && (obs[best].score.None? || obs[k].score.value < obs[best].score.value)
                  then k else best;
      MinScoreLowest(obs, k + 1, next);
    }
  }

  lemma ObservationsKeepSound(p: Point, add: bool, frame: nat)
    requires Sound(p) && AllBefore(p, frame) && (p.converged ==> p.reference.Some?)
    ensures Sound(UpdateObservations(p, add, frame)) && AllBefore(UpdateObservations(p, add, frame), frame + 1)
  {
    if p.converged {
      OnlyReferenceIs(p.obs, p.reference);
      var r := OnlyReference(p.obs, p.reference);
      assert r[0] in r;
    } else {
      var id := p.obs[MinScore(p.obs, 0, 0)].id;
      DeleteKeepsReference(p, id);
      assert p.obs[MinScore(p.obs, 0, 0)] in p.obs;
      var q := if |p.obs| >= MAX_OBS then Dropped(p, id) else p;
      if add {
        AddKeepsSound(q, frame);
      }
    }
  }

  lemma AddKeepsSound(p: Point, frame: nat)
    requires Sound(p) && AllBefore(p, frame) && |p.obs| < MAX_OBS
    ensures Sound(Observed(p, Obs(frame, Some(0.0)))) && AllBefore(Observed(p, Obs(frame, Some(0.0))), frame + 1)
  {
    var o := Obs(frame, Some(0.0));
    assert Ids([o] + p.obs) == {frame} + Ids(p.obs);
    assert ([o] + p.obs)[1..] == p.obs;
  }

  lemma {:induction false} RescoredIds(obs: seq<Obs>, scoring: Scoring)
    ensures Ids(Rescored(obs, scoring)) == Ids(obs)
    ensures Distinct(obs) ==> Distinct(Rescored(obs, scoring))
  {
    if obs != [] {
      RescoredIds(obs[1..], scoring);
      assert Rescored(obs, scoring)[1..] == Rescored(obs[1..], scoring);
    }
    var r := Rescored(obs, scoring);
    forall id | id in Ids(obs) ensures id in Ids(r) {
      var i :| 0 <= i < |obs| && obs[i].id == id;
      assert r[i] in r;
    }
    forall id | id in Ids(r) ensures id in Ids(obs) {
      var i :| 0 <= i < |r| && r[i].id == id;
      assert obs[i] in obs;
    }
  }

  lemma ReferenceKeepsSound(p: Point, settled: bool, scoring: Scoring, frame: nat)
    requires Sound(p) && AllBefore(p, frame)
    ensures Sound(UpdateReference(p, settled, scoring)) && AllBefore(UpdateReference(p, settled, scoring), frame)
  {
    RescoredIds(p.obs, scoring);
    var r := Rescored(p.obs, scoring);
    var best := MaxScore(r, |r|);
    if best.Some? {
      assert r[best.value] in r;
    }
    forall o | o in r ensures o.id < frame {
      assert o.id in Ids(p.obs);
    }
  }

  /** One frame keeps a point sound. */
  lemma FrameKeepsSound(p: Point, f: Frame)
    requires Sound(p) && AllBefore(p, f.id)
    ensures Sound(ProcessFrame(p, f)) && AllBefore(ProcessFrame(p, f), f.id + 1)
  {
    ChooseKeepsSound(p, f.diff);
    ChoiceAlwaysDefined(p, f.diff);
    var q := if f.candidate then ChooseReference(p, f.diff) else p;
    if f.candidate && f.tracked {
      ObservationsKeepSound(q, f.add, f.id);
      ReferenceKeepsSound(UpdateObservations(q, f.add, f.id), f.settled, f.scoring, f.id + 1);
    }
  }

  /** The frames of a run come in order. */
  ghost predicate InOrder(frames: seq<Frame>, from: nat) {
    forall i | 0 <= i < |frames| :: frames[i].id >= from && forall j | i < j < |frames| :: frames[i].id < frames[j].id
  }

  function Run(p: Point, frames: seq<Frame>, from: nat): (q: Point)
    requires Sound(p) && AllBefore(p, from) && InOrder(frames, from)
    ensures Sound(q)
    decreases |frames|
  {
    if frames == [] then p
    else
      var f := frames[0];
      FrameKeepsSound(p, f);
      Run(ProcessFrame(p, f), frames[1..], f.id + 1)
  }

  /** Over any run of frames from its making, a point has between one and 30 observations, all of
      different frames, and its reference, if any, is one of them. */
  lemma RunFromNew(id: nat, frames: seq<Frame>)
    requires InOrder(frames, id + 1)
    ensures Sound(NewPoint(id)) && AllBefore(NewPoint(id), id + 1) && Sound(Run(NewPoint(id), frames, id + 1))
  {
  }

  /** Once a converged point has been tracked it has exactly its reference, for good. */
  lemma {:induction false} ConvergedStays(p: Point, frames: seq<Frame>, from: nat)
    requires Sound(p) && AllBefore(p, from) && InOrder(frames, from)
    requires p.converged && |p.obs| == 1 && p.reference == Some(p.obs[0].id)
    ensures Run(p, frames, from) == p
    decreases |frames|
  {
    if frames != [] {
      FrameKeepsSound(p, frames[0]);
      OnlyReferenceIs(p.obs, p.reference);
      assert OnlyReference(p.obs, p.reference) == p.obs by {
        assert p.obs == [p.obs[0]] && p.obs[1..] == [];
      }
      assert ProcessFrame(p, frames[0]) == p;
      ConvergedStays(p, frames[1..], frames[0].id + 1);
    }
  }

  /** Tracking a converged point leaves its reference as the only observation. */
  lemma ConvergedPrunes(p: Point, f: Frame)
    requires Sound(p) && AllBefore(p, f.id) && p.converged && f.candidate && f.tracked
    ensures var q := ProcessFrame(p, f); |q.obs| == 1 && q.reference == Some(q.obs[0].id) && q.converged
  {
    ChooseKeepsSound(p, f.diff);
    ChoiceAlwaysDefined(p, f.diff);
    var c := ChooseReference(p, f.diff);
    OnlyReferenceIs(c.obs, c.reference);
    var r := OnlyReference(c.obs, c.reference);
    assert r[0] in r;
  }

  /** A full point that is tracked gives up an observation no other scores below. */
  lemma FullDropsLowest(p: Point, frame: nat)
    requires Sound(p) && AllBefore(p, frame) && !p.converged && |p.obs| == MAX_OBS
    ensures var q := UpdateObservations(p, false, frame);
            exists i | 0 <= i < |p.obs| ::
              && Ids(q.obs) == Ids(p.obs) - {p.obs[i].id} && |q.obs| == MAX_OBS - 1
              && forall j | 0 <= j < |p.obs| && p.obs[j].score.Some? ::
                   p.obs[i].score.Some? && p.obs[i].score.value <= p.obs[j].score.value
  {
    var i := MinScore(p.obs, 0, 0);
    MinScoreLowest(p.obs, 0, 0);
    assert p.obs[i] in p.obs;
    WithoutMembers(p.obs, p.obs[i].id);
    var q := UpdateObservations(p, false, frame);
    assert Ids(q.obs) == Ids(p.obs) - {p.obs[i].id};
  }

  lemma {:induction false} MaxScoreHighest(obs: seq<Obs>, k: nat)
    requires k <= |obs|
    ensures var r := MaxScore(obs, k);
            forall j | 0 <= j < k && obs[j].score.Some? && obs[j].score.value > LOWEST ::
              r.Some? && obs[j].score.value <= obs[r.value].score.value
  {
    if k > 0 {
      MaxScoreHighest(obs, k - 1);
    }
  }

  /** A point that gained an observation and has more than five takes as reference one that no
      other scores above, unless none has a score; then the reference stays. */
  lemma ReferenceIsBest(p: Point, settled: bool, scoring: Scoring)
    requires Sound(p) && !p.converged && |p.obs| > 5
    requires forall o | o in p.obs :: scoring(o.id).Some? ==> scoring(o.id).value > LOWEST
    ensures var q := UpdateReference(p, settled, scoring);
            if exists o :: o in p.obs && scoring(o.id).Some?
            then exists o :: o in p.obs && q.reference == Some(o.id) && scoring(o.id).Some?
                             && forall x | x in p.obs && scoring(x.id).Some? ::
                                scoring(x.id).value <= scoring(o.id).value
            else q.reference == p.reference
  {
    var r := Rescored(p.obs, scoring);
    var best := MaxScore(r, |r|);
    MaxScoreHighest(r, |r|);
    forall x | x in p.obs && scoring(x.id).Some?
      ensures best.Some? && scoring(x.id).value <= r[best.value].score.value
    {
      var i :| 0 <= i < |p.obs| && p.obs[i] == x;
      assert r[i].score == scoring(x.id);
    }
    if best.Some? {
      assert p.obs[best.value] in p.obs && r[best.value].score == scoring(p.obs[best.value].id);
    }
  }

  // ----- the point in place -----

  /** A Feature: the frame it comes from and its score. */
  class Feature {
    const id: nat
    var score: Option<real>

    constructor (id: nat)
      ensures this.id == id && score == Some(0.0)
    {
      this.id, score := id, Some(0.0);
    }
  }

  lemma {:induction false} WithoutAt(obs: seq<Obs>, i: nat)
    requires i < |obs| && forall j | 0 <= j < i :: obs[j].id != obs[i].id
    ensures Without(obs, obs[i].id) == obs[..i] + obs[i + 1..]
  {
    if i > 0 {
      WithoutAt(obs[1..], i - 1);
      assert obs[1..][..i - 1] == obs[1..i] && obs[1..][i..] == obs[i + 1..];
      assert [obs[0]] + obs[1..i] == obs[..i];
    }
  }

  lemma {:induction false} WithoutAbsent(obs: seq<Obs>, id: nat)
    requires forall i | 0 <= i < |obs| :: obs[i].id != id
    ensures Without(obs, id) == obs
  {
    if obs != [] {
      WithoutAbsent(obs[1..], id);
    }
  }

  lemma {:induction false} OnlyReferencePush(obs: seq<Obs>, o: Obs, reference: Option<nat>)
    ensures OnlyReference(obs + [o], reference)
         == OnlyReference(obs, reference) + if reference == Some(o.id) then [o] else []
  {
    if obs == [] {
      assert [] + [o] == [o] && [o][1..] == [];
    } else {
      OnlyReferencePush(obs[1..], o, reference);
      assert (obs + [o])[1..] == obs[1..] + [o];
    }
  }

  lemma DifferencesPush(obs: seq<Obs>, k: nat, id: nat, diff: Difference)
    requires k < |obs|
    ensures Differences(obs[..k + 1], id, diff)
         == var (sum, count) := Differences(obs[..k], id, diff);
            if obs[k].id == id then (sum, count) else (sum + diff(id, obs[k].id), count + 1)
  {
    assert obs[..k + 1][..k] == obs[..k];
  }

  /** The list without its first `x`. */
  function Erased<T(==)>(l: seq<T>, x: T): seq<T> {
    if x in l then RemoveAt(l, IndexOf(l, x)) else l
  }

  lemma FirstIndex<T>(l: seq<T>, i: nat)
    requires i < |l| && l[i] !in l[..i]
    ensures IndexOf(l, l[i]) == i
  {
    forall k | 0 <= k < i ensures l[k] != l[i] { assert l[..i][k] in l[..i]; }
  }

  /** Without the one observation from its frame. */
  lemma WithoutOne(obs: seq<Obs>, i: nat)
    requires i < |obs| && Distinct(obs)
    ensures Without(obs, obs[i].id) == RemoveAt(obs, i) && Distinct(RemoveAt(obs, i))
  {
    forall j | 0 <= j < i ensures obs[j].id != obs[i].id { DistinctAt(obs, j, i); }
    WithoutAt(obs, i);
    WithoutMembers(obs, obs[i].id);
  }

  class VisualPoint {
    var obs: seq<Feature>
    var refPatch: Feature?
    var hasRefPatch: bool
    var isConverged: bool

    /** The observations as values. */
    ghost var shown: seq<Obs>
    /** Features that have been deleted. */
    ghost var deleted: set<Feature>

    /** No observation has been deleted or is listed twice, nor has the reference been deleted,
        which is one of them. */
    ghost predicate ListValid()
      reads `obs, `refPatch, `hasRefPatch, `deleted, `shown
    {
      && |shown| == |obs| && NoDuplicates(obs)
      && (forall i | 0 <= i < |obs| :: shown[i].id == obs[i].id)
      && (forall f | f in obs :: f !in deleted)
      && (hasRefPatch <==> refPatch != null)
      && (refPatch != null ==> refPatch in obs)
    }

    ghost predicate Owned()
      reads this, obs
    {
      ListValid() && forall i | 0 <= i < |obs| :: shown[i].score == obs[i].score
    }

    /** And the observations come from different frames. */
    ghost predicate Valid()
      reads this, obs
    {
      Owned() && Distinct(shown)
    }

    ghost function View(): Point
      reads this
    {
      Point(shown, if refPatch == null then None else Some(refPatch.id), isConverged)
    }

    constructor (first: Feature)
      requires first.score == Some(0.0)
      ensures Valid() && View() == NewPoint(first.id)
    {
      obs, refPatch, hasRefPatch, isConverged, deleted := [first], null, false, false, {};
      shown := [Obs(first.id, Some(0.0))];
    }

    /** Any feature that is not listed may be added; one of a new frame keeps the frames apart. */
    method AddFrameRef(ftr: Feature)
      requires Owned() && ftr !in deleted && ftr !in obs
      modifies `obs, `shown
      ensures Owned() && obs == [ftr] + old(obs) && View() == Observed(old(View()), Obs(ftr.id, ftr.score))
      ensures old(Valid()) && ftr.id !in Ids(old(shown)) ==> Valid()
    {
      ConsDistinct(ftr, obs);
      assert ([Obs(ftr.id, ftr.score)] + shown)[1..] == shown;
      obs := [ftr] + obs;
      shown := [Obs(ftr.id, ftr.score)] + shown;
    }

    /** The feature itself is dropped, whatever frame it and the others come from. Where frames
        are apart it is told by its frame. */
    method DeleteFeatureRef(ftr: Feature)
      requires Owned()
      modifies `obs, `refPatch, `hasRefPatch, `deleted, `shown
      ensures Owned() && obs == Erased(old(obs), ftr)
              && refPatch == (if old(refPatch) == ftr then null else old(refPatch))
      ensures deleted == old(deleted) + if ftr in old(obs) then {ftr} else {}
      ensures old(Valid()) ==> Valid() && (ftr in old(obs) ==> View() == Dropped(old(View()), ftr.id))
    {
      if Distinct(shown) && ftr in obs { IdsApart(ftr); }
      if refPatch == ftr {
        refPatch := null;
        hasRefPatch := false;
      }
      EraseFirst(ftr);
    }

    method EraseFirst(ftr: Feature)
      requires Owned() && ftr != refPatch
      modifies `obs, `deleted, `shown
      ensures Owned() && obs == Erased(old(obs), ftr)
      ensures deleted == old(deleted) + if ftr in old(obs) then {ftr} else {}
      ensures old(Valid()) ==> Valid() && (ftr in old(obs) ==> shown == Without(old(shown), ftr.id))
    {
      for i := 0 to |obs|
        invariant unchanged(this) && Owned() && ftr !in obs[..i]
      {
        if obs[i] == ftr {
          assert IndexOf(obs, ftr) == i by { FirstIndex(obs, i); }
          if Distinct(shown) { WithoutOne(shown, i); }
          EraseAt(i);
          return;
        }
      }
      assert obs[..|obs|] == obs;
    }

    method EraseAt(i: nat)
      requires Owned() && i < |obs| && obs[i] != refPatch
      modifies `obs, `deleted, `shown
      ensures Owned() && deleted == old(deleted) + {old(obs)[i]}
      ensures obs == RemoveAt(old(obs), i) && shown == RemoveAt(old(shown), i)
      ensures old(Valid()) ==> Valid()
    {
      if Distinct(shown) { WithoutOne(shown, i); }
      deleted := deleted + {obs[i]};
      obs := RemoveAt(obs, i);
      shown := RemoveAt(shown, i);
      ListErased(i);
    }

    twostate lemma ListErased(i: nat)
      requires old(ListValid()) && i < |old(obs)| && old(obs)[i] != old(refPatch)
      requires obs == RemoveAt(old(obs), i) && shown == RemoveAt(old(shown), i)
      requires deleted == old(deleted) + {old(obs)[i]} && unchanged(`refPatch) && unchanged(`hasRefPatch)
      ensures ListValid()
    {
      RemoveAtMembers(old(obs), i);
    }

    method FindMinScoreFeature() returns (ftr: Feature)
      requires Valid() && obs != []
      ensures ftr == obs[MinScore(shown, 0, 0)]
    {
      var minIt, minScore := 0, None;
      for i := 0 to |obs|
        invariant minIt < |obs|
        invariant minScore.Some? ==> obs[minIt].score == minScore
        invariant minScore.None? ==> minIt == 0 && (i > 0 ==> obs[0].score.None?)
        invariant MinScore(shown, i, minIt) == MinScore(shown, 0, 0)
      {
        if obs[i].score.Some? && (minScore.None? || obs[i].score.value < minScore.value) {
          minScore := obs[i].score;
          minIt := i;
        }
      }
      ftr := obs[minIt];
    }

    method DeleteNonRefPatchFeatures()
      requires Valid()
      modifies `obs, `deleted, `shown
      ensures Valid() && View() == Pruned(old(View()))
    {
      var it: nat := 0;
      ghost var n: nat, was, reference := 0, shown, View().reference;
      while it < |obs|
        invariant Valid() && PrunedTo(shown, it, was, n, reference)
        decreases |was| - n
      {
        it := PruneAt(it, was, n, reference);
        n := n + 1;
      }
      PruningDone(shown, it, was, n, reference);
    }

    /** Pass the reference, erase any other observation. */
    method PruneAt(it: nat, ghost was: seq<Obs>, ghost n: nat, ghost reference: Option<nat>) returns (next: nat)
      requires Valid() && it < |obs| && reference == View().reference && PrunedTo(shown, it, was, n, reference)
      modifies `obs, `deleted, `shown
      ensures Valid() && n < |was| && PrunedTo(shown, next, was, n + 1, reference)
    {
      PruningStep(shown, it, was, n, reference);
      if obs[it] != refPatch {
        SameId(it);
        EraseAt(it);
        next := it;
      } else {
        next := it + 1;
      }
    }

    // vio.cpp, for one point

    /** The choice in RetrieveFromVisualSparseMapLRU. */
    method RetrieveReference(diff: Difference)
      requires Valid() && obs != []
      modifies `refPatch, `hasRefPatch
      ensures Valid() && View() == ChooseReference(old(View()), diff) && hasRefPatch
    {
      if |obs| == 1 {
        SetReference(0);
      } else if !hasRefPatch {
        LeastIsDefined(shown, diff);
        var best := LeastDifferent(diff);
        SetReference(best);
      }
    }

    method LeastDifferent(diff: Difference) returns (best: nat)
      requires Valid() && LeastError(shown, |shown|, diff).Some?
      ensures best < |obs| && LeastError(shown, |shown|, diff) == Some(best)
    {
      best := 0;
      var least: Option<real> := None;
      for it := 0 to |obs|
        invariant LeastError(shown, it, diff) == if least.Some? then Some(best) else None
        invariant least.Some? ==> best < it && PhotometricError(shown, shown[best].id, diff) == least
      {
        var e := MeanDifference(it, diff);
        if e.Some? && (least.None? || e.value < least.value) {
          least, best := e, it;
        }
      }
    }

    /** The quotient is not a number when there is nothing to divide by. */
    method MeanDifference(it: nat, diff: Difference) returns (mean: Option<real>)
      requires Valid() && it < |obs|
      ensures mean == PhotometricError(shown, shown[it].id, diff)
    {
      var errors, count: nat := 0.0, 0;
      for itm := 0 to |obs|
        invariant (errors, count) == Differences(shown[..itm], shown[it].id, diff)
      {
        DifferencesPush(shown, itm, shown[it].id, diff);
        if obs[itm].id == obs[it].id {
          continue;
        }
        errors := errors + diff(obs[it].id, obs[itm].id);
        count := count + 1;
      }
      assert shown[..|obs|] == shown;
      mean := if count == 0 then None else Some(errors / (count as real));
    }

    /** UpdateVisualMapPoints. */
    method UpdateVisualMapPoint(add: bool, frame: nat)
      requires Valid() && (isConverged || obs != []) && (add ==> frame !in Ids(shown))
      modifies `obs, `refPatch, `hasRefPatch, `deleted, `shown
      ensures Valid() && View() == UpdateObservations(old(View()), add, frame)
    {
      if isConverged {
        DeleteNonRefPatchFeatures();
        return;
      }
      MakeRoom();
      if add {
        AddObservation(frame);
      }
    }

    method MakeRoom()
      requires Valid() && obs != []
      modifies `obs, `refPatch, `hasRefPatch, `deleted, `shown
      ensures Valid() && View() == Relieved(old(View())) && Ids(shown) <= Ids(old(shown))
    {
      if |obs| >= MAX_OBS {
        var worst := FindMinScoreFeature();
        WithoutMembers(shown, worst.id);
        DeleteFeatureRef(worst);
      }
    }

    method AddObservation(frame: nat)
      requires Valid() && frame !in Ids(shown)
      modifies `obs, `shown
      ensures Valid() && View() == Observed(old(View()), Obs(frame, Some(0.0)))
    {
      var ftr := new Feature(frame);
      AddFrameRef(ftr);
    }

    /** UpdateReferencePatch, for a point that gained an observation. */
    method UpdateReferencePatch(settled: bool, scoring: Scoring)
      requires Valid()
      modifies `refPatch, `hasRefPatch, `isConverged, `shown, obs
      ensures Valid() && View() == UpdateReference(old(View()), settled, scoring) && obs == old(obs)
    {
      if isConverged || |obs| <= 5 {
        return;
      }
      isConverged := settled && |obs| > 10;
      var best := Rescore(scoring);
      if best.Some? {
        SetReference(best.value);
      }
    }

    method SetReference(i: nat)
      requires Valid() && i < |obs|
      modifies `refPatch, `hasRefPatch
      ensures Valid() && View() == old(View()).(reference := Some(shown[i].id))
    {
      refPatch := obs[i];
      hasRefPatch := true;
    }

    /** Score every observation anew, and find the first of the highest. */
    method Rescore(scoring: Scoring) returns (best: Option<nat>)
      requires Valid()
      modifies `shown, obs
      ensures Valid() && shown == Rescored(old(shown), scoring)
      ensures best == MaxScore(shown, |shown|)
    {
      RescoredIds(shown, scoring);
      ghost var now := Rescored(shown, scoring);
      best := ScoreAll(scoring, now);
      shown := now;
    }

    method ScoreAll(scoring: Scoring, ghost now: seq<Obs>) returns (best: Option<nat>)
      requires NoDuplicates(obs) && |now| == |obs| && forall j | 0 <= j < |obs| :: now[j].score == scoring(obs[j].id)
      modifies obs
      ensures best == MaxScore(now, |now|) && forall j | 0 <= j < |obs| :: obs[j].score == now[j].score
    {
      var scoreMax := LOWEST;
      best := None;
      for i := 0 to |obs|
        invariant forall j | 0 <= j < i :: obs[j].score == now[j].score
        invariant best == MaxScore(now, i)
        invariant scoreMax == if best.Some? then now[best.value].score.value else LOWEST
      {
        SetScore(i, scoring(obs[i].id));
        if obs[i].score.Some? && obs[i].score.value > scoreMax {
          scoreMax := obs[i].score.value;
          best := Some(i);
        }
      }
    }

    method SetScore(i: nat, score: Option<real>)
      requires NoDuplicates(obs) && i < |obs|
      modifies obs[i]
      ensures obs[i].score == score && forall j | 0 <= j < |obs| && j != i :: obs[j].score == old(obs[j].score)
    {
      forall j | 0 <= j < |obs| && j != i ensures obs[j] != obs[i] { Apart(obs, i, j); }
      obs[i].score := score;
    }

    /** An observation is the only one from its frame. */
    lemma IdsApart(ftr: Feature)
      requires ListValid() && Distinct(shown) && ftr in obs
      ensures forall f | f in obs :: f.id == ftr.id ==> f == ftr
    {
      var i :| 0 <= i < |obs| && obs[i] == ftr;
      forall f | f in obs && f != ftr ensures f.id != ftr.id {
        var j :| 0 <= j < |obs| && obs[j] == f;
        if i < j { DistinctAt(shown, i, j); } else { DistinctAt(shown, j, i); }
      }
    }

    /** Only the reference itself has the reference's frame. */
    lemma SameId(i: nat)
      requires ListValid() && Distinct(shown) && i < |obs| && obs[i] != refPatch
      ensures refPatch != null ==> shown[i].id != refPatch.id
    {
      if refPatch != null {
        var j :| 0 <= j < |obs| && obs[j] == refPatch;
        if i < j { DistinctAt(shown, i, j); } else { DistinctAt(shown, j, i); }
      }
    }
  }

  lemma LeastIsDefined(obs: seq<Obs>, diff: Difference)
    requires Distinct(obs) && |obs| > 1
    ensures LeastError(obs, |obs|, diff).Some?
  {
    DistinctAt(obs, 0, 1);
    DifferencesCount(obs, obs[0].id, diff);
    assert obs[1] in obs;
    assert PhotometricError(obs, obs[0].id, diff).Some?;
    LeastErrorIff(obs, |obs|, diff);
  }

  /** The list while it is pruned: the kept part of the first `n` observations, which have been
      passed, and the others. */
  ghost predicate PrunedTo(list: seq<Obs>, it: nat, was: seq<Obs>, n: nat, reference: Option<nat>) {
    n <= |was| && list == OnlyReference(was[..n], reference) + was[n..] && it == |OnlyReference(was[..n], reference)|
  }

  lemma PruningStep(list: seq<Obs>, it: nat, was: seq<Obs>, n: nat, reference: Option<nat>)
    requires PrunedTo(list, it, was, n, reference) && it < |list|
    ensures n < |was| && list[it] == was[n]
    ensures if reference == Some(was[n].id) then PrunedTo(list, it + 1, was, n + 1, reference)
            else PrunedTo(RemoveAt(list, it), it, was, n + 1, reference)
  {
    OnlyReferencePush(was[..n], was[n], reference);
    assert was[..n] + [was[n]] == was[..n + 1] && was[n..] == [was[n]] + was[n + 1..];
  }

  lemma PruningDone(list: seq<Obs>, it: nat, was: seq<Obs>, n: nat, reference: Option<nat>)
    requires PrunedTo(list, it, was, n, reference) && it >= |list|
    ensures list == OnlyReference(was, reference)
  {
    assert was[..n] == was;
  }
}
