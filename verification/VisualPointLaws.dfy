/** What one frame does to the observations of a point, in full: which one goes, which one comes,
    how they are scored, and which becomes the reference. */
module VisualPointLaws {
  import opened Common
  import opened Sequences
  import opened VisualPoints

  // ----- the lowest, the highest, the least -----

  /** Nothing scores below observation `i`, and what is before it scores above; without any score it
      is the first. */
  ghost predicate FirstLowest(obs: seq<Obs>, i: nat) {
    && i < |obs|
    && (forall j | 0 <= j < |obs| && obs[j].score.Some? ::
          obs[i].score.Some? && obs[i].score.value <= obs[j].score.value)
    && (forall j | 0 <= j < i && obs[j].score.Some? :: obs[i].score.value < obs[j].score.value)
    && (obs[i].score.None? ==> i == 0)
  }

  lemma {:induction false} MinScoreFirst(obs: seq<Obs>, k: nat, best: nat)
    requires best < |obs| && k <= |obs| && (best < k || k == best == 0)
    requires forall i | 0 <= i < k && obs[i].score.Some? ::
               obs[best].score.Some? && obs[best].score.value <= obs[i].score.value
    requires forall i | 0 <= i < best && obs[i].score.Some? ::
               obs[best].score.Some? && obs[best].score.value < obs[i].score.value
    requires obs[best].score.None? ==> best == 0
    ensures FirstLowest(obs, MinScore(obs, k, best))
    decreases |obs| - k
  {
    if k < |obs| {
      var next := if obs[k].score.Some? && (obs[best].score.None? || obs[k].score.value < obs[best].score.value)
                  then k else best;
      MinScoreFirst(obs, k + 1, next);
    }
  }

  /** Observation `i` has the first of the highest scores above -1000. */
  ghost predicate FirstHighest(obs: seq<Obs>, i: nat) {
    && i < |obs| && obs[i].score.Some? && obs[i].score.value > -1000.0
    && (forall j | 0 <= j < |obs| && obs[j].score.Some? :: obs[j].score.value <= obs[i].score.value)
    && (forall j | 0 <= j < i && obs[j].score.Some? :: obs[j].score.value < obs[i].score.value)
  }

  predicate Scores(o: Obs) {
    o.score.Some? && o.score.value > -1000.0
  }

  lemma {:induction false} MaxScoreFirst(obs: seq<Obs>, k: nat)
    requires k <= |obs|
    ensures var r := MaxScore(obs, k);
            if r.Some? then FirstHighest(obs[..k], r.value) else forall j | 0 <= j < k :: !Scores(obs[j])
  {
    if k > 0 {
      MaxScoreFirst(obs, k - 1);
      assert forall j | 0 <= j < k - 1 :: obs[..k - 1][j] == obs[j] == obs[..k][j];
    }
  }

  /** Observation `i` is the first of those that differ least, on average, from the others. */
  ghost predicate FirstLeast(obs: seq<Obs>, i: nat, diff: Difference) {
    && i < |obs| && PhotometricError(obs, obs[i].id, diff).Some?
    && var e := PhotometricError(obs, obs[i].id, diff).value;
       forall j | 0 <= j < |obs| && PhotometricError(obs, obs[j].id, diff).Some? ::
         e <= PhotometricError(obs, obs[j].id, diff).value
         && (j < i ==> e < PhotometricError(obs, obs[j].id, diff).value)
  }

  lemma {:induction false} LeastErrorFirst(obs: seq<Obs>, k: nat, diff: Difference)
    requires k <= |obs|
    ensures var r := LeastError(obs, k, diff);
            forall j | 0 <= j < k && PhotometricError(obs, obs[j].id, diff).Some? ::
              && r.Some?
              && PhotometricError(obs, obs[r.value].id, diff).value <= PhotometricError(obs, obs[j].id, diff).value
              && (j < r.value ==>
                   PhotometricError(obs, obs[r.value].id, diff).value < PhotometricError(obs, obs[j].id, diff).value)
  {
    if k > 0 { LeastErrorFirst(obs, k - 1, diff); }
  }

  // ----- the mean difference -----

  function SumOf(id: nat, others: seq<Obs>, diff: Difference): real {
    if others == [] then 0.0 else diff(id, others[0].id) + SumOf(id, others[1..], diff)
  }

  lemma {:induction false} SumPush(id: nat, others: seq<Obs>, o: Obs, diff: Difference)
    ensures SumOf(id, others + [o], diff) == SumOf(id, others, diff) + diff(id, o.id)
  {
    if others == [] {
      assert [o][1..] == [];
    } else {
      SumPush(id, others[1..], o, diff);
      assert (others + [o])[1..] == others[1..] + [o];
    }
  }

  lemma {:induction false} DifferencesOfOthers(others: seq<Obs>, id: nat, diff: Difference)
    requires forall o | o in others :: o.id != id
    ensures Differences(others, id, diff) == (SumOf(id, others, diff), |others|)
  {
    if others != [] {
      var n := |others| - 1;
      DifferencesOfOthers(others[..n], id, diff);
      SumPush(id, others[..n], others[n], diff);
      assert others[..n] + [others[n]] == others;
    }
  }

  lemma {:induction false} DifferencesWithout(a: seq<Obs>, o: Obs, b: seq<Obs>, diff: Difference)
    ensures Differences(a + [o] + b, o.id, diff) == Differences(a + b, o.id, diff)
    decreases |b|
  {
    if b == [] {
      assert a + b == a && (a + [o] + b)[..|a|] == a && a + [o] + b == a + [o];
    } else {
      var n := |b| - 1;
      DifferencesWithout(a, o, b[..n], diff);
      assert (a + [o] + b)[..|a| + 1 + n] == a + [o] + b[..n] && (a + b)[..|a| + n] == a + b[..n];
    }
  }

  lemma OthersDiffer(obs: seq<Obs>, i: nat)
    requires Distinct(obs) && i < |obs|
    ensures forall o | o in RemoveAt(obs, i) :: o.id != obs[i].id
  {
    forall j | 0 <= j < |obs| && j != i ensures obs[j].id != obs[i].id {
      DistinctAt(obs, if i < j then i else j, if i < j then j else i);
    }
  }

  lemma SplitAt(obs: seq<Obs>, i: nat)
    requires i < |obs|
    ensures obs == obs[..i] + [obs[i]] + obs[i + 1..] && RemoveAt(obs, i) == obs[..i] + obs[i + 1..]
  {
  }

  /** Of observations from different frames the error of one is its mean difference from all others. */
  lemma ErrorIsMean(obs: seq<Obs>, i: nat, diff: Difference)
    requires Distinct(obs) && i < |obs|
    ensures PhotometricError(obs, obs[i].id, diff)
         == if |obs| == 1 then None
            else Some(SumOf(obs[i].id, RemoveAt(obs, i), diff) / ((|obs| - 1) as real))
  {
    OthersDiffer(obs, i);
    DifferencesOfOthers(RemoveAt(obs, i), obs[i].id, diff);
    assert Differences(obs, obs[i].id, diff) == Differences(RemoveAt(obs, i), obs[i].id, diff) by {
      SplitAt(obs, i);
      DifferencesWithout(obs[..i], obs[i], obs[i + 1..], diff);
    }
  }

  /** The choice in full: the only observation; else the reference there is; else the first of those
      that differ least. */
  lemma ChoiceIs(p: Point, diff: Difference)
    requires Sound(p)
    ensures var q := ChooseReference(p, diff);
            && q == p.(reference := q.reference)
            && if |p.obs| == 1 then q.reference == Some(p.obs[0].id)
               else if p.reference.Some? then q.reference == p.reference
               else exists i: nat :: FirstLeast(p.obs, i, diff) && q.reference == Some(p.obs[i].id)
  {
    if |p.obs| > 1 && p.reference.None? {
      ChoiceAlwaysDefined(p, diff);
      LeastErrorFirst(p.obs, |p.obs|, diff);
      assert FirstLeast(p.obs, LeastError(p.obs, |p.obs|, diff).value, diff);
    }
  }

  // ----- adding and dropping -----

  /** The step of a tracked point that has not converged, in full: with 30 observations the first of
      the lowest scores goes, and the reference with it if it is that one; a new one goes to the front,
      scored 0; all others stay, in order, as they are. */
  lemma ObservationsAre(p: Point, add: bool, frame: nat) returns (i: nat)
    requires Sound(p) && !p.converged
    ensures FirstLowest(p.obs, i)
    ensures var q := UpdateObservations(p, add, frame);
            && q.obs == (if add then [Obs(frame, Some(0.0))] else [])
                        + (if |p.obs| < 30 then p.obs else RemoveAt(p.obs, i))
            && q.reference == (if |p.obs| >= 30 && p.reference == Some(p.obs[i].id) then None else p.reference)
            && !q.converged
  {
    i := MinScore(p.obs, 0, 0);
    MinScoreFirst(p.obs, 0, 0);
    WithoutOne(p.obs, i);
  }

  // ----- rescoring -----

  /** The last step of a point that gained an observation, in full: beyond five observations each is
      scored anew, the point converges exactly when its normal has settled and it has more than ten,
      and the first of the highest scores above -1000 becomes the reference, if there is one. */
  lemma ReferenceIs(p: Point, settled: bool, scoring: Scoring)
    requires !p.converged
    ensures var q := UpdateReference(p, settled, scoring);
            if |p.obs| <= 5 then q == p
            else
              && |q.obs| == |p.obs|
              && (forall i | 0 <= i < |p.obs| :: q.obs[i] == Obs(p.obs[i].id, scoring(p.obs[i].id)))
              && (q.converged <==> settled && |p.obs| > 10)
              && if exists o :: o in q.obs && Scores(o)
                 then exists i: nat :: FirstHighest(q.obs, i) && q.reference == Some(q.obs[i].id)
                 else q.reference == p.reference
  {
    var r := Rescored(p.obs, scoring);
    MaxScoreFirst(r, |r|);
    assert r[..|r|] == r;
    var best := MaxScore(r, |r|);
    if best.Some? {
      assert r[best.value] in r && Scores(r[best.value]);
      assert FirstHighest(r, best.value);
    }
  }

  // ----- a frame -----

  /** A frame that does not track the point changes nothing but, if it retrieved it, the choice of its
      reference; one that tracks it adds an observation exactly when it is to and the point has not
      converged, and no other observation comes in. */
  lemma FrameAdds(p: Point, f: Frame)
    requires Sound(p) && AllBefore(p, f.id)
    ensures var q, c := ProcessFrame(p, f), ChooseReference(p, f.diff);
            && (!f.candidate ==> q == p)
            && (f.candidate && !f.tracked ==> q == c)
            && (f.id in Ids(q.obs) <==> f.candidate && f.tracked && f.add && !p.converged)
            && Ids(q.obs) <= Ids(p.obs) + {f.id}
            && (p.converged ==> q.converged)
  {
    forall id | id in Ids(p.obs) ensures id < f.id { }
    if f.candidate && f.tracked {
      var c := ChooseReference(p, f.diff);
      ChooseKeepsSound(p, f.diff);
      if p.converged {
        OnlyReferenceIs(c.obs, c.reference);
        PrunedIds(c);
      } else {
        TrackedIds(c, f);
      }
    }
  }

  lemma PrunedIds(p: Point)
    requires Sound(p)
    ensures Ids(Pruned(p).obs) <= Ids(p.obs)
  {
    OnlyReferenceIs(p.obs, p.reference);
  }

  lemma ObservedIds(c: Point, add: bool, id: nat)
    requires Sound(c) && AllBefore(c, id) && !c.converged
    ensures var t := UpdateObservations(c, add, id);
            (id in Ids(t.obs) <==> add) && Ids(t.obs) <= Ids(c.obs) + {id}
  {
    var i := ObservationsAre(c, add, id);
    var t := UpdateObservations(c, add, id);
    if add { assert t.obs[0] == Obs(id, Some(0.0)) && t.obs[0] in t.obs; }
    forall o | o in t.obs ensures o in c.obs || (add && o.id == id) { }
  }

  lemma TrackedIds(c: Point, f: Frame)
    requires Sound(c) && AllBefore(c, f.id) && !c.converged
    ensures var t := UpdateObservations(c, f.add, f.id);
            var q := if f.add then UpdateReference(t, f.settled, f.scoring) else t;
            (f.id in Ids(q.obs) <==> f.add) && Ids(q.obs) <= Ids(c.obs) + {f.id}
  {
    ObservedIds(c, f.add, f.id);
    RescoredIds(UpdateObservations(c, f.add, f.id).obs, f.scoring);
  }
}
