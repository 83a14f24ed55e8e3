/** Point-to-plane matching: the search of BuildSingleResidual through one voxel's octree,
    and what it finds among all plane nodes of the tree. */
module OctreeResidual {
  import opened VoxelTypes
  import opened OctreeSpec

  /** The distance tests and the probability of one point against one plane. */
  datatype Score = Rejected | Accepted(prob: real)
  type Scorer = (PointWithVar, Plane) -> Score

  datatype Candidate = Candidate(plane: Plane, layer: nat)
  datatype Choice = NoChoice | Chosen(candidate: Candidate)

  /** The in-out parameters is_sucess, prob and single_ptpl. */
  datatype Match = Match(success: bool, prob: real, best: Choice)

  const START := Match(false, 0.0, NoChoice)

  ghost predicate PositiveScores(score: Scorer) {
    forall pv, plane :: score(pv, plane).Accepted? ==> score(pv, plane).prob > 0.0
  }

  /** One plane: success is set by acceptance, the match replaced by a better probability. */
  function Consider(score: Scorer, pv: PointWithVar, c: Candidate, m: Match): Match {
    match score(pv, c.plane)
    case Rejected => m
    case Accepted(p) => if p > m.prob then Match(true, p, Chosen(c)) else m.(success := true)
  }

  /** BuildSingleResidual. */
  function Residual(score: Scorer, maxLayer: nat, pv: PointWithVar, t: Tree, layer: nat, m: Match): Match
    decreases t, if t.Node? then |t.kids| + 1 else 0
  {
    if t.Absent? then m
    else if t.plane.isPlane then Consider(score, pv, Candidate(t.plane, layer), m)
    else if layer < maxLayer then ResidualKids(score, maxLayer, pv, t, |t.kids|, layer, m)
    else m
  }

  /** The loop over the first `n` leaves. */
  function ResidualKids(score: Scorer, maxLayer: nat, pv: PointWithVar, t: Tree, n: nat, layer: nat, m: Match): Match
    requires t.Node? && n <= |t.kids|
    decreases t, n
  {
    if n == 0 then m
    else Residual(score, maxLayer, pv, t.kids[n - 1], layer + 1,
                  ResidualKids(score, maxLayer, pv, t, n - 1, layer, m))
  }

  /** Every plane node of the tree, parents first, children in leaf order. */
  function PlaneNodes(t: Tree, layer: nat): seq<Candidate>
    decreases t, if t.Node? then |t.kids| + 1 else 0
  {
    if t.Absent? then []
    else (if t.plane.isPlane then [Candidate(t.plane, layer)] else []) + PlanesBelow(t, |t.kids|, layer)
  }

  function PlanesBelow(t: Tree, n: nat, layer: nat): seq<Candidate>
    requires t.Node? && n <= |t.kids|
    decreases t, n
  {
    if n == 0 then [] else PlanesBelow(t, n - 1, layer) + PlaneNodes(t.kids[n - 1], layer + 1)
  }

  /** PlaneNodes misses no plane node and lists nothing else. */
  lemma {:induction false} PlaneNodesComplete(t: Tree, layer: nat, path: seq<nat>)
    requires NodeAt(t, path).Node? && NodeAt(t, path).plane.isPlane
    ensures Candidate(NodeAt(t, path).plane, layer + |path|) in PlaneNodes(t, layer)
    decreases |path|
  {
    if path != [] {
      PlaneNodesComplete(t.kids[path[0]], layer + 1, path[1..]);
      PlanesBelowMonotone(t, path[0] + 1, |t.kids|, layer);
      var c := Candidate(NodeAt(t, path).plane, layer + |path|);
      assert c in PlaneNodes(t.kids[path[0]], layer + 1);
      assert c in PlanesBelow(t, path[0] + 1, layer);
      assert c in PlanesBelow(t, |t.kids|, layer);
    }
  }

  lemma {:induction false} PlanesBelowMonotone(t: Tree, m: nat, n: nat, layer: nat)
    requires t.Node? && m <= n <= |t.kids|
    ensures PlanesBelow(t, m, layer) <= PlanesBelow(t, n, layer)
    decreases n
  {
    if m < n { PlanesBelowMonotone(t, m, n - 1, layer); }
  }

  lemma {:induction false} PlaneNodesSound(t: Tree, layer: nat, c: Candidate) returns (path: seq<nat>)
    requires c in PlaneNodes(t, layer)
    ensures NodeAt(t, path).Node? && NodeAt(t, path).plane.isPlane
    ensures c == Candidate(NodeAt(t, path).plane, layer + |path|)
    decreases t, if t.Node? then |t.kids| + 1 else 0
  {
    if t.plane.isPlane && c == Candidate(t.plane, layer) {
      path := [];
    } else {
      path := PlanesBelowSound(t, |t.kids|, layer, c);
    }
  }

  lemma {:induction false} PlanesBelowSound(t: Tree, n: nat, layer: nat, c: Candidate) returns (path: seq<nat>)
    requires t.Node? && n <= |t.kids| && c in PlanesBelow(t, n, layer)
    ensures NodeAt(t, path).Node? && NodeAt(t, path).plane.isPlane
    ensures c == Candidate(NodeAt(t, path).plane, layer + |path|)
    decreases t, n
  {
    if c in PlanesBelow(t, n - 1, layer) {
      path := PlanesBelowSound(t, n - 1, layer, c);
    } else {
      var rest := PlaneNodesSound(t.kids[n - 1], layer + 1, c);
      path := [n - 1] + rest;
      assert path[1..] == rest;
    }
  }

  /** Considering candidates one after the other. */
  function ConsiderAll(score: Scorer, pv: PointWithVar, cs: seq<Candidate>, m: Match): Match {
    if cs == [] then m
    else Consider(score, pv, cs[|cs| - 1], ConsiderAll(score, pv, cs[..|cs| - 1], m))
  }

  lemma {:induction false} ConsiderConcat(score: Scorer, pv: PointWithVar, a: seq<Candidate>, b: seq<Candidate>,
                                          m: Match)
    ensures ConsiderAll(score, pv, a + b, m) == ConsiderAll(score, pv, b, ConsiderAll(score, pv, a, m))
    decreases |b|
  {
    if b == [] {
      assert a + b == a;
    } else {
      assert (a + b)[..|a + b| - 1] == a + b[..|b| - 1];
      ConsiderConcat(score, pv, a, b[..|b| - 1], m);
    }
  }

  /** The pruned search sees exactly the plane nodes: in a well-shaped tree nothing lies
      below a plane node or below the last layer. */
  lemma {:induction false} ResidualSeesAllPlanes(score: Scorer, cfg: Config, pv: PointWithVar, t: Tree, m: Match)
    requires t.Node? ==> Shape(cfg, t)
    ensures t.Node? ==> Residual(score, cfg.maxLayer, pv, t, t.layer, m)
                        == ConsiderAll(score, pv, PlaneNodes(t, t.layer), m)
    decreases t, 9
  {
    if t.Node? {
      if Routes(cfg, t) || (!t.plane.isPlane && t.layer < cfg.maxLayer) {
        ResidualKidsSee(score, cfg, pv, t, 8, m);
        assert [] + PlanesBelow(t, 8, t.layer) == PlanesBelow(t, 8, t.layer);
      } else {
        NothingBelow(cfg, t, 8);
        if t.plane.isPlane {
          assert PlaneNodes(t, t.layer) == [Candidate(t.plane, t.layer)];
        }
      }
    }
  }

  lemma {:induction false} ResidualKidsSee(score: Scorer, cfg: Config, pv: PointWithVar, t: Tree, n: nat, m: Match)
    requires t.Node? && Shape(cfg, t) && n <= 8
    ensures ResidualKids(score, cfg.maxLayer, pv, t, n, t.layer, m)
            == ConsiderAll(score, pv, PlanesBelow(t, n, t.layer), m)
    decreases t, n
  {
    if n > 0 {
      ResidualKidsSee(score, cfg, pv, t, n - 1, m);
      var before := ResidualKids(score, cfg.maxLayer, pv, t, n - 1, t.layer, m);
      ResidualSeesAllPlanes(score, cfg, pv, t.kids[n - 1], before);
      ConsiderConcat(score, pv, PlanesBelow(t, n - 1, t.layer), PlaneNodes(t.kids[n - 1], t.layer + 1), m);
    }
  }

  lemma {:induction false} NothingBelow(cfg: Config, t: Tree, n: nat)
    requires t.Node? && Shape(cfg, t) && !Routes(cfg, t) && n <= 8
    ensures PlanesBelow(t, n, t.layer) == []
    decreases n
  {
    if n > 0 { NothingBelow(cfg, t, n - 1); }
  }

  /** `c` is the first candidate of the greatest probability. */
  ghost predicate FirstBest(score: Scorer, pv: PointWithVar, cs: seq<Candidate>, i: nat) {
    && i < |cs|
    && score(pv, cs[i].plane).Accepted?
    && (forall j | 0 <= j < |cs| && score(pv, cs[j].plane).Accepted? ::
          score(pv, cs[j].plane).prob <= score(pv, cs[i].plane).prob)
    && (forall j | 0 <= j < i && score(pv, cs[j].plane).Accepted? ::
          score(pv, cs[j].plane).prob < score(pv, cs[i].plane).prob)
  }

  lemma {:induction false} ConsiderAllFindsFirstBest(score: Scorer, pv: PointWithVar, cs: seq<Candidate>)
    returns (i: nat)
    requires PositiveScores(score)
    ensures var m := ConsiderAll(score, pv, cs, START);
            if exists c :: c in cs && score(pv, c.plane).Accepted?
            then m.success && FirstBest(score, pv, cs, i)
                 && m.best == Chosen(cs[i]) && m.prob == score(pv, cs[i].plane).prob
            else m == START
  {
    i := 0;
    if cs != [] {
      var n := |cs| - 1;
      i := ConsiderAllFindsFirstBest(score, pv, cs[..n]);
      forall c | c in cs ensures c in cs[..n] || c == cs[n] {}
      if score(pv, cs[n].plane).Accepted? {
        var before := ConsiderAll(score, pv, cs[..n], START);
        if score(pv, cs[n].plane).prob > before.prob { i := n; }
      }
    }
  }

  /** From the root, the search succeeds exactly when some plane node of the tree accepts the
      point, and returns the first such node of the greatest probability. */
  lemma {:induction false} ResidualFindsBestPlane(score: Scorer, cfg: Config, pv: PointWithVar, t: Tree)
    requires PositiveScores(score) && t.Node? && Shape(cfg, t) && t.layer == 0
    ensures var m := Residual(score, cfg.maxLayer, pv, t, 0, START);
            && (m.success <==> exists path :: NodeAt(t, path).Node? && NodeAt(t, path).plane.isPlane
                                              && score(pv, NodeAt(t, path).plane).Accepted?)
            && (m.success ==> exists i: nat :: FirstBest(score, pv, PlaneNodes(t, 0), i)
                                          && m.best == Chosen(PlaneNodes(t, 0)[i])
                                          && m.prob == score(pv, PlaneNodes(t, 0)[i].plane).prob)
  {
    ResidualSeesAllPlanes(score, cfg, pv, t, START);
    var cs := PlaneNodes(t, 0);
    var i := ConsiderAllFindsFirstBest(score, pv, cs);
    if c :| c in cs && score(pv, c.plane).Accepted? {
      var path := PlaneNodesSound(t, 0, c);
    }
    forall path | NodeAt(t, path).Node? && NodeAt(t, path).plane.isPlane
      ensures Candidate(NodeAt(t, path).plane, |path|) in cs
    {
      PlaneNodesComplete(t, 0, path);
    }
  }

  /** Whatever the scores and the match so far: the search succeeds exactly when it had or some
      candidate accepts the point, and it takes a candidate exactly when one scores above the match
      so far; then none scores above the one it took. */
  ghost predicate Considered(score: Scorer, pv: PointWithVar, cs: seq<Candidate>, m: Match, r: Match) {
    && (r.success <==> m.success || exists c :: c in cs && score(pv, c.plane).Accepted?)
    && (forall c | c in cs && score(pv, c.plane).Accepted? :: score(pv, c.plane).prob <= r.prob)
    && if exists c :: c in cs && score(pv, c.plane).Accepted? && score(pv, c.plane).prob > m.prob
       then r.best.Chosen? && r.best.candidate in cs && score(pv, r.best.candidate.plane) == Accepted(r.prob)
            && r.prob > m.prob
       else r.best == m.best && r.prob == m.prob
  }

  lemma {:induction false} AllConsidered(score: Scorer, pv: PointWithVar, cs: seq<Candidate>, m: Match)
    ensures Considered(score, pv, cs, m, ConsiderAll(score, pv, cs, m))
  {
    if cs != [] {
      var n := |cs| - 1;
      AllConsidered(score, pv, cs[..n], m);
      forall c ensures c in cs <==> c in cs[..n] || c == cs[n] { assert cs == cs[..n] + [cs[n]]; }
    }
  }

  /** With scores that may be 0, as an underflowing exponential is: from the root the search reports
      success without a plane exactly when some plane node accepts the point and none scores above 0. */
  lemma SuccessWithoutPlaneIff(score: Scorer, cfg: Config, pv: PointWithVar, t: Tree)
    requires t.Node? && Shape(cfg, t) && t.layer == 0
    ensures var m, cs := Residual(score, cfg.maxLayer, pv, t, 0, START), PlaneNodes(t, 0);
            m.success && m.best == NoChoice
            <==> (exists c :: c in cs && score(pv, c.plane).Accepted?)
                 && forall c | c in cs && score(pv, c.plane).Accepted? :: score(pv, c.plane).prob <= 0.0
  {
    ResidualSeesAllPlanes(score, cfg, pv, t, START);
    AllConsidered(score, pv, PlaneNodes(t, 0), START);
  }
}
