/** What every operation keeps true of every node of a voxel's octree, and the bounds that
    follow for trees grown by updates. */
module OctreeInvariants {
  import opened VoxelTypes
  import opened OctreeSpec
  import opened OctreeLookup

  /** One node: its points lie in its cube; a frozen node is fitted and empty; an unfitted
      node has no plane; a fitted node's plane is the fit of its support, which lags the
      stored points by the at most five new ones. */
  ghost predicate SoundNode(cfg: Config, t: Tree)
    requires t.Node?
  {
    && t.quarter >= 0.0
    && (forall p | p in t.points :: InCube(t.center, t.quarter, p.w))
    && (!t.enabled ==> t.init && t.points == [])
    && (if t.init then t.plane == InitPlane(cfg, t.plane.support) else t.plane == Plane(false, []))
    && (t.init && t.enabled ==>
          && t.plane.support <= t.points
          && |t.points| == |t.plane.support| + t.newPoints
          && t.newPoints <= UPDATE_SIZE_THRESHOLD)
  }

  ghost predicate Sound(cfg: Config, t: Tree) {
    t.Node? ==> SoundNode(cfg, t) && forall k | k in t.kids :: Sound(cfg, k)
  }

  lemma {:induction false} AppendInCube(points: seq<PointWithVar>, pv: PointWithVar, center: Vec3, quarter: real)
    requires forall p | p in points :: InCube(center, quarter, p.w)
    requires InCube(center, quarter, pv.w)
    ensures forall p | p in points + [pv] :: InCube(center, quarter, p.w)
  {
    forall p | p in points + [pv] ensures InCube(center, quarter, p.w) {
      assert p in points || p == pv;
    }
  }

  /** The children of a cut node. */
  lemma CutKid(cfg: Config, t: Tree, o: nat)
    requires Raw(cfg, t) && |t.points| > t.threshold && !cfg.planar(t.points) && t.layer < cfg.maxLayer && o < 8
    ensures InitTree(cfg, t).kids[o] == CutChild(cfg, t.(plane := InitPlane(cfg, t.points)), o)
  {
    var fitted := t.(plane := InitPlane(cfg, t.points));
    assert InitTree(cfg, t).kids == CutTree(cfg, fitted).kids;
    assert CutTree(cfg, fitted).kids[o] == CutChild(cfg, fitted, o);
  }

  /** The first fit keeps the invariant, all the way down the cut. */
  lemma {:induction false} InitKeepsSound(cfg: Config, t: Tree)
    requires Raw(cfg, t) && Sound(cfg, t)
    ensures Sound(cfg, InitTree(cfg, t))
    decreases cfg.maxLayer - t.layer
  {
    if |t.points| > t.threshold && !cfg.planar(t.points) && t.layer < cfg.maxLayer {
      var fitted := t.(plane := InitPlane(cfg, t.points));
      var r := InitTree(cfg, t);
      forall k | k in r.kids ensures Sound(cfg, k) {
        var o: nat :| o < 8 && r.kids[o] == k;
        var dealt := DealtChild(cfg, fitted, t.points, o);
        CutKid(cfg, t, o);
        if dealt.Node? {
          DealtChildSound(cfg, fitted, o);
          InitKeepsSound(cfg, dealt);
        }
      }
    }
  }

  lemma {:induction false} DealtChildSound(cfg: Config, t: Tree, o: nat)
    requires Raw(cfg, t) && t.layer < cfg.maxLayer && o < 8 && t.quarter >= 0.0
    requires forall p | p in t.points :: InCube(t.center, t.quarter, p.w)
    ensures Sound(cfg, DealtChild(cfg, t, t.points, o))
  {
    var k := DealtChild(cfg, t, t.points, o);
    if k.Node? {
      forall p | p in k.points ensures InCube(k.center, k.quarter, p.w) {
        ChildCube(t.center, t.quarter, o, p.w);
      }
    }
  }

  lemma AbsorbKeepsSound(cfg: Config, t: Tree, pv: PointWithVar, full: nat)
    requires t.Node? && Sound(cfg, t) && t.init && InCube(t.center, t.quarter, pv.w)
    ensures Sound(cfg, Absorb(cfg, t, pv, full))
  {
    AppendInCube(t.points, pv, t.center, t.quarter);
  }

  lemma RouteKeepsSound(cfg: Config, t: Tree, o: nat, k: Tree)
    requires t.Node? && Sound(cfg, t) && Sound(cfg, k) && o < |t.kids|
    ensures Sound(cfg, WithKid(t, o, k))
  {
  }

  /** Every update with a point of the node's cube keeps the invariant. */
  lemma {:induction false} UpdateKeepsSound(cfg: Config, t: Tree, pv: PointWithVar)
    requires t.Node? && Shape(cfg, t) && Sound(cfg, t)
    requires InCube(t.center, t.quarter, pv.w)
    ensures Sound(cfg, UpdateTree(cfg, t, pv))
    decreases cfg.maxLayer - t.layer
  {
    if !t.init {
      AppendInCube(t.points, pv, t.center, t.quarter);
      InitKeepsSound(cfg, t.(points := t.points + [pv], newPoints := t.newPoints + 1));
    } else if t.plane.isPlane {
      AbsorbKeepsSound(cfg, t, pv, cfg.maxPoints);
    } else if t.layer >= cfg.maxLayer {
      AbsorbKeepsSound(cfg, t, pv, cfg.maxPoints + 1);
    } else {
      var o := Octant(t.center, pv.w);
      var k := if t.kids[o].Node? then t.kids[o] else NewChild(cfg, t, o);
      ChildCube(t.center, t.quarter, o, pv.w);
      UpdateKeepsSound(cfg, k, pv);
      RouteKeepsSound(cfg, t, o, UpdateTree(cfg, k, pv));
    }
  }

  /** A run of updates. */
  function UpdateAll(cfg: Config, t: Tree, pvs: seq<PointWithVar>): (r: Tree)
    requires t.Node? && Shape(cfg, t)
    ensures r.Node? && Shape(cfg, r)
    ensures r.layer == t.layer && r.center == t.center && r.quarter == t.quarter
  {
    if pvs == [] then t
    else UpdateTree(cfg, UpdateAll(cfg, t, pvs[..|pvs| - 1]), pvs[|pvs| - 1])
  }

  /** A frozen node stays where it is, frozen and empty, with the same plane. */
  lemma {:induction false} FrozenStep(cfg: Config, t: Tree, pv: PointWithVar, a: seq<nat>)
    requires t.Node? && Shape(cfg, t) && Sound(cfg, t)
    requires NodeAt(t, a).Node? && !NodeAt(t, a).enabled
    ensures var was, now := NodeAt(t, a), NodeAt(UpdateTree(cfg, t, pv), a);
            now.Node? && !now.enabled && now.points == [] && now.plane == was.plane
  {
    var r := ReceivePath(cfg, t, pv.w);
    UpdateIsLocal(cfg, t, pv);
    GraftFrame(t, r, UpdateTree(cfg, Receiver(cfg, t, pv.w), pv), a);
    SoundAt(cfg, t, a);
    if r <= a {
      LookupBefore(cfg, t, pv.w);
      NodeBelow(t, r, a);
      NodeAtShape(cfg, t, r);
      if a != r { NodeBelowLeaf(cfg, NodeAt(t, r), a[|r|..]); }
      assert a[|r|..] == [];
    }
  }

  lemma {:induction false} SoundAt(cfg: Config, t: Tree, a: seq<nat>)
    requires Sound(cfg, t)
    ensures Sound(cfg, NodeAt(t, a))
    decreases |a|
  {
    if a != [] && t.Node? && a[0] < |t.kids| { SoundAt(cfg, t.kids[a[0]], a[1..]); }
  }

  lemma {:induction false} NodeAtShape(cfg: Config, t: Tree, a: seq<nat>)
    requires Shape(cfg, t)
    ensures Shape(cfg, NodeAt(t, a))
    decreases |a|
  {
    if a != [] && t.Node? && a[0] < |t.kids| { NodeAtShape(cfg, t.kids[a[0]], a[1..]); }
  }

  lemma {:induction false} NodeBelow(t: Tree, r: seq<nat>, a: seq<nat>)
    requires r <= a
    ensures NodeAt(t, a) == NodeAt(NodeAt(t, r), a[|r|..])
    ensures NodeAt(t, a).Node? ==> NodeAt(t, r).Node?
    decreases |r|
  {
    if r == [] {
      assert a[|r|..] == a;
    } else if t.Node? && r[0] < |t.kids| {
      NodeBelow(t.kids[r[0]], r[1..], a[1..]);
      assert a[1..][|r[1..]|..] == a[|r|..];
    }
  }

  lemma {:induction false} NodeBelowLeaf(cfg: Config, t: Tree, a: seq<nat>)
    requires t.Node? && Shape(cfg, t) && !Routes(cfg, t) && a != []
    ensures NodeAt(t, a) == Absent
  {
    if a[0] < 8 { assert NodeAt(Absent, a[1..]) == Absent; }
  }

  lemma {:induction false} UpdateAllKeepsSound(cfg: Config, t: Tree, pvs: seq<PointWithVar>)
    requires t.Node? && Shape(cfg, t) && Sound(cfg, t)
    requires forall p | p in pvs :: InCube(t.center, t.quarter, p.w)
    ensures Sound(cfg, UpdateAll(cfg, t, pvs))
  {
    if pvs != [] {
      var n := |pvs| - 1;
      UpdateAllKeepsSound(cfg, t, pvs[..n]);
      UpdateKeepsSound(cfg, UpdateAll(cfg, t, pvs[..n]), pvs[n]);
    }
  }

  /** Once update_enable_ is false it, the empty point store and the plane are final. */
  lemma {:induction false} FrozenForever(cfg: Config, t: Tree, pvs: seq<PointWithVar>, a: seq<nat>)
    requires t.Node? && Shape(cfg, t) && Sound(cfg, t)
    requires forall p | p in pvs :: InCube(t.center, t.quarter, p.w)
    requires NodeAt(t, a).Node? && !NodeAt(t, a).enabled
    ensures var was, now := NodeAt(t, a), NodeAt(UpdateAll(cfg, t, pvs), a);
            now.Node? && !now.enabled && now.points == [] && now.plane == was.plane
  {
    if pvs == [] {
      SoundAt(cfg, t, a);
    } else {
      var n := |pvs| - 1;
      FrozenForever(cfg, t, pvs[..n], a);
      UpdateAllKeepsSound(cfg, t, pvs[..n]);
      FrozenStep(cfg, UpdateAll(cfg, t, pvs[..n]), pvs[n], a);
    }
  }

  // ---------------------------------------------------------------- memory

  function NodeCount(t: Tree): nat {
    if t.Absent? then 0 else 1 + CountAll(t.kids)
  }

  function CountAll(ts: seq<Tree>): nat {
    if ts == [] then 0 else NodeCount(ts[0]) + CountAll(ts[1..])
  }

  function Pow8(n: nat): nat { if n == 0 then 1 else 8 * Pow8(n - 1) }

  /** At most (8^(maxLayer - layer + 1) - 1) / 7 nodes. */
  lemma {:induction false} NodeCountBound(cfg: Config, t: Tree)
    requires t.Node? && Shape(cfg, t)
    ensures 7 * NodeCount(t) + 1 <= Pow8(cfg.maxLayer - t.layer + 1)
    decreases t
  {
    if t.layer == cfg.maxLayer {
      forall o | 0 <= o < 8 ensures t.kids[o] == Absent {}
      NoNodes(t.kids);
      assert Pow8(1) == 8;
    } else {
      var each := Pow8(cfg.maxLayer - t.layer);
      forall o | 0 <= o < 8 ensures 7 * NodeCount(t.kids[o]) + 1 <= each {
        if t.kids[o].Node? { NodeCountBound(cfg, t.kids[o]); } else { Pow8Positive(cfg.maxLayer - t.layer); }
      }
      CountAllBound(t.kids, each);
    }
  }

  lemma {:induction false} NoNodes(ts: seq<Tree>)
    requires forall i | 0 <= i < |ts| :: ts[i] == Absent
    ensures CountAll(ts) == 0
  {
    if ts != [] { NoNodes(ts[1..]); }
  }

  lemma {:induction false} CountAllBound(ts: seq<Tree>, each: nat)
    requires forall i | 0 <= i < |ts| :: 7 * NodeCount(ts[i]) + 1 <= each
    ensures 7 * CountAll(ts) + |ts| <= |ts| * each
  {
    if ts != [] {
      CountAllBound(ts[1..], each);
      assert |ts| * each == each + (|ts| - 1) * each;
    }
  }

  lemma {:induction false} Pow8Positive(n: nat)
    ensures Pow8(n) >= 1
  {
    if n > 0 { Pow8Positive(n - 1); }
  }

  /** `cap` covers max_points_num_ and one more than every layer's threshold. */
  ghost predicate Covers(cfg: Config, cap: nat)
    requires ValidConfig(cfg)
  {
    cfg.maxPoints <= cap && forall l | 0 <= l <= cfg.maxLayer :: cfg.layerInitNum[l] + 1 <= cap
  }

  /** No node stores more than `cap` points, an unfitted one no more than its threshold. */
  ghost predicate Bounded(t: Tree, cap: nat) {
    t.Node? ==>
      && |t.points| <= cap
      && (!t.init ==> |t.points| <= t.threshold)
      && forall k | k in t.kids :: Bounded(k, cap)
  }

  lemma {:induction false} InitBounded(cfg: Config, t: Tree, cap: nat)
    requires Raw(cfg, t) && Covers(cfg, cap) && |t.points| <= cap
    ensures Bounded(InitTree(cfg, t), cap)
    decreases cfg.maxLayer - t.layer
  {
    if |t.points| > t.threshold && !cfg.planar(t.points) && t.layer < cfg.maxLayer {
      var fitted := t.(plane := InitPlane(cfg, t.points));
      var r := InitTree(cfg, t);
      forall k | k in r.kids ensures Bounded(k, cap) {
        var o: nat :| o < 8 && r.kids[o] == k;
        var dealt := DealtChild(cfg, fitted, t.points, o);
        CutKid(cfg, t, o);
        if dealt.Node? { InitBounded(cfg, dealt, cap); }
      }
    }
  }

  /** Updates keep every node within the bound. */
  lemma {:induction false} UpdateKeepsBounded(cfg: Config, t: Tree, pv: PointWithVar, cap: nat)
    requires t.Node? && Shape(cfg, t) && Covers(cfg, cap) && Bounded(t, cap)
    ensures Bounded(UpdateTree(cfg, t, pv), cap)
    decreases cfg.maxLayer - t.layer
  {
    if !t.init {
      InitBounded(cfg, t.(points := t.points + [pv], newPoints := t.newPoints + 1), cap);
    } else if Routes(cfg, t) {
      var o := Octant(t.center, pv.w);
      var k := if t.kids[o].Node? then t.kids[o] else NewChild(cfg, t, o);
      UpdateKeepsBounded(cfg, k, pv, cap);
    }
  }

  lemma {:induction false} UpdateAllBounded(cfg: Config, t: Tree, pvs: seq<PointWithVar>, cap: nat)
    requires t.Node? && Shape(cfg, t) && Covers(cfg, cap) && Bounded(t, cap)
    ensures Bounded(UpdateAll(cfg, t, pvs), cap)
  {
    if pvs != [] {
      var n := |pvs| - 1;
      UpdateAllBounded(cfg, t, pvs[..n], cap);
      UpdateKeepsBounded(cfg, UpdateAll(cfg, t, pvs[..n]), pvs[n], cap);
    }
  }

  /** A tree grown from a new root by updates alone is bounded in nodes and in points. */
  lemma GrownTreeBounded(cfg: Config, center: Vec3, quarter: real, pvs: seq<PointWithVar>, cap: nat)
    requires ValidConfig(cfg) && Covers(cfg, cap)
    ensures var t := UpdateAll(cfg, NewNode(cfg, 0, center, quarter), pvs);
            Bounded(t, cap) && 7 * NodeCount(t) + 1 <= Pow8(cfg.maxLayer + 1)
  {
    var root := NewNode(cfg, 0, center, quarter);
    UpdateAllBounded(cfg, root, pvs, cap);
    NodeCountBound(cfg, UpdateAll(cfg, root, pvs));
  }
}
