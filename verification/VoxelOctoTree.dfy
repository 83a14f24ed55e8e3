/** The octree of one voxel as the heap structure the program keeps: nodes own up to eight
    child nodes and are changed in place. Each method is tied to the value-level function of
    OctreeSpec through the ghost field `model`. */
module VoxelOctoTrees {
  import opened VoxelTypes
  import opened OctreeSpec
  import opened OctreeResidual

  /** Child `o` after one more point was dealt to it. */
  ghost function ChildWith(cfg: Config, t: Tree, o: nat, p: PointWithVar): Tree
    requires ValidConfig(cfg) && t.Node? && t.layer < cfg.maxLayer && |t.kids| == 8 && o < 8
  {
    Append(if t.kids[o].Node? then t.kids[o] else NewChild(cfg, t, o), p)
  }

  /** The children of `t` are `start`'s after dealing out `points`. */
  ghost predicate Dealt(cfg: Config, start: Tree, points: seq<PointWithVar>, t: Tree)
    requires ValidConfig(cfg) && start.Node? && start.layer < cfg.maxLayer
  {
    && t.Node? && |t.kids| == 8 && t == start.(kids := t.kids)
    && forall i: nat | i < 8 :: t.kids[i] == DealtChild(cfg, start, points, i)
  }

  /** Dealing point by point is dealing by octant. */
  lemma DealtStep(cfg: Config, start: Tree, points: seq<PointWithVar>, p: PointWithVar, t: Tree)
    requires ValidConfig(cfg) && start.Node? && start.layer < cfg.maxLayer && Dealt(cfg, start, points, t)
    ensures var o := Octant(t.center, p.w);
            Dealt(cfg, start, points + [p], WithKid(t, o, ChildWith(cfg, t, o, p)))
  {
    assert (points + [p])[..|points + [p]| - 1] == points;
  }

  /** `t` after the first `n` points were dealt. */
  ghost predicate DealtUpTo(cfg: Config, start: Tree, points: seq<PointWithVar>, n: nat, t: Tree)
    requires ValidConfig(cfg) && start.Node? && start.layer < cfg.maxLayer && n <= |points|
  {
    Dealt(cfg, start, points[..n], t)
  }

  lemma DealtNext(cfg: Config, start: Tree, points: seq<PointWithVar>, n: nat, t: Tree)
    requires ValidConfig(cfg) && start.Node? && start.layer < cfg.maxLayer
    requires n < |points| && DealtUpTo(cfg, start, points, n, t)
    ensures var o := Octant(t.center, points[n].w);
            DealtUpTo(cfg, start, points, n + 1, WithKid(t, o, ChildWith(cfg, t, o, points[n])))
  {
    DealtStep(cfg, start, points[..n], points[n], t);
    assert points[..n + 1] == points[..n] + [points[n]];
  }

  class VoxelOctoTree {
    const cfg: Config
    const layer: nat
    const center: Vec3
    const quarter: real
    const threshold: nat

    var tempPoints: seq<PointWithVar>
    var newPoints: nat
    var initOcto: bool
    var updateEnable: bool
    var plane: Plane
    var leaves: seq<VoxelOctoTree?>

    ghost var model: Tree
    ghost var Repr: set<VoxelOctoTree>

    /** The children are owned, valid and share nothing; `model` is what the fields say. */
    ghost predicate Valid()
      reads this, Repr
      ensures Valid() ==> this in Repr && model.Node?
      decreases Repr
    {
      && this in Repr
      && |leaves| == 8
      && (forall i | 0 <= i < 8 && leaves[i] != null :: leaves[i] in Repr && Owns(leaves[i]) && leaves[i].Valid())
      && (forall i, j | 0 <= i < j < 8 && leaves[i] != null && leaves[j] != null ::
            leaves[i].Repr !! leaves[j].Repr)
      && model.Node? && |model.kids| == 8
      && model == Node(layer, center, quarter, threshold, tempPoints, newPoints, initOcto,
                       updateEnable, plane, model.kids)
      && forall i | 0 <= i < 8 :: model.kids[i] == if leaves[i] == null then Absent else leaves[i].model
    }

    ghost predicate Owns(leaf: VoxelOctoTree)
      reads this, leaf
    {
      leaf.Repr <= Repr && this !in leaf.Repr && leaf.cfg == cfg
    }

    constructor (cfg: Config, layer: nat, center: Vec3, quarter: real)
      requires ValidConfig(cfg) && layer <= cfg.maxLayer
      ensures Valid() && fresh(Repr) && Repr == {this}
      ensures this.cfg == cfg && model == NewNode(cfg, layer, center, quarter)
    {
      this.cfg := cfg;
      this.layer := layer;
      this.center := center;
      this.quarter := quarter;
      threshold := cfg.layerInitNum[layer];
      tempPoints, newPoints, initOcto, updateEnable := [], 0, false, true;
      plane := Plane(false, []);
      leaves := [null, null, null, null, null, null, null, null];
      model := NewNode(cfg, layer, center, quarter);
      Repr := {this};
    }

    /** The child slot a position belongs to, created on demand. */
    method EnsureLeaf(o: nat)
      requires Valid() && ValidConfig(cfg) && layer < cfg.maxLayer && o < 8
      modifies this
      ensures Valid() && fresh(Repr - old(Repr))
      ensures leaves[o] != null && leaves == old(leaves)[o := leaves[o]]
      ensures old(leaves[o]) != null ==> leaves == old(leaves) && model == old(model)
      ensures old(leaves[o]) == null ==>
                && fresh(leaves[o]) && leaves[o].Repr == {leaves[o]}
                && model == WithKid(old(model), o, NewChild(cfg, old(model), o))
    {
      if leaves[o] == null {
        var leaf := new VoxelOctoTree(cfg, layer + 1, ChildCenter(center, quarter, o), quarter / 2.0);
        leaves := leaves[o := leaf];
        LeafGrew(o);
      }
    }

    /** The child a routed position goes to. */
    method ChildFor(w: Vec3) returns (leaf: VoxelOctoTree)
      requires Valid() && Shape(cfg, model) && Routes(cfg, model)
      modifies this
      ensures Valid() && fresh(Repr - old(Repr))
      ensures leaf == leaves[Octant(center, w)] && leaf in Repr && Owns(leaf)
      ensures leaf.Valid() && Shape(cfg, leaf.model) && leaf.layer == layer + 1
      ensures var o := Octant(center, w);
              var was := old(model);
              && leaf.model == (if was.kids[o].Node? then was.kids[o] else NewChild(cfg, was, o))
              && model == WithKid(was, o, leaf.model)
    {
      var o := Octant(center, w);
      EnsureLeaf(o);
      leaf := leaves[o];
      assert leaf.model == model.kids[o];
    }

    /** UpdateOctoTree. */
    method UpdateOctoTree(pv: PointWithVar)
      requires Valid() && Shape(cfg, model)
      modifies Repr
      ensures Valid() && fresh(Repr - old(Repr))
      ensures model == UpdateTree(cfg, old(model), pv)
      decreases cfg.maxLayer - layer, 4
    {
      if !initOcto {
        newPoints := newPoints + 1;
        tempPoints := tempPoints + [pv];
        model := model.(points := tempPoints, newPoints := newPoints);
        if |tempPoints| > threshold {
          var _ := InitOctoTree();
        }
      } else if plane.isPlane {
        AbsorbPoint(pv, cfg.maxPoints);
      } else if layer < cfg.maxLayer {
        RouteToLeaf(pv);
      } else {
        AbsorbPoint(pv, cfg.maxPoints + 1);
      }
    }

    /** The branch of UpdateOctoTree that hands the point to a child. */
    method RouteToLeaf(pv: PointWithVar)
      requires Valid() && Shape(cfg, model) && Routes(cfg, model)
      modifies Repr
      ensures Valid() && fresh(Repr - old(Repr))
      ensures model == UpdateTree(cfg, old(model), pv)
      decreases cfg.maxLayer - layer, 3
    {
      var leaf := ChildFor(pv.w);
      leaf.UpdateOctoTree(pv);
      LeafGrew(Octant(center, pv.w));
    }

    /** Bring the footprint and the model up to date after child `o` changed below itself. */
    ghost method LeafGrew(o: nat)
      requires this in Repr && |leaves| == 8 && o < 8 && leaves[o] != null
      requires leaves[o].Valid() && leaves[o].cfg == cfg && this !in leaves[o].Repr
      requires forall i | 0 <= i < 8 && leaves[i] != null && i != o ::
                 leaves[i] in Repr && Owns(leaves[i]) && leaves[i].Valid() && leaves[i].Repr !! leaves[o].Repr
      requires forall i, j | 0 <= i < j < 8 && leaves[i] != null && leaves[j] != null && i != o && j != o ::
                 leaves[i].Repr !! leaves[j].Repr
      requires model.Node? && |model.kids| == 8
      requires model == Node(layer, center, quarter, threshold, tempPoints, newPoints, initOcto,
                       updateEnable, plane, model.kids)
      requires forall i | 0 <= i < 8 && i != o :: model.kids[i] == if leaves[i] == null then Absent else leaves[i].model
      modifies this`Repr, this`model
      ensures Valid() && Repr == old(Repr) + leaves[o].Repr
      ensures model == WithKid(old(model), o, leaves[o].model)
    {
      Repr := Repr + leaves[o].Repr;
      model := WithKid(model, o, leaves[o].model);
    }

    /** The shared tail of UpdateOctoTree: append, refit, freeze. */
    method AbsorbPoint(pv: PointWithVar, full: nat)
      requires Valid()
      modifies this
      ensures Valid() && Repr == old(Repr)
      ensures model == Absorb(cfg, old(model), pv, full)
    {
      if !updateEnable {
        return;
      }
      var points, count, fit := tempPoints + [pv], newPoints + 1, plane;
      if count > UPDATE_SIZE_THRESHOLD {
        fit := InitPlane(cfg, points);
        count := 0;
      }
      if |points| >= full {
        Store([], 0, fit, false);
      } else {
        Store(points, count, fit, true);
      }
    }

    /** Write the point store, its counter, the plane and the enable flag. */
    method Store(points: seq<PointWithVar>, count: nat, fit: Plane, enable: bool)
      requires Valid()
      modifies this
      ensures Valid() && Repr == old(Repr) && leaves == old(leaves) && initOcto == old(initOcto)
      ensures model == old(model).(points := points, newPoints := count, plane := fit, enabled := enable)
    {
      tempPoints, newPoints, plane, updateEnable := points, count, fit, enable;
      model := model.(points := points, newPoints := count, plane := fit, enabled := enable);
    }

    /** InitOctoTree; the result says whether the node froze on its first fit. */
    method InitOctoTree() returns (froze: bool)
      requires Valid() && Raw(cfg, model)
      modifies Repr
      ensures Valid() && fresh(Repr - old(Repr))
      ensures model == InitTree(cfg, old(model))
      ensures froze == FreezesOnInit(cfg, old(model))
      decreases cfg.maxLayer - layer, 3
    {
      froze := false;
      if |tempPoints| > threshold {
        Store(tempPoints, newPoints, InitPlane(cfg, tempPoints), updateEnable);
        if plane.isPlane {
          if |tempPoints| > cfg.maxPoints {
            Store([], newPoints, plane, false);
            froze := true;
          }
        } else {
          CutOctoTree();
        }
        SetInit();
      }
    }

    method SetInit()
      requires Valid()
      modifies this
      ensures Valid() && Repr == old(Repr) && model == old(model).(init := true, newPoints := 0)
    {
      initOcto := true;
      newPoints := 0;
      model := model.(init := true, newPoints := 0);
    }

    /** CutOctoTree, on a node just fitted without finding a plane. */
    method CutOctoTree()
      requires Valid() && Raw(cfg, model) && !plane.isPlane
      modifies Repr
      ensures Valid() && fresh(Repr - old(Repr))
      ensures tempPoints == old(tempPoints) && plane == old(plane) && !initOcto
      ensures updateEnable == old(updateEnable)
      ensures model == CutTree(cfg, old(model))
      ensures layer < cfg.maxLayer ==> forall o: nat | o < 8 ::
                && (leaves[o] != null <==> Meets(tempPoints, center, o))
                && (leaves[o] != null ==> HoldsOctant(tempPoints, center, o, leaves[o].Given()))
      decreases cfg.maxLayer - layer, 2
    {
      if layer >= cfg.maxLayer {
        return;
      }
      DealPoints();
      FitLeaves(old(model));
      CutLeaves(old(model));
    }

    /** The points of a node just fitted or not yet: stored, or, when it froze, in its plane. */
    function Given(): seq<PointWithVar>
      reads this
    {
      if updateEnable then tempPoints else plane.support
    }

    lemma CutLeaves(start: Tree)
      requires Valid() && Raw(cfg, start) && !start.plane.isPlane && start.layer < cfg.maxLayer
      requires model == CutTree(cfg, start) && start.center == center && start.points == tempPoints
      ensures forall o: nat | o < 8 ::
                && (leaves[o] != null <==> Meets(tempPoints, center, o))
                && (leaves[o] != null ==> HoldsOctant(tempPoints, center, o, leaves[o].Given()))
    {
      forall o: nat | o < 8
        ensures leaves[o] != null <==> Meets(tempPoints, center, o)
        ensures leaves[o] != null ==> HoldsOctant(tempPoints, center, o, leaves[o].Given())
      {
        CutKeepsPoints(cfg, start, o);
        assert model.kids[o] == if leaves[o] == null then Absent else leaves[o].model;
      }
    }

    /** The first loop of CutOctoTree: deal the points out to new children. */
    method DealPoints()
      requires Valid() && Raw(cfg, model) && layer < cfg.maxLayer
      modifies Repr
      ensures Valid() && fresh(Repr - old(Repr))
      ensures tempPoints == old(tempPoints) && plane == old(plane) && initOcto == old(initOcto)
      ensures updateEnable == old(updateEnable)
      ensures Dealt(cfg, old(model), tempPoints, model)
      ensures forall o: nat | o < 8 ::
                && (leaves[o] != null <==> Meets(tempPoints, center, o))
                && (leaves[o] != null ==> HoldsOctant(tempPoints, center, o, leaves[o].tempPoints))
    {
      var points := tempPoints;
      ghost var start := model;
      assert DealtUpTo(cfg, start, points, 0, model);
      for n := 0 to |points|
        invariant Valid() && fresh(Repr - old(Repr)) && tempPoints == points
        invariant DealtUpTo(cfg, start, points, n, model)
      {
        DealtNext(cfg, start, points, n, model);
        DealOne(points[n]);
      }
      assert points[..|points|] == points;
      DealtLeaves(start);
    }

    lemma DealtLeaves(start: Tree)
      requires Valid() && ValidConfig(cfg) && start.Node? && start.layer < cfg.maxLayer
      requires start.center == center && Dealt(cfg, start, tempPoints, model)
      ensures forall o: nat | o < 8 ::
                && (leaves[o] != null <==> Meets(tempPoints, center, o))
                && (leaves[o] != null ==> HoldsOctant(tempPoints, center, o, leaves[o].tempPoints))
    {
      forall o: nat | o < 8
        ensures leaves[o] != null <==> Meets(tempPoints, center, o)
        ensures leaves[o] != null ==> HoldsOctant(tempPoints, center, o, leaves[o].tempPoints)
      {
        InOctantHolds(tempPoints, center, o);
        InOctantMeets(tempPoints, center, o);
        assert model.kids[o] == if leaves[o] == null then Absent else leaves[o].model;
      }
    }

    /** One round of that loop. */
    method DealOne(p: PointWithVar)
      requires Valid() && ValidConfig(cfg) && layer < cfg.maxLayer
      modifies Repr
      ensures Valid() && fresh(Repr - old(Repr))
      ensures tempPoints == old(tempPoints)
      ensures var o := Octant(center, p.w);
              var was := old(model);
              model == WithKid(was, o, ChildWith(cfg, was, o, p))
    {
      var o := Octant(center, p.w);
      EnsureLeaf(o);
      assert leaves[o].model == model.kids[o];
      AppendToLeaf(o, p);
    }

    /** Append the point to child `o`, which exists. */
    method AppendToLeaf(o: nat, p: PointWithVar)
      requires Valid() && o < 8 && leaves[o] != null
      modifies Repr
      ensures Valid() && Repr == old(Repr) && tempPoints == old(tempPoints)
      ensures model == WithKid(old(model), o, Append(old(leaves[o].model), p))
    {
      leaves[o].AppendPoint(p);
      LeafGrew(o);
    }

    /** temp_points_.push_back and the counter. */
    method AppendPoint(p: PointWithVar)
      requires Valid()
      modifies this
      ensures Valid() && Repr == old(Repr) && leaves == old(leaves) && initOcto == old(initOcto)
      ensures model == Append(old(model), p)
    {
      Store(tempPoints + [p], newPoints + 1, plane, updateEnable);
    }

    /** The second loop of CutOctoTree: fit every child that is over its threshold. */
    method FitLeaves(ghost start: Tree)
      requires Valid() && Raw(cfg, start) && !plane.isPlane && start.layer < cfg.maxLayer
      requires Dealt(cfg, start, tempPoints, model)
      modifies Repr
      ensures Valid() && fresh(Repr - old(Repr))
      ensures tempPoints == old(tempPoints) && plane == old(plane) && initOcto == old(initOcto)
      ensures updateEnable == old(updateEnable)
      ensures model == CutTree(cfg, start)
      decreases cfg.maxLayer - layer, 1
    {
      ghost var dealt := model.kids;
      for n := 0 to 8
        invariant Valid() && fresh(Repr - old(Repr))
        invariant leaves == old(leaves)
        invariant tempPoints == old(tempPoints) && plane == old(plane) && initOcto == old(initOcto)
        invariant updateEnable == old(updateEnable)
        invariant model == start.(kids := model.kids, newPoints := newPoints)
        invariant forall i: nat | i < n :: model.kids[i] == CutChild(cfg, start, i)
        invariant forall i: nat | n <= i < 8 :: model.kids[i] == dealt[i]
        invariant newPoints == if exists i :: 0 <= i < n && FreezesOnInit(cfg, dealt[i]) then 0 else start.newPoints
      {
        assert model.kids[n] == dealt[n];
        FitLeaf(n);
      }
    }

    /** One round of that loop; the counter it clears is this node's own. */
    method FitLeaf(n: nat)
      requires Valid() && layer < cfg.maxLayer && n < 8
      requires leaves[n] != null ==> Raw(cfg, leaves[n].model) && leaves[n].layer == layer + 1
      modifies Repr
      ensures Valid() && fresh(Repr - old(Repr)) && leaves == old(leaves)
      ensures tempPoints == old(tempPoints) && plane == old(plane) && initOcto == old(initOcto)
      ensures updateEnable == old(updateEnable)
      ensures var was := old(model);
              var k := was.kids[n];
              && model == was.(kids := model.kids, newPoints := if FreezesOnInit(cfg, k) then 0 else was.newPoints)
              && model.kids == was.kids[n := if k.Node? then InitTree(cfg, k) else Absent]
      decreases cfg.maxLayer - layer, 0
    {
      var leaf := leaves[n];
      if leaf != null {
        assert leaf.model == model.kids[n];
        var froze := leaf.InitOctoTree();
        if froze {
          newPoints := 0;
          model := model.(newPoints := 0);
        }
        LeafGrew(n);
      }
    }

    /** The node at an address, by way of the child pointers. */
    ghost function At(path: seq<nat>): (r: VoxelOctoTree?)
      requires Valid()
      reads this, Repr
      ensures r == null <==> NodeAt(model, path) == Absent
      ensures r != null ==> r in Repr && r.Valid() && r.model == NodeAt(model, path)
      decreases |path|
    {
      if path == [] then this
      else if path[0] < 8 && leaves[path[0]] != null then
        assert leaves[path[0]].model == model.kids[path[0]];
        leaves[path[0]].At(path[1..])
      else
        assert path[0] < 8 ==> model.kids[path[0]] == Absent;
        null
    }

    /** FindCorrespond: the node a position leads to is the one at the address the tree value's
        lookup ends at. */
    function FindCorrespond(p: Vec3): (r: VoxelOctoTree)
      requires Valid() && Shape(cfg, model)
      reads this, Repr
      ensures r in Repr && r.Valid()
      ensures r == At(LookupPath(cfg, model, p)) && r.model == NodeAt(model, LookupPath(cfg, model, p))
      decreases Repr
    {
      var o := Octant(center, p);
      if !initOcto || plane.isPlane || layer >= cfg.maxLayer then this
      else if leaves[o] != null then
        assert leaves[o].model == model.kids[o];
        assert ([o] + LookupPath(cfg, model.kids[o], p))[1..] == LookupPath(cfg, model.kids[o], p);
        leaves[o].FindCorrespond(p)
      else this
    }

    /** Insert: returns the node that received the point, which is the node a lookup of the
        same position then finds. */
    method Insert(pv: PointWithVar) returns (r: VoxelOctoTree)
      requires Valid() && Shape(cfg, model)
      modifies Repr
      ensures Valid() && fresh(Repr - old(Repr))
      ensures model == InsertTree(cfg, old(model), pv)
      ensures r == FindCorrespond(pv.w)
      decreases cfg.maxLayer - layer
    {
      if !initOcto || plane.isPlane || layer >= cfg.maxLayer {
        AppendPoint(pv);
        return this;
      }
      r := InsertBelow(pv);
      var o := Octant(center, pv.w);
      assert FindCorrespond(pv.w) == leaves[o].FindCorrespond(pv.w);
    }

    /** The branch of Insert that hands the point to a child. */
    method InsertBelow(pv: PointWithVar) returns (r: VoxelOctoTree)
      requires Valid() && Shape(cfg, model) && Routes(cfg, model)
      modifies Repr
      ensures Valid() && fresh(Repr - old(Repr))
      ensures model == InsertTree(cfg, old(model), pv)
      ensures var leaf := leaves[Octant(center, pv.w)];
              leaf != null && leaf.Valid() && Shape(leaf.cfg, leaf.model) && r == leaf.FindCorrespond(pv.w)
      decreases cfg.maxLayer - layer, 1
    {
      var leaf := ChildFor(pv.w);
      r := InsertIntoLeaf(Octant(center, pv.w), pv);
    }

    /** Hand the point to child `o`, which exists. */
    method InsertIntoLeaf(o: nat, pv: PointWithVar) returns (r: VoxelOctoTree)
      requires Valid() && o < 8 && leaves[o] != null && layer < cfg.maxLayer
      requires Shape(cfg, leaves[o].model) && leaves[o].layer == layer + 1
      modifies Repr
      ensures Valid() && fresh(Repr - old(Repr)) && leaves == old(leaves)
      ensures model == WithKid(old(model), o, InsertTree(cfg, old(leaves[o].model), pv))
      ensures leaves[o].Valid() && Shape(leaves[o].cfg, leaves[o].model) && r == leaves[o].FindCorrespond(pv.w)
      decreases cfg.maxLayer - layer, 0
    {
      r := leaves[o].Insert(pv);
      LeafGrew(o);
    }

    /** BuildSingleResidual on this node; `m` carries the in-out parameters. */
    method BuildSingleResidual(score: Scorer, maxLayer: nat, pv: PointWithVar, currentLayer: nat, m: Match)
      returns (r: Match)
      requires Valid()
      ensures r == Residual(score, maxLayer, pv, model, currentLayer, m)
      decreases Repr
    {
      r := m;
      if plane.isPlane {
        match score(pv, plane)
        case Rejected =>
        case Accepted(prob) =>
          r := r.(success := true);
          if prob > r.prob {
            r := r.(prob := prob, best := Chosen(Candidate(plane, currentLayer)));
          }
      } else if currentLayer < maxLayer {
        for n := 0 to 8
          invariant r == ResidualKids(score, maxLayer, pv, model, n, currentLayer, m)
        {
          var leaf := leaves[n];
          if leaf != null {
            assert leaf.model == model.kids[n];
            r := leaf.BuildSingleResidual(score, maxLayer, pv, currentLayer + 1, r);
          }
        }
      }
    }
  }
}
