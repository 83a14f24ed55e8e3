/** The octree of one voxel as a value: what each operation of VoxelOctoTree does to the
    whole tree below a node. `Absent` is a null child pointer. */
module OctreeSpec {
  import opened VoxelTypes

  datatype Tree =
    | Absent
    | Node(
        layer: nat,
        center: Vec3,
        quarter: real,
        threshold: nat,
        points: seq<PointWithVar>,
        newPoints: nat,
        init: bool,
        enabled: bool,
        plane: Plane,
        kids: seq<Tree>)

  const NO_KIDS: seq<Tree> := [Absent, Absent, Absent, Absent, Absent, Absent, Absent, Absent]

  /** A freshly constructed node. */
  function NewNode(cfg: Config, layer: nat, center: Vec3, quarter: real): Tree
    requires layer < |cfg.layerInitNum|
  {
    Node(layer, center, quarter, cfg.layerInitNum[layer], [], 0, false, true, Plane(false, []), NO_KIDS)
  }

  /** The child a node creates for octant `o`. */
  function NewChild(cfg: Config, t: Tree, o: nat): Tree
    requires ValidConfig(cfg) && t.Node? && t.layer < cfg.maxLayer && o < 8
  {
    NewNode(cfg, t.layer + 1, ChildCenter(t.center, t.quarter, o), t.quarter / 2.0)
  }

  /** A node that sends points on to its children: fitted, not planar, above the last layer. */
  predicate Routes(cfg: Config, t: Tree)
    requires t.Node?
  {
    t.init && !t.plane.isPlane && t.layer < cfg.maxLayer
  }

  /** Child `k` sits in octant `o` of `t`, one layer down. */
  ghost predicate ChildFits(cfg: Config, t: Tree, o: nat, k: Tree)
    requires t.Node? && k.Node? && o < 8
  {
    && k.layer == t.layer + 1
    && k.center == ChildCenter(t.center, t.quarter, o)
    && k.quarter == t.quarter / 2.0
  }

  /** The structure every operation keeps. */
  ghost predicate Shape(cfg: Config, t: Tree) {
    match t
    case Absent => true
    case Node(_, _, _, _, _, _, _, _, _, _) =>
      && ValidConfig(cfg)
      && t.layer <= cfg.maxLayer
      && t.threshold == cfg.layerInitNum[t.layer]
      && |t.kids| == 8
      && forall o | 0 <= o < 8 :: t.kids[o].Node? ==>
        && Routes(cfg, t)
        && ChildFits(cfg, t, o, t.kids[o])
        && Shape(cfg, t.kids[o])
  }

  function InitPlane(cfg: Config, points: seq<PointWithVar>): Plane {
    Plane(cfg.planar(points), points)
  }

  /** The points of `points` in octant `o` around `center`, in order. */
  function InOctant(points: seq<PointWithVar>, center: Vec3, o: nat): (r: seq<PointWithVar>)
    ensures |r| <= |points|
    ensures forall p | p in r :: p in points && Octant(center, p.w) == o
  {
    if points == [] then []
    else
      var rest := InOctant(points[..|points| - 1], center, o);
      var last := points[|points| - 1];
      if Octant(center, last.w) == o then rest + [last] else rest
  }

  /** How many of the first `n` points lie in octant `o`. */
  function CountIn(points: seq<PointWithVar>, center: Vec3, o: nat, n: nat): (c: nat)
    requires n <= |points|
    ensures c <= n
  {
    if n == 0 then 0 else CountIn(points, center, o, n - 1) + Bit(Octant(center, points[n - 1].w) == o)
  }

  /** `mine` are the points of octant `o`, each where the number of earlier ones puts it. */
  ghost predicate HoldsOctant(points: seq<PointWithVar>, center: Vec3, o: nat, mine: seq<PointWithVar>) {
    && |mine| == CountIn(points, center, o, |points|)
    && forall i | 0 <= i < |points| && Octant(center, points[i].w) == o :: PlacedAt(points, center, o, mine, i)
  }

  predicate PlacedAt(points: seq<PointWithVar>, center: Vec3, o: nat, mine: seq<PointWithVar>, i: nat)
    requires i < |points|
  {
    var j := CountIn(points, center, o, i);
    j < |mine| && mine[j] == points[i]
  }

  /** Some point lies in octant `o`. */
  ghost predicate Meets(points: seq<PointWithVar>, center: Vec3, o: nat) {
    exists i :: 0 <= i < |points| && Octant(center, points[i].w) == o
  }

  lemma {:induction false} CountPrefix(points: seq<PointWithVar>, center: Vec3, o: nat, m: nat, n: nat)
    requires n <= m <= |points|
    ensures CountIn(points[..m], center, o, n) == CountIn(points, center, o, n)
  {
    if n > 0 { CountPrefix(points, center, o, m, n - 1); }
  }

  /** No point of the octant is lost, none doubled, and they stay in order. */
  lemma {:induction false} InOctantHolds(points: seq<PointWithVar>, center: Vec3, o: nat)
    ensures HoldsOctant(points, center, o, InOctant(points, center, o))
  {
    if points != [] {
      var n := |points| - 1;
      var before, mine := InOctant(points[..n], center, o), InOctant(points, center, o);
      InOctantHolds(points[..n], center, o);
      CountPrefix(points, center, o, n, n);
      forall i | 0 <= i < |points| && Octant(center, points[i].w) == o ensures PlacedAt(points, center, o, mine, i) {
        CountPrefix(points, center, o, n, i);
        if i < n { assert PlacedAt(points[..n], center, o, before, i); }
      }
    }
  }

  lemma InOctantMeets(points: seq<PointWithVar>, center: Vec3, o: nat)
    ensures InOctant(points, center, o) != [] <==> Meets(points, center, o)
  {
    var mine := InOctant(points, center, o);
    InOctantHolds(points, center, o);
    if mine != [] {
      var i :| 0 <= i < |points| && points[i] == mine[0];
      assert Octant(center, points[i].w) == o;
    }
    if Meets(points, center, o) {
      var i :| 0 <= i < |points| && Octant(center, points[i].w) == o;
      assert PlacedAt(points, center, o, mine, i);
    }
  }

  /** So each point of the octant is there as often as it was. */
  lemma {:induction false} InOctantMultiplicity(points: seq<PointWithVar>, center: Vec3, o: nat, p: PointWithVar)
    ensures multiset(InOctant(points, center, o))[p] == if Octant(center, p.w) == o then multiset(points)[p] else 0
  {
    if points != [] {
      var n := |points| - 1;
      InOctantMultiplicity(points[..n], center, o, p);
      assert points == points[..n] + [points[n]];
    }
  }

  /** Child `o` after CutOctoTree's first loop has dealt out `points`. */
  function DealtChild(cfg: Config, t: Tree, points: seq<PointWithVar>, o: nat): (k: Tree)
    requires ValidConfig(cfg) && t.Node? && t.layer < cfg.maxLayer && o < 8
    ensures k.Node? ==> Shape(cfg, k) && ChildFits(cfg, t, o, k) && !k.init && k.kids == NO_KIDS
  {
    var mine := InOctant(points, t.center, o);
    if mine == [] then Absent
    else NewChild(cfg, t, o).(points := mine, newPoints := |mine|)
  }

  /** A node freezes on its first fit when the fit is planar and it is already over-full. */
  predicate FreezesOnInit(cfg: Config, t: Tree) {
    t.Node? && |t.points| > t.threshold && cfg.planar(t.points) && |t.points| > cfg.maxPoints
  }

  /** A node that has never been fitted. */
  ghost predicate Raw(cfg: Config, t: Tree) {
    t.Node? && Shape(cfg, t) && !t.init
  }

  /** InitOctoTree: fit once the threshold is exceeded; then keep, freeze or cut. */
  function InitTree(cfg: Config, t: Tree): (r: Tree)
    requires Raw(cfg, t)
    ensures r.Node? && Shape(cfg, r)
    ensures r.layer == t.layer && r.center == t.center && r.quarter == t.quarter
    decreases cfg.maxLayer - t.layer, 1
  {
    if |t.points| <= t.threshold then t
    else
      var fitted := t.(plane := InitPlane(cfg, t.points));
      var done :=
        if !fitted.plane.isPlane then CutTree(cfg, fitted)
        else if |t.points| > cfg.maxPoints then fitted.(enabled := false, points := [])
        else fitted;
      done.(init := true, newPoints := 0)
  }

  /** CutOctoTree: deal the points out to new children, then fit each child. */
  function CutTree(cfg: Config, t: Tree): (r: Tree)
    requires Raw(cfg, t) && !t.plane.isPlane
    ensures r.Node? && r == t.(kids := r.kids, newPoints := r.newPoints)
    ensures Shape(cfg, r.(init := true))
    decreases cfg.maxLayer - t.layer, 0
  {
    if t.layer >= cfg.maxLayer then t
    else
      t.(kids := seq(8, o requires 0 <= o < 8 => CutChild(cfg, t, o)),
         newPoints := if exists o :: 0 <= o < 8 && FreezesOnInit(cfg, DealtChild(cfg, t, t.points, o))
                          then 0 else t.newPoints)
  }

  /** Child `o` of a cut node. */
  function CutChild(cfg: Config, t: Tree, o: nat): (k: Tree)
    requires Raw(cfg, t) && t.layer < cfg.maxLayer && o < 8
    ensures k.Node? ==> Shape(cfg, k) && ChildFits(cfg, t, o, k)
    decreases cfg.maxLayer - t.layer - 1, 2
  {
    var k := DealtChild(cfg, t, t.points, o);
    if k.Absent? then Absent else InitTree(cfg, k)
  }

  /** Cutting keeps every point: child `o` exists exactly when some point falls there, and holds
      exactly those that do, in its store, or, when it froze at once, in the plane it was fitted to. */
  lemma CutKeepsPoints(cfg: Config, t: Tree, o: nat)
    requires Raw(cfg, t) && !t.plane.isPlane && t.layer < cfg.maxLayer && o < 8
    ensures var k := CutTree(cfg, t).kids[o];
            && (k.Node? <==> Meets(t.points, t.center, o))
            && (k.Node? ==> HoldsOctant(t.points, t.center, o, if k.enabled then k.points else k.plane.support))
  {
    assert CutTree(cfg, t).kids[o] == CutChild(cfg, t, o);
    InOctantHolds(t.points, t.center, o);
    InOctantMeets(t.points, t.center, o);
    var k := DealtChild(cfg, t, t.points, o);
    if k.Node? { InitKeepsPoints(cfg, k); }
  }

  lemma InitKeepsPoints(cfg: Config, t: Tree)
    requires Raw(cfg, t) && t.enabled
    ensures var r := InitTree(cfg, t); t.points == if r.enabled then r.points else r.plane.support
  {
  }

  /** `t` with child `o` replaced. */
  function WithKid(t: Tree, o: nat, k: Tree): Tree
    requires t.Node? && o < |t.kids|
  {
    t.(kids := t.kids[o := k])
  }

  /** temp_points_.push_back and the counter. */
  function Append(t: Tree, pv: PointWithVar): Tree
    requires t.Node?
  {
    t.(points := t.points + [pv], newPoints := t.newPoints + 1)
  }

  /** The tail of UpdateOctoTree for a fitted node that keeps its points: append, refit on
      every sixth new point, freeze once `full`. */
  function Absorb(cfg: Config, t: Tree, pv: PointWithVar, full: nat): Tree
    requires t.Node?
  {
    if !t.enabled then t
    else
      var grown := t.(points := t.points + [pv], newPoints := t.newPoints + 1);
      var refitted := if grown.newPoints > UPDATE_SIZE_THRESHOLD
        then grown.(plane := InitPlane(cfg, grown.points), newPoints := 0) else grown;
      if |refitted.points| >= full
      then refitted.(enabled := false, points := [], newPoints := 0) else refitted
  }

  /** UpdateOctoTree. A planar node is full at maxPoints, a last-layer node beyond it. */
  function UpdateTree(cfg: Config, t: Tree, pv: PointWithVar): (r: Tree)
    requires t.Node? && Shape(cfg, t)
    ensures r.Node? && Shape(cfg, r)
    ensures r.layer == t.layer && r.center == t.center && r.quarter == t.quarter
    decreases cfg.maxLayer - t.layer
  {
    if !t.init then
      InitTree(cfg, t.(points := t.points + [pv], newPoints := t.newPoints + 1))
    else if t.plane.isPlane then Absorb(cfg, t, pv, cfg.maxPoints)
    else if t.layer < cfg.maxLayer then
      var o := Octant(t.center, pv.w);
      var k := if t.kids[o].Node? then t.kids[o] else NewChild(cfg, t, o);
      WithKid(t, o, UpdateTree(cfg, k, pv))
    else Absorb(cfg, t, pv, cfg.maxPoints + 1)
  }

  /** Insert: hand the point to the node its octants lead to, without fitting anything. */
  function InsertTree(cfg: Config, t: Tree, pv: PointWithVar): (r: Tree)
    requires t.Node? && Shape(cfg, t)
    ensures r.Node? && Shape(cfg, r)
    ensures r.layer == t.layer && r.center == t.center && r.quarter == t.quarter
    decreases cfg.maxLayer - t.layer
  {
    if !Routes(cfg, t) then t.(points := t.points + [pv], newPoints := t.newPoints + 1)
    else
      var o := Octant(t.center, pv.w);
      var k := if t.kids[o].Node? then t.kids[o] else NewChild(cfg, t, o);
      WithKid(t, o, InsertTree(cfg, k, pv))
  }

  /** The octants FindCorrespond follows from the root to the node it returns. */
  function LookupPath(cfg: Config, t: Tree, p: Vec3): (path: seq<nat>)
    requires t.Node? && Shape(cfg, t)
    ensures NodeAt(t, path).Node?
    decreases t
  {
    var o := Octant(t.center, p);
    if Routes(cfg, t) && t.kids[o].Node? then [o] + LookupPath(cfg, t.kids[o], p) else []
  }

  /** The node at an address, or Absent. */
  function NodeAt(t: Tree, path: seq<nat>): Tree
    decreases |path|
  {
    if path == [] then t
    else if t.Node? && path[0] < |t.kids| then NodeAt(t.kids[path[0]], path[1..])
    else Absent
  }
}
