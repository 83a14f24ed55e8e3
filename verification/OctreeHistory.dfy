/** What the octree of a voxel is, told from the points it was given alone: which of them a node
    stored, fitted its plane to and kept, and which went on to which child. */
module OctreeHistory {
  import opened VoxelTypes
  import opened OctreeSpec
  import opened OctreeInvariants

  /** The number of points at the first fit: a batch over the threshold is fitted whole, otherwise
      the first point beyond the threshold brings it about. */
  function FirstFit(threshold: nat, batch: seq<PointWithVar>): nat {
    if |batch| > threshold then |batch| else threshold + 1
  }

  /** The number of points at the last fit, when `i` were absorbed: every sixth after the first. */
  function LastFit(first: nat, i: nat): (n: nat)
    requires first <= i
    ensures first <= n <= i
  {
    i - (i - first) % 6
  }

  /** The plane after `i` points. */
  function PlaneAfter(cfg: Config, all: seq<PointWithVar>, first: nat, i: nat): Plane
    requires first <= i <= |all|
  {
    var support := all[..LastFit(first, i)];
    Plane(cfg.planar(support), support)
  }

  /** The `i`-th point is the one that fills the node. The first fit fills it only beyond
      max_points_num_; later a planar node is full at that, another one beyond it. */
  predicate FullAt(cfg: Config, all: seq<PointWithVar>, first: nat, i: nat)
    requires first <= i <= |all|
  {
    if i == first then PlaneAfter(cfg, all, first, i).isPlane && i > cfg.maxPoints
    else i >= cfg.maxPoints + if PlaneAfter(cfg, all, first, i - 1).isPlane then 0 else 1
  }

  /** With `i` points the node is full, or hands the next ones on. */
  predicate StopsAt(cfg: Config, layer: nat, all: seq<PointWithVar>, first: nat, i: nat)
    requires first <= i <= |all|
  {
    FullAt(cfg, all, first, i) || (layer < cfg.maxLayer && !PlaneAfter(cfg, all, first, i).isPlane)
  }

  /** How many points the node itself takes: up to the first at which it stops. */
  function Own(cfg: Config, layer: nat, all: seq<PointWithVar>, first: nat, i: nat): (n: nat)
    requires first <= i <= |all|
    ensures i <= n <= |all|
    ensures n < |all| ==> StopsAt(cfg, layer, all, first, n)
    decreases |all| - i
  {
    if i == |all| || StopsAt(cfg, layer, all, first, i) then i else Own(cfg, layer, all, first, i + 1)
  }

  /** The points that fall in octant `o`, in order. */
  function Falling(points: seq<PointWithVar>, center: Vec3, o: nat): seq<PointWithVar> {
    if points == [] then []
    else (if Octant(center, points[0].w) == o then [points[0]] else []) + Falling(points[1..], center, o)
  }

  /** The tree of a node that was given `batch` before its first fit was tried and `later` one by
      one after that. */
  function TreeOf(cfg: Config, layer: nat, center: Vec3, quarter: real,
                  batch: seq<PointWithVar>, later: seq<PointWithVar>): (t: Tree)
    requires ValidConfig(cfg) && layer <= cfg.maxLayer
    ensures t.Node? && Shape(cfg, t) && t.layer == layer && t.center == center && t.quarter == quarter
    decreases cfg.maxLayer - layer, 1
  {
    var all, threshold := batch + later, cfg.layerInitNum[layer];
    if |all| <= threshold then
      Node(layer, center, quarter, threshold, all, |all|, false, true, Plane(false, []), NO_KIDS)
    else
      FittedTree(cfg, layer, center, quarter, all, FirstFit(threshold, batch))
  }

  /** The same once it was fitted, first with `first` points. What comes after its own points goes
      to the children; so do those of the first fit if that cut the node. */
  function FittedTree(cfg: Config, layer: nat, center: Vec3, quarter: real,
                      all: seq<PointWithVar>, first: nat): (t: Tree)
    requires ValidConfig(cfg) && layer <= cfg.maxLayer && first <= |all|
    ensures t.Node? && Shape(cfg, t) && t.layer == layer && t.center == center && t.quarter == quarter
    decreases cfg.maxLayer - layer, 0
  {
    var n := Own(cfg, layer, all, first, first);
    OwnNode(cfg, layer, center, quarter, all, first, n,
            if layer < cfg.maxLayer && !PlaneAfter(cfg, all, first, n).isPlane
            then Children(cfg, layer, center, quarter, if n == first then all[..n] else [], all[n..]) else NO_KIDS)
  }

  /** The fields of a node that took the first `n`. */
  function OwnNode(cfg: Config, layer: nat, center: Vec3, quarter: real,
                   all: seq<PointWithVar>, first: nat, n: nat, kids: seq<Tree>): (t: Tree)
    requires layer < |cfg.layerInitNum| && first <= n <= |all|
  {
    var full := FullAt(cfg, all, first, n);
    Node(layer, center, quarter, cfg.layerInitNum[layer],
         if full then [] else all[..n], if full then 0 else n - LastFit(first, n), true, !full,
         PlaneAfter(cfg, all, first, n), kids)
  }

  function Children(cfg: Config, layer: nat, center: Vec3, quarter: real,
                    dealt: seq<PointWithVar>, rest: seq<PointWithVar>): (kids: seq<Tree>)
    requires ValidConfig(cfg) && layer < cfg.maxLayer
    ensures |kids| == 8
    ensures forall o: nat | o < 8 :: kids[o] == ChildOf(cfg, layer, center, quarter, dealt, rest, o)
    decreases cfg.maxLayer - layer - 1, 3
  {
    seq(8, o requires 0 <= o < 8 => ChildOf(cfg, layer, center, quarter, dealt, rest, o))
  }

  function ChildOf(cfg: Config, layer: nat, center: Vec3, quarter: real,
                   dealt: seq<PointWithVar>, rest: seq<PointWithVar>, o: nat): (k: Tree)
    requires ValidConfig(cfg) && layer < cfg.maxLayer && o < 8
    ensures k.Node? ==> Shape(cfg, k) && k.layer == layer + 1 && k.quarter == quarter / 2.0
                        && k.center == ChildCenter(center, quarter, o)
    decreases cfg.maxLayer - layer - 1, 2
  {
    var batch, later := Falling(dealt, center, o), Falling(rest, center, o);
    if batch == [] && later == [] then Absent
    else TreeOf(cfg, layer + 1, ChildCenter(center, quarter, o), quarter / 2.0, batch, later)
  }

  // ----- the points of an octant -----

  lemma {:induction false} FallingPush(points: seq<PointWithVar>, p: PointWithVar, center: Vec3, o: nat)
    ensures Octant(center, p.w) == o ==> Falling(points + [p], center, o) == Falling(points, center, o) + [p]
    ensures Octant(center, p.w) != o ==> Falling(points + [p], center, o) == Falling(points, center, o)
  {
    if points == [] {
      assert [p][1..] == [];
    } else {
      FallingPush(points[1..], p, center, o);
      assert (points + [p])[1..] == points[1..] + [p];
    }
  }

  /** What CutOctoTree's loop deals to an octant. */
  lemma {:induction false} DealtFalls(points: seq<PointWithVar>, center: Vec3, o: nat)
    ensures InOctant(points, center, o) == Falling(points, center, o)
  {
    if points != [] {
      var n := |points| - 1;
      DealtFalls(points[..n], center, o);
      FallingPush(points[..n], points[n], center, o);
      assert points == points[..n] + [points[n]];
    }
  }

  // ----- one more point -----

  lemma PlaneBefore(cfg: Config, all: seq<PointWithVar>, p: PointWithVar, first: nat, i: nat)
    requires first <= i <= |all|
    ensures PlaneAfter(cfg, all + [p], first, i) == PlaneAfter(cfg, all, first, i)
  {
    assert (all + [p])[..LastFit(first, i)] == all[..LastFit(first, i)];
  }

  lemma FullBefore(cfg: Config, layer: nat, all: seq<PointWithVar>, p: PointWithVar, first: nat,
                   i: nat)
    requires first <= i <= |all|
    ensures FullAt(cfg, all + [p], first, i) == FullAt(cfg, all, first, i)
    ensures StopsAt(cfg, layer, all + [p], first, i) == StopsAt(cfg, layer, all, first, i)
  {
    PlaneBefore(cfg, all, p, first, i);
    if i > first { PlaneBefore(cfg, all, p, first, i - 1); }
  }

  lemma {:induction false} OwnNext(cfg: Config, layer: nat, all: seq<PointWithVar>, p: PointWithVar, first: nat, i: nat)
    requires first <= i <= |all|
    ensures var n := Own(cfg, layer, all, first, i);
            Own(cfg, layer, all + [p], first, i) == if StopsAt(cfg, layer, all, first, n) then n else n + 1
    decreases |all| - i
  {
    FullBefore(cfg, layer, all, p, first, i);
    if i < |all| && !StopsAt(cfg, layer, all, first, i) {
      OwnNext(cfg, layer, all, p, first, i + 1);
    }
  }

  /** A node that stores points and was never fitted. */
  function Stored(cfg: Config, layer: nat, center: Vec3, quarter: real, points: seq<PointWithVar>): (t: Tree)
    requires ValidConfig(cfg) && layer <= cfg.maxLayer
    ensures Raw(cfg, t)
  {
    Node(layer, center, quarter, cfg.layerInitNum[layer], points, |points|, false, true, Plane(false, []), NO_KIDS)
  }

  /** The first fit of points stored without fitting. */
  lemma {:induction false} FitOfStored(cfg: Config, layer: nat, center: Vec3, quarter: real, points: seq<PointWithVar>)
    requires ValidConfig(cfg) && layer <= cfg.maxLayer
    ensures InitTree(cfg, Stored(cfg, layer, center, quarter, points))
         == TreeOf(cfg, layer, center, quarter, points, [])
    decreases cfg.maxLayer - layer, 1
  {
    var t, n := Stored(cfg, layer, center, quarter, points), |points|;
    assert points + [] == points && points[..n] == points && points[n..] == [];
    if n > t.threshold && !cfg.planar(points) && layer < cfg.maxLayer {
      CutChildren(cfg, layer, center, quarter, points, t);
    }
  }

  lemma {:induction false} CutChildren(cfg: Config, layer: nat, center: Vec3, quarter: real,
                                       points: seq<PointWithVar>, t: Tree)
    requires ValidConfig(cfg) && layer < cfg.maxLayer && t == Stored(cfg, layer, center, quarter, points)
    requires |points| > t.threshold && !cfg.planar(points)
    ensures InitTree(cfg, t).kids == Children(cfg, layer, center, quarter, points, [])
    decreases cfg.maxLayer - layer, 0
  {
    forall o: nat | o < 8
      ensures InitTree(cfg, t).kids[o] == ChildOf(cfg, layer, center, quarter, points, [], o)
    {
      CutKid(cfg, t, o);
      CutChildIs(cfg, t.(plane := InitPlane(cfg, points)), o);
    }
  }

  lemma {:induction false} CutChildIs(cfg: Config, t: Tree, o: nat)
    requires Raw(cfg, t) && t.layer < cfg.maxLayer && o < 8
    ensures CutChild(cfg, t, o) == ChildOf(cfg, t.layer, t.center, t.quarter, t.points, [], o)
    decreases cfg.maxLayer - t.layer - 1, 2
  {
    var mine := Falling(t.points, t.center, o);
    DealtIs(cfg, t, t.points, o, mine);
    FitOfStored(cfg, t.layer + 1, ChildCenter(t.center, t.quarter, o), t.quarter / 2.0, mine);
    assert Falling([], t.center, o) == [];
  }

  lemma DealtIs(cfg: Config, t: Tree, points: seq<PointWithVar>, o: nat, mine: seq<PointWithVar>)
    requires ValidConfig(cfg) && t.Node? && t.layer < cfg.maxLayer && o < 8 && mine == Falling(points, t.center, o)
    ensures DealtChild(cfg, t, points, o)
         == if mine == [] then Absent
            else Stored(cfg, t.layer + 1, ChildCenter(t.center, t.quarter, o), t.quarter / 2.0, mine)
  {
    DealtFalls(points, t.center, o);
  }

  lemma EmptyTree(cfg: Config, layer: nat, center: Vec3, quarter: real)
    requires ValidConfig(cfg) && layer <= cfg.maxLayer
    ensures TreeOf(cfg, layer, center, quarter, [], []) == NewNode(cfg, layer, center, quarter)
  {
  }

  /** The child there is, or a new one: the tree of what it was given. */
  lemma ChildOrNew(cfg: Config, layer: nat, center: Vec3, quarter: real,
                   dealt: seq<PointWithVar>, rest: seq<PointWithVar>, o: nat, k: Tree)
    requires ValidConfig(cfg) && layer < cfg.maxLayer && o < 8
    requires k == ChildOf(cfg, layer, center, quarter, dealt, rest, o)
    ensures (if k.Node? then k else NewNode(cfg, layer + 1, ChildCenter(center, quarter, o), quarter / 2.0))
         == TreeOf(cfg, layer + 1, ChildCenter(center, quarter, o), quarter / 2.0,
                   Falling(dealt, center, o), Falling(rest, center, o))
  {
    EmptyTree(cfg, layer + 1, ChildCenter(center, quarter, o), quarter / 2.0);
  }

  /** `t` is the tree of these points. */
  ghost predicate IsTreeOf(cfg: Config, layer: nat, center: Vec3, quarter: real, batch: seq<PointWithVar>,
                           later: seq<PointWithVar>, t: Tree)
    requires ValidConfig(cfg) && layer <= cfg.maxLayer
  {
    t == TreeOf(cfg, layer, center, quarter, batch, later)
  }

  /** `next` is `t` with one more point. */
  ghost predicate IsUpdated(cfg: Config, t: Tree, pv: PointWithVar, next: Tree) {
    t.Node? && Shape(cfg, t) && next == UpdateTree(cfg, t, pv)
  }

  lemma ChildMade(cfg: Config, layer: nat, center: Vec3, quarter: real,
                  dealt: seq<PointWithVar>, rest: seq<PointWithVar>, o: nat, later: seq<PointWithVar>, k: Tree)
    requires ValidConfig(cfg) && layer < cfg.maxLayer && o < 8 && later == Falling(rest, center, o) && later != []
    requires IsTreeOf(cfg, layer + 1, ChildCenter(center, quarter, o), quarter / 2.0, Falling(dealt, center, o),
                      later, k)
    ensures ChildOf(cfg, layer, center, quarter, dealt, rest, o) == k
  {
  }

  /** A child given one more point, and one not given it. */
  lemma {:induction false} ChildGiven(cfg: Config, layer: nat, center: Vec3, quarter: real,
                                      dealt: seq<PointWithVar>, rest: seq<PointWithVar>, pv: PointWithVar,
                                      o: nat, k: Tree, next: Tree)
    requires ValidConfig(cfg) && layer < cfg.maxLayer && o == Octant(center, pv.w) && IsUpdated(cfg, k, pv, next)
    requires IsTreeOf(cfg, layer + 1, ChildCenter(center, quarter, o), quarter / 2.0,
                      Falling(dealt, center, o), Falling(rest, center, o), k)
    ensures ChildOf(cfg, layer, center, quarter, dealt, rest + [pv], o) == next
    decreases cfg.maxLayer - layer, 2
  {
    FallingPush(rest, pv, center, o);
    TreeGiven(cfg, layer + 1, ChildCenter(center, quarter, o), quarter / 2.0,
              Falling(dealt, center, o), Falling(rest, center, o), pv, k, next);
    ChildMade(cfg, layer, center, quarter, dealt, rest + [pv], o, Falling(rest, center, o) + [pv], next);
  }

  lemma {:induction false} TreeGiven(cfg: Config, layer: nat, center: Vec3, quarter: real, batch: seq<PointWithVar>,
                                     later: seq<PointWithVar>, pv: PointWithVar, t: Tree, next: Tree)
    requires ValidConfig(cfg) && layer <= cfg.maxLayer
    requires IsTreeOf(cfg, layer, center, quarter, batch, later, t) && IsUpdated(cfg, t, pv, next)
    ensures IsTreeOf(cfg, layer, center, quarter, batch, later + [pv], next)
    decreases cfg.maxLayer - layer, 6
  {
    TreeNext(cfg, layer, center, quarter, batch, later, pv);
  }

  lemma ChildNotGiven(cfg: Config, layer: nat, center: Vec3, quarter: real,
                      dealt: seq<PointWithVar>, rest: seq<PointWithVar>, pv: PointWithVar, o: nat)
    requires ValidConfig(cfg) && layer < cfg.maxLayer && o < 8 && o != Octant(center, pv.w)
    ensures ChildOf(cfg, layer, center, quarter, dealt, rest + [pv], o)
         == ChildOf(cfg, layer, center, quarter, dealt, rest, o)
  {
    FallingPush(rest, pv, center, o);
  }

  lemma {:induction false} ChildrenNext(cfg: Config, layer: nat, center: Vec3, quarter: real,
                                        dealt: seq<PointWithVar>, rest: seq<PointWithVar>, pv: PointWithVar, o: nat,
                                        k: Tree)
    requires ValidConfig(cfg) && layer < cfg.maxLayer && o == Octant(center, pv.w)
    requires k == ChildOf(cfg, layer, center, quarter, dealt, rest, o)
    ensures Children(cfg, layer, center, quarter, dealt, rest + [pv])
         == Children(cfg, layer, center, quarter, dealt, rest)[
              o := UpdateTree(cfg, if k.Node? then k else NewNode(cfg, layer + 1, ChildCenter(center, quarter, o),
                                                                  quarter / 2.0), pv)]
    decreases cfg.maxLayer - layer, 3
  {
    forall i: nat | i < 8 && i != o
      ensures ChildOf(cfg, layer, center, quarter, dealt, rest + [pv], i)
           == ChildOf(cfg, layer, center, quarter, dealt, rest, i)
    {
      ChildNotGiven(cfg, layer, center, quarter, dealt, rest, pv, i);
    }
    ChildOrNew(cfg, layer, center, quarter, dealt, rest, o, k);
    var given := if k.Node? then k else NewNode(cfg, layer + 1, ChildCenter(center, quarter, o), quarter / 2.0);
    ChildGiven(cfg, layer, center, quarter, dealt, rest, pv, o, given, UpdateTree(cfg, given, pv));
  }

  /** A node that hands points on hands this one on. */
  lemma {:induction false} RoutedNext(cfg: Config, layer: nat, center: Vec3, quarter: real, all: seq<PointWithVar>,
                                      first: nat, pv: PointWithVar, n: nat)
    requires ValidConfig(cfg) && layer < cfg.maxLayer && first <= |all| && n == Own(cfg, layer, all, first, first)
    requires StopsAt(cfg, layer, all, first, n) && !PlaneAfter(cfg, all, first, n).isPlane
    ensures UpdateTree(cfg, FittedTree(cfg, layer, center, quarter, all, first), pv)
         == FittedTree(cfg, layer, center, quarter, all + [pv], first)
    decreases cfg.maxLayer - layer, 4
  {
    var o, dealt := Octant(center, pv.w), if n == first then all[..n] else [];
    var kids := Children(cfg, layer, center, quarter, dealt, all[n..]);
    OwnNext(cfg, layer, all, pv, first, first);
    OwnBefore(cfg, layer, center, quarter, all, pv, first, n);
    ChildrenNext(cfg, layer, center, quarter, dealt, all[n..], pv, o, kids[o]);
    Handing(cfg, layer, center, quarter, all, first, n);
    Handing(cfg, layer, center, quarter, all + [pv], first, n);
    HandOn(cfg, layer, center, quarter, all, first, n, kids, pv);
  }

  /** A node that hands points on. */
  lemma Handing(cfg: Config, layer: nat, center: Vec3, quarter: real, all: seq<PointWithVar>,
                first: nat, n: nat)
    requires ValidConfig(cfg) && layer < cfg.maxLayer && first <= |all| && n == Own(cfg, layer, all, first, first)
    requires !PlaneAfter(cfg, all, first, n).isPlane
    ensures FittedTree(cfg, layer, center, quarter, all, first)
         == OwnNode(cfg, layer, center, quarter, all, first, n,
                    Children(cfg, layer, center, quarter, if n == first then all[..n] else [], all[n..]))
  {
  }

  lemma OwnBefore(cfg: Config, layer: nat, center: Vec3, quarter: real, all: seq<PointWithVar>,
                  pv: PointWithVar, first: nat, n: nat)
    requires layer < |cfg.layerInitNum| && first <= n <= |all|
    ensures PlaneAfter(cfg, all + [pv], first, n) == PlaneAfter(cfg, all, first, n)
    ensures (all + [pv])[..n] == all[..n] && (all + [pv])[n..] == all[n..] + [pv]
    ensures forall kids :: OwnNode(cfg, layer, center, quarter, all + [pv], first, n, kids)
                        == OwnNode(cfg, layer, center, quarter, all, first, n, kids)
  {
    FullBefore(cfg, layer, all, pv, first, n);
    PlaneBefore(cfg, all, pv, first, n);
  }

  lemma HandOn(cfg: Config, layer: nat, center: Vec3, quarter: real, all: seq<PointWithVar>,
               first: nat, n: nat, kids: seq<Tree>, pv: PointWithVar)
    requires ValidConfig(cfg) && layer < cfg.maxLayer && first <= n <= |all| && |kids| == 8
    requires var t := OwnNode(cfg, layer, center, quarter, all, first, n, kids); Shape(cfg, t) && Routes(cfg, t)
    ensures var o := Octant(center, pv.w);
            && (kids[o].Node? ==> Shape(cfg, kids[o]))
            && UpdateTree(cfg, OwnNode(cfg, layer, center, quarter, all, first, n, kids), pv)
               == OwnNode(cfg, layer, center, quarter, all, first, n,
                          kids[o := UpdateTree(cfg, if kids[o].Node? then kids[o] else
                                 NewNode(cfg, layer + 1, ChildCenter(center, quarter, o), quarter / 2.0), pv)])
  {
  }

  /** A full node that hands nothing on stays as it is. */
  lemma FullNext(cfg: Config, layer: nat, center: Vec3, quarter: real, all: seq<PointWithVar>,
                 first: nat, pv: PointWithVar)
    requires ValidConfig(cfg) && layer <= cfg.maxLayer && first <= |all|
    requires var n := Own(cfg, layer, all, first, first);
             FullAt(cfg, all, first, n) && (layer == cfg.maxLayer || PlaneAfter(cfg, all, first, n).isPlane)
    ensures UpdateTree(cfg, FittedTree(cfg, layer, center, quarter, all, first), pv)
         == FittedTree(cfg, layer, center, quarter, all + [pv], first)
  {
    var n := Own(cfg, layer, all, first, first);
    OwnNext(cfg, layer, all, pv, first, first);
    FullBefore(cfg, layer, all, pv, first, n);
    PlaneBefore(cfg, all, pv, first, n);
  }

  lemma FitNext(first: nat, n: nat)
    requires first <= n
    ensures LastFit(first, n + 1)
         == if n - LastFit(first, n) + 1 > UPDATE_SIZE_THRESHOLD then n + 1 else LastFit(first, n)
  {
  }

  lemma PlaneNext(cfg: Config, all: seq<PointWithVar>, first: nat, pv: PointWithVar)
    requires first <= |all|
    ensures PlaneAfter(cfg, all + [pv], first, |all| + 1)
         == if |all| - LastFit(first, |all|) + 1 > UPDATE_SIZE_THRESHOLD then InitPlane(cfg, all + [pv])
            else PlaneAfter(cfg, all, first, |all|)
  {
    var more := all + [pv];
    FitNext(first, |all|);
    assert more[..|all| + 1] == more;
    assert more[..LastFit(first, |all|)] == all[..LastFit(first, |all|)];
  }

  /** A node that took all its points so far. */
  lemma TakenAll(cfg: Config, layer: nat, center: Vec3, quarter: real, all: seq<PointWithVar>,
                 first: nat)
    requires ValidConfig(cfg) && layer <= cfg.maxLayer && first < |all| && Own(cfg, layer, all, first, first) == |all|
    ensures var n, full := |all|, FullAt(cfg, all, first, |all|);
            FittedTree(cfg, layer, center, quarter, all, first)
            == Node(layer, center, quarter, cfg.layerInitNum[layer], if full then [] else all,
                    if full then 0 else n - LastFit(first, n), true, !full, PlaneAfter(cfg, all, first, n), NO_KIDS)
  {
    assert all[..|all|] == all && all[|all|..] == [];
    if layer < cfg.maxLayer { NoChildren(cfg, layer, center, quarter); }
  }

  /** A node that takes points takes this one. */
  lemma AbsorbedNext(cfg: Config, layer: nat, center: Vec3, quarter: real, all: seq<PointWithVar>,
                     first: nat, pv: PointWithVar, t: Tree)
    requires ValidConfig(cfg) && layer <= cfg.maxLayer && first <= |all|
    requires !StopsAt(cfg, layer, all, first, Own(cfg, layer, all, first, first))
    requires t == FittedTree(cfg, layer, center, quarter, all, first)
    ensures UpdateTree(cfg, t, pv) == FittedTree(cfg, layer, center, quarter, all + [pv], first)
  {
    var n, plane := |all|, PlaneAfter(cfg, all, first, |all|);
    OwnNext(cfg, layer, all, pv, first, first);
    PlaneBefore(cfg, all, pv, first, n);
    FitNext(first, n);
    PlaneNext(cfg, all, first, pv);
    TakenAll(cfg, layer, center, quarter, all + [pv], first);
    Taking(cfg, layer, center, quarter, all, first, t);
  }

  lemma Taking(cfg: Config, layer: nat, center: Vec3, quarter: real, all: seq<PointWithVar>,
               first: nat, t: Tree)
    requires ValidConfig(cfg) && layer <= cfg.maxLayer && first <= |all|
    requires !StopsAt(cfg, layer, all, first, Own(cfg, layer, all, first, first))
    requires t == FittedTree(cfg, layer, center, quarter, all, first)
    ensures t == Node(layer, center, quarter, cfg.layerInitNum[layer], all, |all| - LastFit(first, |all|), true, true,
                      PlaneAfter(cfg, all, first, |all|), NO_KIDS)
    ensures layer < cfg.maxLayer ==> t.plane.isPlane
  {
    assert all[..|all|] == all;
  }

  lemma NoChildren(cfg: Config, layer: nat, center: Vec3, quarter: real)
    requires ValidConfig(cfg) && layer < cfg.maxLayer
    ensures Children(cfg, layer, center, quarter, [], []) == NO_KIDS
  {
  }

  lemma {:induction false} TreeNext(cfg: Config, layer: nat, center: Vec3, quarter: real, batch: seq<PointWithVar>,
                                    later: seq<PointWithVar>, pv: PointWithVar)
    requires ValidConfig(cfg) && layer <= cfg.maxLayer
    ensures UpdateTree(cfg, TreeOf(cfg, layer, center, quarter, batch, later), pv)
         == TreeOf(cfg, layer, center, quarter, batch, later + [pv])
    decreases cfg.maxLayer - layer, 5
  {
    var all, threshold := batch + later, cfg.layerInitNum[layer];
    var first := FirstFit(threshold, batch);
    assert batch + (later + [pv]) == all + [pv];
    if |all| <= threshold {
      FitOfStored(cfg, layer, center, quarter, all + [pv]);
      assert (all + [pv]) + [] == all + [pv];
    } else {
      var n := Own(cfg, layer, all, first, first);
      if !StopsAt(cfg, layer, all, first, n) {
        AbsorbedNext(cfg, layer, center, quarter, all, first, pv,
                     FittedTree(cfg, layer, center, quarter, all, first));
      } else if layer < cfg.maxLayer && !PlaneAfter(cfg, all, first, n).isPlane {
        RoutedNext(cfg, layer, center, quarter, all, first, pv, n);
      } else {
        FullNext(cfg, layer, center, quarter, all, first, pv);
      }
    }
  }

  // ----- whole runs -----

  /** Over any run of updates a tree is what its points alone make of it: those stored before the
      first fit was tried, and the others in order of arrival. */
  lemma {:induction false} UpdatesTell(cfg: Config, layer: nat, center: Vec3, quarter: real, batch: seq<PointWithVar>,
                                       later: seq<PointWithVar>, pvs: seq<PointWithVar>)
    requires ValidConfig(cfg) && layer <= cfg.maxLayer
    ensures UpdateAll(cfg, TreeOf(cfg, layer, center, quarter, batch, later), pvs)
         == TreeOf(cfg, layer, center, quarter, batch, later + pvs)
  {
    if pvs == [] {
      assert later + pvs == later;
    } else {
      var n := |pvs| - 1;
      UpdatesTell(cfg, layer, center, quarter, batch, later, pvs[..n]);
      TreeNext(cfg, layer, center, quarter, batch, later + pvs[..n], pvs[n]);
      LastApart(later, pvs);
    }
  }

  lemma LastApart(a: seq<PointWithVar>, b: seq<PointWithVar>)
    requires b != []
    ensures (a + b[..|b| - 1]) + [b[|b| - 1]] == a + b
  {
  }

  /** So does the tree of a new voxel. */
  lemma NewTreeTells(cfg: Config, center: Vec3, quarter: real, pvs: seq<PointWithVar>)
    requires ValidConfig(cfg)
    ensures UpdateAll(cfg, NewNode(cfg, 0, center, quarter), pvs) == TreeOf(cfg, 0, center, quarter, [], pvs)
  {
    UpdatesTell(cfg, 0, center, quarter, [], [], pvs);
    assert [] + pvs == pvs;
  }
}
