/** Where a point goes: insertion, update and lookup agree on the node, and everything
    outside that node is left alone. */
module OctreeLookup {
  import opened VoxelTypes
  import opened OctreeSpec

  /** The address insertion and update deliver a point to: down through routing nodes, one
      step into a child that does not exist yet when there is none. */
  function ReceivePath(cfg: Config, t: Tree, p: Vec3): (path: seq<nat>)
    requires t.Node? && Shape(cfg, t)
    decreases t
  {
    var o := Octant(t.center, p);
    if !Routes(cfg, t) then []
    else if t.kids[o].Node? then [o] + ReceivePath(cfg, t.kids[o], p)
    else [o]
  }

  /** The node at that address before the point arrives; a new child when there is none. */
  function Receiver(cfg: Config, t: Tree, p: Vec3): (r: Tree)
    requires t.Node? && Shape(cfg, t)
    ensures r.Node? && Shape(cfg, r) && !Routes(cfg, r)
    decreases t
  {
    var o := Octant(t.center, p);
    if !Routes(cfg, t) then t
    else if t.kids[o].Node? then Receiver(cfg, t.kids[o], p)
    else NewChild(cfg, t, o)
  }

  /** Every node strictly above `path` exists and has eight child slots. */
  predicate Reaches(t: Tree, path: seq<nat>)
    decreases |path|
  {
    path == [] || (t.Node? && |t.kids| == 8 && path[0] < 8 && Reaches(t.kids[path[0]], path[1..]))
  }

  /** `t` with the subtree at `path` replaced by `s`. */
  function Graft(t: Tree, path: seq<nat>, s: Tree): Tree
    requires Reaches(t, path)
    decreases |path|
  {
    if path == [] then s
    else t.(kids := t.kids[path[0] := Graft(t.kids[path[0]], path[1..], s)])
  }

  /** The octants a position falls in, `n` layers down from a node with this cube. They
      depend on the geometry alone, not on which nodes exist. */
  function Octants(center: Vec3, quarter: real, p: Vec3, n: nat): (path: seq<nat>)
    ensures |path| == n
    decreases n
  {
    if n == 0 then []
    else
      var o := Octant(center, p);
      [o] + Octants(ChildCenter(center, quarter, o), quarter / 2.0, p, n - 1)
  }

  /** The same node, its children aside. */
  ghost predicate SameOwnFields(a: Tree, b: Tree) {
    a.Node? == b.Node? && (a.Node? ==> a.(kids := []) == b.(kids := []))
  }

  lemma {:induction false} ReceivePathReaches(cfg: Config, t: Tree, p: Vec3)
    requires t.Node? && Shape(cfg, t)
    ensures Reaches(t, ReceivePath(cfg, t, p))
    decreases t
  {
    var o := Octant(t.center, p);
    if Routes(cfg, t) && t.kids[o].Node? {
      ReceivePathReaches(cfg, t.kids[o], p);
      assert ([o] + ReceivePath(cfg, t.kids[o], p))[1..] == ReceivePath(cfg, t.kids[o], p);
    } else if Routes(cfg, t) {
      assert [o][1..] == [];
    }
  }

  /** UpdateOctoTree changes the receiving subtree and nothing else. */
  lemma {:induction false} UpdateIsLocal(cfg: Config, t: Tree, pv: PointWithVar)
    requires t.Node? && Shape(cfg, t)
    ensures Reaches(t, ReceivePath(cfg, t, pv.w))
    ensures UpdateTree(cfg, t, pv)
         == Graft(t, ReceivePath(cfg, t, pv.w), UpdateTree(cfg, Receiver(cfg, t, pv.w), pv))
    decreases t
  {
    ReceivePathReaches(cfg, t, pv.w);
    var o := Octant(t.center, pv.w);
    if Routes(cfg, t) && t.kids[o].Node? {
      UpdateIsLocal(cfg, t.kids[o], pv);
      assert ([o] + ReceivePath(cfg, t.kids[o], pv.w))[1..] == ReceivePath(cfg, t.kids[o], pv.w);
    } else if Routes(cfg, t) {
      assert [o][1..] == [];
    }
  }

  /** Insert appends the point to the receiving node and changes nothing else. */
  lemma {:induction false} InsertIsLocal(cfg: Config, t: Tree, pv: PointWithVar)
    requires t.Node? && Shape(cfg, t)
    ensures Reaches(t, ReceivePath(cfg, t, pv.w))
    ensures var r := Receiver(cfg, t, pv.w);
            InsertTree(cfg, t, pv) == Graft(t, ReceivePath(cfg, t, pv.w),
              r.(points := r.points + [pv], newPoints := r.newPoints + 1))
    decreases t
  {
    ReceivePathReaches(cfg, t, pv.w);
    var o := Octant(t.center, pv.w);
    if Routes(cfg, t) && t.kids[o].Node? {
      InsertIsLocal(cfg, t.kids[o], pv);
      assert ([o] + ReceivePath(cfg, t.kids[o], pv.w))[1..] == ReceivePath(cfg, t.kids[o], pv.w);
    } else if Routes(cfg, t) {
      assert [o][1..] == [];
    }
  }

  /** Looking a point up right after inserting it ends at the node that received it. */
  lemma {:induction false} InsertThenLookup(cfg: Config, t: Tree, pv: PointWithVar)
    requires t.Node? && Shape(cfg, t)
    ensures LookupPath(cfg, InsertTree(cfg, t, pv), pv.w) == ReceivePath(cfg, t, pv.w)
    decreases t
  {
    var o := Octant(t.center, pv.w);
    if Routes(cfg, t) && t.kids[o].Node? {
      InsertThenLookup(cfg, t.kids[o], pv);
    }
  }

  /** Looking a point up right after an update ends at the receiving node or below it. */
  lemma {:induction false} UpdateThenLookup(cfg: Config, t: Tree, pv: PointWithVar)
    requires t.Node? && Shape(cfg, t)
    ensures ReceivePath(cfg, t, pv.w) <= LookupPath(cfg, UpdateTree(cfg, t, pv), pv.w)
    decreases t
  {
    var o := Octant(t.center, pv.w);
    if Routes(cfg, t) && t.kids[o].Node? {
      UpdateThenLookup(cfg, t.kids[o], pv);
    }
  }

  /** Lookup before an update ends at the receiving address, or at its parent when the
      child was missing. */
  lemma {:induction false} LookupBefore(cfg: Config, t: Tree, p: Vec3)
    requires t.Node? && Shape(cfg, t)
    ensures var r := ReceivePath(cfg, t, p);
            var l := LookupPath(cfg, t, p);
            if NodeAt(t, r).Node? then l == r && NodeAt(t, l) == Receiver(cfg, t, p)
            else r == l + [Octant(NodeAt(t, l).center, p)]
    decreases t
  {
    var o := Octant(t.center, p);
    if Routes(cfg, t) && t.kids[o].Node? {
      LookupBefore(cfg, t.kids[o], p);
      var r, l := ReceivePath(cfg, t.kids[o], p), LookupPath(cfg, t.kids[o], p);
      assert ([o] + r)[1..] == r;
      assert ([o] + l)[1..] == l;
    } else if Routes(cfg, t) {
      assert NodeAt(t, [o]) == NodeAt(t.kids[o], []) by { assert [o][1..] == []; }
    }
  }

  /** The receiving address is a prefix of the octants the position falls in. */
  lemma {:induction false} ReceivePathFollowsOctants(cfg: Config, t: Tree, p: Vec3)
    requires t.Node? && Shape(cfg, t)
    ensures var r := ReceivePath(cfg, t, p); r == Octants(t.center, t.quarter, p, |r|)
    decreases t
  {
    var o := Octant(t.center, p);
    if Routes(cfg, t) && t.kids[o].Node? {
      ReceivePathFollowsOctants(cfg, t.kids[o], p);
    } else if Routes(cfg, t) {
      assert Octants(ChildCenter(t.center, t.quarter, o), t.quarter / 2.0, p, 0) == [];
    }
  }

  /** A graft shows at its own address, leaves the own fields of every node that is not at
      or below that address, and leaves whole subtrees off its path. */
  lemma {:induction false} GraftFrame(t: Tree, path: seq<nat>, s: Tree, a: seq<nat>)
    requires Reaches(t, path)
    ensures NodeAt(Graft(t, path, s), path) == s
    ensures !(path <= a) ==> SameOwnFields(NodeAt(Graft(t, path, s), a), NodeAt(t, a))
    ensures !(path <= a) && !(a <= path) ==> NodeAt(Graft(t, path, s), a) == NodeAt(t, a)
    decreases |path|
  {
    if path != [] {
      if a != [] && a[0] == path[0] {
        GraftFrame(t.kids[path[0]], path[1..], s, a[1..]);
        assert path == [path[0]] + path[1..] && a == [a[0]] + a[1..];
      } else {
        GraftFrame(t.kids[path[0]], path[1..], s, []);
      }
    }
  }

  /** The lookup of a position that leaves the grafted path above its end is unchanged. */
  lemma {:induction false} GraftKeepsLookup(cfg: Config, t: Tree, path: seq<nat>, s: Tree, q: Vec3)
    requires t.Node? && Shape(cfg, t) && Reaches(t, path)
    requires Graft(t, path, s).Node? && Shape(cfg, Graft(t, path, s))
    requires Octants(t.center, t.quarter, q, |path|) != path
    ensures LookupPath(cfg, Graft(t, path, s), q) == LookupPath(cfg, t, q)
    decreases |path|
  {
    var t' := Graft(t, path, s);
    var o := Octant(t.center, q);
    if path != [] && path[0] == o {
      assert path == [o] + path[1..];
      var k, k' := t.kids[o], t'.kids[o];
      if |path| == 1 {
        assert false;
      }
      assert k.Node? && k'.Node?;
      if Routes(cfg, t) {
        GraftKeepsLookup(cfg, k, path[1..], s, q);
      }
    }
  }

  /** A graft at the receiving address leaves the lookup of a position whose octants diverge from
      it above its end, and the own fields of the node found. */
  lemma GraftKeepsOther(cfg: Config, t: Tree, path: seq<nat>, s: Tree, p: Vec3, q: Vec3)
    requires t.Node? && Shape(cfg, t) && path == ReceivePath(cfg, t, p) && Reaches(t, path)
    requires Graft(t, path, s).Node? && Shape(cfg, Graft(t, path, s))
    requires Octants(t.center, t.quarter, q, |path|) != Octants(t.center, t.quarter, p, |path|)
    ensures LookupPath(cfg, Graft(t, path, s), q) == LookupPath(cfg, t, q)
    ensures var l := LookupPath(cfg, t, q); SameOwnFields(NodeAt(Graft(t, path, s), l), NodeAt(t, l))
  {
    ReceivePathFollowsOctants(cfg, t, p);
    GraftKeepsLookup(cfg, t, path, s, q);
    var l := LookupPath(cfg, t, q);
    LookupFollowsOctants(cfg, t, q);
    if path <= l {
      OctantsPrefix(t.center, t.quarter, q, |path|, |l|);
      assert false;
    }
    GraftFrame(t, path, s, l);
  }

  /** A position whose octants diverge from the updated point's above the receiving node is
      looked up as before, at a node whose own fields are as before. */
  lemma {:induction false} UpdateKeepsOtherLookups(cfg: Config, t: Tree, pv: PointWithVar, q: Vec3)
    requires t.Node? && Shape(cfg, t)
    requires var n := |ReceivePath(cfg, t, pv.w)|;
             Octants(t.center, t.quarter, q, n) != Octants(t.center, t.quarter, pv.w, n)
    ensures LookupPath(cfg, UpdateTree(cfg, t, pv), q) == LookupPath(cfg, t, q)
    ensures var l := LookupPath(cfg, t, q);
            SameOwnFields(NodeAt(UpdateTree(cfg, t, pv), l), NodeAt(t, l))
  {
    UpdateIsLocal(cfg, t, pv);
    GraftKeepsOther(cfg, t, ReceivePath(cfg, t, pv.w), UpdateTree(cfg, Receiver(cfg, t, pv.w), pv), pv.w, q);
  }

  /** And so it is after an insertion. */
  lemma {:induction false} InsertKeepsOtherLookups(cfg: Config, t: Tree, pv: PointWithVar, q: Vec3)
    requires t.Node? && Shape(cfg, t)
    requires var n := |ReceivePath(cfg, t, pv.w)|;
             Octants(t.center, t.quarter, q, n) != Octants(t.center, t.quarter, pv.w, n)
    ensures LookupPath(cfg, InsertTree(cfg, t, pv), q) == LookupPath(cfg, t, q)
    ensures var l := LookupPath(cfg, t, q);
            SameOwnFields(NodeAt(InsertTree(cfg, t, pv), l), NodeAt(t, l))
  {
    var r := Receiver(cfg, t, pv.w);
    InsertIsLocal(cfg, t, pv);
    GraftKeepsOther(cfg, t, ReceivePath(cfg, t, pv.w),
                    r.(points := r.points + [pv], newPoints := r.newPoints + 1), pv.w, q);
  }

  lemma {:induction false} LookupFollowsOctants(cfg: Config, t: Tree, p: Vec3)
    requires t.Node? && Shape(cfg, t)
    ensures var l := LookupPath(cfg, t, p); l == Octants(t.center, t.quarter, p, |l|)
    decreases t
  {
    var o := Octant(t.center, p);
    if Routes(cfg, t) && t.kids[o].Node? {
      LookupFollowsOctants(cfg, t.kids[o], p);
    }
  }

  lemma {:induction false} OctantsPrefix(center: Vec3, quarter: real, p: Vec3, m: nat, n: nat)
    requires m <= n
    ensures Octants(center, quarter, p, m) == Octants(center, quarter, p, n)[..m]
    decreases n
  {
    if m > 0 {
      var o := Octant(center, p);
      OctantsPrefix(ChildCenter(center, quarter, o), quarter / 2.0, p, m - 1, n - 1);
    }
  }
}
