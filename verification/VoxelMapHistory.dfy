/** What the tree of every listed voxel is: the one its own points make of a new root, whatever
    happened to other voxels. */
module VoxelMapHistory {
  import opened Common
  import opened VoxelTypes
  import opened OctreeSpec
  import opened OctreeInvariants
  import opened OctreeHistory
  import opened Sequences
  import opened LruList
  import opened VoxelMapSpec

  // ----- one voxel -----

  /** Its tree while it is listed. */
  function TreeAt(m: seq<Entry>, k: VoxelKey): (t: Option<Tree>)
    ensures t.Some? <==> k in Keys(m)
  {
    var i := IndexOf(Keys(m), k);
    if i < |m| then Some(m[i].tree) else None
  }

  predicate ArrivesIn(size: real, e: Event, k: VoxelKey)
    requires size > 0.0
  {
    e.Arrive? && KeyOf(e.pv.w, size) == k
  }

  /** The points that fall in voxel `k`, in order. */
  function PointsIn(size: real, es: seq<Event>, k: VoxelKey): seq<PointWithVar>
    requires size > 0.0
  {
    if es == [] then []
    else PointsIn(size, es[..|es| - 1], k) + if ArrivesIn(size, es[|es| - 1], k) then [es[|es| - 1].pv] else []
  }

  /** What a tree makes of a point. */
  type Grower = (Tree, PointWithVar) -> Tree

  function GrowAll(grow: Grower, t: Tree, pvs: seq<PointWithVar>): Tree {
    if pvs == [] then t else grow(GrowAll(grow, t, pvs[..|pvs| - 1]), pvs[|pvs| - 1])
  }

  /** One event, as voxel `k` sees it: if it is listed afterwards, its tree has grown by the point that
      fell in it, a new root if it was not listed, or is as it was. */
  ghost predicate Sees(grow: Grower, root: Tree, size: real, k: VoxelKey,
                       before: Option<Tree>, e: Event, after: Option<Tree>)
    requires size > 0.0
  {
    after.Some? ==>
      if ArrivesIn(size, e, k) then after.value == grow(if before.Some? then before.value else root, e.pv)
      else after == before
  }

  /** The trees of `k` before, between and after the events. */
  ghost predicate Trace(grow: Grower, root: Tree, size: real, k: VoxelKey, ts: seq<Option<Tree>>, es: seq<Event>)
    requires size > 0.0
  {
    |ts| == |es| + 1 && forall i | 0 <= i < |es| :: Sees(grow, root, size, k, ts[i], es[i], ts[i + 1])
  }

  /** Event `t` enters `k`: it arrives there and finds it not listed. */
  predicate Enters(size: real, k: VoxelKey, ts: seq<Option<Tree>>, es: seq<Event>, t: nat)
    requires size > 0.0 && |ts| == |es| + 1
  {
    t < |es| && ArrivesIn(size, es[t], k) && ts[t].None?
  }

  ghost predicate NoneEnters(size: real, k: VoxelKey, ts: seq<Option<Tree>>, es: seq<Event>, from: nat)
    requires size > 0.0 && |ts| == |es| + 1
  {
    forall t: nat | from <= t < |es| :: !Enters(size, k, ts, es, t)
  }

  lemma PointsPush(size: real, es: seq<Event>, e: Event, k: VoxelKey)
    requires size > 0.0
    ensures PointsIn(size, es + [e], k)
         == if ArrivesIn(size, e, k) then PointsIn(size, es, k) + [e.pv] else PointsIn(size, es, k)
  {
    assert (es + [e])[..|es|] == es;
    assert PointsIn(size, es, k) + [] == PointsIn(size, es, k);
  }

  lemma GrowPush(grow: Grower, t: Tree, pvs: seq<PointWithVar>, pv: PointWithVar)
    ensures GrowAll(grow, t, pvs + [pv]) == grow(GrowAll(grow, t, pvs), pv)
  {
    assert (pvs + [pv])[..|pvs|] == pvs;
  }

  /** Growing by the points of events `t` to `n`, one more. */
  lemma GrownBy(grow: Grower, start: Tree, size: real, es: seq<Event>, k: VoxelKey, t: nat, n: nat)
    requires size > 0.0 && t <= n < |es|
    ensures var before := GrowAll(grow, start, PointsIn(size, es[t..n], k));
            GrowAll(grow, start, PointsIn(size, es[t..n + 1], k))
            == if ArrivesIn(size, es[n], k) then grow(before, es[n].pv) else before
  {
    assert es[t..n + 1] == es[t..n] + [es[n]];
    PointsPush(size, es[t..n], es[n], k);
    if ArrivesIn(size, es[n], k) { GrowPush(grow, start, PointsIn(size, es[t..n], k), es[n].pv); }
  }

  /** The tree of a voxel that entered last at event `t`. */
  lemma {:induction false} EnteredTree(grow: Grower, root: Tree, size: real, k: VoxelKey, ts: seq<Option<Tree>>,
                                       es: seq<Event>, t: nat, n: nat)
    requires size > 0.0 && Trace(grow, root, size, k, ts, es) && t < n <= |es| && ts[n].Some?
    requires Enters(size, k, ts, es, t) && NoneEnters(size, k, ts, es, t + 1)
    ensures ts[n].value == GrowAll(grow, root, PointsIn(size, es[t..n], k))
    decreases n
  {
    GrownBy(grow, root, size, es, k, t, n - 1);
    assert Sees(grow, root, size, k, ts[n - 1], es[n - 1], ts[n]);
    if t < n - 1 {
      assert !Enters(size, k, ts, es, n - 1);
      EnteredTree(grow, root, size, k, ts, es, t, n - 1);
    } else {
      assert es[t..t] == [];
    }
  }

  /** That of one that was listed and never entered. */
  lemma {:induction false} KeptTree(grow: Grower, root: Tree, size: real, k: VoxelKey, ts: seq<Option<Tree>>,
                                    es: seq<Event>, n: nat)
    requires size > 0.0 && Trace(grow, root, size, k, ts, es) && n <= |es| && ts[n].Some?
    requires NoneEnters(size, k, ts, es, 0)
    ensures ts[0].Some? && ts[n].value == GrowAll(grow, ts[0].value, PointsIn(size, es[0..n], k))
    decreases n
  {
    if n > 0 {
      assert Sees(grow, root, size, k, ts[n - 1], es[n - 1], ts[n]);
      assert !Enters(size, k, ts, es, n - 1);
      KeptTree(grow, root, size, k, ts, es, n - 1);
      GrownBy(grow, ts[0].value, size, es, k, 0, n - 1);
    } else {
      assert es[0..0] == [];
    }
  }

  /** Either some event entered it last, or none did. */
  lemma LastEnters(size: real, k: VoxelKey, ts: seq<Option<Tree>>, es: seq<Event>) returns (t: nat)
    requires size > 0.0 && |ts| == |es| + 1
    ensures NoneEnters(size, k, ts, es, t) && t <= |es|
    ensures t > 0 ==> Enters(size, k, ts, es, t - 1)
  {
    t := |es|;
    while t > 0 && !Enters(size, k, ts, es, t - 1)
      invariant t <= |es| && NoneEnters(size, k, ts, es, t)
    {
      t := t - 1;
    }
  }

  /** The tree of a voxel that is listed in the end. */
  lemma TraceTells(grow: Grower, root: Tree, size: real, k: VoxelKey, ts: seq<Option<Tree>>,
                   es: seq<Event>)
    returns (t: nat)
    requires size > 0.0 && Trace(grow, root, size, k, ts, es) && ts[|es|].Some?
    ensures NoneEnters(size, k, ts, es, t) && t <= |es|
    ensures if t > 0
            then Enters(size, k, ts, es, t - 1)
                 && ts[|es|].value == GrowAll(grow, root, PointsIn(size, es[t - 1..], k))
            else ts[0].Some? && ts[|es|].value == GrowAll(grow, ts[0].value, PointsIn(size, es, k))
  {
    t := LastEnters(size, k, ts, es);
    var n := |es|;
    if t > 0 {
      EnteredTree(grow, root, size, k, ts, es, t - 1, n);
      assert es[t - 1..n] == es[t - 1..];
    } else {
      KeptTree(grow, root, size, k, ts, es, n);
      assert es[0..n] == es;
    }
  }

  // ----- the map as it sees it -----

  lemma TreeIs(m: seq<Entry>, e: Entry)
    requires NoDuplicates(Keys(m)) && e in m
    ensures TreeAt(m, e.key) == Some(e.tree)
  {
    var j :| 0 <= j < |m| && m[j] == e;
    var i := IndexOf(Keys(m), e.key);
    assert Keys(m)[j] == e.key;
    if i != j { Apart(Keys(m), i, j); }
  }

  lemma ListedTree(m: seq<Entry>, k: VoxelKey) returns (e: Entry)
    requires TreeAt(m, k).Some?
    ensures e in m && e.key == k && TreeAt(m, k) == Some(e.tree)
  {
    e := m[IndexOf(Keys(m), k)];
  }

  lemma FrontEntries(m: seq<Entry>, i: nat, e: Entry, lru: nat)
    requires i <= |m|
    ensures forall x | x in ToFront(m, i, e, lru) :: x == e || x in m
  {
  }

  /** An entry goes to the front. */
  lemma FrontTree(m: seq<Entry>, e: Entry, lru: nat, r: seq<Entry>, k: VoxelKey)
    requires NoDuplicates(Keys(m)) && NoDuplicates(Keys(r)) && r == ToFront(m, IndexOf(Keys(m), e.key), e, lru)
    ensures TreeAt(r, k).None? || TreeAt(r, k) == if k == e.key then Some(e.tree) else TreeAt(m, k)
  {
    if TreeAt(r, k).Some? {
      var x := ListedTree(r, k);
      FrontEntries(m, IndexOf(Keys(m), e.key), e, lru);
      if k == e.key {
        assert e == r[0];
        TreeIs(r, e);
      } else {
        TreeIs(m, x);
      }
    }
  }

  /** The tree of voxel `k` made of points stored together and others that came one by one. */
  function VoxelTree(cfg: Config, size: real, k: VoxelKey, batch: seq<PointWithVar>, later: seq<PointWithVar>): Tree
    requires ValidConfig(cfg)
  {
    TreeOf(cfg, 0, KeyCenter(k, size), size / 4.0, batch, later)
  }

  /** The tree a voxel enters with. */
  function NewTree(cfg: Config, size: real, k: VoxelKey): Tree
    requires ValidConfig(cfg)
  {
    VoxelTree(cfg, size, k, [], [])
  }

  lemma NewVoxel(cfg: Config, size: real, k: VoxelKey)
    requires ValidConfig(cfg)
    ensures NewTree(cfg, size, k) == Root(cfg, k, size)
  {
    EmptyTree(cfg, 0, KeyCenter(k, size), size / 4.0);
  }

  ghost function Updating(cfg: Config): Grower {
    (t: Tree, pv) => if t.Node? && Shape(cfg, t) then UpdateTree(cfg, t, pv) else t
  }

  ghost function Storing(): Grower {
    (t: Tree, pv) => if t.Node? then Append(t, pv) else t
  }

  /** An arrival. */
  lemma UpdateSeen(cfg: Config, size: real, lru: nat, m: seq<Entry>, pv: PointWithVar,
                   r: seq<Entry>, k: VoxelKey)
    requires MapShape(cfg, m) && size > 0.0 && r == UpdatePoint(cfg, size, lru, m, pv)
    ensures Sees(Updating(cfg), NewTree(cfg, size, k), size, k, TreeAt(m, k), Arrive(pv), TreeAt(r, k))
  {
    var key := KeyOf(pv.w, size);
    var i := IndexOf(Keys(m), key);
    var t := if i < |m| then m[i].tree else Root(cfg, key, size);
    assert i < |m| ==> RootShape(cfg, m[i]);
    NewVoxel(cfg, size, k);
    UpdatePointKeys(cfg, size, lru, m, pv);
    FrontTree(m, Entry(key, UpdateTree(cfg, t, pv)), lru, r, k);
  }

  lemma StoreSeen(cfg: Config, size: real, lru: nat, m: seq<Entry>, pv: PointWithVar,
                  r: seq<Entry>, k: VoxelKey)
    requires MapShape(cfg, m) && Unfitted(m) && size > 0.0 && r == BuildPoint(cfg, size, lru, m, pv)
    ensures Sees(Storing(), NewTree(cfg, size, k), size, k, TreeAt(m, k), Arrive(pv), TreeAt(r, k))
  {
    var key := KeyOf(pv.w, size);
    var i := IndexOf(Keys(m), key);
    var t := if i < |m| then m[i].tree else Root(cfg, key, size);
    assert i < |m| ==> RootShape(cfg, m[i]);
    NewVoxel(cfg, size, k);
    BuildPointKeys(cfg, size, lru, m, pv);
    FrontTree(m, Entry(key, Append(t, pv)), lru, r, k);
  }

  /** A sweep. */
  lemma SweepSeen(cfg: Config, size: real, m: seq<Entry>, b: Box, r: seq<Entry>, k: VoxelKey)
    requires MapShape(cfg, m) && size > 0.0 && r == Sweep(m, b)
    ensures Sees(Updating(cfg), NewTree(cfg, size, k), size, k, TreeAt(m, k), Slide(b), TreeAt(r, k))
  {
    if TreeAt(r, k).Some? {
      var x := ListedTree(r, k);
      TreeIs(m, x);
    }
  }

  // ----- runs and builds -----

  ghost function RunTrace(cfg: Config, size: real, lru: nat, m: seq<Entry>, es: seq<Event>, k: VoxelKey)
    : (ts: seq<Option<Tree>>)
    requires MapShape(cfg, m) && size > 0.0
    ensures |ts| == |es| + 1 && forall i | 0 <= i <= |es| :: ts[i] == TreeAt(Run(cfg, size, lru, m, es[..i]), k)
  {
    seq(|es| + 1, i requires 0 <= i <= |es| => TreeAt(Run(cfg, size, lru, m, es[..i]), k))
  }

  lemma RunSeen(cfg: Config, size: real, lru: nat, m: seq<Entry>, es: seq<Event>, k: VoxelKey,
                i: nat)
    requires MapShape(cfg, m) && size > 0.0 && i < |es|
    ensures Sees(Updating(cfg), NewTree(cfg, size, k), size, k, TreeAt(Run(cfg, size, lru, m, es[..i]), k), es[i],
                 TreeAt(Run(cfg, size, lru, m, es[..i + 1]), k))
  {
    var now := es[..i + 1];
    var before := Run(cfg, size, lru, m, now[..i]);
    assert now[..i] == es[..i];
    match es[i]
    case Arrive(pv) => UpdateSeen(cfg, size, lru, before, pv, Run(cfg, size, lru, m, now), k);
    case Slide(b) => SweepSeen(cfg, size, before, b, Run(cfg, size, lru, m, now), k);
  }

  lemma RunTraces(cfg: Config, size: real, lru: nat, m: seq<Entry>, es: seq<Event>, k: VoxelKey)
    requires MapShape(cfg, m) && size > 0.0
    ensures Trace(Updating(cfg), NewTree(cfg, size, k), size, k, RunTrace(cfg, size, lru, m, es, k), es)
  {
    forall i | 0 <= i < |es|
      ensures Sees(Updating(cfg), NewTree(cfg, size, k), size, k, RunTrace(cfg, size, lru, m, es, k)[i], es[i],
                   RunTrace(cfg, size, lru, m, es, k)[i + 1])
    {
      RunSeen(cfg, size, lru, m, es, k, i);
    }
  }

  ghost function StoreTrace(cfg: Config, size: real, lru: nat, pvs: seq<PointWithVar>, k: VoxelKey)
    : (ts: seq<Option<Tree>>)
    requires ValidConfig(cfg) && size > 0.0
    ensures |ts| == |pvs| + 1 && forall i | 0 <= i <= |pvs| :: ts[i] == TreeAt(StoreAll(cfg, size, lru, pvs[..i]), k)
  {
    seq(|pvs| + 1, i requires 0 <= i <= |pvs| => TreeAt(StoreAll(cfg, size, lru, pvs[..i]), k))
  }

  lemma StoreTraces(cfg: Config, size: real, lru: nat, pvs: seq<PointWithVar>, k: VoxelKey)
    requires ValidConfig(cfg) && size > 0.0
    ensures Trace(Storing(), NewTree(cfg, size, k), size, k, StoreTrace(cfg, size, lru, pvs, k), Arrivals(pvs))
  {
    forall i | 0 <= i < |pvs|
      ensures Sees(Storing(), NewTree(cfg, size, k), size, k, StoreTrace(cfg, size, lru, pvs, k)[i], Arrivals(pvs)[i],
                   StoreTrace(cfg, size, lru, pvs, k)[i + 1])
    {
      var now := pvs[..i + 1];
      assert now[..i] == pvs[..i];
      StoreSeen(cfg, size, lru, StoreAll(cfg, size, lru, now[..i]), pvs[i], StoreAll(cfg, size, lru, now), k);
    }
  }

  // ----- what they come to -----

  /** Growing by updates. */
  lemma {:induction false} GrowVoxel(cfg: Config, size: real, k: VoxelKey, batch: seq<PointWithVar>,
                                     pvs: seq<PointWithVar>)
    requires ValidConfig(cfg)
    ensures GrowAll(Updating(cfg), VoxelTree(cfg, size, k, batch, []), pvs) == VoxelTree(cfg, size, k, batch, pvs)
  {
    if pvs != [] {
      var n := |pvs| - 1;
      GrowVoxel(cfg, size, k, batch, pvs[..n]);
      TreeNext(cfg, 0, KeyCenter(k, size), size / 4.0, batch, pvs[..n], pvs[n]);
      assert pvs[..n] + [pvs[n]] == pvs;
    }
  }

  lemma {:induction false} GrowIsStore(cfg: Config, k: VoxelKey, size: real, pvs: seq<PointWithVar>)
    requires ValidConfig(cfg)
    ensures GrowAll(Storing(), NewTree(cfg, size, k), pvs) == Stored(cfg, 0, KeyCenter(k, size), size / 4.0, pvs)
  {
    if pvs == [] {
      NewVoxel(cfg, size, k);
    } else {
      var n := |pvs| - 1;
      GrowIsStore(cfg, k, size, pvs[..n]);
      assert pvs[..n] + [pvs[n]] == pvs;
    }
  }

  /** Event `t` is the last to find voxel `k` not listed and enter it. */
  ghost predicate LastEntry(cfg: Config, size: real, lru: nat, m: seq<Entry>, es: seq<Event>, k: VoxelKey, t: nat)
    requires MapShape(cfg, m) && size > 0.0
  {
    EntersAt(cfg, size, lru, m, es, k, t) && forall i | t < i < |es| :: !EntersAt(cfg, size, lru, m, es, k, i)
  }

  ghost predicate EntersAt(cfg: Config, size: real, lru: nat, m: seq<Entry>, es: seq<Event>, k: VoxelKey, t: nat)
    requires MapShape(cfg, m) && size > 0.0
  {
    t < |es| && ArrivesIn(size, es[t], k) && k !in Keys(Run(cfg, size, lru, m, es[..t]))
  }

  /** The same of point `t` of a build. */
  ghost predicate LastBuildEntry(cfg: Config, size: real, lru: nat, pvs: seq<PointWithVar>, k: VoxelKey, t: nat)
    requires ValidConfig(cfg) && size > 0.0
  {
    BuildEntersAt(cfg, size, lru, pvs, k, t) && forall i | t < i < |pvs| :: !BuildEntersAt(cfg, size, lru, pvs, k, i)
  }

  ghost predicate BuildEntersAt(cfg: Config, size: real, lru: nat, pvs: seq<PointWithVar>, k: VoxelKey, t: nat)
    requires ValidConfig(cfg) && size > 0.0
  {
    t < |pvs| && KeyOf(pvs[t].w, size) == k && k !in Keys(BuildMap(cfg, size, lru, pvs[..t]))
  }

  ghost function Fitting(cfg: Config, t: Tree): Tree {
    if Raw(cfg, t) then InitTree(cfg, t) else t
  }

  lemma FitVoxel(cfg: Config, size: real, k: VoxelKey, pvs: seq<PointWithVar>)
    requires ValidConfig(cfg)
    ensures Fitting(cfg, GrowAll(Storing(), NewTree(cfg, size, k), pvs)) == VoxelTree(cfg, size, k, pvs, [])
  {
    GrowIsStore(cfg, k, size, pvs);
    FitOfStored(cfg, 0, KeyCenter(k, size), size / 4.0, pvs);
  }

  lemma BuildListsStored(cfg: Config, size: real, lru: nat, pvs: seq<PointWithVar>, k: VoxelKey)
    requires ValidConfig(cfg) && size > 0.0
    ensures Keys(BuildMap(cfg, size, lru, pvs)) == Keys(StoreAll(cfg, size, lru, pvs))
    ensures var t, s := TreeAt(BuildMap(cfg, size, lru, pvs), k), TreeAt(StoreAll(cfg, size, lru, pvs), k);
            t == if s.Some? then Some(Fitting(cfg, s.value)) else None
  {
    var stored := StoreAll(cfg, size, lru, pvs);
    var i := IndexOf(Keys(stored), k);
    if i < |stored| { assert RootShape(cfg, stored[i]); }
  }

  lemma BuildEntersIff(cfg: Config, size: real, lru: nat, pvs: seq<PointWithVar>, k: VoxelKey,
                       i: nat)
    requires ValidConfig(cfg) && size > 0.0 && i < |pvs|
    ensures BuildEntersAt(cfg, size, lru, pvs, k, i)
       <==> Enters(size, k, StoreTrace(cfg, size, lru, pvs, k), Arrivals(pvs), i)
  {
    BuildListsStored(cfg, size, lru, pvs[..i], k);
  }

  lemma StoreEnds(cfg: Config, size: real, lru: nat, pvs: seq<PointWithVar>, k: VoxelKey)
    returns (ts: seq<Option<Tree>>)
    requires ValidConfig(cfg) && size > 0.0
    ensures ts == StoreTrace(cfg, size, lru, pvs, k)
    ensures Trace(Storing(), NewTree(cfg, size, k), size, k, ts, Arrivals(pvs))
    ensures ts[0].None? && ts[|pvs|] == TreeAt(StoreAll(cfg, size, lru, pvs), k)
  {
    ts := StoreTrace(cfg, size, lru, pvs, k);
    StoreTraces(cfg, size, lru, pvs, k);
    assert pvs[..|pvs|] == pvs && pvs[..0] == [];
  }

  lemma BuildLastIff(cfg: Config, size: real, lru: nat, pvs: seq<PointWithVar>, k: VoxelKey,
                     ts: seq<Option<Tree>>, t: nat)
    requires ValidConfig(cfg) && size > 0.0 && ts == StoreTrace(cfg, size, lru, pvs, k)
    requires Enters(size, k, ts, Arrivals(pvs), t) && NoneEnters(size, k, ts, Arrivals(pvs), t + 1)
    ensures LastBuildEntry(cfg, size, lru, pvs, k, t)
  {
    BuildEntersIff(cfg, size, lru, pvs, k, t);
    forall i | t < i < |pvs| ensures !BuildEntersAt(cfg, size, lru, pvs, k, i) {
      BuildEntersIff(cfg, size, lru, pvs, k, i);
    }
  }

  lemma ArrivalsFrom(pvs: seq<PointWithVar>, t: nat)
    requires t <= |pvs|
    ensures Arrivals(pvs)[t..] == Arrivals(pvs[t..])
  {
  }

  lemma StoredTree(cfg: Config, size: real, lru: nat, pvs: seq<PointWithVar>, k: VoxelKey,
                   stored: Option<Tree>)
    returns (t: nat)
    requires ValidConfig(cfg) && size > 0.0 && stored.Some? && stored == TreeAt(StoreAll(cfg, size, lru, pvs), k)
    ensures LastBuildEntry(cfg, size, lru, pvs, k, t)
    ensures stored.value == GrowAll(Storing(), NewTree(cfg, size, k), PointsIn(size, Arrivals(pvs[t..]), k))
  {
    var ts := StoreEnds(cfg, size, lru, pvs, k);
    t := TraceTells(Storing(), NewTree(cfg, size, k), size, k, ts, Arrivals(pvs));
    t := t - 1;
    BuildLastIff(cfg, size, lru, pvs, k, ts, t);
    ArrivalsFrom(pvs, t);
  }

  /** A built voxel's tree: the first fit of exactly the points that fell in it since it entered last. */
  lemma BuiltTree(cfg: Config, size: real, lru: nat, pvs: seq<PointWithVar>, k: VoxelKey)
    returns (t: nat)
    requires ValidConfig(cfg) && size > 0.0 && k in Keys(BuildMap(cfg, size, lru, pvs))
    ensures LastBuildEntry(cfg, size, lru, pvs, k, t)
    ensures TreeAt(BuildMap(cfg, size, lru, pvs), k)
         == Some(VoxelTree(cfg, size, k, PointsIn(size, Arrivals(pvs[t..]), k), []))
  {
    BuildListsStored(cfg, size, lru, pvs, k);
    t := StoredTree(cfg, size, lru, pvs, k, TreeAt(StoreAll(cfg, size, lru, pvs), k));
    FitVoxel(cfg, size, k, PointsIn(size, Arrivals(pvs[t..]), k));
  }

  lemma LastIff(cfg: Config, size: real, lru: nat, m: seq<Entry>, es: seq<Event>, k: VoxelKey,
                ts: seq<Option<Tree>>, t: nat)
    requires MapShape(cfg, m) && size > 0.0 && ts == RunTrace(cfg, size, lru, m, es, k)
    requires NoneEnters(size, k, ts, es, t)
    ensures forall i: nat | t <= i :: !EntersAt(cfg, size, lru, m, es, k, i)
    ensures t > 0 && Enters(size, k, ts, es, t - 1) ==> LastEntry(cfg, size, lru, m, es, k, t - 1)
  {
    forall i: nat ensures EntersAt(cfg, size, lru, m, es, k, i) <==> Enters(size, k, ts, es, i) {
    }
  }

  lemma RunEnds(cfg: Config, size: real, lru: nat, m: seq<Entry>, es: seq<Event>, k: VoxelKey)
    returns (ts: seq<Option<Tree>>)
    requires MapShape(cfg, m) && size > 0.0
    ensures ts == RunTrace(cfg, size, lru, m, es, k)
    ensures Trace(Updating(cfg), NewTree(cfg, size, k), size, k, ts, es)
    ensures ts[0] == TreeAt(m, k) && ts[|es|] == TreeAt(Run(cfg, size, lru, m, es), k)
  {
    ts := RunTrace(cfg, size, lru, m, es, k);
    RunTraces(cfg, size, lru, m, es, k);
    assert es[..|es|] == es && es[..0] == [];
  }

  /** The tree of a voxel listed after a run: `t - 1` is the event at which it entered last, if it did. */
  lemma RunTree(cfg: Config, size: real, lru: nat, m: seq<Entry>, es: seq<Event>, k: VoxelKey)
    returns (t: nat)
    requires MapShape(cfg, m) && size > 0.0 && k in Keys(Run(cfg, size, lru, m, es))
    ensures t <= |es| && forall i: nat | t <= i :: !EntersAt(cfg, size, lru, m, es, k, i)
    ensures t > 0 ==> LastEntry(cfg, size, lru, m, es, k, t - 1)
    ensures t == 0 ==> k in Keys(m)
    ensures TreeAt(Run(cfg, size, lru, m, es), k)
         == Some(GrowAll(Updating(cfg), if t > 0 then NewTree(cfg, size, k) else TreeAt(m, k).value,
                         PointsIn(size, if t > 0 then es[t - 1..] else es, k)))
  {
    var ts := RunEnds(cfg, size, lru, m, es, k);
    t := TraceTells(Updating(cfg), NewTree(cfg, size, k), size, k, ts, es);
    LastIff(cfg, size, lru, m, es, k, ts, t);
  }

  /** In every map reachable from the build, the tree of a listed voxel is what exactly its own points
      make: if it entered during the run, those that fell in it since it entered last; if not, those of
      the build since it entered last there, fitted together, and then those of the run. */
  lemma VoxelTreeTells(cfg: Config, size: real, lru: nat, pvs: seq<PointWithVar>, es: seq<Event>,
                       k: VoxelKey)
    requires ValidConfig(cfg) && size > 0.0 && MapShape(cfg, BuildMap(cfg, size, lru, pvs))
    requires k in Keys(Run(cfg, size, lru, BuildMap(cfg, size, lru, pvs), es))
    ensures var m := BuildMap(cfg, size, lru, pvs);
            var tree := TreeAt(Run(cfg, size, lru, m, es), k).value;
            || (exists t: nat :: LastEntry(cfg, size, lru, m, es, k, t)
                  && tree == VoxelTree(cfg, size, k, [], PointsIn(size, es[t..], k)))
            || ((forall t: nat :: !EntersAt(cfg, size, lru, m, es, k, t))
                && exists t: nat :: LastBuildEntry(cfg, size, lru, pvs, k, t)
                     && tree == VoxelTree(cfg, size, k, PointsIn(size, Arrivals(pvs[t..]), k), PointsIn(size, es, k)))
  {
    var m := BuildMap(cfg, size, lru, pvs);
    var t := RunTree(cfg, size, lru, m, es, k);
    if t > 0 {
      GrowVoxel(cfg, size, k, [], PointsIn(size, es[t - 1..], k));
    } else {
      var s := BuiltTree(cfg, size, lru, pvs, k);
      GrowVoxel(cfg, size, k, PointsIn(size, Arrivals(pvs[s..]), k), PointsIn(size, es, k));
    }
  }

  /** An arrival leaves the tree of every other listed voxel as it was, and so does a sweep. */
  lemma OthersUntouched(cfg: Config, size: real, lru: nat, m: seq<Entry>, es: seq<Event>,
                        k: VoxelKey)
    requires MapShape(cfg, m) && size > 0.0 && es != [] && !ArrivesIn(size, es[|es| - 1], k)
    requires k in Keys(Run(cfg, size, lru, m, es))
    ensures TreeAt(Run(cfg, size, lru, m, es), k) == TreeAt(Run(cfg, size, lru, m, es[..|es| - 1]), k)
  {
    RunSeen(cfg, size, lru, m, es, k, |es| - 1);
    assert es[..|es| - 1 + 1] == es;
  }
}
