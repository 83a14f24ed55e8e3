/** The voxel map as a value: a recency list of (key, octree) entries. */
module VoxelMapSpec {
  import opened VoxelTypes
  import opened OctreeSpec
  import opened OctreeLookup
  import opened OctreeInvariants
  import opened Sequences
  import opened LruList

  datatype Entry = Entry(key: VoxelKey, tree: Tree)

  function Keys(m: seq<Entry>): (ks: seq<VoxelKey>)
    ensures |ks| == |m| && forall i | 0 <= i < |m| :: ks[i] == m[i].key
  {
    seq(|m|, i requires 0 <= i < |m| => m[i].key)
  }

  function Root(cfg: Config, key: VoxelKey, size: real): Tree
    requires ValidConfig(cfg)
  {
    NewNode(cfg, 0, KeyCenter(key, size), size / 4.0)
  }

  ghost predicate RootShape(cfg: Config, e: Entry) {
    ValidConfig(cfg) && e.tree.Node? && e.tree.layer == 0 && Shape(cfg, e.tree)
  }

  ghost predicate MapShape(cfg: Config, m: seq<Entry>) {
    && ValidConfig(cfg)
    && NoDuplicates(Keys(m))
    && forall i | 0 <= i < |m| :: RootShape(cfg, m[i])
  }

  /** `e` goes to the front: replacing entry `i`, or entering and, from `lru` entries on,
      pushing out the tail. */
  function ToFront(m: seq<Entry>, i: nat, e: Entry, lru: nat): seq<Entry>
    requires i <= |m|
  {
    if i < |m| then [e] + RemoveAt(m, i)
    else if |m| + 1 >= lru then ([e] + m)[..|m|]
    else [e] + m
  }

  /** One point of UpdateVoxelMapLRU. */
  function UpdatePoint(cfg: Config, size: real, lru: nat, m: seq<Entry>, pv: PointWithVar): seq<Entry>
    requires MapShape(cfg, m) && size > 0.0
  {
    var k := KeyOf(pv.w, size);
    var i := IndexOf(Keys(m), k);
    var t := if i < |m| then m[i].tree else Root(cfg, k, size);
    ToFront(m, i, Entry(k, UpdateTree(cfg, t, pv)), lru)
  }

  /** One point of BuildVoxelMapLRU: store it, fit nothing yet. */
  function BuildPoint(cfg: Config, size: real, lru: nat, m: seq<Entry>, pv: PointWithVar): seq<Entry>
    requires MapShape(cfg, m) && size > 0.0
  {
    var k := KeyOf(pv.w, size);
    var i := IndexOf(Keys(m), k);
    var t := if i < |m| then m[i].tree else Root(cfg, k, size);
    ToFront(m, i, Entry(k, Append(t, pv)), lru)
  }

  ghost predicate Unfitted(m: seq<Entry>) {
    forall i | 0 <= i < |m| :: m[i].tree.Node? && !m[i].tree.init
  }

  /** InitOctoTree on every entry. */
  function FitAll(cfg: Config, m: seq<Entry>): (r: seq<Entry>)
    requires MapShape(cfg, m) && Unfitted(m)
    ensures |r| == |m|
  {
    seq(|m|, i requires 0 <= i < |m| => Entry(m[i].key, InitTree(cfg, m[i].tree)))
  }

  /** ClearMemOutOfMap's box. */
  datatype Box = Box(xMax: int, xMin: int, yMax: int, yMin: int, zMax: int, zMin: int)

  predicate Inside(b: Box, k: VoxelKey) {
    b.xMin <= k.x <= b.xMax && b.yMin <= k.y <= b.yMax && b.zMin <= k.z <= b.zMax
  }

  function InBox(b: Box): VoxelKey -> bool {
    k => Inside(b, k)
  }

  /** The box MapSliding sweeps with: so many voxels each way from the one in the middle. */
  function BoxAround(center: VoxelKey, half: int): Box {
    Box(center.x + half, center.x - half, center.y + half, center.y - half, center.z + half, center.z - half)
  }

  function Sweep(m: seq<Entry>, b: Box): (r: seq<Entry>)
    ensures |r| <= |m|
    ensures forall e :: e in r <==> e in m && Inside(b, e.key)
  {
    if m == [] then []
    else if Inside(b, m[0].key) then [m[0]] + Sweep(m[1..], b)
    else Sweep(m[1..], b)
  }

  // -------------------------------------------------------- shape and keys

  lemma ToFrontKeys(m: seq<Entry>, e: Entry, lru: nat)
    ensures Keys(ToFront(m, IndexOf(Keys(m), e.key), e, lru)) == Touch(Keys(m), e.key, lru)
  {
    var i := IndexOf(Keys(m), e.key);
    KeysCons(e, m);
    if i < |m| {
      KeysRemoved(m, i);
      KeysCons(e, RemoveAt(m, i));
    } else {
      KeysPrefix([e] + m, |m|);
    }
  }

  lemma KeysRemoved(m: seq<Entry>, i: nat)
    requires i < |m|
    ensures Keys(RemoveAt(m, i)) == RemoveAt(Keys(m), i)
  {
  }

  lemma KeysPrefix(m: seq<Entry>, n: nat)
    requires n <= |m|
    ensures Keys(m[..n]) == Keys(m)[..n]
  {
  }

  lemma {:induction false} ToFrontShape(cfg: Config, m: seq<Entry>, e: Entry, lru: nat)
    requires MapShape(cfg, m) && RootShape(cfg, e)
    ensures var r := ToFront(m, IndexOf(Keys(m), e.key), e, lru);
            MapShape(cfg, r) && Keys(r) == Touch(Keys(m), e.key, lru)
  {
    ToFrontKeys(m, e, lru);
    TouchDistinct(Keys(m), e.key, lru);
    var r := ToFront(m, IndexOf(Keys(m), e.key), e, lru);
    assert forall a | 0 <= a < |r| :: r[a] == e || r[a] in m;
  }

  lemma MovedShape(cfg: Config, m: seq<Entry>, i: nat)
    requires MapShape(cfg, m) && i < |m|
    ensures MapShape(cfg, [m[i]] + RemoveAt(m, i))
  {
    var j := IndexOf(Keys(m), m[i].key);
    if i != j { Apart(Keys(m), i, j); }
    ToFrontShape(cfg, m, m[i], |m| + 2);
  }

  lemma RemovedShape(cfg: Config, m: seq<Entry>, i: nat)
    requires MapShape(cfg, m) && i < |m|
    ensures MapShape(cfg, RemoveAt(m, i))
  {
    RemoveAtMembers(Keys(m), i);
    assert Keys(RemoveAt(m, i)) == RemoveAt(Keys(m), i);
  }

  lemma ReplacedShape(cfg: Config, m: seq<Entry>, i: nat, t: Tree)
    requires MapShape(cfg, m) && i < |m| && RootShape(cfg, Entry(m[i].key, t))
    ensures MapShape(cfg, m[i := Entry(m[i].key, t)])
  {
    assert Keys(m[i := Entry(m[i].key, t)]) == Keys(m);
  }

  /** Changing an entry and moving it is moving it changed. */
  lemma MoveReplaced(m: seq<Entry>, i: nat, e: Entry)
    requires i < |m|
    ensures var m' := m[i := e]; [m'[i]] + RemoveAt(m', i) == ToFront(m, i, e, |m| + 2)
  {
    assert RemoveAt(m[i := e], i) == RemoveAt(m, i);
  }

  /** With room for two, entering an entry and then changing it is entering it changed. */
  lemma EnterReplaced(m: seq<Entry>, e: Entry, e': Entry, lru: nat)
    requires lru >= 2
    ensures var r := ToFront(m, |m|, e, lru);
            r != [] && r[0] == e && r[0 := e'] == ToFront(m, |m|, e', lru)
  {
  }

  lemma AppendedShape(cfg: Config, m: seq<Entry>, i: nat, pv: PointWithVar)
    requires MapShape(cfg, m) && i < |m|
    ensures m[i].tree.Node?
    ensures MapShape(cfg, m[i := Entry(m[i].key, Append(m[i].tree, pv))])
  {
    assert RootShape(cfg, m[i]);
    ReplacedShape(cfg, m, i, Append(m[i].tree, pv));
  }

  /** Erase the tail of a list that has reached `lru` entries. */
  function CutTail(m: seq<Entry>, lru: nat): seq<Entry> {
    if |m| >= lru && m != [] then RemoveAt(m, |m| - 1) else m
  }

  /** Entering a missing key, by way of erasing the tail. */
  lemma EnteredShape(cfg: Config, m: seq<Entry>, e: Entry, lru: nat)
    requires MapShape(cfg, m) && RootShape(cfg, e) && e.key !in Keys(m) && lru >= 2
    ensures var r := ToFront(m, |m|, e, lru);
            && MapShape(cfg, r) && r != [] && r[0] == e
            && r == CutTail([e] + m, lru)
  {
    ToFrontShape(cfg, m, e, lru);
    assert RemoveAt([e] + m, |m|) == ([e] + m)[..|m|];
  }

  /** One step of the sweep's loop, at position `i`. */
  lemma {:induction false} SweepStep(m: seq<Entry>, i: nat, b: Box)
    requires i < |m|
    ensures Inside(b, m[i].key) ==> m[..i] + Sweep(m[i..], b) == m[..i + 1] + Sweep(m[i + 1..], b)
    ensures !Inside(b, m[i].key) ==>
              m[..i] + Sweep(m[i..], b) == RemoveAt(m, i)[..i] + Sweep(RemoveAt(m, i)[i..], b)
  {
    assert m[i..][1..] == m[i + 1..];
    assert m[..i + 1] == m[..i] + [m[i]];
    assert RemoveAt(m, i)[..i] == m[..i];
    assert RemoveAt(m, i)[i..] == m[i + 1..];
  }

  /** An update touches the point's key and keeps the map well shaped. */
  lemma {:induction false} UpdatePointKeys(cfg: Config, size: real, lru: nat, m: seq<Entry>, pv: PointWithVar)
    requires MapShape(cfg, m) && size > 0.0
    ensures var r := UpdatePoint(cfg, size, lru, m, pv);
            MapShape(cfg, r) && Keys(r) == Touch(Keys(m), KeyOf(pv.w, size), lru)
  {
    var k := KeyOf(pv.w, size);
    var i := IndexOf(Keys(m), k);
    var t := if i < |m| then m[i].tree else Root(cfg, k, size);
    ToFrontShape(cfg, m, Entry(k, UpdateTree(cfg, t, pv)), lru);
  }

  lemma {:induction false} BuildPointKeys(cfg: Config, size: real, lru: nat, m: seq<Entry>, pv: PointWithVar)
    requires MapShape(cfg, m) && Unfitted(m) && size > 0.0
    ensures var r := BuildPoint(cfg, size, lru, m, pv);
            MapShape(cfg, r) && Unfitted(r) && Keys(r) == Touch(Keys(m), KeyOf(pv.w, size), lru)
  {
    var k := KeyOf(pv.w, size);
    var i := IndexOf(Keys(m), k);
    var t := if i < |m| then m[i].tree else Root(cfg, k, size);
    ToFrontShape(cfg, m, Entry(k, Append(t, pv)), lru);
  }

  lemma {:induction false} SweepKeys(cfg: Config, m: seq<Entry>, b: Box)
    requires MapShape(cfg, m)
    ensures MapShape(cfg, Sweep(m, b))
    ensures Keys(Sweep(m, b)) == Filter(Keys(m), InBox(b))
  {
    if m != [] {
      assert Keys(m[1..]) == Keys(m)[1..];
      TailDistinct(Keys(m));
      forall i | 0 <= i < |m[1..]| ensures RootShape(cfg, m[1..][i]) { assert m[1..][i] == m[i + 1]; }
      SweepKeys(cfg, m[1..], b);
      KeysCons(m[0], Sweep(m[1..], b));
      FilterNoDuplicates(Keys(m), InBox(b));
    }
  }

  lemma KeysCons(e: Entry, m: seq<Entry>)
    ensures Keys([e] + m) == [e.key] + Keys(m)
  {
  }

  // ------------------------------------------------------------- whole runs

  function Distance(a: int, b: int): nat {
    if a < b then b - a else a - b
  }

  /** At most `half` voxels away on every axis from the voxel `position` is in. */
  predicate Near(size: real, position: Vec3, half: int, k: VoxelKey)
    requires size > 0.0
  {
    && Distance(k.x, KeyAxis(position.x / size)) <= half
    && Distance(k.y, KeyAxis(position.y / size)) <= half
    && Distance(k.z, KeyAxis(position.z / size)) <= half
  }

  /** Sliding drops exactly the voxels that are not near. */
  lemma SlidingKeepsNear(size: real, position: Vec3, half: int, m: seq<Entry>)
    requires size > 0.0
    ensures forall k :: k in Keys(Sweep(m, BoxAround(KeyOf(position, size), half)))
                   <==> k in Keys(m) && Near(size, position, half, k)
  {
    var box := BoxAround(KeyOf(position, size), half);
    forall k ensures k in Keys(Sweep(m, box)) <==> k in Keys(m) && Near(size, position, half, k) {
      InsideIsNear(size, position, half, k);
      SweptKeys(m, box, k);
    }
  }

  lemma InsideIsNear(size: real, position: Vec3, half: int, k: VoxelKey)
    requires size > 0.0
    ensures Inside(BoxAround(KeyOf(position, size), half), k) <==> Near(size, position, half, k)
  {
  }

  lemma SweptKeys(m: seq<Entry>, b: Box, k: VoxelKey)
    ensures k in Keys(Sweep(m, b)) <==> k in Keys(m) && Inside(b, k)
  {
    if k in Keys(m) && Inside(b, k) {
      var i :| 0 <= i < |m| && m[i].key == k;
      assert m[i] in Sweep(m, b);
    }
    if k in Keys(Sweep(m, b)) {
      var i :| 0 <= i < |Sweep(m, b)| && Sweep(m, b)[i].key == k;
      assert Sweep(m, b)[i] in m;
    }
  }

  /** What happens to a map after it was built. */
  datatype Event = Arrive(pv: PointWithVar) | Slide(box: Box)

  function Run(cfg: Config, size: real, lru: nat, m: seq<Entry>, es: seq<Event>): (r: seq<Entry>)
    requires MapShape(cfg, m) && size > 0.0
    ensures MapShape(cfg, r)
  {
    if es == [] then m
    else
      var n := |es| - 1;
      var before := Run(cfg, size, lru, m, es[..n]);
      match es[n]
      case Arrive(pv) => UpdatePointKeys(cfg, size, lru, before, pv); UpdatePoint(cfg, size, lru, before, pv)
      case Slide(b) => SweepKeys(cfg, before, b); Sweep(before, b)
  }

  function OpOf(size: real, e: Event): Op<VoxelKey>
    requires size > 0.0
  {
    match e
    case Arrive(pv) => Touching(KeyOf(pv.w, size))
    case Slide(b) => Keeping(InBox(b))
  }

  /** What events do to the keys alone. */
  function Ops(size: real, es: seq<Event>): (ops: seq<Op<VoxelKey>>)
    requires size > 0.0
    ensures |ops| == |es|
  {
    seq(|es|, i requires 0 <= i < |es| => OpOf(size, es[i]))
  }

  function Arrivals(pvs: seq<PointWithVar>): (es: seq<Event>)
    ensures |es| == |pvs| && forall i | 0 <= i < |pvs| :: es[i] == Arrive(pvs[i])
  {
    seq(|pvs|, i requires 0 <= i < |pvs| => Arrive(pvs[i]))
  }

  function PointKeys(size: real, pvs: seq<PointWithVar>): (ks: seq<VoxelKey>)
    requires size > 0.0
    ensures |ks| == |pvs|
  {
    seq(|pvs|, i requires 0 <= i < |pvs| => KeyOf(pvs[i].w, size))
  }

  /** One event on a list of keys that is within its capacity. */
  function NextKeys(size: real, cap: nat, l: seq<VoxelKey>, e: Event): seq<VoxelKey>
    requires size > 0.0
  {
    match e
    case Arrive(pv) => Take(cap, [KeyOf(pv.w, size)] + Without(l, KeyOf(pv.w, size)))
    case Slide(b) => Filter(l, InBox(b))
  }

  lemma RecentStep(size: real, cap: nat, l: seq<VoxelKey>, es: seq<Event>, before: seq<VoxelKey>)
    requires size > 0.0 && es != [] && before == Recent(l, Ops(size, es[..|es| - 1]), cap)
    ensures Recent(l, Ops(size, es), cap) == NextKeys(size, cap, before, es[|es| - 1])
  {
    assert Ops(size, es)[..|es| - 1] == Ops(size, es[..|es| - 1]);
  }

  lemma ArriveKeys(cfg: Config, size: real, lru: nat, before: seq<Entry>, pv: PointWithVar)
    requires MapShape(cfg, before) && size > 0.0 && lru >= 1 && |before| <= lru - 1
    ensures Keys(UpdatePoint(cfg, size, lru, before, pv)) == NextKeys(size, lru - 1, Keys(before), Arrive(pv))
    ensures |UpdatePoint(cfg, size, lru, before, pv)| <= lru - 1
  {
    UpdatePointKeys(cfg, size, lru, before, pv);
    TouchWithinCapacity(Keys(before), KeyOf(pv.w, size), lru);
  }

  lemma RunStep(cfg: Config, size: real, lru: nat, m: seq<Entry>, es: seq<Event>, before: seq<VoxelKey>)
    requires MapShape(cfg, m) && size > 0.0 && lru >= 1 && es != []
    requires before == Keys(Run(cfg, size, lru, m, es[..|es| - 1])) && |before| <= lru - 1
    ensures Keys(Run(cfg, size, lru, m, es)) == NextKeys(size, lru - 1, before, es[|es| - 1])
    ensures |Run(cfg, size, lru, m, es)| <= lru - 1
  {
    var q := Run(cfg, size, lru, m, es[..|es| - 1]);
    match es[|es| - 1]
    case Arrive(pv) => ArriveKeys(cfg, size, lru, q, pv);
    case Slide(b) => SweepKeys(cfg, q, b);
  }

  /** The keys of a run are those of an ideal recency list. */
  ghost predicate Follows(cfg: Config, size: real, lru: nat, m: seq<Entry>, es: seq<Event>)
    requires MapShape(cfg, m) && size > 0.0 && lru >= 1
  {
    var r := Run(cfg, size, lru, m, es);
    Keys(r) == Recent(Keys(m), Ops(size, es), lru - 1) && |r| <= lru - 1
  }

  lemma StepFollows(cfg: Config, size: real, lru: nat, m: seq<Entry>, es: seq<Event>)
    requires MapShape(cfg, m) && size > 0.0 && lru >= 1 && es != [] && Follows(cfg, size, lru, m, es[..|es| - 1])
    ensures Follows(cfg, size, lru, m, es)
  {
    var before := Keys(Run(cfg, size, lru, m, es[..|es| - 1]));
    RecentStep(size, lru - 1, Keys(m), es, before);
    RunStep(cfg, size, lru, m, es, before);
  }

  /** Over every run the keys are those of an ideal recency list: touched to the front, cut at
      `lru - 1`, filtered by the sweeps; and the map never outgrows that. */
  lemma {:induction false} RunIsRecency(cfg: Config, size: real, lru: nat, m: seq<Entry>, es: seq<Event>)
    requires MapShape(cfg, m) && size > 0.0 && lru >= 1 && |m| <= lru - 1
    ensures Keys(Run(cfg, size, lru, m, es)) == Recent(Keys(m), Ops(size, es), lru - 1)
    ensures |Run(cfg, size, lru, m, es)| <= lru - 1
  {
    if es != [] {
      RunIsRecency(cfg, size, lru, m, es[..|es| - 1]);
      StepFollows(cfg, size, lru, m, es);
    }
  }

  lemma ArrivalsTouch(size: real, pvs: seq<PointWithVar>)
    requires size > 0.0
    ensures Ops(size, Arrivals(pvs)) == Touches(PointKeys(size, pvs))
  {
  }

  lemma RecentArrivals(l: seq<VoxelKey>, ks: seq<VoxelKey>, ops: seq<Op<VoxelKey>>, lru: nat, r: seq<VoxelKey>)
    requires lru >= 1 && NoDuplicates(l) && |l| <= lru - 1 && ops == Touches(ks) && r == Recent(l, ops, lru - 1)
    ensures r == Take(lru - 1, Dedup(Reverse(ks) + l))
  {
    RecentTouches(l, ks, lru);
    TouchAllIsRecency(l, ks, lru);
  }

  /** After any points the listed voxels are exactly the `lru - 1` most recently touched distinct
      ones, those of the points before those listed already, newest first. */
  lemma {:induction false} ArrivalsLeaveNewest(cfg: Config, size: real, lru: nat, m: seq<Entry>, pvs: seq<PointWithVar>)
    requires MapShape(cfg, m) && size > 0.0 && lru >= 1 && |m| <= lru - 1
    ensures Keys(Run(cfg, size, lru, m, Arrivals(pvs))) == Take(lru - 1, Dedup(Reverse(PointKeys(size, pvs)) + Keys(m)))
  {
    RunIsRecency(cfg, size, lru, m, Arrivals(pvs));
    ArrivalsTouch(size, pvs);
    RecentArrivals(Keys(m), PointKeys(size, pvs), Ops(size, Arrivals(pvs)), lru,
                   Keys(Run(cfg, size, lru, m, Arrivals(pvs))));
  }

  /** The voxel a point falls in is listed first right after the point arrives. */
  lemma {:induction false} ArrivedVoxelIsFirst(cfg: Config, size: real, lru: nat, m: seq<Entry>, pv: PointWithVar)
    requires MapShape(cfg, m) && size > 0.0 && lru >= 2
    ensures var r := UpdatePoint(cfg, size, lru, m, pv); r != [] && r[0].key == KeyOf(pv.w, size)
  {
    UpdatePointKeys(cfg, size, lru, m, pv);
    JustTouchedStays(Keys(m), KeyOf(pv.w, size), lru);
  }

  // ------------------------------------------------------------- geometry

  /** The tree of an entry sits in the cube its key names, and every node of it is sound. */
  ghost predicate SoundEntry(cfg: Config, size: real, e: Entry) {
    && e.tree.Node?
    && e.tree.center == KeyCenter(e.key, size) && e.tree.quarter == size / 4.0
    && Sound(cfg, e.tree)
  }

  ghost predicate MapSound(cfg: Config, size: real, m: seq<Entry>) {
    forall e | e in m :: SoundEntry(cfg, size, e)
  }

  lemma {:induction false} UpdatePointKeepsSound(cfg: Config, size: real, lru: nat, m: seq<Entry>, pv: PointWithVar)
    requires MapShape(cfg, m) && MapSound(cfg, size, m) && size > 0.0
    ensures MapSound(cfg, size, UpdatePoint(cfg, size, lru, m, pv))
  {
    var k := KeyOf(pv.w, size);
    var i := IndexOf(Keys(m), k);
    if i < |m| { assert SoundEntry(cfg, size, m[i]); }
    var t := if i < |m| then m[i].tree else Root(cfg, k, size);
    KeyCubeContains(pv.w, size);
    UpdateKeepsSound(cfg, t, pv);
  }

  lemma {:induction false} BuildPointKeepsSound(cfg: Config, size: real, lru: nat, m: seq<Entry>, pv: PointWithVar)
    requires MapShape(cfg, m) && Unfitted(m) && MapSound(cfg, size, m) && size > 0.0
    ensures MapSound(cfg, size, BuildPoint(cfg, size, lru, m, pv))
  {
    var k := KeyOf(pv.w, size);
    var i := IndexOf(Keys(m), k);
    if i < |m| { assert SoundEntry(cfg, size, m[i]); }
    var t := if i < |m| then m[i].tree else Root(cfg, k, size);
    KeyCubeContains(pv.w, size);
    AppendInCube(t.points, pv, t.center, t.quarter);
    assert !t.init && SoundNode(cfg, t);
    assert SoundEntry(cfg, size, Entry(k, Append(t, pv)));
  }

  /** BuildVoxelMapLRU, on the empty map it is called with. */
  function StoreAll(cfg: Config, size: real, lru: nat, pvs: seq<PointWithVar>): (m: seq<Entry>)
    requires ValidConfig(cfg) && size > 0.0
    ensures MapShape(cfg, m) && Unfitted(m)
  {
    if pvs == [] then []
    else
      var n := |pvs| - 1;
      var before := StoreAll(cfg, size, lru, pvs[..n]);
      BuildPointKeys(cfg, size, lru, before, pvs[n]);
      BuildPoint(cfg, size, lru, before, pvs[n])
  }

  function BuildMap(cfg: Config, size: real, lru: nat, pvs: seq<PointWithVar>): seq<Entry>
    requires ValidConfig(cfg) && size > 0.0
  {
    FitAll(cfg, StoreAll(cfg, size, lru, pvs))
  }

  lemma {:induction false} StoreAllSound(cfg: Config, size: real, lru: nat, pvs: seq<PointWithVar>)
    requires ValidConfig(cfg) && size > 0.0
    ensures MapSound(cfg, size, StoreAll(cfg, size, lru, pvs))
  {
    if pvs != [] {
      var n := |pvs| - 1;
      StoreAllSound(cfg, size, lru, pvs[..n]);
      BuildPointKeepsSound(cfg, size, lru, StoreAll(cfg, size, lru, pvs[..n]), pvs[n]);
    }
  }

  lemma {:induction false} StoreAllKeys(cfg: Config, size: real, lru: nat, pvs: seq<PointWithVar>)
    requires ValidConfig(cfg) && size > 0.0
    ensures Keys(StoreAll(cfg, size, lru, pvs)) == TouchAll([], PointKeys(size, pvs), lru)
  {
    if pvs != [] {
      var n := |pvs| - 1;
      StoreAllKeys(cfg, size, lru, pvs[..n]);
      BuildPointKeys(cfg, size, lru, StoreAll(cfg, size, lru, pvs[..n]), pvs[n]);
      assert PointKeys(size, pvs)[..n] == PointKeys(size, pvs[..n]);
    }
  }

  /** The single build lists the same keys in the same order as updates would, and starts
      every later run from a sound map. */
  lemma {:induction false} BuildMapSound(cfg: Config, size: real, lru: nat, pvs: seq<PointWithVar>)
    requires ValidConfig(cfg) && size > 0.0
    ensures var m := BuildMap(cfg, size, lru, pvs);
            && MapShape(cfg, m) && MapSound(cfg, size, m)
            && Keys(m) == TouchAll([], PointKeys(size, pvs), lru)
            && (lru >= 1 ==> |m| <= lru - 1)
  {
    if lru >= 1 { TouchAllBounded([], PointKeys(size, pvs), lru); }
    var stored := StoreAll(cfg, size, lru, pvs);
    StoreAllSound(cfg, size, lru, pvs);
    StoreAllKeys(cfg, size, lru, pvs);
    var m := FitAll(cfg, stored);
    assert Keys(m) == Keys(stored);
    forall e | e in m ensures SoundEntry(cfg, size, e) {
      var i :| 0 <= i < |m| && m[i] == e;
      assert SoundEntry(cfg, size, stored[i]);
      InitKeepsSound(cfg, stored[i].tree);
    }
  }

  /** The accesses and sweeps of a build and the events after it. */
  function History(size: real, pvs: seq<PointWithVar>, es: seq<Event>): seq<Op<VoxelKey>>
    requires size > 0.0
  {
    Touches(PointKeys(size, pvs)) + Ops(size, es)
  }

  lemma TouchesConcat(ks: seq<VoxelKey>, ops: seq<Op<VoxelKey>>, lru: nat, built: seq<VoxelKey>)
    requires lru >= 1 && built == TouchAll([], ks, lru)
    ensures Recent(built, ops, lru - 1) == Recent([], Touches(ks) + ops, lru - 1)
  {
    RecentTouches([], ks, lru);
    RecentConcat([], Touches(ks), ops, lru - 1, built);
  }

  lemma RecentHistory(size: real, lru: nat, pvs: seq<PointWithVar>, es: seq<Event>, built: seq<VoxelKey>)
    requires size > 0.0 && lru >= 1 && built == TouchAll([], PointKeys(size, pvs), lru)
    ensures Recent(built, Ops(size, es), lru - 1) == Recent([], History(size, pvs, es), lru - 1)
  {
    TouchesConcat(PointKeys(size, pvs), Ops(size, es), lru, built);
  }

  lemma BuildKeys(cfg: Config, size: real, lru: nat, pvs: seq<PointWithVar>)
    requires ValidConfig(cfg) && size > 0.0 && lru >= 1
    ensures var m := BuildMap(cfg, size, lru, pvs);
            MapShape(cfg, m) && |m| <= lru - 1 && Keys(m) == TouchAll([], PointKeys(size, pvs), lru)
  {
    BuildMapSound(cfg, size, lru, pvs);
  }

  lemma HistoryKeys(cfg: Config, size: real, lru: nat, pvs: seq<PointWithVar>, es: seq<Event>, m: seq<Entry>)
    requires size > 0.0 && lru >= 1 && MapShape(cfg, m) && |m| <= lru - 1
    requires Keys(m) == TouchAll([], PointKeys(size, pvs), lru)
    ensures Keys(Run(cfg, size, lru, m, es)) == Recent([], History(size, pvs, es), lru - 1)
  {
    RunIsRecency(cfg, size, lru, m, es);
    RecentHistory(size, lru, pvs, es, Keys(m));
  }

  lemma ListedIn(ops: seq<Op<VoxelKey>>, k: VoxelKey, cap: nat, r: seq<VoxelKey>)
    requires r == Recent([], ops, cap)
    ensures k in r <==> Remains(ops, k, cap)
  {
    ListedWithSweepsIff(ops, k, cap);
  }

  lemma ListedAfter(cfg: Config, size: real, lru: nat, pvs: seq<PointWithVar>, es: seq<Event>,
                    m: seq<Entry>, k: VoxelKey)
    requires size > 0.0 && lru >= 1 && MapShape(cfg, m) && |m| <= lru - 1
    requires Keys(m) == TouchAll([], PointKeys(size, pvs), lru)
    ensures k in Keys(Run(cfg, size, lru, m, es)) <==> Remains(History(size, pvs, es), k, lru - 1)
  {
    HistoryKeys(cfg, size, lru, pvs, es, m);
    ListedIn(History(size, pvs, es), k, lru - 1, Keys(Run(cfg, size, lru, m, es)));
  }

  /** In every map reachable from the build a voxel is listed exactly when some point fell in it,
      no later sweep dropped it, and at no time since its last point were there `lru - 1` voxels
      touched later and not swept out. */
  lemma {:induction false} ListedInRunIff(cfg: Config, size: real, lru: nat, pvs: seq<PointWithVar>,
                                          es: seq<Event>, k: VoxelKey)
    requires ValidConfig(cfg) && size > 0.0 && lru >= 1 && MapShape(cfg, BuildMap(cfg, size, lru, pvs))
    ensures k in Keys(Run(cfg, size, lru, BuildMap(cfg, size, lru, pvs), es))
       <==> Remains(History(size, pvs, es), k, lru - 1)
  {
    BuildKeys(cfg, size, lru, pvs);
    ListedAfter(cfg, size, lru, pvs, es, BuildMap(cfg, size, lru, pvs), k);
  }

  lemma {:induction false} RunKeepsSound(cfg: Config, size: real, lru: nat, m: seq<Entry>, es: seq<Event>)
    requires MapShape(cfg, m) && MapSound(cfg, size, m) && size > 0.0
    ensures MapSound(cfg, size, Run(cfg, size, lru, m, es))
  {
    if es != [] {
      var n := |es| - 1;
      RunKeepsSound(cfg, size, lru, m, es[..n]);
      if es[n].Arrive? {
        UpdatePointKeepsSound(cfg, size, lru, Run(cfg, size, lru, m, es[..n]), es[n].pv);
      }
    }
  }

  /** In every map reachable from the build, every stored point lies in the cube of the node
      storing it, and that cube lies in the voxel its key names. */
  lemma {:induction false} StoredPointsInCubes(cfg: Config, size: real, lru: nat, pvs: seq<PointWithVar>,
                                               es: seq<Event>, e: Entry, path: seq<nat>, p: PointWithVar)
    requires ValidConfig(cfg) && size > 0.0
    requires MapShape(cfg, BuildMap(cfg, size, lru, pvs))
    requires e in Run(cfg, size, lru, BuildMap(cfg, size, lru, pvs), es)
    requires NodeAt(e.tree, path).Node? && p in NodeAt(e.tree, path).points
    ensures var node := NodeAt(e.tree, path);
            && InCube(node.center, node.quarter, p.w)
            && InCube(KeyCenter(e.key, size), size / 4.0, p.w)
            && node.layer == |path| <= cfg.maxLayer
  {
    var m := BuildMap(cfg, size, lru, pvs);
    BuildMapSound(cfg, size, lru, pvs);
    RunKeepsSound(cfg, size, lru, m, es);
    var r := Run(cfg, size, lru, m, es);
    var i :| 0 <= i < |r| && r[i] == e;
    assert RootShape(cfg, r[i]) && SoundEntry(cfg, size, e);
    SoundAt(cfg, e.tree, path);
    CubesNest(cfg, e.tree, path, p.w);
  }

  /** The cube of a node is inside the cube of each of its ancestors; its layer counts the
      steps down to it. */
  lemma {:induction false} CubesNest(cfg: Config, t: Tree, path: seq<nat>, p: Vec3)
    requires t.Node? && Shape(cfg, t) && t.quarter >= 0.0 && NodeAt(t, path).Node?
    ensures var node := NodeAt(t, path);
            && (InCube(node.center, node.quarter, p) ==> InCube(t.center, t.quarter, p))
            && node.layer == t.layer + |path| && node.layer <= cfg.maxLayer
    decreases |path|
  {
    if path != [] {
      var o := path[0];
      CubesNest(cfg, t.kids[o], path[1..], p);
      ChildCube(t.center, t.quarter, o, p);
    }
  }
}
