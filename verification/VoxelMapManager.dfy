/** VoxelMapManager: the linked list of voxels in recency order, the hash index into it, and
    the octrees the list cells own. */
module VoxelMapManagers {
  import opened VoxelTypes
  import opened OctreeSpec
  import opened VoxelOctoTrees
  import opened Sequences
  import opened LruList
  import opened VoxelMapSpec

  /** A cell of vm_data_. The index maps a key to its cell, which splicing keeps. */
  class Cell {
    const key: VoxelKey
    const tree: VoxelOctoTree

    constructor (key: VoxelKey, tree: VoxelOctoTree)
      ensures this.key == key && this.tree == tree
    {
      this.key := key;
      this.tree := tree;
    }
  }

  class VoxelMapManager {
    const cfg: Config
    const voxelSize: real
    const lruSize: nat
    const slidingThresh: real
    const halfMapSize: int

    var vmData: seq<Cell>
    var vmMap: map<VoxelKey, Cell>
    var positionLast: Vec3
    var lastSlidePosition: Vec3

    ghost var model: seq<Entry>
    ghost var trees: set<VoxelOctoTree>

    /** List and index agree: one cell a key, each key indexed at its own cell. */
    ghost predicate IndexAgrees()
      reads this
    {
      && NoDuplicates(vmData)
      && (forall c | c in vmData :: c.key in vmMap && vmMap[c.key] == c)
      && (forall k | k in vmMap :: vmMap[k] in vmData && vmMap[k].key == k)
    }

    /** The octrees are valid and share nothing. */
    ghost predicate TreesValid()
      reads this, trees
    {
      && (forall c | c in vmData :: c.tree in trees && c.tree.Repr <= trees && c.tree.Valid() && c.tree.cfg == cfg)
      && (forall c, d | c in vmData && d in vmData && c != d :: c.tree.Repr !! d.tree.Repr)
    }

    /** The model lists key and tree of every cell. */
    ghost predicate ModelMatches()
      reads this, set c | c in vmData :: c.tree
    {
      && |model| == |vmData|
      && forall i | 0 <= i < |vmData| :: model[i] == Entry(vmData[i].key, vmData[i].tree.model)
    }

    ghost predicate Valid()
      reads this, trees
    {
      && IndexAgrees() && TreesValid() && ModelMatches()
      && MapShape(cfg, model)
      && voxelSize > 0.0 && lruSize >= 2 && |vmData| <= lruSize - 1
    }

    /** An empty map. */
    constructor (cfg: Config, voxelSize: real, lruSize: nat, slidingThresh: real, halfMapSize: int)
      requires ValidConfig(cfg) && voxelSize > 0.0 && lruSize >= 2
      ensures Valid() && model == [] && fresh(trees)
      ensures this.cfg == cfg && this.voxelSize == voxelSize && this.lruSize == lruSize
    {
      this.cfg, this.voxelSize, this.lruSize := cfg, voxelSize, lruSize;
      this.slidingThresh, this.halfMapSize := slidingThresh, halfMapSize;
      vmData, vmMap := [], map[];
      positionLast, lastSlidePosition := Vec3(0.0, 0.0, 0.0), Vec3(0.0, 0.0, 0.0);
      model, trees := [], {};
    }

    /** UpdateVoxelMapLRU: every point goes to its voxel, which moves or enters at the front;
        a full list loses its tail. */
    method UpdateVoxelMapLRU(points: seq<PointWithVar>)
      requires Valid()
      modifies `vmData, `vmMap, `model, `trees, trees
      ensures Valid() && fresh(trees - old(trees))
      ensures MapShape(cfg, old(model))
      ensures model == Run(cfg, voxelSize, lruSize, old(model), Arrivals(points))
    {
      for n := 0 to |points|
        invariant Valid() && fresh(trees - old(trees))
        invariant model == Run(cfg, voxelSize, lruSize, old(model), Arrivals(points[..n]))
      {
        assert Arrivals(points[..n + 1])[..n] == Arrivals(points[..n]);
        UpdateOne(points[n]);
      }
      assert points[..|points|] == points;
    }

    /** The body of that loop. */
    method UpdateOne(pv: PointWithVar)
      requires Valid()
      modifies `vmData, `vmMap, `model, `trees, trees
      ensures Valid() && fresh(trees - old(trees))
      ensures model == UpdatePoint(cfg, voxelSize, lruSize, old(model), pv)
    {
      var position := KeyOf(pv.w, voxelSize);
      CellIndex(position);
      if position in vmMap {
        UpdateListed(IndexOf(vmData, vmMap[position]), pv);
      } else {
        UpdateMissing(position, pv);
      }
    }

    /** The voxel exists: update its tree, move it to the front. */
    method UpdateListed(i: nat, pv: PointWithVar)
      requires Valid() && i < |vmData|
      modifies `vmData, `vmMap, `model, `trees, trees
      ensures Valid() && fresh(trees - old(trees))
      ensures var was := old(model);
              model == ToFront(was, i, Entry(was[i].key, UpdateTree(cfg, was[i].tree, pv)), lruSize)
    {
      MoveReplaced(model, i, Entry(model[i].key, UpdateTree(cfg, model[i].tree, pv)));
      UpdateTreeAt(i, pv);
      MoveToFront(i);
    }

    /** The voxel is new: enter it, then update its tree. */
    method UpdateMissing(position: VoxelKey, pv: PointWithVar)
      requires Valid() && position !in vmMap
      modifies `vmData, `vmMap, `model, `trees, trees
      ensures Valid() && fresh(trees - old(trees))
      ensures var e := Entry(position, UpdateTree(cfg, Root(cfg, position, voxelSize), pv));
              model == ToFront(old(model), |old(model)|, e, lruSize)
    {
      ghost var root := Root(cfg, position, voxelSize);
      EnterReplaced(model, Entry(position, root), Entry(position, UpdateTree(cfg, root, pv)), lruSize);
      PushFront(position);
      UpdateTreeAt(0, pv);
    }

    /** BuildVoxelMapLRU, called once, on an empty map: store every point the same way
        without fitting, then fit every tree. */
    method BuildVoxelMapLRU(points: seq<PointWithVar>)
      requires Valid() && model == []
      modifies `vmData, `vmMap, `model, `trees, trees
      ensures Valid() && fresh(trees - old(trees))
      ensures model == BuildMap(cfg, voxelSize, lruSize, points)
    {
      for n := 0 to |points|
        invariant Valid() && fresh(trees - old(trees))
        invariant model == StoreAll(cfg, voxelSize, lruSize, points[..n])
      {
        assert points[..n + 1][..n] == points[..n];
        BuildOne(points[n]);
      }
      assert points[..|points|] == points;
      FitTrees();
    }

    /** The final loop of BuildVoxelMapLRU: InitOctoTree on every voxel. */
    method FitTrees()
      requires Valid() && Unfitted(model)
      modifies `model, `trees, trees
      ensures Valid() && fresh(trees - old(trees))
      ensures model == FitAll(cfg, old(model))
    {
      for n := 0 to |vmData|
        invariant Valid() && fresh(trees - old(trees))
        invariant PartlyFitted(cfg, old(model), model, n)
      {
        InitTreeAt(n);
      }
    }

    method BuildOne(pv: PointWithVar)
      requires Valid() && Unfitted(model)
      modifies `vmData, `vmMap, `model, `trees, trees
      ensures Valid() && fresh(trees - old(trees))
      ensures model == BuildPoint(cfg, voxelSize, lruSize, old(model), pv)
    {
      var position := KeyOf(pv.w, voxelSize);
      CellIndex(position);
      if position in vmMap {
        StoreListed(IndexOf(vmData, vmMap[position]), pv);
      } else {
        StoreMissing(position, pv);
      }
    }

    /** The voxel exists: store the point, move it to the front. */
    method StoreListed(i: nat, pv: PointWithVar)
      requires Valid() && i < |vmData|
      modifies `vmData, `vmMap, `model, `trees, trees
      ensures Valid() && fresh(trees - old(trees))
      ensures var was := old(model);
              model == ToFront(was, i, Entry(was[i].key, Append(was[i].tree, pv)), lruSize)
    {
      MoveReplaced(model, i, Entry(model[i].key, Append(model[i].tree, pv)));
      AppendAt(i, pv);
      MoveToFront(i);
    }

    /** The voxel is new: enter it with the point. */
    method StoreMissing(position: VoxelKey, pv: PointWithVar)
      requires Valid() && position !in vmMap
      modifies `vmData, `vmMap, `model, `trees, trees
      ensures Valid() && fresh(trees - old(trees))
      ensures var e := Entry(position, Append(Root(cfg, position, voxelSize), pv));
              model == ToFront(old(model), |old(model)|, e, lruSize)
    {
      ghost var root := Root(cfg, position, voxelSize);
      EnterReplaced(model, Entry(position, root), Entry(position, Append(root, pv)), lruSize);
      PushFront(position);
      AppendAt(0, pv);
    }

    /** The indexed cell stands in the list where its key does. */
    lemma CellIndex(k: VoxelKey)
      requires Valid()
      ensures k in vmMap <==> IndexOf(Keys(model), k) < |model|
      ensures k in vmMap ==> IndexOf(vmData, vmMap[k]) == IndexOf(Keys(model), k)
    {
      var j := IndexOf(Keys(model), k);
      if k in vmMap {
        var i := IndexOf(vmData, vmMap[k]);
        assert Keys(model)[i] == k;
        assert vmData[j].key == k;
      }
    }

    /** push_front, index, and eviction of the tail once the list reaches lru_size_. */
    method PushFront(position: VoxelKey)
      requires Valid() && position !in vmMap
      modifies `vmData, `vmMap, `model, `trees
      ensures Valid() && fresh(trees - old(trees))
      ensures model == ToFront(old(model), |old(model)|, Entry(position, Root(cfg, position, voxelSize)), lruSize)
      ensures model != [] && model[0] == Entry(position, Root(cfg, position, voxelSize))
    {
      ghost var e := Entry(position, Root(cfg, position, voxelSize));
      ghost var was := model;
      assert MapShape(cfg, CutTail([e] + was, lruSize))
          && ToFront(was, |was|, e, lruSize) == CutTail([e] + was, lruSize)
          && CutTail([e] + was, lruSize) != [] && CutTail([e] + was, lruSize)[0] == e
      by {
        CellIndex(position);
        EnteredShape(cfg, was, e, lruSize);
      }
      var octoTree := new VoxelOctoTree(cfg, 0, KeyCenter(position, voxelSize), voxelSize / 4.0);
      assert e == Entry(position, octoTree.model);
      var cell := new Cell(position, octoTree);
      Enter(cell);
      EvictTail();
    }

    /** Erase the tail once the list has reached lru_size_. */
    method EvictTail()
      requires IndexAgrees() && TreesValid() && ModelMatches() && vmData != []
      modifies `vmData, `vmMap, `model
      ensures IndexAgrees() && TreesValid() && ModelMatches()
      ensures model == CutTail(old(model), lruSize)
    {
      if |vmData| >= lruSize {
        EraseAt(|vmData| - 1);
      }
    }

    /** push_front and insert. */
    method Enter(cell: Cell)
      requires IndexAgrees() && TreesValid() && ModelMatches() && cell.key !in vmMap
      requires cell.tree.Valid() && cell.tree.cfg == cfg && cell.tree.Repr !! trees
      modifies `vmData, `vmMap, `model, `trees
      ensures IndexAgrees() && TreesValid() && ModelMatches() && trees == old(trees) + cell.tree.Repr
      ensures model == [Entry(cell.key, cell.tree.model)] + old(model)
    {
      vmData := [cell] + vmData;
      vmMap := vmMap[cell.key := cell];
      model := [Entry(cell.key, cell.tree.model)] + model;
      trees := trees + cell.tree.Repr;
      CellEntered(cell);
    }

    twostate lemma CellEntered(cell: Cell)
      requires old(IndexAgrees() && TreesValid() && ModelMatches()) && cell.key !in old(vmMap)
      requires cell.tree.Valid() && cell.tree.cfg == cfg && cell.tree.Repr !! old(trees)
      requires vmData == [cell] + old(vmData) && vmMap == old(vmMap)[cell.key := cell]
      requires model == [Entry(cell.key, cell.tree.model)] + old(model)
      requires trees == old(trees) + cell.tree.Repr && forall t | t in old(trees) :: unchanged(t)
      ensures IndexAgrees() && TreesValid() && ModelMatches()
    {
      assert forall c | c in vmData :: c == cell || c in old(vmData);
      assert IndexAgrees() by { ConsDistinct(cell, old(vmData)); }
      TreesEntered(cell);
      ModelEntered(cell);
    }

    twostate lemma ModelEntered(cell: Cell)
      requires old(ModelMatches()) && forall c | c in old(vmData) :: unchanged(c.tree)
      requires vmData == [cell] + old(vmData) && model == [Entry(cell.key, cell.tree.model)] + old(model)
      ensures ModelMatches()
    {
    }

    twostate lemma TreesEntered(cell: Cell)
      requires old(TreesValid())
      requires cell.tree.Valid() && cell.tree.cfg == cfg && cell.tree.Repr !! old(trees)
      requires forall c | c in vmData :: c == cell || c in old(vmData)
      requires trees == old(trees) + cell.tree.Repr && forall t | t in old(trees) :: unchanged(t)
      ensures TreesValid()
    {
    }

    /** Erase cell `i` from the index and from the list. */
    method EraseAt(i: nat)
      requires IndexAgrees() && TreesValid() && ModelMatches() && i < |vmData|
      modifies `vmData, `vmMap, `model
      ensures IndexAgrees() && TreesValid() && ModelMatches()
      ensures model == RemoveAt(old(model), i)
    {
      vmMap := vmMap - {vmData[i].key};
      vmData := RemoveAt(vmData, i);
      model := RemoveAt(model, i);
      CellErased(i);
    }

    twostate lemma CellErased(i: nat)
      requires old(IndexAgrees() && TreesValid() && ModelMatches()) && i < |old(vmData)|
      requires vmData == RemoveAt(old(vmData), i) && vmMap == old(vmMap) - {old(vmData)[i].key}
      requires model == RemoveAt(old(model), i)
      requires trees == old(trees) && forall t | t in trees :: unchanged(t)
      ensures IndexAgrees() && TreesValid() && ModelMatches()
    {
      RemoveAtMembers(old(vmData), i);
      assert forall c | c in vmData :: c in old(vmData);
      ModelErased(i);
    }

    twostate lemma ModelErased(i: nat)
      requires old(ModelMatches()) && i < |old(vmData)| && forall c | c in old(vmData) :: unchanged(c.tree)
      requires vmData == RemoveAt(old(vmData), i) && model == RemoveAt(old(model), i)
      ensures ModelMatches()
    {
    }

    /** splice: cell `i` becomes the first; the index still points at it. */
    method MoveToFront(i: nat)
      requires Valid() && i < |vmData|
      modifies `vmData, `model
      ensures Valid()
      ensures model == [old(model)[i]] + RemoveAt(old(model), i)
    {
      var cell := vmData[i];
      MovedShape(cfg, model, i);
      vmData := [cell] + RemoveAt(vmData, i);
      model := [model[i]] + RemoveAt(model, i);
      CellMoved(i);
    }

    /** Moving a cell changes nothing but the order. */
    twostate lemma CellMoved(i: nat)
      requires old(IndexAgrees() && TreesValid() && ModelMatches()) && i < |old(vmData)|
      requires vmData == [old(vmData)[i]] + RemoveAt(old(vmData), i)
      requires model == [old(model)[i]] + RemoveAt(old(model), i)
      requires vmMap == old(vmMap) && trees == old(trees) && forall t | t in trees :: unchanged(t)
      ensures IndexAgrees() && TreesValid() && ModelMatches()
    {
      assert NoDuplicates(vmData) && forall c | c in vmData :: c in old(vmData) by { MoveMembers(old(vmData), i); }
      assert IndexAgrees() by { MoveMembers(old(vmData), i); }
    }

    /** Bring model and footprint up to date after the tree of cell `i` changed. */
    ghost method TreeChanged(i: nat)
      requires NoDuplicates(vmData) && i < |vmData| == |model|
      requires vmData[i].tree.Valid() && vmData[i].tree.cfg == cfg
      requires forall c | c in vmData && c != vmData[i] ::
                 && c.tree in trees && c.tree.Repr <= trees
                 && c.tree.Valid() && c.tree.cfg == cfg && c.tree.Repr !! vmData[i].tree.Repr
      requires forall c, d | c in vmData && d in vmData && c != d && c != vmData[i] && d != vmData[i] ::
                 c.tree.Repr !! d.tree.Repr
      requires forall j | 0 <= j < |vmData| && j != i :: model[j] == Entry(vmData[j].key, vmData[j].tree.model)
      modifies `model, `trees
      ensures TreesValid() && ModelMatches() && trees == old(trees) + vmData[i].tree.Repr
      ensures model == old(model)[i := Entry(vmData[i].key, vmData[i].tree.model)]
    {
      model := model[i := Entry(vmData[i].key, vmData[i].tree.model)];
      trees := trees + vmData[i].tree.Repr;
    }

    lemma CellsApart(i: nat)
      requires NoDuplicates(vmData) && i < |vmData|
      ensures forall j | 0 <= j < |vmData| && j != i :: vmData[j] != vmData[i]
    {
      forall j | 0 <= j < |vmData| && j != i ensures vmData[j] != vmData[i] { Apart(vmData, i, j); }
    }

    method UpdateTreeAt(i: nat, pv: PointWithVar)
      requires Valid() && i < |vmData|
      modifies `model, `trees, trees
      ensures Valid() && fresh(trees - old(trees))
      ensures model == old(model)[i := Entry(old(model)[i].key, UpdateTree(cfg, old(model)[i].tree, pv))]
    {
      var octoTree := vmData[i].tree;
      assert RootShape(cfg, model[i]);
      ReplacedShape(cfg, model, i, UpdateTree(cfg, model[i].tree, pv));
      octoTree.UpdateOctoTree(pv);
      CellsApart(i);
      TreeChanged(i);
    }

    method AppendAt(i: nat, pv: PointWithVar)
      requires Valid() && i < |vmData|
      modifies `model, `trees, trees
      ensures Valid() && fresh(trees - old(trees))
      ensures model == old(model)[i := Entry(old(model)[i].key, Append(old(model)[i].tree, pv))]
    {
      var octoTree := vmData[i].tree;
      AppendedShape(cfg, model, i, pv);
      octoTree.AppendPoint(pv);
      CellsApart(i);
      TreeChanged(i);
    }

    method InitTreeAt(i: nat)
      requires Valid() && i < |vmData| && !model[i].tree.init
      modifies `model, `trees, trees
      ensures Valid() && fresh(trees - old(trees))
      ensures RootShape(cfg, old(model)[i])
      ensures model == old(model)[i := Entry(old(model)[i].key, InitTree(cfg, old(model)[i].tree))]
    {
      var octoTree := vmData[i].tree;
      assert RootShape(cfg, model[i]);
      ReplacedShape(cfg, model, i, InitTree(cfg, model[i].tree));
      var _ := octoTree.InitOctoTree();
      CellsApart(i);
      TreeChanged(i);
    }

    /** ClearMemOutOfMap: drop every voxel outside the box, keep the others in order. */
    method ClearMemOutOfMap(box: Box)
      requires Valid()
      modifies `vmData, `vmMap, `model
      ensures Valid() && model == Sweep(old(model), box)
      ensures forall k :: k in vmMap <==> k in old(vmMap) && box.xMin <= k.x <= box.xMax
                                          && box.yMin <= k.y <= box.yMax && box.zMin <= k.z <= box.zMax
    {
      IndexedKeys();
      SweepAll(box);
      IndexedKeys();
      forall k ensures k in Keys(model) <==> k in Keys(old(model)) && Inside(box, k) {
        SweptKeys(old(model), box, k);
      }
    }

    /** Its loop. */
    method SweepAll(box: Box)
      requires Valid()
      modifies `vmData, `vmMap, `model
      ensures Valid() && model == Sweep(old(model), box)
    {
      var it := 0;
      while it < |vmData|
        invariant it <= |vmData| && Valid()
        invariant Sweep(old(model), box) == model[..it] + Sweep(model[it..], box)
        decreases |vmData| - it
      {
        var loc := vmData[it].key;
        SweepStep(model, it, box);
        if Inside(box, loc) {
          it := it + 1;
        } else {
          DropAt(it);
        }
      }
      assert model[..it] + Sweep(model[it..], box) == model;
    }

    /** The erasure of that loop. */
    method DropAt(i: nat)
      requires Valid() && i < |vmData|
      modifies `vmData, `vmMap, `model
      ensures Valid() && model == RemoveAt(old(model), i)
    {
      RemovedShape(cfg, model, i);
      EraseAt(i);
    }

    /** MapSliding: sweep around the last position once it moved far enough. */
    method MapSliding()
      requires Valid()
      modifies `vmData, `vmMap, `model, `lastSlidePosition
      ensures Valid()
      ensures if NormBelow(positionLast, old(lastSlidePosition), slidingThresh)
              then model == old(model) && lastSlidePosition == old(lastSlidePosition)
              else model == Run(cfg, voxelSize, lruSize, old(model),
                                [Slide(BoxAround(KeyOf(positionLast, voxelSize), halfMapSize))])
                   && lastSlidePosition == positionLast
                   && forall k :: k in vmMap <==> k in old(vmMap) && Near(voxelSize, positionLast, halfMapSize, k)
    {
      if NormBelow(positionLast, lastSlidePosition, slidingThresh) {
        return;
      }
      MarkSlide();
      var box := BoxAround(KeyOf(positionLast, voxelSize), halfMapSize);
      SlideOnce(cfg, voxelSize, lruSize, model, box);
      SlidingKeepsNear(voxelSize, positionLast, halfMapSize, model);
      IndexedKeys();
      ClearMemOutOfMap(box);
      IndexedKeys();
    }

    lemma IndexedKeys()
      requires Valid()
      ensures forall k :: k in vmMap <==> k in Keys(model)
    {
      forall k ensures k in vmMap <==> k in Keys(model) { CellIndex(k); }
    }

    method MarkSlide()
      requires Valid()
      modifies `lastSlidePosition
      ensures Valid() && lastSlidePosition == positionLast
    {
      lastSlidePosition := positionLast;
    }
  }

  lemma SlideOnce(cfg: Config, size: real, capacity: nat, m: seq<Entry>, box: Box)
    requires MapShape(cfg, m) && size > 0.0 && capacity >= 2
    ensures Run(cfg, size, capacity, m, [Slide(box)]) == Sweep(m, box)
  {
    assert Run(cfg, size, capacity, m, []) == m;
    assert [Slide(box)][..0] == [];
  }

  /** The Euclidean distance of two positions is below `t`. */
  predicate NormBelow(a: Vec3, b: Vec3, t: real) {
    var dx, dy, dz := a.x - b.x, a.y - b.y, a.z - b.z;
    t > 0.0 && dx * dx + dy * dy + dz * dz < t * t
  }

  /** It compares what the square root of the sum of squares is. */
  lemma NormBelowIff(a: Vec3, b: Vec3, t: real, distance: real)
    requires distance >= 0.0
    requires distance * distance
          == (a.x - b.x) * (a.x - b.x) + (a.y - b.y) * (a.y - b.y) + (a.z - b.z) * (a.z - b.z)
    ensures NormBelow(a, b, t) <==> distance < t
  {
    if t > 0.0 { SquaresCompare(distance, t); }
  }

  lemma SquaresCompare(a: real, b: real)
    requires a >= 0.0 && b > 0.0
    ensures a * a < b * b <==> a < b
  {
    assert (b - a) * (b + a) == b * b - a * a;
    if a < b {
      Positive(b - a, b + a);
    } else if b < a {
      Positive(a - b, b + a);
      assert (a - b) * (b + a) == a * a - b * b;
    }
  }

  lemma Positive(a: real, b: real)
    requires a > 0.0 && b > 0.0
    ensures a * b > 0.0
  {
  }

  /** The first `n` entries of `now` are fitted, the others as in `stored`. */
  ghost predicate PartlyFitted(cfg: Config, stored: seq<Entry>, now: seq<Entry>, n: nat)
    requires MapShape(cfg, stored) && Unfitted(stored)
  {
    && |now| == |stored|
    && (forall i | 0 <= i < n <= |stored| :: now[i] == Entry(stored[i].key, InitTree(cfg, stored[i].tree)))
    && (forall i | n <= i < |stored| :: now[i] == stored[i])
  }
}
