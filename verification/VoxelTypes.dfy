/** Values shared by the voxel-map modules: positions, lidar points, fitted planes,
    voxel keys and the configuration every tree of one map is built with. */
module VoxelTypes {

  datatype Vec3 = Vec3(x: real, y: real, z: real)

  /** A lidar point: its world position and, behind `cov`, the covariances the map only
      passes through. */
  datatype PointWithVar = PointWithVar(w: Vec3, cov: int)

  /** What InitPlane leaves behind: the points it was fitted to, which determine every
      geometric field, and whether the smallest eigenvalue was below the threshold. */
  datatype Plane = Plane(isPlane: bool, support: seq<PointWithVar>)

  datatype VoxelKey = VoxelKey(x: int, y: int, z: int)

  /** `planar` stands for the eigenvalue test of InitPlane. */
  datatype Config = Config(
    maxLayer: nat,
    layerInitNum: seq<nat>,
    maxPoints: nat,
    planar: seq<PointWithVar> -> bool)

  const UPDATE_SIZE_THRESHOLD := 5

  /** The per-layer thresholds must cover every layer that can be created. */
  ghost predicate ValidConfig(cfg: Config) {
    cfg.maxLayer < |cfg.layerInitNum|
  }

  function Bit(b: bool): nat { if b then 1 else 0 }

  /** Child number of a point: a coordinate counts only when strictly above the centre. */
  function Octant(center: Vec3, p: Vec3): (o: nat)
    ensures o < 8
  {
    4 * Bit(p.x > center.x) + 2 * Bit(p.y > center.y) + Bit(p.z > center.z)
  }

  /** Centre of child `o`: (2 * bit - 1) quarter lengths away on each axis. */
  function ChildCenter(center: Vec3, quarter: real, o: nat): Vec3
    requires o < 8
  {
    Vec3(
      center.x + (if o / 4 == 1 then quarter else -quarter),
      center.y + (if o / 2 % 2 == 1 then quarter else -quarter),
      center.z + (if o % 2 == 1 then quarter else -quarter))
  }

  /** The closed cube of a node: two quarter lengths around its centre. */
  ghost predicate InCube(center: Vec3, quarter: real, p: Vec3) {
    && center.x - 2.0 * quarter <= p.x <= center.x + 2.0 * quarter
    && center.y - 2.0 * quarter <= p.y <= center.y + 2.0 * quarter
    && center.z - 2.0 * quarter <= p.z <= center.z + 2.0 * quarter
  }

  /** C++ conversion of a double to an integer. */
  function Truncate(r: real): int {
    if r >= 0.0 then r.Floor else -((-r).Floor)
  }

  /** One coordinate of a voxel key, from the position in voxel units: step down when
      negative, then truncate. */
  function KeyAxis(loc: real): int {
    Truncate(if loc < 0.0 then loc - 1.0 else loc)
  }

  function KeyOf(p: Vec3, size: real): VoxelKey
    requires size > 0.0
  {
    VoxelKey(KeyAxis(p.x / size), KeyAxis(p.y / size), KeyAxis(p.z / size))
  }

  function KeyCenter(k: VoxelKey, size: real): Vec3 {
    Vec3((0.5 + k.x as real) * size, (0.5 + k.y as real) * size, (0.5 + k.z as real) * size)
  }

  /** The interval of length `size` that index `k` names holds `c`; a boundary belongs to
      the upper interval when non-negative, to the lower one when negative. */
  ghost predicate InInterval(k: int, size: real, c: real) {
    var low := k as real * size;
    if c < 0.0 then low < c <= low + size else low <= c < low + size
  }

  /** Step down and truncate is floor, except that negative integers go one lower. */
  lemma {:induction false} KeyAxisIndex(loc: real)
    ensures var k := KeyAxis(loc) as real;
            if loc < 0.0 then k < loc <= k + 1.0 else k <= loc < k + 1.0
  {
    if loc < 0.0 {
      assert -(loc - 1.0) == 1.0 - loc;
    }
  }

  /** The key of a coordinate names the one interval that holds it. */
  lemma {:induction false} KeyAxisBounds(c: real, size: real)
    requires size > 0.0
    ensures InInterval(KeyAxis(c / size), size, c)
  {
    KeyAxisIndex(c / size);
    IndexToInterval(KeyAxis(c / size), c / size, size, c);
  }

  lemma IndexToInterval(k: int, loc: real, size: real, c: real)
    requires size > 0.0 && loc * size == c
    requires if loc < 0.0 then k as real < loc <= k as real + 1.0 else k as real <= loc < k as real + 1.0
    ensures InInterval(k, size, c)
  {
    var d := loc - k as real;
    assert c < 0.0 <==> loc < 0.0 by { ScaledSign(loc, size); }
    assert d * size == c - k as real * size by { ScaledDifference(k as real, loc, size); }
    OffsetToInterval(k, d, size, c);
  }

  lemma ScaledDifference(k: real, loc: real, s: real)
    ensures (loc - k) * s == loc * s - k * s
  {
  }

  lemma ScaledSign(loc: real, s: real)
    requires s > 0.0
    ensures loc < 0.0 <==> loc * s < 0.0
  {
  }

  lemma OffsetToInterval(k: int, d: real, size: real, c: real)
    requires size > 0.0 && d * size == c - k as real * size
    requires if c < 0.0 then 0.0 < d <= 1.0 else 0.0 <= d < 1.0
    ensures InInterval(k, size, c)
  {
    ScaledFraction(d, size);
  }

  lemma ScaledFraction(d: real, s: real)
    requires s > 0.0 && 0.0 <= d <= 1.0
    ensures 0.0 <= d * s <= s
    ensures d > 0.0 ==> d * s > 0.0
    ensures d < 1.0 ==> d * s < s
  {
    ScaledNonNegative(d, s);
    ScaledNonNegative(1.0 - d, s);
  }

  lemma ScaledNonNegative(d: real, s: real)
    requires s > 0.0 && d >= 0.0
    ensures d * s >= 0.0
    ensures d > 0.0 ==> d * s > 0.0
  {
  }

  lemma IntervalsToCube(k: VoxelKey, size: real, p: Vec3)
    requires InInterval(k.x, size, p.x) && InInterval(k.y, size, p.y) && InInterval(k.z, size, p.z)
    ensures InCube(KeyCenter(k, size), size / 4.0, p)
  {
    assert (0.5 + k.x as real) * size == k.x as real * size + size / 2.0;
    assert (0.5 + k.y as real) * size == k.y as real * size + size / 2.0;
    assert (0.5 + k.z as real) * size == k.z as real * size + size / 2.0;
  }

  /** The key chosen for a point names a closed cube that contains the point. */
  lemma {:induction false} KeyCubeContains(p: Vec3, size: real)
    requires size > 0.0
    ensures InCube(KeyCenter(KeyOf(p, size), size), size / 4.0, p)
  {
    KeyAxisBounds(p.x, size);
    KeyAxisBounds(p.y, size);
    KeyAxisBounds(p.z, size);
    IntervalsToCube(KeyOf(p, size), size, p);
  }

  /** A child's cube is an octant of its parent's, and it contains every point of the
      parent's cube that the octant test sends there. */
  lemma {:induction false} ChildCube(center: Vec3, quarter: real, o: nat, p: Vec3)
    requires o < 8 && quarter >= 0.0
    ensures InCube(ChildCenter(center, quarter, o), quarter / 2.0, p) ==> InCube(center, quarter, p)
    ensures InCube(center, quarter, p) && Octant(center, p) == o
            ==> InCube(ChildCenter(center, quarter, o), quarter / 2.0, p)
  {
    var px, py, pz := Bit(p.x > center.x), Bit(p.y > center.y), Bit(p.z > center.z);
    if Octant(center, p) == o {
      assert o / 4 == px;
      assert o / 2 % 2 == py;
      assert o % 2 == pz;
    }
  }
}
