# A verified model of the mapping, messaging and streaming core

This project models, in Dafny, the parts of the robot's software whose correctness rests on
bookkeeping rather than on numerics, and proves what that bookkeeping promises.

* **The voxel map** (`VoxelTypes`, `OctreeSpec`, `OctreeLookup`, `OctreeInvariants`,
  `OctreeHistory`, `OctreeResidual`, `VoxelOctoTree`, `LruList`, `VoxelMapSpec`, `VoxelMapHistory`,
  `VoxelMapManager`): a linked list
  of voxels in recency order with a hash index into it, each voxel owning an octree whose nodes
  fill, are fitted, split, freeze or route points down. The heap classes are proved against a
  value-level account, about which the laws are stated.
* **The JSON document model** (`JsonValue`, `JsonDocument`, `JsonRoundTrip`,
  `JsonEquality`, `JsonTransitivity`), **its pool allocator**
  (`PoolAllocator`) and **the buffered byte streams** (`ByteStreams`).
* **Sensor synchronisation** (`SensorSync`, `SensorBatches`, `SensorWaits`,
  `SensorModes`, `LivMapper`) and
  **motion compensation** (`ImuProcess`, `MotionFrames`, `DeliveredOrder`).
* **Two protocols**: the latest-value mailbox between a ROS timer and an asyncio loop
  (`PoseBridge`), and the reference-counted pool of WebRTC connections (`WebRtcPool`).
* **Visual map points** (`VisualPoint`, `VisualPointLaws`): the observations of a point and the
  reference among them.

`Common` and `Sequences` hold what several of these share.

Where the program mutates objects, arrays, lists or maps, the model has classes and methods that do,
and each method's postcondition gives the whole new state, as a value or as a step of a value-level
specification. Run-level results are lemmas about those specifications.

What the code does where that differs from what it looks like, each with an exact condition or a
concrete case:

* Comparing JSON objects with duplicate names is documented as always false; it can be true, and can
  depend on the side (`DuplicateNamesCompare`). `LeftNeverEqualIff`, `RightNeverEqualIff` and
  `NeverEqualIffClash` say when the note holds, `SidesDifferIff` when the sides matter. Integers 2^64
  apart compare equal (`IntegerEqualIff`), and the comparison is not transitive (`EqualNotTransitive`):
  `TransitiveThroughIff` says through exactly which values it is, `SafeIntegerIff` and `SafeDoubleIff`
  what that asks of a number.
* A default-constructed JSON number does not survive its own events (`DefaultZeroBecomesDouble`).
* The lidar loop-back branch clears one of two paired queues (`LidarPairedIff`).
* A sample stamped exactly at an update's time but arriving after it is lost (`LateIff`).
* Points carried past an image are delivered with the next one even if they are later than that
  (`DeliveredBeforeIff`); a package without undistortion shifts carried points (`SkippedUndistortion`).
* In lidar-only mode a one-point first scan blocks for good (`StuckForever`, `StuckFromStart`).
* The sum of propagation steps is the frame length only under the condition of `StepsCoverFrame`.
* The first point of a cloud can be moved several times (`FirstMovedOnceIff`), and poses left over from
  a frame with an empty cloud add to that (`StaleTouchOnlyFirst`, `ListRisesIff`).
* A cloud of overlapping scans can be out of time order (`OverlappingScans`), and then points miss their
  own pose (`OwnPoseIff`); scans that follow each other give clouds in order (`DeliveredSorted`).
* A message stored while a drain is sending stays behind (`DrainEndStrandsIff`, `ParkedNeverSent`).
* A robot and an address share their pool key with another pair exactly when a NUL is in either
  (`PKeyIdentifiesIff`).
* With room for a single entry the voxel list evicts what it has just entered (`JustTouchedStaysIff`).
* Where every accepting probability underflows to 0 the plane search reports success without a plane
  (`SuccessWithoutPlaneIff`).

Reals stand for `double` and `float`. Header stamps, IMU stamps and poses are parameters, as are the
plane test, residual scores, propagation and compensation, patch differences and scores.

## Model

| member | source | states |
|---|---|---|
| `VoxelTypes.KeyAxisIndex` | edge/src/FAST-LIVO2/src/voxel_map.cpp:793-799 | stepping a negative coordinate down by one and truncating names the interval [k, k+1) of a non-negative coordinate and (k, k+1] of a negative one, for every real |
| `VoxelTypes.KeyCubeContains` | edge/src/FAST-LIVO2/src/voxel_map.cpp:793-830 | the closed cube a key names, centred and sized as a new voxel is, contains every point the key is chosen for |
| `VoxelTypes.ChildCube` | edge/src/FAST-LIVO2/src/voxel_map.cpp:190-214 | a child's cube lies in its parent's, and holds every point of it that the octant test sends there |
| `OctreeLookup.UpdateIsLocal` | edge/src/FAST-LIVO2/src/voxel_map.cpp:244-312 | an update changes the subtree at the address the point is delivered to and nothing else in the tree |
| `OctreeLookup.InsertIsLocal` | edge/src/FAST-LIVO2/src/voxel_map.cpp:330-362 | an insertion appends the point to the one node at that address and changes nothing else |
| `OctreeLookup.InsertThenLookup` | edge/src/FAST-LIVO2/src/voxel_map.cpp:314-362 | looking a point up right after inserting it ends at the address that received it, for every tree and point |
| `OctreeLookup.UpdateThenLookup` | edge/src/FAST-LIVO2/src/voxel_map.cpp:244-328 | looking a point up right after updating with it ends at the receiving address or inside its subtree |
| `OctreeLookup.LookupBefore` | edge/src/FAST-LIVO2/src/voxel_map.cpp:314-328 | before an update the lookup ends at the receiving node if it exists, otherwise at its parent, one octant short |
| `OctreeLookup.ReceivePathFollowsOctants` | edge/src/FAST-LIVO2/src/voxel_map.cpp:244-362 | the receiving address is the run of octants the position falls in, by geometry alone |
| `OctreeLookup.GraftKeepsLookup` | edge/src/FAST-LIVO2/src/voxel_map.cpp:314-328 | replacing a subtree leaves the lookup of every position whose octants leave the path to it unchanged |
| `OctreeLookup.UpdateKeepsOtherLookups` | edge/src/FAST-LIVO2/src/voxel_map.cpp:244-328 | positions whose octants diverge from the point's above the receiving node are looked up as before, at a node with the same own fields |
| `OctreeLookup.InsertKeepsOtherLookups` | edge/src/FAST-LIVO2/src/voxel_map.cpp:314-362 | and so they are after an insertion |
| `OctreeInvariants.InitKeepsSound` | edge/src/FAST-LIVO2/src/voxel_map.cpp:167-242 | the first fit, through the whole cut below it, keeps every node's points in its cube, frozen nodes empty, and planes equal to the fit of a prefix of the stored points that lags by at most five |
| `OctreeInvariants.UpdateKeepsSound` | edge/src/FAST-LIVO2/src/voxel_map.cpp:244-312 | every update with a point of the root's cube keeps that invariant at every node |
| `OctreeInvariants.UpdateAllKeepsSound` | edge/src/FAST-LIVO2/src/voxel_map.cpp:244-312 | so does every run of updates |
| `OctreeInvariants.FrozenStep` | edge/src/FAST-LIVO2/src/voxel_map.cpp:244-312 | a node whose update_enable_ is false stays in place, empty, disabled and with the same plane under any update |
| `OctreeInvariants.FrozenForever` | edge/src/FAST-LIVO2/src/voxel_map.cpp:167-312 | and under any run of updates |
| `OctreeInvariants.NodeCountBound` | edge/src/FAST-LIVO2/src/voxel_map.cpp:187-312 | a tree has at most (8^(max_layer_ - layer + 1) - 1) / 7 nodes |
| `OctreeInvariants.UpdateKeepsBounded` | edge/src/FAST-LIVO2/src/voxel_map.cpp:167-312 | updates keep every node within the larger of max_points_num_ and one more than the largest layer threshold |
| `OctreeInvariants.GrownTreeBounded` | edge/src/FAST-LIVO2/src/voxel_map.cpp:167-312 | every tree grown from a new root by updates alone meets both bounds |
| `OctreeSpec.CutKeepsPoints` | edge/src/FAST-LIVO2/src/voxel_map.cpp:187-242 | a cut node's child of an octant exists exactly when some stored point falls there, and holds exactly those that do, none lost or doubled and in order: in its store, or, if it froze at once, in its plane's support |
| `OctreeSpec.InOctantHolds` | edge/src/FAST-LIVO2/src/voxel_map.cpp:193-222 | what is dealt to an octant: as many points as fall there, each at the place the number of earlier ones gives it |
| `OctreeSpec.InOctantMultiplicity` | edge/src/FAST-LIVO2/src/voxel_map.cpp:193-222 | each point is dealt as often as it was stored |
| `OctreeHistory.UpdatesTell` | edge/src/FAST-LIVO2/src/voxel_map.cpp:167-312 | over any run of updates the whole tree, field by field, is the closed form of its points alone: how many the node takes itself, of which of them its plane is the fit (the first beyond the threshold and every sixth after that), at which one it is full and frozen, and which go on to which child |
| `OctreeHistory.NewTreeTells` | edge/src/FAST-LIVO2/src/voxel_map.cpp:244-312 | the same of a tree grown from a new root |
| `OctreeHistory.FitOfStored` | edge/src/FAST-LIVO2/src/voxel_map.cpp:167-242 | the first fit of points stored without fitting, with the whole cut below it, is that closed form of them as one batch |
| `OctreeResidual.PlaneNodesComplete` | edge/src/FAST-LIVO2/src/voxel_map.cpp:1001-1071 | the list of candidate planes misses no plane node, at any address |
| `OctreeResidual.PlaneNodesSound` | edge/src/FAST-LIVO2/src/voxel_map.cpp:1001-1071 | and lists nothing else, each at its own depth |
| `OctreeResidual.ResidualSeesAllPlanes` | edge/src/FAST-LIVO2/src/voxel_map.cpp:1001-1071 | in a tree whose plane nodes have no children, the recursive search is a left-to-right scan of all plane nodes of the tree |
| `OctreeResidual.ResidualFindsBestPlane` | edge/src/FAST-LIVO2/src/voxel_map.cpp:1001-1071 | from success false and probability 0 the search succeeds exactly when some plane node anywhere in the tree accepts the point, and returns the first of maximal probability |
| `OctreeResidual.AllConsidered` | edge/src/FAST-LIVO2/src/voxel_map.cpp:1001-1071 | from any match so far and with any scores: success stays or comes exactly with an acceptance, a candidate is taken exactly when one scores above the match so far, and then none scores above it |
| `OctreeResidual.SuccessWithoutPlaneIff` | edge/src/FAST-LIVO2/src/voxel_map.cpp:1029-1053 | with scores that may underflow to 0, the search from the root reports success without having filled in a plane exactly when some plane node accepts the point and none scores above 0 |
| `VoxelOctoTrees.VoxelOctoTree.UpdateOctoTree` | edge/src/FAST-LIVO2/src/voxel_map.cpp:244-312 | the heap tree after the call is the updated tree value: appended, fitted, cut, refitted, frozen or routed to a child, with its footprint kept valid |
| `VoxelOctoTrees.VoxelOctoTree.AbsorbPoint` | edge/src/FAST-LIVO2/src/voxel_map.cpp:256-304 | the shared tail on a fitted node: append, refit on every sixth new point, freeze and empty when full |
| `VoxelOctoTrees.VoxelOctoTree.InitOctoTree` | edge/src/FAST-LIVO2/src/voxel_map.cpp:167-185 | the first fit in place, and whether it froze the node |
| `VoxelOctoTrees.VoxelOctoTree.CutOctoTree` | edge/src/FAST-LIVO2/src/voxel_map.cpp:187-242 | dealing the points out to new children and fitting each, in place; a child exists exactly where some point falls and holds exactly those that do, in order, in its store or its plane; the parent keeps its own points |
| `VoxelOctoTrees.VoxelOctoTree.DealPoints` | edge/src/FAST-LIVO2/src/voxel_map.cpp:193-222 | after the first loop child o exists exactly when some stored point falls in octant o, and its store is exactly those that do, none lost or doubled, in order |
| `VoxelOctoTrees.VoxelOctoTree.FitLeaves` | edge/src/FAST-LIVO2/src/voxel_map.cpp:224-241 | after the second loop every child is fitted, and the parent's counter is cleared exactly when some child froze |
| `VoxelOctoTrees.VoxelOctoTree.FindCorrespond` | edge/src/FAST-LIVO2/src/voxel_map.cpp:314-328 | returns the very heap node that following the child pointers along the address of the tree value's lookup leads to |
| `VoxelOctoTrees.VoxelOctoTree.Insert` | edge/src/FAST-LIVO2/src/voxel_map.cpp:330-362 | returns the very node that looking the point up afterwards returns; the tree is the inserted tree value |
| `VoxelOctoTrees.VoxelOctoTree.BuildSingleResidual` | edge/src/FAST-LIVO2/src/voxel_map.cpp:1001-1071 | the recursion over heap nodes with its in-out parameters computes the search over the tree value |
| `LruList.TouchIsCut` | edge/src/FAST-LIVO2/src/voxel_map.cpp:800-812 | one access of a list cut at n entries is one access of the uncut list, cut at n |
| `LruList.TouchAllIsRecency` | edge/src/FAST-LIVO2/src/voxel_map.cpp:690-722 | after any accesses the list holds exactly the lru_size_ - 1 most recently touched distinct keys, newest first |
| `LruList.JustTouchedStaysIff` | edge/src/FAST-LIVO2/src/voxel_map.cpp:806-816 | on a list within capacity the key just entered stays exactly when lru_size_ is at least 2 |
| `LruList.AheadWereTouchedSince` | edge/src/FAST-LIVO2/src/voxel_map.cpp:800-816 | the keys ahead of a key are exactly those touched after it |
| `LruList.ListedIff` | edge/src/FAST-LIVO2/src/voxel_map.cpp:800-816 | a key is listed exactly when it was touched and fewer than lru_size_ - 1 distinct keys were touched since |
| `LruList.RecentTouches` | edge/src/FAST-LIVO2/src/voxel_map.cpp:800-816 | on a list within capacity the program's branches (splice, or enter and evict) amount to: the touched key first, the others after it, cut at lru_size_ - 1 |
| `LruList.ListedWithSweepsIff` | edge/src/FAST-LIVO2/src/voxel_map.cpp:800-816 | over any accesses and sweeps a key is listed exactly when it was touched, no later sweep dropped it, and at no time since its last touch were there lru_size_ - 1 keys touched later and not swept out |
| `VoxelMapSpec.UpdatePointKeys` | edge/src/FAST-LIVO2/src/voxel_map.cpp:783-833 | one arriving point touches its voxel's key in the recency list and keeps one entry a key |
| `VoxelMapSpec.SweepKeys` | edge/src/FAST-LIVO2/src/voxel_map.cpp:1275-1293 | a sweep with any box of six bounds filters the listed keys in order and keeps the map well shaped |
| `VoxelMapSpec.RunIsRecency` | edge/src/FAST-LIVO2/src/voxel_map.cpp:783-833 | over any run of arrivals and sweeps the listed keys are those of the ideal recency list, and the map never outgrows lru_size_ - 1; what that list holds is ArrivalsLeaveNewest and ListedInRunIff |
| `VoxelMapSpec.ArrivalsLeaveNewest` | edge/src/FAST-LIVO2/src/voxel_map.cpp:783-833 | after any points the listed voxels are exactly the lru_size_ - 1 most recently touched distinct ones, newest first: of the points latest first, then of the list as it was |
| `VoxelMapSpec.ListedInRunIff` | edge/src/FAST-LIVO2/src/voxel_map.cpp:783-833 | in every map reachable from the build by points and sweeps a voxel is listed exactly when some point fell in it, no later sweep dropped it, and at no time since its last point were there lru_size_ - 1 voxels touched later and not swept out |
| `VoxelMapSpec.ArrivedVoxelIsFirst` | edge/src/FAST-LIVO2/src/voxel_map.cpp:783-833 | right after a point arrives its voxel heads the list: it is never the one evicted |
| `VoxelMapSpec.BuildMapSound` | edge/src/FAST-LIVO2/src/voxel_map.cpp:650-728 | the one build lists the same keys in the same order as updates would, and leaves every voxel at its key's cube with every node sound |
| `VoxelMapSpec.RunKeepsSound` | edge/src/FAST-LIVO2/src/voxel_map.cpp:783-833 | every later run keeps every voxel at its key's cube with every node sound |
| `VoxelMapSpec.StoredPointsInCubes` | edge/src/FAST-LIVO2/src/voxel_map.cpp:650-833 | in every map reachable from the build every stored point lies in the cube of the node storing it and of the voxel, and the node's layer is its depth and at most max_layer_ |
| `VoxelMapSpec.CubesNest` | edge/src/FAST-LIVO2/src/voxel_map.cpp:187-242 | the cube of every node lies inside the cube of each ancestor, one layer down a step |
| `VoxelMapHistory.VoxelTreeTells` | edge/src/FAST-LIVO2/src/voxel_map.cpp:650-833 | in every map reachable from the build the tree of every listed voxel is the closed form of exactly its own points: those since it entered last, or, if it has not entered since the build, those of the build from its last entry there as one batch and then those of the run |
| `VoxelMapHistory.BuiltTree` | edge/src/FAST-LIVO2/src/voxel_map.cpp:650-728 | the build leaves every listed voxel the first fit of exactly the points that fell in it since it entered last |
| `VoxelMapHistory.RunTree` | edge/src/FAST-LIVO2/src/voxel_map.cpp:783-833 | from any map, a listed voxel's tree has grown by exactly the points that fell in it since it entered last, from a new root of its cube, or since the beginning, from the tree it had |
| `VoxelMapHistory.OthersUntouched` | edge/src/FAST-LIVO2/src/voxel_map.cpp:789-831 | an arrival leaves the tree of every other listed voxel as it was, and so does a sweep |
| `VoxelMapSpec.SlidingKeepsNear` | edge/src/FAST-LIVO2/src/voxel_map.cpp:1253-1293 | sliding keeps exactly the listed voxels at most half_map_size away, on every axis, from the voxel of the position |
| `VoxelMapManagers.VoxelMapManager.UpdateVoxelMapLRU` | edge/src/FAST-LIVO2/src/voxel_map.cpp:783-833 | the list, the index and the trees after the loop are the run of one arrival a point; list and index agree throughout |
| `VoxelMapManagers.VoxelMapManager.UpdateOne` | edge/src/FAST-LIVO2/src/voxel_map.cpp:789-831 | one pass of the loop: lookup in the index, update and splice, or enter and evict |
| `VoxelMapManagers.VoxelMapManager.BuildVoxelMapLRU` | edge/src/FAST-LIVO2/src/voxel_map.cpp:650-728 | on an empty map: all points stored first, then every voxel fitted once |
| `VoxelMapManagers.VoxelMapManager.CellIndex` | edge/src/FAST-LIVO2/src/voxel_map.cpp:800-804 | the index knows exactly the listed keys, each at its own cell |
| `VoxelMapManagers.VoxelMapManager.PushFront` | edge/src/FAST-LIVO2/src/voxel_map.cpp:806-823 | entering a missing voxel at the front, indexing it, and erasing the tail from list and index at lru_size_ |
| `VoxelMapManagers.VoxelMapManager.MoveToFront` | edge/src/FAST-LIVO2/src/voxel_map.cpp:803-804 | splicing a cell to the front keeps list, index and trees otherwise the same |
| `VoxelMapManagers.VoxelMapManager.ClearMemOutOfMap` | edge/src/FAST-LIVO2/src/voxel_map.cpp:1275-1293 | erasing while iterating drops from list and index exactly the voxels outside six independent bounds, and keeps the order |
| `VoxelMapManagers.NormBelowIff` | edge/src/FAST-LIVO2/src/voxel_map.cpp:1254-1257 | the sliding test says that the distance is below the threshold |
| `VoxelMapManagers.VoxelMapManager.MapSliding` | edge/src/FAST-LIVO2/src/voxel_map.cpp:1253-1273 | nothing happens below the sliding threshold; beyond it exactly the voxels at most half_map_size away from that of the last position stay indexed |
| `JsonValue.IntegerConstructorsAgree` | edge/src/livox_ros_driver2/3rdparty/rapidjson/document.h:857-899 | every integer constructor leaves the same flags and the same 64-bit pattern for the same number: those of exactly the types whose range holds it |
| `JsonDocument.AcceptBuildsNormal` | edge/src/livox_ros_driver2/3rdparty/rapidjson/document.h:2286-2331 | with anything on the stack, the events of any nested value push exactly one value: its constructor-flagged form |
| `JsonDocument.NormalNumberIff` | edge/src/livox_ros_driver2/3rdparty/rapidjson/document.h:2318-2330 | a number survives its event exactly when some constructor can have made its flags |
| `JsonDocument.RoundTripIff` | edge/src/livox_ros_driver2/3rdparty/rapidjson/document.h:2926-2987 | printing a value as events and building it back gives the value itself exactly when all its numbers and strings, at any depth, are flagged as constructors flag them |
| `JsonDocument.DefaultZeroBecomesDouble` | edge/src/livox_ros_driver2/3rdparty/rapidjson/document.h:769-779 | the default number, which claims every type, comes back as the double zero |
| `JsonRoundTrip.BuiltReads` | edge/src/livox_ros_driver2/3rdparty/rapidjson/document.h:2926-2987 | what any value comes back as is flagged as constructors flag it and reads the same: same shape, order, texts and references, numbers of the same kind denoting the same double |
| `JsonDocument.Accept` | edge/src/livox_ros_driver2/3rdparty/rapidjson/document.h:2286-2331 | the recursive method drives a handler object to push exactly the normal form of the value, whatever its stack held |
| `JsonDocument.AcceptArray` | edge/src/livox_ros_driver2/3rdparty/rapidjson/document.h:2308-2312 | the array branch: start, elements in order, end with their number |
| `JsonDocument.AcceptObject` | edge/src/livox_ros_driver2/3rdparty/rapidjson/document.h:2295-2306 | the object branch: start, name and value of each member in order, end with their number |
| `JsonDocument.GenericDocument.Number` | edge/src/livox_ros_driver2/3rdparty/rapidjson/document.h:2935-2954 | pushes the value the matching constructor makes |
| `JsonDocument.GenericDocument.String` | edge/src/livox_ros_driver2/3rdparty/rapidjson/document.h:2965-2972 | pushes a copied (inline when short) or a referenced string |
| `JsonDocument.GenericDocument.EndObject` | edge/src/livox_ros_driver2/3rdparty/rapidjson/document.h:2983-2989 | pops twice the member count and turns the value below into the object of those pairs |
| `JsonDocument.GenericDocument.EndArray` | edge/src/livox_ros_driver2/3rdparty/rapidjson/document.h:2996-3001 | pops the element count and turns the value below into the array of those |
| `JsonDocument.GenericDocument.Populate` | edge/src/livox_ros_driver2/3rdparty/rapidjson/document.h:2715-2725 | from an empty stack, the root becomes the normal form of the generated value and the stack is empty again |
| `JsonEquality.EqualSymmetric` | edge/src/livox_ros_driver2/3rdparty/rapidjson/document.h:1110-1147 | if the left side has no duplicate names at any depth, equality one way gives equality the other way: the members found are all the members |
| `JsonEquality.EqualCommutes` | edge/src/livox_ros_driver2/3rdparty/rapidjson/document.h:1110-1147 | so the comparison is symmetric |
| `JsonEquality.EqualIgnoresOrder` | edge/src/livox_ros_driver2/3rdparty/rapidjson/document.h:1115-1128 | without duplicate names, values that differ only in the order of members, in any object at any depth and through arrays, compare alike with every value, on either side |
| `JsonEquality.DeepCopyEqualIff` | edge/src/livox_ros_driver2/3rdparty/rapidjson/document.h:791-835 | a deep copy equals its source exactly when no double inside is a NaN |
| `JsonEquality.DuplicateNamesCompare` | edge/src/livox_ros_driver2/3rdparty/rapidjson/document.h:1103-1108 | with duplicate names a comparison can succeed, and differ by side: the note in the header that it is always false does not describe the code |
| `JsonEquality.LeftNeverEqualIff` | edge/src/livox_ros_driver2/3rdparty/rapidjson/document.h:1103-1128 | the note holds of an object on the left, whatever it is compared with, exactly when the values under one of its names have no value that they all equal |
| `JsonEquality.RightNeverEqualIff` | edge/src/livox_ros_driver2/3rdparty/rapidjson/document.h:1103-1128 | on the right it holds exactly when NaNs are in the way: when the object has members and none found by name is free of a NaN that no equal value can avoid; duplicate names alone never make it hold |
| `JsonEquality.NeverEqualIffClash` | edge/src/livox_ros_driver2/3rdparty/rapidjson/document.h:1103-1128 | with numbers all doubles or all integers, no NaN and single names below the top, the note holds on the left exactly when two members of one name have different values |
| `JsonEquality.SidesDifferIff` | edge/src/livox_ros_driver2/3rdparty/rapidjson/document.h:1110-1128 | with numbers all doubles or all integers and single names below the top, a successful comparison fails with its sides exchanged exactly when the right side has different values under one name, or a name the left side has not |
| `JsonEquality.EqualTransitive` | edge/src/livox_ros_driver2/3rdparty/rapidjson/document.h:1110-1147 | the comparison is transitive among values whose numbers are all doubles or all integers |
| `JsonTransitivity.TransitiveThroughIff` | edge/src/livox_ros_driver2/3rdparty/rapidjson/document.h:1110-1147 | for values whose numbers are of any given kind, and a value between them without duplicate names: everything that equals it on the left equals everything it equals on the right exactly when every number inside it is safe, or a NaN inside keeps it from equalling anything |
| `JsonTransitivity.SafeIntegerIff` | edge/src/livox_ros_driver2/3rdparty/rapidjson/document.h:1137-1143 | among the numbers constructors make, an integer in the middle is safe exactly when its pattern has no other reading (0 to 2^63 - 1), or the other converts to the same double, or no double but a NaN denotes it |
| `JsonTransitivity.SafeDoubleIff` | edge/src/livox_ros_driver2/3rdparty/rapidjson/document.h:1137-1143 | and a double exactly when it is a NaN or no two integers of different patterns convert to it |
| `JsonTransitivity.EqualNotTransitive` | edge/src/livox_ros_driver2/3rdparty/rapidjson/document.h:1137-1143 | the witness: -1.0 equals -1, which equals 2^64 - 1, which does not equal -1.0 |
| `JsonEquality.EqualSelfIff` | edge/src/livox_ros_driver2/3rdparty/rapidjson/document.h:1110-1147 | a value without duplicate names equals itself exactly when there is no NaN inside |
| `JsonEquality.IntegerEqualIff` | edge/src/livox_ros_driver2/3rdparty/rapidjson/document.h:1137-1143 | two integers compare equal exactly when they are the same number or 2^64 apart |
| `JsonEquality.EqualIffAlike` | edge/src/livox_ros_driver2/3rdparty/rapidjson/document.h:1110-1147 | without duplicate names two values compare equal exactly when they have the same shape up to the order of members, the same texts, truths and nulls, and numbers that are one pattern when both are integers and otherwise one double, no NaN |
| `Sequences.Pigeonhole` | edge/src/livox_ros_driver2/3rdparty/rapidjson/document.h:1117-1127 | n distinct indices below n are all of them: why every member is found |
| `JsonEquality.FindMember` | edge/src/livox_ros_driver2/3rdparty/rapidjson/document.h:1519-1527 | the loop returns the first member of that name, or the end |
| `JsonEquality.EqualTo` | edge/src/livox_ros_driver2/3rdparty/rapidjson/document.h:1110-1147 | the recursive comparison with its loops decides the equality the laws are about; without duplicate names it answers true exactly for values that are alike |
| `PoolAllocator.MemoryPoolAllocator.Malloc` | edge/src/livox_ros_driver2/3rdparty/rapidjson/allocators.h:208-221 | hands out the next aligned block of the head chunk, or of a new chunk of the stated capacity when the head is full or missing; fails exactly for size 0 or when a new chunk is needed and refused |
| `PoolAllocator.MemoryPoolAllocator.Realloc` | edge/src/livox_ros_driver2/3rdparty/rapidjson/allocators.h:223-253 | keeps every byte handed out before; returns the block itself, grown in place exactly when it ends the head chunk's used part and fits, or a new block with the old contents; fails exactly when a move needs a refused chunk or the size is 0 |
| `PoolAllocator.MemoryPoolAllocator.AddChunk` | edge/src/livox_ros_driver2/3rdparty/rapidjson/allocators.h:268-281 | a granted chunk becomes the empty head before the old list |
| `PoolAllocator.MemoryPoolAllocator.Clear` | edge/src/livox_ros_driver2/3rdparty/rapidjson/allocators.h:178-187 | frees every chunk but the user's buffer, which becomes empty; no block remains |
| `PoolAllocator.MemoryPoolAllocator.WithBuffer` | edge/src/livox_ros_driver2/3rdparty/rapidjson/allocators.h:153-166 | the user's buffer, less a header, is the first chunk |
| `PoolAllocator.MemoryPoolAllocator.Capacity` | edge/src/livox_ros_driver2/3rdparty/rapidjson/allocators.h:191-196 | the sum of the chunk capacities |
| `PoolAllocator.MemoryPoolAllocator.Size` | edge/src/livox_ros_driver2/3rdparty/rapidjson/allocators.h:201-205 | the total size of all blocks handed out |
| `PoolAllocator.MemoryPoolAllocator.SizeWithinCapacity` | edge/src/livox_ros_driver2/3rdparty/rapidjson/allocators.h:191-205 | the size never exceeds the capacity |
| `PoolAllocator.MemoryPoolAllocator.BlocksDisjoint` | edge/src/livox_ros_driver2/3rdparty/rapidjson/allocators.h:208-253 | no byte belongs to two blocks handed out, and every block lies in its chunk's payload |
| `PoolAllocator.MemoryPoolAllocator.MoveBlock` | edge/src/livox_ros_driver2/3rdparty/rapidjson/allocators.h:246-252 | allocate and copy: the new block holds the old bytes and every other block is untouched |
| `PoolAllocator.MemoryPoolAllocator.GrowLast` | edge/src/livox_ros_driver2/3rdparty/rapidjson/allocators.h:238-244 | extending the last block of the head chunk keeps all blocks apart |
| `ByteStreams.FileWriteStream.Put` | edge/src/livox_ros_driver2/3rdparty/rapidjson/filewritestream.h:48-52 | file content followed by buffered bytes is everything put, for any non-empty buffer, full or not |
| `ByteStreams.FileWriteStream.PutN` | edge/src/livox_ros_driver2/3rdparty/rapidjson/filewritestream.h:54-68 | appends n copies, across any number of flushes, and ends even from a full buffer |
| `ByteStreams.FileWriteStream.Flush` | edge/src/livox_ros_driver2/3rdparty/rapidjson/filewritestream.h:70-80 | afterwards the file is everything put |
| `ByteStreams.WindowPeek4` | edge/src/livox_ros_driver2/3rdparty/rapidjson/filereadstream.h:85-87 | the pointer test passes exactly when four unread bytes are buffered, at the end of the file or not, and they are the next four of the input |
| `ByteStreams.FileReadStream.constructor` | edge/src/livox_ros_driver2/3rdparty/rapidjson/filereadstream.h:48-60 | starts at byte 0; four bytes can be peeked exactly when the input has four |
| `ByteStreams.FileReadStream.Peek` | edge/src/livox_ros_driver2/3rdparty/rapidjson/filereadstream.h:62 | the byte the next take returns: byte k of the input after k takes, then NUL |
| `ByteStreams.FileReadStream.Take` | edge/src/livox_ros_driver2/3rdparty/rapidjson/filereadstream.h:63-67 | the k-th take returns byte k, and NUL for ever after the end, whatever the buffer size |
| `ByteStreams.FileReadStream.Tell` | edge/src/livox_ros_driver2/3rdparty/rapidjson/filereadstream.h:68-70 | the lesser of the number of takes and the input's length |
| `ByteStreams.FileReadStream.Peek4` | edge/src/livox_ros_driver2/3rdparty/rapidjson/filereadstream.h:85-87 | when it answers, the next four bytes of the input |
| `ByteStreams.FileReadStream.Read` | edge/src/livox_ros_driver2/3rdparty/rapidjson/filereadstream.h:90-105 | a step or a refill keeps the buffer a window on the input; a short read marks the end with a NUL |
| `ByteStreams.IStreamWrapper.constructor` | edge/src/livox_ros_driver2/3rdparty/rapidjson/istreamwrapper.h:80-91 | the same start over an istream |
| `ByteStreams.IStreamWrapper.Peek` | edge/src/livox_ros_driver2/3rdparty/rapidjson/istreamwrapper.h:93 | as for the file reader |
| `ByteStreams.IStreamWrapper.Take` | edge/src/livox_ros_driver2/3rdparty/rapidjson/istreamwrapper.h:94-98 | the k-th take returns byte k, then NUL for ever |
| `ByteStreams.IStreamWrapper.Tell` | edge/src/livox_ros_driver2/3rdparty/rapidjson/istreamwrapper.h:99-101 | the lesser of the number of takes and the input's length |
| `ByteStreams.IStreamWrapper.Peek4` | edge/src/livox_ros_driver2/3rdparty/rapidjson/istreamwrapper.h:116-118 | when it answers, the next four bytes of the input |
| `ByteStreams.IStreamWrapper.Read` | edge/src/livox_ros_driver2/3rdparty/rapidjson/istreamwrapper.h:125-140 | the refill that asks first and corrects itself when the read fails reaches the same window |
| `SensorSync.LidarPairedIff` | edge/src/FAST-LIVO2/src/LIVMapper.cpp:1011-1036 | scans and header times stay paired exactly when the loop-back branch is not taken or there was no scan to clear |
| `SensorSync.LidarKeepsSafe` | edge/src/FAST-LIVO2/src/LIVMapper.cpp:1011-1036 | every queued scan keeps a header time and has a point, loop back or not |
| `SensorSync.LidarKeepsNewest` | edge/src/FAST-LIVO2/src/LIVMapper.cpp:1027-1036 | a new scan is queued behind the newest of the older ones; after the first frame never more than 100 are kept |
| `SensorSync.ScanCut` | edge/src/FAST-LIVO2/src/LIVMapper.cpp:1319-1334 | each point of a scan goes to exactly one side of the image, at its original absolute time |
| `SensorSync.QueueCut` | edge/src/FAST-LIVO2/src/LIVMapper.cpp:1312-1338 | the same for all scans begun by the image |
| `SensorSync.CutConserves` | edge/src/FAST-LIVO2/src/LIVMapper.cpp:1301-1338 | what is delivered, carried over and still queued after a cut is, stamp by stamp, what was carried and queued before |
| `SensorSync.StepConserves` | edge/src/FAST-LIVO2/src/LIVMapper.cpp:1249-1352 | every callback and every sync with its undistortion keeps the account of points |
| `SensorSync.PointsConserved` | edge/src/FAST-LIVO2/src/LIVMapper.cpp:1249-1352 | over any run each point of each arrived scan is in exactly one delivered cloud, carried over, queued or trimmed, and base time + curvature / 1000 is its header time + offset throughout |
| `SensorSync.SyncLivoKeepsSafe` | edge/src/FAST-LIVO2/src/LIVMapper.cpp:1249-1352 | the LIVO step keeps the queues safe and paired |
| `SensorBatches.BatchesExact` | edge/src/FAST-LIVO2/src/LIVMapper.cpp:1283-1297 | over any run the batches together are exactly the on-time samples after the first base and not after the last update, each once and in order |
| `SensorBatches.BatchIsWindow` | edge/src/FAST-LIVO2/src/LIVMapper.cpp:1283-1297 | each update's batch is exactly the on-time samples in (previous update time, this one] |
| `SensorBatches.BatchIsSampleWindow` | edge/src/FAST-LIVO2/src/LIVMapper.cpp:1283-1297 | with strictly increasing accepted stamps each update's batch is exactly the accepted samples in (previous update time, this one] |
| `SensorBatches.NoSampleLost` | edge/src/FAST-LIVO2/src/LIVMapper.cpp:1078-1096 | with strictly increasing accepted stamps the batches are all accepted samples of that range: none lost, none repeated |
| `SensorBatches.LateIff` | edge/src/FAST-LIVO2/src/LIVMapper.cpp:1078-1096 | after an update an accepted sample comes too late exactly when its stamp equals the update time |
| `SensorBatches.RepeatedStampLost` | edge/src/FAST-LIVO2/src/LIVMapper.cpp:1078-1096 | a run in which a sample with a repeated stamp at the boundary is accepted and lost |
| `SensorBatches.UpdatesGrow` | edge/src/FAST-LIVO2/src/LIVMapper.cpp:1267-1275 | over any run the update times start at least 0.00001 s after the first base and grow by at least that |
| `MotionFrames.PackageFormsFrame` | edge/src/FAST-LIVO2/src/LIVMapper.cpp:1283-1297 | in every run every package, with the last sample handed out before it carried over, is a frame as StepsCoverFrame needs it: samples in order, after the previous update and not after the image |
| `DeliveredOrder.DeliveredSorted` | edge/src/FAST-LIVO2/src/LIVMapper.cpp:1301-1338 | in every run whose scans, taken together, arrive in order of time, every delivered cloud is in order of time, as the sweep was made for |
| `DeliveredOrder.OverlappingScans` | edge/src/FAST-LIVO2/src/LIVMapper.cpp:1301-1338 | a run from the start in which two overlapping scans are delivered out of time order, and a point is not moved from its own pose |
| `SensorModes.DeliveredBeforeIff` | edge/src/FAST-LIVO2/src/LIVMapper.cpp:1301-1334 | a delivered cloud lies before its image exactly when no carried point is at or past it |
| `SensorModes.ScanSpanningTwoImages` | edge/src/FAST-LIVO2/src/LIVMapper.cpp:1301-1334 | a run from the start with a scan that spans two images, whose last point is delivered with an image it is after |
| `SensorModes.SkippedUndistortion` | edge/src/FAST-LIVO2/src/LIVMapper.cpp:1325-1331 | a package that is not undistorted makes every carried point read as earlier, by the package's length |
| `SensorModes.LioDeliversFront` | edge/src/FAST-LIVO2/src/LIVMapper.cpp:1192-1246 | one lidar-only package is the front scan untouched, with exactly the queued samples up to its last point |
| `SensorModes.LioWaits` | edge/src/FAST-LIVO2/src/LIVMapper.cpp:1205-1224 | a call without a package takes nothing from the queues, and a pushed scan stays the front one |
| `SensorModes.LioReadyIff` | edge/src/FAST-LIVO2/src/LIVMapper.cpp:1198-1224 | when a lidar-only package is ready |
| `SensorModes.StuckForever` | edge/src/FAST-LIVO2/src/LIVMapper.cpp:1204-1205 | once a one-point scan is at the front before the first package, the lidar-only mode never delivers again, whatever arrives, unless time goes back |
| `SensorModes.StuckFromStart` | edge/src/FAST-LIVO2/src/LIVMapper.cpp:1204-1205 | and that is so whenever the very first scan has a single point |
| `SensorWaits.UpdatesCovered` | edge/src/FAST-LIVO2/src/LIVMapper.cpp:1263-1281 | over any run every update time is at most that of the last point of some scan that arrived and of some accepted sample: no package runs ahead of the sensors |
| `SensorWaits.SampleQueuedIff` | edge/src/FAST-LIVO2/src/LIVMapper.cpp:1042-1112 | in any run a sample is queued exactly when a scan with points has arrived before it and it is not stamped before the last one queued |
| `SensorWaits.ImageQueuedIff` | edge/src/FAST-LIVO2/src/LIVMapper.cpp:1121-1179 | in any run an image is queued exactly when a scan with points has arrived before it and it is 20 ms or more after the last |
| `SensorWaits.ImagesApart` | edge/src/FAST-LIVO2/src/LIVMapper.cpp:1121-1179 | over any run queued images are at least 20 ms apart |
| `SensorWaits.LoopBackDrops` | edge/src/FAST-LIVO2/src/LIVMapper.cpp:1011-1036 | a loop back in time drops every queued scan and no header time |
| `LivMapper.LIVMapper.LivoxCbk` | edge/src/FAST-LIVO2/src/LIVMapper.cpp:995-1040 | the fields after the callback are the spec step: loop back, empty cloud, push, trimming beyond 100 |
| `LivMapper.LIVMapper.ImuCbk` | edge/src/FAST-LIVO2/src/LIVMapper.cpp:1042-1112 | a sample is queued exactly when a scan has come and it is not stamped before the last one; otherwise nothing changes |
| `LivMapper.LIVMapper.ImageCbk` | edge/src/FAST-LIVO2/src/LIVMapper.cpp:1121-1179 | the four early returns amount to one test: an image is queued exactly when a scan has come and it is 20 ms or more after the last |
| `LivMapper.LIVMapper.SyncPackages` | edge/src/FAST-LIVO2/src/LIVMapper.cpp:1181-1359 | the whole new state and the answer, in both modes; with images, true exactly when no queue is empty and the front image's capture time is 0.00001 s or more after the base, no later than the newest sample and no later than the last point of the newest scan |
| `LivMapper.LIVMapper.RunOnce` | edge/src/FAST-LIVO2/src/LIVMapper.cpp:743-755 | one pass of the main loop is the Sync step of the runs: it delivers and updates exactly when there is a package, and every arrived point is still accounted for after it |
| `LivMapper.LIVMapper.SyncPackagesLivo` | edge/src/FAST-LIVO2/src/LIVMapper.cpp:1249-1352 | the same answer; with it the package of the front image, without it nothing but the drop of an image too early to use |
| `LivMapper.LIVMapper.SyncPackagesLio` | edge/src/FAST-LIVO2/src/LIVMapper.cpp:1192-1246 | push, wait or deliver one scan |
| `LivMapper.LIVMapper.TakeImus` | edge/src/FAST-LIVO2/src/LIVMapper.cpp:1286-1297 | the popping loop leaves the samples after the end, and keeps those after the previous update |
| `LivMapper.LIVMapper.CutLidar` | edge/src/FAST-LIVO2/src/LIVMapper.cpp:1301-1338 | the carried points become current, and the nested loops cut every begun scan between current and next |
| `ImuProcessing.MeanExtends` | edge/src/FAST-LIVO2/src/IMU_Processing.cpp:135-136 | one more sample keeps the running mean exact |
| `ImuProcessing.StepsCoverFrame` | edge/src/FAST-LIVO2/src/IMU_Processing.cpp:208-236 | for samples in the frame the steps are never negative and sum to its length exactly when there are two, or one at its end, or one with the carried-over sample at its beginning; offsets then rise to the length |
| `ImuProcessing.PosesFollowSteps` | edge/src/FAST-LIVO2/src/IMU_Processing.cpp:208-306 | each recorded pose is the end of one step, at its offset |
| `ImuProcessing.PosesAreTimed` | edge/src/FAST-LIVO2/src/IMU_Processing.cpp:201-306 | pose by pose: its offset is the time of the sample its step ends at, the frame's end for the last, less the beginning; its motion is the previous pose's propagated by those two samples for the time between |
| `ImuProcessing.FrameOffsets` | edge/src/FAST-LIVO2/src/IMU_Processing.cpp:201-306 | in a frame pose k is at the time of sample k, the last at the frame's end if that is covered, and each offset is the total of the steps up to it |
| `ImuProcessing.EarlySkipped` | edge/src/FAST-LIVO2/src/IMU_Processing.cpp:204-206 | samples before the frame, but for the last of them, make no pose |
| `ImuProcessing.SweepPoseMoves` | edge/src/FAST-LIVO2/src/IMU_Processing.cpp:366-391 | in any cloud one pose moves exactly the points from the iterator down to the first that is not later than it, where the iterator stays; the first point it may move but not pass |
| `ImuProcessing.SweepMovesByLeast` | edge/src/FAST-LIVO2/src/IMU_Processing.cpp:351-392 | in any cloud the sweep moves every point but the first at most once, from the latest pose other than the final one that is before the point and all points behind it; the first, once all others have been moved, by every such pose that is before it |
| `ImuProcessing.OwnPoseIff` | edge/src/FAST-LIVO2/src/IMU_Processing.cpp:351-392 | a point of any cloud is moved from its own pose, whatever the motion, exactly when the latest pose before it is also the latest before the least time among it and the points behind it |
| `ImuProcessing.SweepMovesOnce` | edge/src/FAST-LIVO2/src/IMU_Processing.cpp:351-392 | so for points in time order every point but the first is moved exactly once, from the latest pose before it other than the final one, or not at all; the first by every such pose |
| `ImuProcessing.FirstMovedOnceIff` | edge/src/FAST-LIVO2/src/IMU_Processing.cpp:389-390 | the first point is moved like every other, whatever the motion, exactly when at most one pose other than the final one is before it |
| `ImuProcessing.FewBeforeIff` | edge/src/FAST-LIVO2/src/IMU_Processing.cpp:355-366 | in a rising list that is when the second pose is not before it |
| `ImuProcessing.ListRisesIff` | edge/src/FAST-LIVO2/src/IMU_Processing.cpp:171-173 | the pose list rises from 0 exactly when no left-over pose of an empty frame is after 0 and those rise |
| `ImuProcessing.StaleTouchOnlyFirst` | edge/src/FAST-LIVO2/src/IMU_Processing.cpp:347-395 | if the frame has a step, left-over poses make no difference to any point but the first: a point is moved, by one of the frame's own poses, exactly when its time is positive |
| `ImuProcessing.ImuProcess.ImuInit` | edge/src/FAST-LIVO2/src/IMU_Processing.cpp:108-149 | the means after any batches are the exact means of all samples since the first frame |
| `ImuProcessing.ImuProcess.Initialise` | edge/src/FAST-LIVO2/src/IMU_Processing.cpp:398-440 | an empty batch is not counted; initialisation ends when the count exceeds the limit |
| `ImuProcessing.ImuProcess.Propagate` | edge/src/FAST-LIVO2/src/IMU_Processing.cpp:201-306 | the loop appends exactly the poses of the steps, each at its sample's time and propagated from the one before, ends in the last one's motion, and its dt_all is their total |
| `ImuProcessing.ImuProcess.SweepBack` | edge/src/FAST-LIVO2/src/IMU_Processing.cpp:351-392 | the in-place sweep with its moving iterator computes the sweep the laws are about |
| `ImuProcessing.ImuProcess.UndistortPcl` | edge/src/FAST-LIVO2/src/IMU_Processing.cpp:151-396 | the new fields and the cloud handed out, swept over poses at their samples' times; the poses are dropped only when the cloud has points |
| `PoseBridges.RunKeeps` | edge/src/fleet_streamer/scripts/pose_bridge.py:81-131 | under every interleaving the flag is up exactly while one drain is outstanding, messages are sent in strictly increasing order, and each is in exactly one place |
| `PoseBridges.StepKeepsPlaces` | edge/src/fleet_streamer/scripts/pose_bridge.py:99-120 | every atomic step keeps each produced message in exactly one of pending, in flight, sent, overwritten, discarded |
| `PoseBridges.StepKeepsOrder` | edge/src/fleet_streamer/scripts/pose_bridge.py:99-120 | sent before in flight before pending, in order of production |
| `PoseBridges.DrainEndStrandsIff` | edge/src/fleet_streamer/scripts/pose_bridge.py:119-120 | ending a drain leaves a message behind with the socket open exactly when one was stored since it took its own |
| `PoseBridges.MessageStranded` | edge/src/fleet_streamer/scripts/pose_bridge.py:99-120 | a run in which that happens |
| `PoseBridges.OverwrittenNeverSent` | edge/src/fleet_streamer/scripts/pose_bridge.py:99-131 | a message overwritten before its drain came is never sent, whatever follows |
| `PoseBridges.ParkedNeverSent` | edge/src/fleet_streamer/scripts/pose_bridge.py:99-131 | a message left behind is never sent unless a reconnection comes before the next message |
| `PoseBridges.RunsAlone` | edge/src/fleet_streamer/scripts/pose_bridge.py:77-120 | a message whose drain nothing disturbs is sent, or discarded if the send raises, and the mailbox is empty again |
| `PoseBridges.HeldIsSentIff` | edge/src/fleet_streamer/scripts/pose_bridge.py:110-118 | what a drain took is sent exactly when the socket it took is open and the send does not raise; otherwise it is discarded |
| `PoseBridges.PoseBridge.OnTimer` | edge/src/fleet_streamer/scripts/pose_bridge.py:99-107 | the section is the protocol's Timer step on the fields and keeps its invariant; afterwards this message waits, and a drain is asked for exactly when there was none outstanding and the socket is open |
| `PoseBridges.PoseBridge.DrainTake` | edge/src/fleet_streamer/scripts/pose_bridge.py:110-113 | the DrainTakes step on the fields; what it takes is the newest message produced, newer than all that were sent, and is then with this drain alone |
| `PoseBridges.PoseBridge.DrainFinish` | edge/src/fleet_streamer/scripts/pose_bridge.py:119-120 | the DrainEnds step on the fields; afterwards no drain is outstanding, and a message that came meanwhile waits with nothing on its way |
| `PoseBridges.PoseBridge.SetWs` | edge/src/fleet_streamer/scripts/pose_bridge.py:122-131 | the SetWs step on the fields; with a socket a waiting message has exactly one drain on its way afterwards, asked for now exactly when none was outstanding |
| `WebRtcPool.StepKeepsSound` | host/web/src/hooks/useRobotWebRTC.ts:102-218 | every mount, unmount, timer and lapse of time keeps: the count is the number of holders, a timer is armed exactly when there is none, the pool lists exactly the open entries (as at the start, StartSound) |
| `WebRtcPool.HoldersShare` | host/web/src/hooks/useRobotWebRTC.ts:229-252 | hooks with the same arguments hold the same open pooled entry |
| `WebRtcPool.ClosedOnlyWhenIdle` | host/web/src/hooks/useRobotWebRTC.ts:205-218 | an entry is closed only with no holder and a full delay after it last had one |
| `WebRtcPool.OpenThroughoutDelay` | host/web/src/hooks/useRobotWebRTC.ts:102-115 | over any run within the delay since it was last held an entry stays open and pooled under its key |
| `WebRtcPool.HeldStaysOpen` | host/web/src/hooks/useRobotWebRTC.ts:102-115 | a connection held at some time stays open and pooled for five seconds from then, whatever happens |
| `WebRtcPool.MountGives` | host/web/src/hooks/useRobotWebRTC.ts:229-252 | a mounted hook gets the pooled open entry of its key or a new one; without a robot none; no other hook is touched |
| `WebRtcPool.OthersDo` | host/web/src/hooks/useRobotWebRTC.ts:205-218 | unmounting takes that hook alone; a timer that runs closes its entry and drops its key |
| `WebRtcPool.PKeyIdentifiesIff` | host/web/src/hooks/useRobotWebRTC.ts:44-46 | a robot and an address share their key with no other pair exactly when there is no NUL in either |
| `WebRtcPool.ConnectionPool.AcquireConnection` | host/web/src/hooks/useRobotWebRTC.ts:102-203 | reuses the pooled entry, calling off its disposal, or makes one; the whole pool afterwards |
| `WebRtcPool.ConnectionPool.ReleaseConnection` | host/web/src/hooks/useRobotWebRTC.ts:205-218 | lowers the count and arms one timer when it reaches none; the whole pool afterwards |
| `WebRtcPool.ConnectionPool.OnTimeout` | host/web/src/hooks/useRobotWebRTC.ts:211-216 | the callback closes what it captured and drops its key |
| `VisualPoints.RunFromNew` | edge/src/FAST-LIVO2/src/vio.cpp:1250-1308 | over any run of frames a point has between 1 and 30 observations, of different frames, and its reference, if any, is one of them |
| `VisualPoints.FrameKeepsSound` | edge/src/FAST-LIVO2/src/vio.cpp:2443-2480 | one frame's steps in order keep that |
| `VisualPoints.DeleteKeepsReference` | edge/src/FAST-LIVO2/src/image_frame.cpp:40-52 | dropping an observation never leaves it as reference |
| `VisualPoints.ChoiceDefinedIff` | edge/src/FAST-LIVO2/src/vio.cpp:1025-1055 | without a reference the choice is defined exactly when there is one observation or they do not all come from one frame |
| `VisualPoints.ChoiceAlwaysDefined` | edge/src/FAST-LIVO2/src/vio.cpp:1025-1055 | for every reachable point it is defined, and of several observations one of least mean difference |
| `VisualPoints.ReferenceIsBest` | edge/src/FAST-LIVO2/src/vio.cpp:1505-1573 | a point that gained an observation and has more than five takes one no other scores above, unless none has a score |
| `VisualPoints.FullDropsLowest` | edge/src/FAST-LIVO2/src/vio.cpp:1288-1294 | a full point gives up an observation no other scores below, and only that |
| `VisualPointLaws.ObservationsAre` | edge/src/FAST-LIVO2/src/vio.cpp:1258-1305 | the step of a tracked point in full: at 30 observations the first of the lowest scores goes, and the reference if it is that one; a new one goes to the front, scored 0; all others stay in order |
| `VisualPointLaws.ReferenceIs` | edge/src/FAST-LIVO2/src/vio.cpp:1455-1581 | beyond five observations all are rescored, the point converges exactly when its normal has settled and it has more than ten, and the first of the highest scores above -1000 becomes the reference |
| `VisualPointLaws.ChoiceIs` | edge/src/FAST-LIVO2/src/vio.cpp:1022-1058 | the choice on retrieval in full: the only observation, else the reference there is, else the first of those that differ least on average |
| `VisualPointLaws.ErrorIsMean` | edge/src/FAST-LIVO2/src/vio.cpp:1025-1050 | the error of an observation is its mean difference from all the others |
| `VisualPointLaws.FrameAdds` | edge/src/FAST-LIVO2/src/vio.cpp:2443-2480 | a frame adds its observation exactly when it tracks the point, is to add one and the point has not converged; no other comes in, and a point converged stays so |
| `VisualPoints.ConvergedPrunes` | edge/src/FAST-LIVO2/src/vio.cpp:1258-1261 | tracking a converged point leaves its reference as its only observation |
| `VisualPoints.ConvergedStays` | edge/src/FAST-LIVO2/src/vio.cpp:1250-1320 | and then it stays so for good |
| `VisualPoints.VisualPoint.AddFrameRef` | edge/src/FAST-LIVO2/src/image_frame.cpp:38 | any feature not listed goes to the front, whatever its frame; nothing deleted is listed; a new frame keeps the frames apart |
| `VisualPoints.VisualPoint.DeleteFeatureRef` | edge/src/FAST-LIVO2/src/image_frame.cpp:40-52 | drops and deletes that feature alone, whatever frames it and the others come from, and the reference if it is it |
| `VisualPoints.VisualPoint.FindMinScoreFeature` | edge/src/FAST-LIVO2/src/image_frame.cpp:94-106 | the first of the lowest scores; the first observation when none has one |
| `VisualPoints.VisualPoint.DeleteNonRefPatchFeatures` | edge/src/FAST-LIVO2/src/image_frame.cpp:108-117 | erasing while iterating leaves exactly the reference |
| `VisualPoints.VisualPoint.RetrieveReference` | edge/src/FAST-LIVO2/src/vio.cpp:1022-1058 | the choice by two nested loops, in place |
| `VisualPoints.VisualPoint.UpdateVisualMapPoint` | edge/src/FAST-LIVO2/src/vio.cpp:1258-1305 | prune, or delete the lowest and add; no reference is left to a deleted feature |
| `VisualPoints.VisualPoint.UpdateReferencePatch` | edge/src/FAST-LIVO2/src/vio.cpp:1460-1581 | rescoring every observation in place and moving the reference to the first of the highest |

## Left out

- Floating-point rounding, NaN (except where a comparison turns on it) and the width of `size_t` and `int64_t`: reals and unbounded integers are used; JSON integers keep their 64-bit pattern.
- `InitPlane`, the EKF, SO(3) exponentials, camera models, warping and photometric numerics: function-valued parameters.
- `octo_state_`, plane ids and `is_update_`: written but never read by what is modelled.
- Maps with `lru_size_` below 2: the build and update dereference an entry they have just erased; the class requires 2, and `JustTouchedStaysIff` says why.
- `BuildResidualListLRU`'s neighbour voxel and the visual map's lookup key for negative coordinates: no claim is made.
- `InsertPointIntoFeatureMapLRU`: the same list discipline as the voxel map's, without the trees; the list's laws in `LruList` cover it.
- `BuildVoxelMapLRU` runs its final loop over the hash map, the model over the list: the trees are independent, so the order makes no difference.
- `InitOctoTree`'s copies inlined in `CutOctoTree` are one call in the model.
- GenericValue storage: capacities, pointers and in-place member edits (`AddMember`, `EraseMember`) are not modelled; a value is a tree. A handler that stops early is not modelled, the document's handler never does.
- The short-string limit is that of the 48-bit pointer layout; a 32-bit or plain 64-bit build has another constant.
- The allocator's chunk list is a sequence instead of `next` pointers, addresses are a chunk and an offset, and `Free` does nothing, as in the original. The base allocator's answer is a parameter.
- `Realloc`: the block at the pointer is named by a ghost parameter, because the original identifies it by address only.
- A failing `fwrite` is ignored by the original and always succeeds in the model; `fread` is short only at the end.
- `PointCloud2Cbk`, and the epoch latching in `ImuCbk` (`ros_driver_fix_en_`): not modelled; the offset subtracted from a stamp is part of the parameter.
- `SyncPackages` is one atomic step between callbacks; its lock covers only parts of it.
- PointsConserved: assumes header times that never go back and are not negative; `LidarPairedIff` says what the loop-back branch does otherwise, and -1 is the program's mark for no update yet.
- SweepMovesOnce: is for points in time order; `SweepMovesByLeast` says what any cloud gets, `OwnPoseIff` which points that costs their pose, `DeliveredSorted` and `OverlappingScans` when clouds are in order.
- `last_prop_end_time_` is never set before the first frame; the model's constructor takes it as a parameter.
- The mailbox's `websockets` and `asyncio` internals: sending is one step that may raise; a message whose send raises counts as discarded. `cloud_bridge.py` and `telem_bridge.py` hold copies of the same protocol.
- WebRTC signalling, statistics, streams and subscribers: an entry is open or closed. References between JavaScript objects are entry numbers in the model.
- VisualPoints.VisualPoint.AddFrameRef: a feature that is listed already, or deleted, is not added: the point deletes each listed feature once, in its destructor.
- LivMapper.LIVMapper.RunOnce: a package that only initialises the IMU is not undistorted and leaves the update time alone; `SkippedUndistortion` says what follows from that, the runs leave it out.
- `VisualPoint`'s constructor leaves `ref_patch` unset; the model starts it as null. The mode without normals, in which no reference is chosen on retrieval, is not modelled.
- ROS publishing, TF, file output, GStreamer, the React components, the fleet server and the relay: not modelled.
