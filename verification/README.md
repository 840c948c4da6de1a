# Show_BOctTree traversals, modelled in Dafny

`Show_BOctTree` is the point-cloud viewer's wrapper around a bit-packed
octree (`3rdparty/3dtk-1.2/include/show/show_Boctree.h`). Every one of its
operations is a depth-first walk over the tree. A node carries two 8-bit
masks: `valid` (which octants hold a child) and `leaf` (which of those
children are point buckets). Its children are stored densely, in
increasing octant order. The walks are:

- the exhaustive draw (`displayOctTreeAll`) and its frustum-culled
  variants, one classifying a cell with a single test and one keeping a
  list of straddled frustum planes;
- the level-of-detail modes: mode 0 splits a point budget evenly among
  children; mode 1 draws as many points as a cell's scaled screen
  footprint; mode 2 draws sprites below a size threshold. There is also
  the footprint-threshold pair `displayOctTreeLOD3` /
  `displayOctTreeCulledLOD3`;
- the cell-outline debug display and the count of visible points;
- the three ray selections (depth-gated set pick, brush pick, nearest
  point);
- the calibration `maxTargetPoints`, which makes a ratio of 1 in mode 0
  mean "draw everything" when every cell is worth detail and every bucket
  is visible, and the mode selector `cycleLOD`.

The model reads the tree as an immutable `Octree.Node`. What a traversal
emits is a sequence: `Point`s for the point-drawing walks, `Geometry.Event`s
(`Vertex`, `Sprite`, `Cube`) for the mixed ones. The selections produce sets
of points. A point carries its address, so two stored points with equal
coordinates stay distinct, as the source's `set<T *>` keeps them.

All geometry is a parameter. The frustum tests, the footprint estimate,
the plane test, the ray-box test, the ray and screen distances, and the
child-centre computation are total functions in a `Geometry.Oracles`
record. Floating-point values are exact reals.

Each traversal is written as three functions:

- `X(n)` for a node;
- `XFrom(n, j)` for children `j` onwards;
- `XAt(n, j)` for the child under the cursor, found by `Octree.SlotAt`.

Each proof follows the same split. The per-child cursor
`Octree.SlotAt(n, j)` models the loop shared by every traversal in the
file: child `j` is the `j`-th octant whose `valid` bit is set, and it is a
bucket exactly when that octant's `leaf` bit is set.

## Behaviour worth noting

- In mode 0, a bucket of more than ten points whose cell is not worth
  detail draws only its first point, whatever the budget (lines 437-439
  and 491-493).
- The depth-gated ray pick tests boxes only while `depth < max_depth`, and
  takes whole buckets at and below that depth (lines 521 and 532).
- `maxTargetPoints` multiplies the heaviest child's value by the child
  count at every level, so the products compound along a path (lines
  124-145).
- The stride sample of a bucket truncates: step `i` reads point
  `floor(i * length / k)` (lines 448-453). One might expect rounding.
- Mode 2 draws a child as one sprite whenever the threshold exceeds the
  parent's half-size, whether that child is a bucket or a subtree (lines
  674 and 718).
- The unculled and culled mode-1 walks treat a bucket whose footprint
  scales to zero differently. The unculled one draws its first point
  (lines 244-246); the culled one draws nothing (line 286, where `l == 0` skips both branches).
  `Ratio.ZeroFootprintRulesDiffer` exhibits this.
- `displayOctTree()` with its default `FLT_MAX` threshold outlines only the
  root's children (lines 103-104 and 647), see
  `Viewer.DefaultOutlineIsRootChildren`.

## Model

The traversal functions that carry no contract of their own (`Exhaustive.All`, `Ratio.Lod2`, `Sprites.CPAll`, `Sprites.CAll`, `Selection.Visited`, `Selection.SelectBrush`, `Selection.NearestAsWritten`, `Viewer.DrawLod`, `Viewer.SelectNearest` and the like) are covered by the rows of the lemmas about them.

| member | source | states |
|---|---|---|
| Bits.OctantsSpec | 3rdparty/3dtk-1.2/include/show/show_Boctree.h:130-142 | the child cursor visits exactly the octants whose `valid` bit is set, each once, in increasing order, and there are `POPCOUNT(valid)` of them |
| Octree.SlotAt | 3rdparty/3dtk-1.2/include/show/show_Boctree.h:130-141 | stored child `j` belongs to the `j`-th set `valid` bit; it is a non-empty bucket exactly when that octant's `leaf` bit is set, and a well-formed subtree otherwise |
| Octree.ChildCount | 3rdparty/3dtk-1.2/include/show/show_Boctree.h:420 | the number of stored children is `POPCOUNT(node.valid)`, the divisor of the budget split |
| Geometry.ChildCell | 3rdparty/3dtk-1.2/include/show/show_Boctree.h:186-200 | a child cell has half the half-size of its parent |
| Geometry.PickBox | 3rdparty/3dtk-1.2/include/show/show_Boctree.h:529-532 | the selection walks test a child's centre with the parent's half-size |
| Numeric.Trunc | 3rdparty/3dtk-1.2/include/show/show_Boctree.h:222 | the C conversion `(int)x` rounds toward zero and lands within one of `x` |
| Exhaustive.AllIsBag | 3rdparty/3dtk-1.2/include/show/show_Boctree.h:147-169 | the exhaustive draw emits every stored point exactly as often as it is stored |
| Exhaustive.AllIsExhaustive | 3rdparty/3dtk-1.2/include/show/show_Boctree.h:147-169 | it emits as many points as the tree stores, and a point is emitted iff it is stored |
| Exhaustive.AllCulled | 3rdparty/3dtk-1.2/include/show/show_Boctree.h:171-178 | a cell entirely outside the frustum draws nothing; one entirely inside draws what the exhaustive walk draws |
| Exhaustive.AllCulledIsSub | 3rdparty/3dtk-1.2/include/show/show_Boctree.h:171-205 | the culled draw emits stored points only, in the exhaustive order, none more often than stored |
| Exhaustive.AllCulledUncut | 3rdparty/3dtk-1.2/include/show/show_Boctree.h:171-205 | when no cell is classified outside, the culled draw equals the exhaustive draw, because buckets get no per-cell test of their own |
| Exhaustive.Straddled | 3rdparty/3dtk-1.2/include/show/show_Boctree.h:797-809 | the plane scan rejects a cell iff some plane has it behind; otherwise it keeps exactly the planes the cell crosses |
| Exhaustive.AllCulledPlanes | 3rdparty/3dtk-1.2/include/show/show_Boctree.h:796-809 | a cell outside some plane draws nothing; a cell no plane crosses draws what the exhaustive walk draws |
| Exhaustive.AllCulledPlanesIsSub | 3rdparty/3dtk-1.2/include/show/show_Boctree.h:796-833 | the plane-list draw emits stored points only, in the exhaustive order |
| Exhaustive.PlaneListMatchesFullTest | 3rdparty/3dtk-1.2/include/show/show_Boctree.h:796-833 | dropping planes the cell is fully in front of loses nothing: the plane-list draw equals the single-test culled draw under the classification the plane list induces |
| Exhaustive.CountVisible | 3rdparty/3dtk-1.2/include/show/show_Boctree.h:835-838 | a culled cell counts zero points |
| Exhaustive.CountVisibleBelowEmitted | 3rdparty/3dtk-1.2/include/show/show_Boctree.h:835-861 | the count never exceeds what the culled draw emits, since the count also tests every bucket's cell |
| Exhaustive.CountVisibleBelowAll | 3rdparty/3dtk-1.2/include/show/show_Boctree.h:835-861 | the count never exceeds the number of stored points |
| Exhaustive.CountVisibleAll | 3rdparty/3dtk-1.2/include/show/show_Boctree.h:835-861 | with every cell visible, the count is the number of stored points |
| Calibration.MaxTargetPointsSpec | 3rdparty/3dtk-1.2/include/show/show_Boctree.h:124-145 | `maxTargetPoints` is zero for a childless node and otherwise equals some child's weight times the popcount; it is at least every bucket length and every subtree value, each times the popcount |
| Calibration.AllWithinMaxTarget | 3rdparty/3dtk-1.2/include/show/show_Boctree.h:124-145 | the calibration bounds the number of points the exhaustive draw emits |
| Calibration.CycleLod | 3rdparty/3dtk-1.2/include/show/show_Boctree.h:118-120 | the unsigned increment modulo three steps 0 to 1 to 2 to 0 and always yields a valid mode |
| Calibration.CycleLodPeriod | 3rdparty/3dtk-1.2/include/show/show_Boctree.h:118-120 | three presses return to the mode one started in, and every press changes the mode |
| Calibration.SpriteExponent | 3rdparty/3dtk-1.2/include/show/show_Boctree.h:85 | the mode-2 exponent never exceeds `max_depth - 3` |
| Calibration.SpriteExponentMonotone | 3rdparty/3dtk-1.2/include/show/show_Boctree.h:85 | a larger ratio never lowers the exponent |
| Calibration.SpriteMinSize | 3rdparty/3dtk-1.2/include/show/show_Boctree.h:85 | a positive root size gives a positive threshold |
| Calibration.SpriteMinSizeMonotone | 3rdparty/3dtk-1.2/include/show/show_Boctree.h:85 | a larger ratio never raises the sprite threshold, so it never draws coarser |
| Calibration.SpriteMinSizeFloor | 3rdparty/3dtk-1.2/include/show/show_Boctree.h:85 | the threshold never falls below the size of a cell `max_depth - 3` levels down |
| Stride.SourceIndex | 3rdparty/3dtk-1.2/include/show/show_Boctree.h:448-453 | the point the float stride reads at step `i` (the offset `i * POINTDIM * (length / k)` truncated, rounded down to a whole point and divided by `POINTDIM`) is `floor(i * length / k)`, for any positive point width |
| Stride.StrideIndices | 3rdparty/3dtk-1.2/include/show/show_Boctree.h:448-457 | `k` indices, the i-th being the point the stride loop reads at step `i`, which is `floor(i * length / k)` |
| Stride.StrideIndicesSpec | 3rdparty/3dtk-1.2/include/show/show_Boctree.h:448-457 | every index lies inside the bucket, the first is 0, the indices never decrease, and they strictly increase when the bucket has at least `k` points |
| Stride.Sample | 3rdparty/3dtk-1.2/include/show/show_Boctree.h:446-457 | a stride sample has exactly the requested number of points |
| Stride.SampleSpec | 3rdparty/3dtk-1.2/include/show/show_Boctree.h:446-457 | a sample is an order-preserving selection from its bucket starting at the first point, each entry at its stride index |
| Stride.SampleAll | 3rdparty/3dtk-1.2/include/show/show_Boctree.h:446-457 | sampling as many points as the bucket holds returns the bucket |
| Stride.StrideHundredByTen | 3rdparty/3dtk-1.2/include/show/show_Boctree.h:448-457 | 100 points sampled to 10 yield every tenth point |
| Budget.BudgetLeaf | 3rdparty/3dtk-1.2/include/show/show_Boctree.h:437-458 | a bucket with share `nt` draws at most `nt` points from its own points in order: its first point when over ten points and not worth detail, all of them when they fit, else `nt` samples starting at the first |
| Budget.Lod | 3rdparty/3dtk-1.2/include/show/show_Boctree.h:469-481 | a non-positive budget, or one whose share rounds to zero, draws nothing |
| Budget.LodWithinBudget | 3rdparty/3dtk-1.2/include/show/show_Boctree.h:469-519 | mode 0 never draws more points than its budget |
| Budget.LodIsSub | 3rdparty/3dtk-1.2/include/show/show_Boctree.h:469-519 | mode 0 draws stored points only, in the exhaustive order, none more often than stored |
| Budget.CulledLod | 3rdparty/3dtk-1.2/include/show/show_Boctree.h:405-414 | a non-positive budget or an outside cell draws nothing; an inside cell draws what the unculled mode 0 draws |
| Budget.CulledLodIsSub | 3rdparty/3dtk-1.2/include/show/show_Boctree.h:405-467 | culled mode 0 draws an order-preserving selection of what unculled mode 0 draws with the same budget |
| Budget.CulledLodWithinBudget | 3rdparty/3dtk-1.2/include/show/show_Boctree.h:405-467 | culled mode 0 never draws more points than its budget |
| Budget.LodMonotone | 3rdparty/3dtk-1.2/include/show/show_Boctree.h:469-519 | a larger budget never draws fewer points in mode 0 |
| Budget.CulledLodMonotone | 3rdparty/3dtk-1.2/include/show/show_Boctree.h:405-467 | a larger budget never draws fewer points in culled mode 0 |
| Budget.CulledLodUncut | 3rdparty/3dtk-1.2/include/show/show_Boctree.h:405-467 | with nothing outside and every bucket visible, culling changes nothing |
| Budget.ShareCoversWeight | 3rdparty/3dtk-1.2/include/show/show_Boctree.h:420-425 | at a budget of at least `maxTargetPoints`, each child's share covers the heaviest child |
| Budget.UndrawnIsEmpty | 3rdparty/3dtk-1.2/include/show/show_Boctree.h:420-425 | at such a budget a node gives up only when it stores nothing |
| Budget.LodFullBudget | 3rdparty/3dtk-1.2/include/show/show_Boctree.h:469-519 | at a budget of at least `maxTargetPoints` with every cell worth detail, mode 0 draws exactly what the exhaustive walk draws |
| Budget.CulledLodFullBudget | 3rdparty/3dtk-1.2/include/show/show_Boctree.h:405-467 | likewise, culled mode 0 draws exactly what the culled exhaustive draw draws when every bucket is visible |
| Ratio.Scale | 3rdparty/3dtk-1.2/include/show/show_Boctree.h:221-222 | `max((int)(l*l*ratio), 0)` is the truncated scaled squared footprint, and zero below one |
| Ratio.Thin | 3rdparty/3dtk-1.2/include/show/show_Boctree.h:224-239 | `min(length, l)` points of the bucket, in order, starting at its first |
| Ratio.RatioLeaf | 3rdparty/3dtk-1.2/include/show/show_Boctree.h:221-247 | the unculled leaf rule draws `min(length, l)` points when `l > 1` and exactly the first point otherwise |
| Ratio.CulledRatioLeaf | 3rdparty/3dtk-1.2/include/show/show_Boctree.h:284-306 | the culled leaf rule draws `min(length, l)` points, so none at all when `l` is zero |
| Ratio.RatioLeafRulesAgree | 3rdparty/3dtk-1.2/include/show/show_Boctree.h:221-306 | the two leaf rules agree whenever the scaled footprint is positive |
| Ratio.CulledLod2 | 3rdparty/3dtk-1.2/include/show/show_Boctree.h:260-268 | an outside cell draws nothing; an inside one draws what unculled mode 1 draws |
| Ratio.Lod2IsSub | 3rdparty/3dtk-1.2/include/show/show_Boctree.h:207-258 | mode 1 draws stored points only, in the exhaustive order |
| Ratio.CulledLod2IsSub | 3rdparty/3dtk-1.2/include/show/show_Boctree.h:260-319 | culled mode 1 draws stored points only, in the exhaustive order |
| Ratio.CulledLod2Uncut | 3rdparty/3dtk-1.2/include/show/show_Boctree.h:207-319 | with nothing outside, every bucket visible and every footprint scaling above zero, culling changes nothing |
| Ratio.ZeroFootprintRulesDiffer | 3rdparty/3dtk-1.2/include/show/show_Boctree.h:244-247 | when footprints scale to zero, one visible bucket in a partial cell draws its first point unculled and nothing culled |
| Ratio.ThresholdLeaf | 3rdparty/3dtk-1.2/include/show/show_Boctree.h:335-346 | a bucket whose footprint is within the target draws its first point alone, otherwise all of its points, in order |
| Ratio.Lod3 | 3rdparty/3dtk-1.2/include/show/show_Boctree.h:321-322 | a non-positive target draws nothing |
| Ratio.CulledLod3 | 3rdparty/3dtk-1.2/include/show/show_Boctree.h:355-364 | a non-positive target or an outside cell draws nothing; an inside cell draws what the unculled walk draws |
| Ratio.Lod3IsSub | 3rdparty/3dtk-1.2/include/show/show_Boctree.h:321-353 | the threshold walk draws stored points only, in the exhaustive order |
| Ratio.CulledLod3IsSub | 3rdparty/3dtk-1.2/include/show/show_Boctree.h:355-403 | the culled threshold walk draws an order-preserving selection of the unculled one |
| Ratio.CulledLod3Uncut | 3rdparty/3dtk-1.2/include/show/show_Boctree.h:355-403 | with nothing outside and every bucket visible, culling changes nothing |
| Sprites.VisibleSprite | 3rdparty/3dtk-1.2/include/show/show_Boctree.h:718-732 | a coarse child yields its one sprite iff its cell passes the frustum test, and nothing otherwise |
| Sprites.CPAllCulled | 3rdparty/3dtk-1.2/include/show/show_Boctree.h:658-665 | an outside cell draws nothing; an inside one draws what the unculled sprite walk draws |
| Sprites.CPAllCulledIsSub | 3rdparty/3dtk-1.2/include/show/show_Boctree.h:658-708 | the culled sprite walk draws an order-preserving selection of the unculled one |
| Sprites.CPAllCulledUncut | 3rdparty/3dtk-1.2/include/show/show_Boctree.h:658-751 | with nothing outside and every cell visible, culling changes nothing |
| Sprites.CPAllFullDetail | 3rdparty/3dtk-1.2/include/show/show_Boctree.h:710-751 | a threshold of zero or less draws every stored point as a vertex, in the exhaustive order |
| Sprites.CPAllCoarse | 3rdparty/3dtk-1.2/include/show/show_Boctree.h:715-732 | when every cell passes the frustum test, a threshold above the node's half-size draws one sprite per child, at the child cell's centre with its half-size, in storage order |
| Sprites.CAllCulled | 3rdparty/3dtk-1.2/include/show/show_Boctree.h:610-617 | an outside cell draws no outlines; an inside one draws what the unculled outline walk draws |
| Sprites.CAllCulledIsSub | 3rdparty/3dtk-1.2/include/show/show_Boctree.h:610-637 | the culled outline walk draws an order-preserving selection of the unculled one |
| Sprites.CAllCulledUncut | 3rdparty/3dtk-1.2/include/show/show_Boctree.h:610-655 | with nothing outside and every cell visible, culling changes nothing |
| Sprites.CAllOnePerBucket | 3rdparty/3dtk-1.2/include/show/show_Boctree.h:639-655 | with a threshold of zero or less, the outline walk draws one cube per stored bucket and nothing else |
| Sprites.CAllCoarse | 3rdparty/3dtk-1.2/include/show/show_Boctree.h:644-649 | a threshold above the node's half-size outlines exactly the child cells, in storage order |
| Selection.VisitedIsSub | 3rdparty/3dtk-1.2/include/show/show_Boctree.h:577-592 | the points a pick reaches are stored points, in the exhaustive order |
| Selection.VisitedAreMembers | 3rdparty/3dtk-1.2/include/show/show_Boctree.h:549-592 | every reached point is stored in the tree |
| Selection.SelectRay | 3rdparty/3dtk-1.2/include/show/show_Boctree.h:520-521 | above the depth limit, a ray missing the cell selects nothing |
| Selection.SelectRayWithinAll | 3rdparty/3dtk-1.2/include/show/show_Boctree.h:520-547 | the depth-gated pick selects stored points only |
| Selection.SelectRayMembers | 3rdparty/3dtk-1.2/include/show/show_Boctree.h:520-547 | the pick is a subset of the stored points, and all of them once the depth reaches the limit |
| Selection.SelectRayIsVisited | 3rdparty/3dtk-1.2/include/show/show_Boctree.h:520-547 | with a depth limit beyond the tree's height, the depth-gated pick selects exactly the points of the buckets the ray reaches |
| Selection.SelectRayAtLimit | 3rdparty/3dtk-1.2/include/show/show_Boctree.h:520-547 | once the depth reaches the limit, no box test is made and every stored point below is picked |
| Selection.SelectRayCoversVisited | 3rdparty/3dtk-1.2/include/show/show_Boctree.h:520-547 | every point the walk that applies the box test everywhere reaches is selected, whatever the depth limit |
| Selection.SelectRayDeeperLimit | 3rdparty/3dtk-1.2/include/show/show_Boctree.h:520-547 | raising the depth limit never selects more |
| Selection.SelectBrushSpec | 3rdparty/3dtk-1.2/include/show/show_Boctree.h:549-575 | a point is brush-selected iff the walk reaches it, its screen distance is below the brush size and its ray distance exceeds 100 |
| Selection.SelectBrushMonotone | 3rdparty/3dtk-1.2/include/show/show_Boctree.h:564 | a larger brush selects a superset, never beyond the stored points |
| Selection.Consider | 3rdparty/3dtk-1.2/include/show/show_Boctree.h:594-598 | a point replaces the current pick only when it qualifies and is strictly nearer than the bound, which then becomes its distance |
| Selection.ScanSpec | 3rdparty/3dtk-1.2/include/show/show_Boctree.h:593-600 | scanning points keeps the bound at or below every qualifying point's distance, and the pick is unchanged or the first qualifying point of least distance below the starting bound |
| Selection.ScanConcat | 3rdparty/3dtk-1.2/include/show/show_Boctree.h:584-607 | scanning two runs of points one after the other, carrying the pick over, is scanning them together |
| Selection.NearestIsScan | 3rdparty/3dtk-1.2/include/show/show_Boctree.h:577-608 | the corrected nearest pick is one scan over all reached points in traversal order |
| Selection.NearestSpec | 3rdparty/3dtk-1.2/include/show/show_Boctree.h:577-608 | the corrected pick is the first reached qualifying point of least ray distance, or the previous pick if none is nearer than the starting bound |
| Selection.NearestAsWrittenSound | 3rdparty/3dtk-1.2/include/show/show_Boctree.h:577-608 | as written, the pick is still the previous one or some reached qualifying point |
| Selection.NearestAsWrittenFinds | 3rdparty/3dtk-1.2/include/show/show_Boctree.h:577-608 | as written, once the ray reaches a qualifying point nearer than the starting bound, the pick is not empty |
| Selection.StaleBoundPicksFartherPoint | 3rdparty/3dtk-1.2/include/show/show_Boctree.h:603 | a two-child tree on which the as-written pick returns the farther point and the corrected pick the nearer one |
| Viewer.Create | 3rdparty/3dtk-1.2/include/show/show_Boctree.h:35-58 | construction calibrates the budget from the tree, starts in mode 0, and the calibration bounds the stored point count |
| Viewer.Cycle | 3rdparty/3dtk-1.2/include/show/show_Boctree.h:118-120 | `cycleLOD` moves to the next of the three modes, from mode 2 back to mode 0, and changes nothing else |
| Viewer.CycleThrice | 3rdparty/3dtk-1.2/include/show/show_Boctree.h:118-120 | three presses restore the viewer |
| Viewer.DrawLodDrawsStoredPoints | 3rdparty/3dtk-1.2/include/show/show_Boctree.h:66-77 | modes 0 and 1 draw stored points only, in the exhaustive order; mode 0 at most `maxtargetpoints * ratio` of them |
| Viewer.ScaledBudgetCovers | 3rdparty/3dtk-1.2/include/show/show_Boctree.h:70 | a ratio of at least 1 never shrinks the calibrated budget |
| Viewer.FullRatioBudget | 3rdparty/3dtk-1.2/include/show/show_Boctree.h:70 | with every cell worth detail and every bucket visible, mode 0's budget at a ratio of at least 1 draws what the culled exhaustive draw draws |
| Viewer.FullRatioDrawsAll | 3rdparty/3dtk-1.2/include/show/show_Boctree.h:66-101 | in mode 0 at a ratio of at least 1, with every cell worth detail and every bucket visible, `drawLOD` draws exactly what `draw` draws |
| Viewer.DefaultOutlineIsRootChildren | 3rdparty/3dtk-1.2/include/show/show_Boctree.h:103-105 | when nothing is culled, the default `FLT_MAX` threshold outlines only the root's child cells, whatever the tree's depth |
| Viewer.SelectRayPointsSpec | 3rdparty/3dtk-1.2/include/show/show_Boctree.h:110-112 | the set only grows, and only by stored points; a limit of zero or less adds them all; with a positive limit, a ray missing the root adds nothing; a limit above the tree's height (such as `INT_MAX`) adds exactly the points of the buckets the ray reaches |
| Viewer.SelectBrushPointsSpec | 3rdparty/3dtk-1.2/include/show/show_Boctree.h:107-109 | the brush adds exactly the reached points that pass its filter |
| Viewer.SelectNearestSpec | 3rdparty/3dtk-1.2/include/show/show_Boctree.h:113-115 | as written, the pick started at `FLT_MAX` is the selection passed in or a reached qualifying point, and it is not empty once the ray reaches a qualifying point nearer than `FLT_MAX`; it need not be the nearest one |
| Viewer.SelectNearestCorrectedSpec | 3rdparty/3dtk-1.2/include/show/show_Boctree.h:113-115 | with the bound threaded through, the pick is the first reached qualifying point of least ray distance, or the selection passed in when none is nearer than `FLT_MAX` |

## Left out

- Building the tree (the `BOctTree` constructors) is outside the model. The tree is an input; `BOctTree` is not part of this model.
- The scan colour manager registration and range updates in the constructors are left out. They do not affect what is drawn or selected.
- The geometry is modelled as oracle functions. This covers `CubeInFrustum2`, `CubeInFrustum`, `LOD`, `LOD2`, `PlaneAABB`, `HitBoundingBox`, `RayDist`, `ScreenDist` and `childcenter`, whose code lives outside this file.
- OpenGL state is left out: `glBegin`/`glEnd`, `glPointSize`, the point-parameter calls, line width and colours.
  - Each draw is an `Event`; a sprite carries its point size.
  - `showCube` is one `Cube` event for the cell; its 24 coloured vertices are not modelled.
- Colour choice is left out: `cm->setColor` and `pickPoint`.
- Whether the point-parameter extension is present (`WITH_GLEE`, `GLEE_ARB_point_parameters`) is the boolean `pointParams`.
- Floating point is modelled with exact reals.
  - The stride index is computed with floats (`each`, then `index - index % POINTDIM`). `Stride.SourceIndex` follows those steps in exact reals, where they give `floor(i * length / k)`. Float rounding could differ for very large buckets.
- Integer widths are unbounded. Wrap-around is not modelled for the `unsigned long` `maxtargetpoints`, the `long` budgets, the `int` footprint product `l*l`, or the `unsigned long` visible-point count.
- Calibration.MaxTargetPointsSpec: holds for the unbounded value and does not model 64-bit wrap-around, because trees holding near 2^64 points are not a realistic input.
- Exhaustive.CountVisibleAll: holds for the unbounded count and does not model 64-bit wrap-around, for the same reason.
- Ratio.Scale: states the truncation for the exact product; `l*l` overflowing an `int` for footprints above 46340 pixels is not modelled.
- The `(int)length` casts assume bucket lengths below 2^31.
- Empty buckets are left out: `Octree.WellFormed` requires every bucket to hold at least one point, as the tree builder produces them. The exhaustive draw, the visible-point count and the ray picks would accept an empty bucket unchanged; only the rules that draw a bucket's first point (lines 244-246, 337-339 and 385-387) read from a non-empty bucket.
- The stride sample models `POINTDIM` as 3, its value for plain `double` points. The index it reads does not depend on that value.
- The `l == 1` branch of the culled mode-1 leaf rule (lines 303-306) is left out. It cannot be reached after the two branches before it.
- The diagnostic `cout` at line 384 is left out. It cannot be reached, because `targetpts > 0` there.
- Viewer.DrawLodDrawsStoredPoints: covers modes 0 and 1 only. Mode 2 draws sprites rather than stored points; it is covered by the `Sprites` lemmas.

## Findings

| source | as written | input that shows it | evidently intended | confidence | as-written member | corrected member |
|---|---|---|---|---|---|---|
| 3rdparty/3dtk-1.2/include/show/show_Boctree.h:603 | The nearest-point pick passes `min` by value into the subtree, and the caller never learns the subtree's better bound. A later sibling bucket is then compared against the stale bound and can replace a nearer pick. | A root whose first child is a subtree holding `p1` at ray distance 200 and whose second child is a bucket holding `p2` at ray distance 300; every box is hit and both points are at screen distance 0. The as-written pick returns `p2`. | The qualifying reached point of least ray distance, here `p1` | not executed | Selection.NearestAsWritten, Selection.StaleBoundPicksFartherPoint, Viewer.SelectNearest | Selection.Nearest, Selection.NearestSpec, Viewer.SelectNearestCorrected, Viewer.SelectNearestCorrectedSpec |
