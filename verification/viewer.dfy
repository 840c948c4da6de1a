/** The viewer's public face (show_Boctree.h: the constructors, drawLOD,
    draw, displayOctTree, displayOctTreeCulled, cycleLOD and the public
    selection entry points): a tree with its root cell, the calibrated
    budget and the level-of-detail mode, and what each entry point draws or
    selects. */
module Viewer {
  import opened Numeric
  import opened Seqs
  import opened Options
  import opened Geometry
  import opened Octree
  import opened Exhaustive
  import opened Calibration
  import opened Budget
  import opened Ratio
  import opened Sprites
  import opened Selection

  /** `INT_MAX`, the default depth limit of the ray pick. */
  const IntMax: int := 0x7fff_ffff

  /** The state the viewer keeps: the tree, its root cell, its depth, the
      budget at which mode 0 draws every visible point of cells worth
      detail, and the mode counter (an
      `unsigned int`). */
  datatype ShowTree = ShowTree(root: Node, cell: Cell, maxDepth: int, maxTarget: nat, mode: nat)

  ghost predicate Valid(v: ShowTree)
  {
    && WellFormed(v.root)
    && v.maxTarget == MaxTargetPoints(v.root)
    && v.mode < 0x1_0000_0000
  }

  /** What both constructors do once the tree is built: calibrate the
      budget and start in mode 0. */
  function Create(root: Node, cell: Cell, maxDepth: int): (v: ShowTree)
    requires WellFormed(root)
    ensures Valid(v) && v.mode == 0
    ensures v.root == root && v.cell == cell && v.maxDepth == maxDepth
    ensures |All(root)| <= v.maxTarget
  {
    AllWithinMaxTarget(root);
    ShowTree(root, cell, maxDepth, MaxTargetPoints(root), 0)
  }

  /** `cycleLOD`: the next of the three modes; nothing else changes. */
  function Cycle(v: ShowTree): (r: ShowTree)
    requires Valid(v)
    ensures Valid(r) && r.mode < 3
    ensures r == v.(mode := r.mode)
    ensures v.mode < 2 ==> r.mode == v.mode + 1
    ensures v.mode == 2 ==> r.mode == 0
  {
    v.(mode := CycleLod(v.mode))
  }

  /** Three presses bring a viewer back to the mode it was in. */
  lemma CycleThrice(v: ShowTree)
    requires Valid(v) && v.mode < 3
    ensures Cycle(Cycle(Cycle(v))) == v
  {
    CycleLodPeriod(v.mode);
  }

  /** The budget mode 0 spends: `maxtargetpoints * ratio`, truncated. */
  function ModeZeroBudget(v: ShowTree, ratio: real): int
  {
    Trunc(v.maxTarget as real * ratio)
  }

  /** `drawLOD(ratio)`. Mode 0 spends `maxtargetpoints * ratio` points,
      truncated to an integer; mode 1 scales each cell's footprint by
      `ratio`; mode 2 draws sprites below a threshold computed from `ratio`,
      and only when the point-parameter extension is available
      (`pointParams`); any other mode draws nothing. */
  function DrawLod(o: Oracles, v: ShowTree, ratio: real, pointParams: bool): seq<Event>
    requires Valid(v)
  {
    if v.mode == 0 then Vertices(CulledLod(o, v.root, v.cell, ModeZeroBudget(v, ratio)))
    else if v.mode == 1 then Vertices(CulledLod2(o, v.root, v.cell, ratio))
    else if v.mode == 2 && pointParams then CPAllCulled(o, v.root, v.cell, SpriteMinSize(v.cell.size, ratio, v.maxDepth))
    else []
  }

  /** `draw()`: every point of every cell not culled. */
  function Draw(o: Oracles, v: ShowTree): seq<Event>
    requires Valid(v)
  {
    Vertices(AllCulled(o, v.root, v.cell))
  }

  /** `displayOctTree(minsize)`: the cell outlines. */
  function DisplayOctTree(o: Oracles, v: ShowTree, minsize: real): seq<Event>
    requires Valid(v)
  {
    CAllCulled(o, v.root, v.cell, minsize)
  }

  /** `displayOctTreeCulled(targetpts)`: mode 0 with an explicit budget. */
  function DisplayCulled(o: Oracles, v: ShowTree, target: int): seq<Event>
    requires Valid(v)
  {
    Vertices(CulledLod(o, v.root, v.cell, target))
  }

  /** Vertices of a sub-selection are a sub-selection of the vertices. */
  lemma VerticesSub(a: seq<Point>, b: seq<Point>)
    requires Sub(a, b)
    ensures Sub(Vertices(a), Vertices(b))
  {
    var idx :| Embeds(idx, a, b);
    assert Embeds(idx, Vertices(a), Vertices(b));
  }

  /** Mode 0's points are stored points in traversal order, at most the
      budget of them. */
  lemma CulledLodStoredPoints(o: Oracles, n: Node, cell: Cell, t: int)
    requires WellFormed(n)
    ensures Sub(Vertices(CulledLod(o, n, cell, t)), Vertices(All(n)))
    ensures |CulledLod(o, n, cell, t)| <= Max(t, 0)
  {
    CulledLodIsSub(o, n, cell, t);
    LodIsSub(o, n, cell, t);
    SubTrans(CulledLod(o, n, cell, t), Lod(o, n, cell, t), All(n));
    VerticesSub(CulledLod(o, n, cell, t), All(n));
    CulledLodWithinBudget(o, n, cell, t);
  }

  /** Mode 1's points are stored points in traversal order. */
  lemma CulledLod2StoredPoints(o: Oracles, n: Node, cell: Cell, ratio: real)
    requires WellFormed(n)
    ensures Sub(Vertices(CulledLod2(o, n, cell, ratio)), Vertices(All(n)))
  {
    CulledLod2IsSub(o, n, cell, ratio);
    VerticesSub(CulledLod2(o, n, cell, ratio), All(n));
  }

  /** Modes 0 and 1 draw stored points only, each at most as often as it is
      stored, in the order of the exhaustive traversal; mode 0 draws at most
      its budget. */
  lemma DrawLodDrawsStoredPoints(o: Oracles, v: ShowTree, ratio: real, pointParams: bool)
    requires Valid(v) && v.mode < 2
    ensures Sub(DrawLod(o, v, ratio, pointParams), Vertices(All(v.root)))
    ensures v.mode == 0 ==> |DrawLod(o, v, ratio, pointParams)| <= Max(ModeZeroBudget(v, ratio), 0)
  {
    DrawLodUnfold(o, v, ratio, pointParams);
    if v.mode == 0 {
      CulledLodStoredPoints(o, v.root, v.cell, ModeZeroBudget(v, ratio));
    } else {
      CulledLod2StoredPoints(o, v.root, v.cell, ratio);
    }
  }

  /** A ratio of at least 1 never shrinks the calibrated budget. */
  lemma ScaledBudgetCovers(m: nat, ratio: real)
    requires ratio >= 1.0
    ensures Trunc(m as real * ratio) >= m
  {
    var x := m as real;
    assert x <= x * ratio by {
      assert x * ratio - x == x * (ratio - 1.0);
    }
    TruncMonotone(x, x * ratio);
  }

  lemma DrawLodUnfold(o: Oracles, v: ShowTree, ratio: real, pointParams: bool)
    requires Valid(v)
    ensures v.mode == 0 ==> DrawLod(o, v, ratio, pointParams) == Vertices(CulledLod(o, v.root, v.cell, ModeZeroBudget(v, ratio)))
    ensures v.mode == 1 ==> DrawLod(o, v, ratio, pointParams) == Vertices(CulledLod2(o, v.root, v.cell, ratio))
  {
  }

  /** At a ratio of at least 1, mode 0's budget is the calibrated one or
      more, so with every cell worth detail and every bucket visible it
      draws what the culled exhaustive traversal draws. */
  lemma FullRatioBudget(o: Oracles, v: ShowTree, ratio: real)
    requires Valid(v) && ratio >= 1.0 && AllWorthDetail(o) && AlwaysVisible(o)
    ensures CulledLod(o, v.root, v.cell, ModeZeroBudget(v, ratio)) == AllCulled(o, v.root, v.cell)
  {
    var t := ModeZeroBudget(v, ratio);
    ScaledBudgetCovers(v.maxTarget, ratio);
    assert t >= v.maxTarget;
    CulledLodFullBudget(o, v.root, v.cell, t);
  }

  /** The calibration is what makes ratio 1 mean "everything": in mode 0 at
      a ratio of at least 1, with every cell worth detail and every bucket
      visible, `drawLOD` draws exactly what `draw` draws. */
  lemma FullRatioDrawsAll(o: Oracles, v: ShowTree, ratio: real, pointParams: bool)
    requires Valid(v) && v.mode == 0 && ratio >= 1.0
    requires AllWorthDetail(o) && AlwaysVisible(o)
    ensures DrawLod(o, v, ratio, pointParams) == Draw(o, v)
  {
    DrawLodUnfold(o, v, ratio, pointParams);
    FullRatioBudget(o, v, ratio);
  }

  /** `displayOctTree()` with its default threshold `FLT_MAX` outlines only
      the cells of the root's children (nothing culled, a root cell smaller
      than `FLT_MAX`). */
  lemma DefaultOutlineIsRootChildren(o: Oracles, v: ShowTree)
    requires Valid(v) && NeverOutside(o) && AlwaysVisible(o) && v.cell.size < FltMax
    ensures DisplayOctTree(o, v, FltMax) == CubesOf(ChildCells(o, v.root, v.cell))
  {
    CAllCulledUncut(o, v.root, v.cell, FltMax);
    CAllCoarse(o, v.root, v.cell, FltMax);
  }

  /** `selectRay(points, depth)`: the picked points are added to the set
      passed in. */
  function SelectRayPoints(o: Oracles, v: ShowTree, selected: set<Point>, depth: int): set<Point>
    requires Valid(v)
  {
    selected + SelectRay(o, v.root, v.cell, depth, 0)
  }

  /** The set only grows, and only by stored points; a depth limit of zero
      or less adds every stored point; with any positive limit, the default
      `INT_MAX` among them, a ray missing the root cell adds nothing; and a
      limit beyond the tree's height, as `INT_MAX` is for any real tree,
      adds exactly the points of the buckets the ray reaches. */
  lemma SelectRayPointsSpec(o: Oracles, v: ShowTree, selected: set<Point>, depth: int)
    requires Valid(v)
    ensures selected <= SelectRayPoints(o, v, selected, depth) <= selected + Members(v.root)
    ensures depth <= 0 ==> SelectRayPoints(o, v, selected, depth) == selected + Members(v.root)
    ensures 0 < depth <= IntMax && !o.hitsBox(v.cell) ==> SelectRayPoints(o, v, selected, depth) == selected
    ensures Height(v.root) < depth <= IntMax ==>
      SelectRayPoints(o, v, selected, depth) == selected + set p | p in Visited(o, v.root, v.cell, true)
  {
    SelectRayMembers(o, v.root, v.cell, depth, 0);
    if Height(v.root) < depth {
      SelectRayIsVisited(o, v.root, v.cell, depth, 0);
    }
  }

  /** `selectRayBrushSize(points, brushsize)`. */
  function SelectBrushPoints(o: Oracles, v: ShowTree, selected: set<Point>, brush: int): set<Point>
    requires Valid(v)
  {
    selected + SelectBrush(o, v.root, v.cell, brush)
  }

  /** The brush adds exactly the reached points that pass its filter. */
  lemma SelectBrushPointsSpec(o: Oracles, v: ShowTree, selected: set<Point>, brush: int)
    requires Valid(v)
    ensures forall p :: p in SelectBrushPoints(o, v, selected, brush) <==>
      p in selected || (p in Visited(o, v.root, v.cell, false) && BrushHit(o, p, brush))
  {
    SelectBrushSpec(o, v.root, v.cell, brush);
  }

  /** `selectRay(point)`: the nearest-point pick started at `FLT_MAX`, as
      the program runs it, with the bound passed by value into every
      subtree. The selection passed in is kept when no point replaces it. */
  function SelectNearest(o: Oracles, v: ShowTree, sel: Option<Point>): Option<Point>
    requires Valid(v)
  {
    NearestAsWritten(o, v.root, v.cell, Best(sel, FltMax))
  }

  /** The pick is the selection passed in or a qualifying point the ray
      reaches, and it is not empty once the ray reaches a qualifying point
      nearer than `FLT_MAX`. It need not be the nearest such point, see
      `StaleBoundPicksFartherPoint`. */
  lemma SelectNearestSpec(o: Oracles, v: ShowTree, sel: Option<Point>)
    requires Valid(v)
    ensures var r := SelectNearest(o, v, sel); var vs := Visited(o, v.root, v.cell, true);
      && (r == sel || (r.Some? && r.value in vs && Qualifies(o, r.value)))
      && (forall q :: q in vs && Qualifies(o, q) && o.rayDist(q) < FltMax ==> r.Some?)
  {
    NearestAsWrittenSound(o, v.root, v.cell, Best(sel, FltMax));
    forall q | q in Visited(o, v.root, v.cell, true) && Qualifies(o, q) && o.rayDist(q) < FltMax
      ensures SelectNearest(o, v, sel).Some?
    {
      NearestAsWrittenFinds(o, v.root, v.cell, Best(sel, FltMax), q);
    }
  }

  /** The intended `selectRay(point)`: the same pick with the bound
      threaded through the whole traversal. */
  function SelectNearestCorrected(o: Oracles, v: ShowTree, sel: Option<Point>): Option<Point>
    requires Valid(v)
  {
    Nearest(o, v.root, v.cell, Best(sel, FltMax)).sel
  }

  /** The corrected pick is the first qualifying reached point nearest along
      the ray, or the selection passed in when no qualifying point is
      nearer than `FLT_MAX`. */
  lemma SelectNearestCorrectedSpec(o: Oracles, v: ShowTree, sel: Option<Point>)
    requires Valid(v)
    ensures var r := SelectNearestCorrected(o, v, sel); var vs := Visited(o, v.root, v.cell, true);
      || (r == sel && forall q :: q in vs && Qualifies(o, q) ==> FltMax <= o.rayDist(q))
      || exists i :: FirstNearest(o, vs, i, FltMax) && r == Some(vs[i])
  {
    NearestSpec(o, v.root, v.cell, Best(sel, FltMax));
  }
}
