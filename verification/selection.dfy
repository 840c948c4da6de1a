/** Picking points with the mouse ray (show_Boctree.h: the three
    `selectRay` overloads and `selectRayBrushSize`, with their recursive
    workers `selectRay` and `selectRayBS`).

    The ray tests are oracles: `hitsBox` for a cell, `rayDist` and
    `screenDist` for a point. Note that the leaf test of every picker uses
    the box of the child's centre with the PARENT's half-size (`PickBox`). */
module Selection {
  import opened Bits
  import opened Geometry
  import opened Octree
  import opened Seqs
  import opened Options
  import opened Exhaustive

  /** `FLT_MAX`, the starting distance of the nearest-point pick. */
  const FltMax: real := 340282346638528859811704183484516925440.0

  // ---------------------------------------------------------------------
  // The points a picker looks at

  /** The points of every bucket whose pick box the ray meets, in traversal
      order; with `testNodes`, the descent also stops at nodes whose own box
      the ray misses (as the nearest-point pick does), without it the
      descent is unconditional (as the brush pick does). */
  function Visited(o: Oracles, n: Node, cell: Cell, testNodes: bool): seq<Point>
    requires WellFormed(n)
    decreases n, 1
  {
    if testNodes && !o.hitsBox(cell) then [] else VisitedFrom(o, n, cell, testNodes, 0)
  }

  function VisitedFrom(o: Oracles, n: Node, cell: Cell, testNodes: bool, j: nat): seq<Point>
    requires WellFormed(n) && j <= |n.children|
    decreases n, 0, |n.children| - j
  {
    if j == |n.children| then []
    else VisitedAt(o, n, cell, testNodes, j) + VisitedFrom(o, n, cell, testNodes, j + 1)
  }

  function VisitedAt(o: Oracles, n: Node, cell: Cell, testNodes: bool, j: nat): seq<Point>
    requires WellFormed(n) && j < |n.children|
    decreases n, 0, 0
  {
    match SlotAt(n, j)
    case LeafSlot(oct, ps) => if o.hitsBox(PickBox(o, cell, oct)) then ps else []
    case NodeSlot(oct, m) => Visited(o, m, ChildCell(o, cell, oct), testNodes)
  }

  /** The visited points are stored points, in storage order. */
  lemma {:induction false} VisitedIsSub(o: Oracles, n: Node, cell: Cell, testNodes: bool)
    requires WellFormed(n)
    ensures Sub(Visited(o, n, cell, testNodes), All(n))
    decreases n, 1
  {
    if testNodes && !o.hitsBox(cell) {
      SubEmpty(All(n));
    } else {
      VisitedFromIsSub(o, n, cell, testNodes, 0);
    }
  }

  lemma {:induction false} VisitedFromIsSub(o: Oracles, n: Node, cell: Cell, testNodes: bool, j: nat)
    requires WellFormed(n) && j <= |n.children|
    ensures Sub(VisitedFrom(o, n, cell, testNodes, j), AllFrom(n, j))
    decreases n, 0, |n.children| - j
  {
    if j < |n.children| {
      VisitedFromIsSub(o, n, cell, testNodes, j + 1);
      VisitedAtIsSub(o, n, cell, testNodes, j);
      SubConcat(VisitedAt(o, n, cell, testNodes, j), AllAt(n, j),
                VisitedFrom(o, n, cell, testNodes, j + 1), AllFrom(n, j + 1));
    } else {
      SubEmpty(AllFrom(n, j));
    }
  }

  lemma {:induction false} VisitedAtIsSub(o: Oracles, n: Node, cell: Cell, testNodes: bool, j: nat)
    requires WellFormed(n) && j < |n.children|
    ensures Sub(VisitedAt(o, n, cell, testNodes, j), AllAt(n, j))
    decreases n, 0, 0
  {
    match SlotAt(n, j)
    case LeafSlot(oct, ps) =>
      if o.hitsBox(PickBox(o, cell, oct)) { SubRefl(ps); } else { SubEmpty(ps); }
    case NodeSlot(oct, m) => VisitedIsSub(o, m, ChildCell(o, cell, oct), testNodes);
  }

  /** A visited point is a stored point. */
  lemma VisitedAreMembers(o: Oracles, n: Node, cell: Cell, testNodes: bool)
    requires WellFormed(n)
    ensures forall p :: p in Visited(o, n, cell, testNodes) ==> p in Members(n)
  {
    VisitedIsSub(o, n, cell, testNodes);
    SubMultiset(Visited(o, n, cell, testNodes), All(n));
    AllIsExhaustive(n);
  }

  // ---------------------------------------------------------------------
  // Ray pick with a depth limit

  /** `selectRay(set, node, center, size, max_depth, depth)`: above the
      depth limit, a node whose box the ray misses is skipped and a bucket
      is taken only when the ray meets its pick box; at the limit, every
      test is dropped and everything below is taken. */
  function SelectRay(o: Oracles, n: Node, cell: Cell, maxDepth: int, depth: int): (r: set<Point>)
    requires WellFormed(n)
    ensures depth < maxDepth && !o.hitsBox(cell) ==> r == {}
    decreases n, 1
  {
    if depth < maxDepth && !o.hitsBox(cell) then {} else SelectRayFrom(o, n, cell, maxDepth, depth, 0)
  }

  function SelectRayFrom(o: Oracles, n: Node, cell: Cell, maxDepth: int, depth: int, j: nat): set<Point>
    requires WellFormed(n) && j <= |n.children|
    decreases n, 0, |n.children| - j
  {
    if j == |n.children| then {}
    else SelectRayAt(o, n, cell, maxDepth, depth, j) + SelectRayFrom(o, n, cell, maxDepth, depth, j + 1)
  }

  function SelectRayAt(o: Oracles, n: Node, cell: Cell, maxDepth: int, depth: int, j: nat): set<Point>
    requires WellFormed(n) && j < |n.children|
    decreases n, 0, 0
  {
    match SlotAt(n, j)
    case LeafSlot(oct, ps) =>
      if !(depth + 1 < maxDepth) || o.hitsBox(PickBox(o, cell, oct)) then (set p | p in ps) else {}
    case NodeSlot(oct, m) => SelectRay(o, m, ChildCell(o, cell, oct), maxDepth, depth + 1)
  }

  /** Above the depth limit the pick is exactly the ray-tested one: when
      the limit lies below every bucket of the tree, the depth-gated pick
      takes precisely the points of the buckets whose pick box the ray
      meets under nodes whose box it meets, and no other. */
  lemma {:induction false} SelectRayIsVisited(o: Oracles, n: Node, cell: Cell, maxDepth: int, depth: int)
    requires WellFormed(n) && depth + Height(n) < maxDepth
    ensures SelectRay(o, n, cell, maxDepth, depth) == set p | p in Visited(o, n, cell, true)
    decreases n, 1
  {
    if o.hitsBox(cell) {
      SelectRayFromIsVisited(o, n, cell, maxDepth, depth, 0);
    }
  }

  lemma {:induction false} SelectRayFromIsVisited(o: Oracles, n: Node, cell: Cell, maxDepth: int, depth: int, j: nat)
    requires WellFormed(n) && j <= |n.children| && depth + 1 + HeightFrom(n, j) < maxDepth
    ensures SelectRayFrom(o, n, cell, maxDepth, depth, j) == set p | p in VisitedFrom(o, n, cell, true, j)
    decreases n, 0, |n.children| - j
  {
    if j < |n.children| {
      SelectRayFromIsVisited(o, n, cell, maxDepth, depth, j + 1);
      SelectRayAtIsVisited(o, n, cell, maxDepth, depth, j);
      SelectRayFromSplit(o, n, cell, maxDepth, depth, j);
      VisitedFromSplit(o, n, cell, j);
      ElementsConcat(VisitedAt(o, n, cell, true, j), VisitedFrom(o, n, cell, true, j + 1));
    }
  }

  lemma SelectRayFromSplit(o: Oracles, n: Node, cell: Cell, maxDepth: int, depth: int, j: nat)
    requires WellFormed(n) && j < |n.children|
    ensures SelectRayFrom(o, n, cell, maxDepth, depth, j)
         == SelectRayAt(o, n, cell, maxDepth, depth, j) + SelectRayFrom(o, n, cell, maxDepth, depth, j + 1)
  {
  }

  lemma VisitedFromSplit(o: Oracles, n: Node, cell: Cell, j: nat)
    requires WellFormed(n) && j < |n.children|
    ensures VisitedFrom(o, n, cell, true, j) == VisitedAt(o, n, cell, true, j) + VisitedFrom(o, n, cell, true, j + 1)
  {
  }

  lemma {:induction false} SelectRayAtIsVisited(o: Oracles, n: Node, cell: Cell, maxDepth: int, depth: int, j: nat)
    requires WellFormed(n) && j < |n.children| && depth + 1 + HeightAt(n, j) < maxDepth
    ensures SelectRayAt(o, n, cell, maxDepth, depth, j) == set p | p in VisitedAt(o, n, cell, true, j)
    decreases n, 0, 0
  {
    match SlotAt(n, j)
    case LeafSlot(_, _) =>
    case NodeSlot(oct, m) => SelectRayIsVisited(o, m, ChildCell(o, cell, oct), maxDepth, depth + 1);
  }

  /** Only stored points are picked. */
  lemma {:induction false} SelectRayWithinAll(o: Oracles, n: Node, cell: Cell, maxDepth: int, depth: int)
    requires WellFormed(n)
    ensures forall p :: p in SelectRay(o, n, cell, maxDepth, depth) ==> p in All(n)
    decreases n, 1
  {
    if !(depth < maxDepth && !o.hitsBox(cell)) {
      SelectRayFromWithinAll(o, n, cell, maxDepth, depth, 0);
    }
  }

  lemma {:induction false} SelectRayFromWithinAll(o: Oracles, n: Node, cell: Cell, maxDepth: int, depth: int, j: nat)
    requires WellFormed(n) && j <= |n.children|
    ensures forall p :: p in SelectRayFrom(o, n, cell, maxDepth, depth, j) ==> p in AllFrom(n, j)
    decreases n, 0, |n.children| - j
  {
    if j < |n.children| {
      SelectRayFromWithinAll(o, n, cell, maxDepth, depth, j + 1);
      SelectRayAtWithinAll(o, n, cell, maxDepth, depth, j);
    }
  }

  lemma {:induction false} SelectRayAtWithinAll(o: Oracles, n: Node, cell: Cell, maxDepth: int, depth: int, j: nat)
    requires WellFormed(n) && j < |n.children|
    ensures forall p :: p in SelectRayAt(o, n, cell, maxDepth, depth, j) ==> p in AllAt(n, j)
    decreases n, 0, 0
  {
    match SlotAt(n, j)
    case LeafSlot(_, _) =>
    case NodeSlot(oct, m) => SelectRayWithinAll(o, m, ChildCell(o, cell, oct), maxDepth, depth + 1);
  }

  /** At or below the depth limit, every stored point is picked. */
  lemma {:induction false} SelectRayAtLimit(o: Oracles, n: Node, cell: Cell, maxDepth: int, depth: int)
    requires WellFormed(n) && depth >= maxDepth
    ensures forall p :: p in All(n) ==> p in SelectRay(o, n, cell, maxDepth, depth)
    decreases n, 1
  {
    SelectRayFromAtLimit(o, n, cell, maxDepth, depth, 0);
  }

  lemma {:induction false} SelectRayFromAtLimit(o: Oracles, n: Node, cell: Cell, maxDepth: int, depth: int, j: nat)
    requires WellFormed(n) && depth >= maxDepth && j <= |n.children|
    ensures forall p :: p in AllFrom(n, j) ==> p in SelectRayFrom(o, n, cell, maxDepth, depth, j)
    decreases n, 0, |n.children| - j
  {
    if j < |n.children| {
      SelectRayFromAtLimit(o, n, cell, maxDepth, depth, j + 1);
      SelectRayAtAtLimit(o, n, cell, maxDepth, depth, j);
    }
  }

  lemma {:induction false} SelectRayAtAtLimit(o: Oracles, n: Node, cell: Cell, maxDepth: int, depth: int, j: nat)
    requires WellFormed(n) && depth >= maxDepth && j < |n.children|
    ensures forall p :: p in AllAt(n, j) ==> p in SelectRayAt(o, n, cell, maxDepth, depth, j)
    decreases n, 0, 0
  {
    match SlotAt(n, j)
    case LeafSlot(_, _) =>
    case NodeSlot(oct, m) => SelectRayAtLimit(o, m, ChildCell(o, cell, oct), maxDepth, depth + 1);
  }

  /** The ray pick takes stored points only, and at the depth limit it takes
      all of them. */
  lemma SelectRayMembers(o: Oracles, n: Node, cell: Cell, maxDepth: int, depth: int)
    requires WellFormed(n)
    ensures SelectRay(o, n, cell, maxDepth, depth) <= Members(n)
    ensures depth >= maxDepth ==> SelectRay(o, n, cell, maxDepth, depth) == Members(n)
  {
    SelectRayWithinAll(o, n, cell, maxDepth, depth);
    AllIsExhaustive(n);
    if depth >= maxDepth {
      SelectRayAtLimit(o, n, cell, maxDepth, depth);
    }
  }

  /** Every point the ray reaches through hit boxes is picked, whatever the
      depth limit: the limit only drops tests. */
  lemma {:induction false} SelectRayCoversVisited(o: Oracles, n: Node, cell: Cell, maxDepth: int, depth: int)
    requires WellFormed(n)
    ensures forall p :: p in Visited(o, n, cell, true) ==> p in SelectRay(o, n, cell, maxDepth, depth)
    decreases n, 1
  {
    if o.hitsBox(cell) || depth >= maxDepth {
      SelectRayFromCoversVisited(o, n, cell, maxDepth, depth, 0);
    }
    if !o.hitsBox(cell) {
      assert Visited(o, n, cell, true) == [];
    }
  }

  lemma {:induction false} SelectRayFromCoversVisited(o: Oracles, n: Node, cell: Cell, maxDepth: int, depth: int, j: nat)
    requires WellFormed(n) && j <= |n.children|
    ensures forall p :: p in VisitedFrom(o, n, cell, true, j) ==> p in SelectRayFrom(o, n, cell, maxDepth, depth, j)
    decreases n, 0, |n.children| - j
  {
    if j < |n.children| {
      SelectRayFromCoversVisited(o, n, cell, maxDepth, depth, j + 1);
      SelectRayAtCoversVisited(o, n, cell, maxDepth, depth, j);
    }
  }

  lemma {:induction false} SelectRayAtCoversVisited(o: Oracles, n: Node, cell: Cell, maxDepth: int, depth: int, j: nat)
    requires WellFormed(n) && j < |n.children|
    ensures forall p :: p in VisitedAt(o, n, cell, true, j) ==> p in SelectRayAt(o, n, cell, maxDepth, depth, j)
    decreases n, 0, 0
  {
    match SlotAt(n, j)
    case LeafSlot(_, _) =>
    case NodeSlot(oct, m) => SelectRayCoversVisited(o, m, ChildCell(o, cell, oct), maxDepth, depth + 1);
  }

  /** A deeper limit keeps more tests in force, so it never picks more. */
  lemma {:induction false} SelectRayDeeperLimit(o: Oracles, n: Node, cell: Cell, d1: int, d2: int, depth: int)
    requires WellFormed(n) && d1 <= d2
    ensures SelectRay(o, n, cell, d2, depth) <= SelectRay(o, n, cell, d1, depth)
    decreases n, 1
  {
    if !(depth < d2 && !o.hitsBox(cell)) {
      SelectRayFromDeeperLimit(o, n, cell, d1, d2, depth, 0);
    }
  }

  lemma {:induction false} SelectRayFromDeeperLimit(o: Oracles, n: Node, cell: Cell, d1: int, d2: int, depth: int, j: nat)
    requires WellFormed(n) && d1 <= d2 && j <= |n.children|
    ensures SelectRayFrom(o, n, cell, d2, depth, j) <= SelectRayFrom(o, n, cell, d1, depth, j)
    decreases n, 0, |n.children| - j
  {
    if j < |n.children| {
      SelectRayFromDeeperLimit(o, n, cell, d1, d2, depth, j + 1);
      SelectRayAtDeeperLimit(o, n, cell, d1, d2, depth, j);
    }
  }

  lemma {:induction false} SelectRayAtDeeperLimit(o: Oracles, n: Node, cell: Cell, d1: int, d2: int, depth: int, j: nat)
    requires WellFormed(n) && d1 <= d2 && j < |n.children|
    ensures SelectRayAt(o, n, cell, d2, depth, j) <= SelectRayAt(o, n, cell, d1, depth, j)
    decreases n, 0, 0
  {
    match SlotAt(n, j)
    case LeafSlot(_, _) =>
    case NodeSlot(oct, m) => SelectRayDeeperLimit(o, m, ChildCell(o, cell, oct), d1, d2, depth + 1);
  }

  // ---------------------------------------------------------------------
  // Brush pick

  /** The brush filter: within `brush` pixels of the ray on screen and more
      than 100 units along it. */
  predicate BrushHit(o: Oracles, p: Point, brush: int)
  {
    o.screenDist(p) < brush as real && o.rayDist(p) > 100.0
  }

  /** `selectRayBS`: no test on nodes; a bucket whose pick box the ray
      meets contributes the points that pass the brush filter. */
  function SelectBrush(o: Oracles, n: Node, cell: Cell, brush: int): set<Point>
    requires WellFormed(n)
    decreases n, 1
  {
    SelectBrushFrom(o, n, cell, brush, 0)
  }

  function SelectBrushFrom(o: Oracles, n: Node, cell: Cell, brush: int, j: nat): set<Point>
    requires WellFormed(n) && j <= |n.children|
    decreases n, 0, |n.children| - j
  {
    if j == |n.children| then {}
    else SelectBrushAt(o, n, cell, brush, j) + SelectBrushFrom(o, n, cell, brush, j + 1)
  }

  function SelectBrushAt(o: Oracles, n: Node, cell: Cell, brush: int, j: nat): set<Point>
    requires WellFormed(n) && j < |n.children|
    decreases n, 0, 0
  {
    match SlotAt(n, j)
    case LeafSlot(oct, ps) =>
      if o.hitsBox(PickBox(o, cell, oct)) then (set p | p in ps && BrushHit(o, p, brush)) else {}
    case NodeSlot(oct, m) => SelectBrush(o, m, ChildCell(o, cell, oct), brush)
  }

  /** The brush pick is exactly the points visited without node tests that
      pass the brush filter. */
  lemma {:induction false} SelectBrushSpec(o: Oracles, n: Node, cell: Cell, brush: int)
    requires WellFormed(n)
    ensures forall p :: p in SelectBrush(o, n, cell, brush) <==> p in Visited(o, n, cell, false) && BrushHit(o, p, brush)
    decreases n, 1
  {
    SelectBrushFromSpec(o, n, cell, brush, 0);
  }

  lemma {:induction false} SelectBrushFromSpec(o: Oracles, n: Node, cell: Cell, brush: int, j: nat)
    requires WellFormed(n) && j <= |n.children|
    ensures forall p :: p in SelectBrushFrom(o, n, cell, brush, j) <==> p in VisitedFrom(o, n, cell, false, j) && BrushHit(o, p, brush)
    decreases n, 0, |n.children| - j
  {
    if j < |n.children| {
      SelectBrushFromSpec(o, n, cell, brush, j + 1);
      SelectBrushAtSpec(o, n, cell, brush, j);
    }
  }

  lemma {:induction false} SelectBrushAtSpec(o: Oracles, n: Node, cell: Cell, brush: int, j: nat)
    requires WellFormed(n) && j < |n.children|
    ensures forall p :: p in SelectBrushAt(o, n, cell, brush, j) <==> p in VisitedAt(o, n, cell, false, j) && BrushHit(o, p, brush)
    decreases n, 0, 0
  {
    match SlotAt(n, j)
    case LeafSlot(_, _) =>
    case NodeSlot(oct, m) => SelectBrushSpec(o, m, ChildCell(o, cell, oct), brush);
  }

  /** A wider brush picks at least what a narrower one picks, and only
      stored points. */
  lemma SelectBrushMonotone(o: Oracles, n: Node, cell: Cell, b1: int, b2: int)
    requires WellFormed(n) && b1 <= b2
    ensures SelectBrush(o, n, cell, b1) <= SelectBrush(o, n, cell, b2)
    ensures SelectBrush(o, n, cell, b2) <= Members(n)
  {
    SelectBrushSpec(o, n, cell, b1);
    SelectBrushSpec(o, n, cell, b2);
    VisitedAreMembers(o, n, cell, false);
  }

  // ---------------------------------------------------------------------
  // Nearest-point pick

  /** The state of the nearest-point pick: the point selected so far and
      the distance a new point must beat. */
  datatype Best = Best(sel: Option<Point>, min: real)

  /** A point may be picked when it is within 5 pixels of the ray on screen
      and more than 100 units along it. */
  predicate Qualifies(o: Oracles, p: Point)
  {
    o.screenDist(p) < 5.0 && o.rayDist(p) > 100.0
  }

  /** One step of the bucket loop: a qualifying point strictly nearer than
      the current bound replaces the selection. */
  function Consider(o: Oracles, p: Point, b: Best): (r: Best)
    ensures r == b || (r == Best(Some(p), o.rayDist(p)) && Qualifies(o, p) && o.rayDist(p) < b.min)
  {
    var d := o.rayDist(p);
    if b.min > d && Qualifies(o, p) then Best(Some(p), d) else b
  }

  /** The bucket loop: the points considered in storage order. */
  function Scan(o: Oracles, ps: seq<Point>, b: Best): Best
    decreases |ps|
  {
    if ps == [] then b else Scan(o, ps[1..], Consider(o, ps[0], b))
  }

  /** `ps[i]` is the first qualifying point of `ps` nearest along the ray,
      and it beats `bound`. */
  ghost predicate FirstNearest(o: Oracles, ps: seq<Point>, i: int, bound: real)
  {
    && 0 <= i < |ps|
    && Qualifies(o, ps[i]) && o.rayDist(ps[i]) < bound
    && (forall k :: 0 <= k < |ps| && Qualifies(o, ps[k]) ==> o.rayDist(ps[i]) <= o.rayDist(ps[k]))
    && (forall k :: 0 <= k < i && Qualifies(o, ps[k]) ==> o.rayDist(ps[i]) < o.rayDist(ps[k]))
  }

  /** Scanning a sequence either leaves the state unchanged, when no
      qualifying point beats the bound, or selects the first qualifying
      point nearest along the ray. */
  lemma {:induction false} ScanSpec(o: Oracles, ps: seq<Point>, b: Best)
    ensures var r := Scan(o, ps, b);
      && r.min <= b.min
      && (forall q :: q in ps && Qualifies(o, q) ==> r.min <= o.rayDist(q))
      && (r == b || exists i :: FirstNearest(o, ps, i, b.min) && r == Best(Some(ps[i]), o.rayDist(ps[i])))
    decreases |ps|
  {
    if ps != [] {
      var b' := Consider(o, ps[0], b);
      var ps' := ps[1..];
      var r := Scan(o, ps', b');
      ScanSpec(o, ps', b');
      assert Scan(o, ps, b) == r;
      forall q | q in ps && Qualifies(o, q)
        ensures r.min <= o.rayDist(q)
      {
        if q != ps[0] {
          assert q in ps';
        }
      }
      if r == b' {
        if b' != b {
          assert FirstNearest(o, ps, 0, b.min);
        }
      } else {
        var i' :| FirstNearest(o, ps', i', b'.min) && r == Best(Some(ps'[i']), o.rayDist(ps'[i']));
        forall k | 0 <= k < i' + 1 && Qualifies(o, ps[k])
          ensures o.rayDist(ps[i' + 1]) < o.rayDist(ps[k])
        {
          if k > 0 {
            assert ps[k] == ps'[k - 1];
          }
        }
        assert FirstNearest(o, ps, i' + 1, b.min);
      }
    }
  }

  /** Scanning two sequences in turn is scanning their concatenation. */
  lemma {:induction false} ScanConcat(o: Oracles, a: seq<Point>, c: seq<Point>, b: Best)
    ensures Scan(o, a + c, b) == Scan(o, c, Scan(o, a, b))
    decreases |a|
  {
    if a != [] {
      assert (a + c)[1..] == a[1..] + c;
      ScanConcat(o, a[1..], c, Consider(o, a[0], b));
    } else {
      assert a + c == c;
    }
  }

  /** The nearest-point pick with the bound threaded through the whole
      traversal, so that every visited point is compared with the nearest
      one found anywhere before it. */
  function Nearest(o: Oracles, n: Node, cell: Cell, b: Best): Best
    requires WellFormed(n)
    decreases n, 1
  {
    if !o.hitsBox(cell) then b else NearestFrom(o, n, cell, b, 0)
  }

  function NearestFrom(o: Oracles, n: Node, cell: Cell, b: Best, j: nat): Best
    requires WellFormed(n) && j <= |n.children|
    decreases n, 0, |n.children| - j
  {
    if j == |n.children| then b else NearestFrom(o, n, cell, NearestAt(o, n, cell, b, j), j + 1)
  }

  function NearestAt(o: Oracles, n: Node, cell: Cell, b: Best, j: nat): Best
    requires WellFormed(n) && j < |n.children|
    decreases n, 0, 0
  {
    match SlotAt(n, j)
    case LeafSlot(oct, ps) => if o.hitsBox(PickBox(o, cell, oct)) then Scan(o, ps, b) else b
    case NodeSlot(oct, m) => Nearest(o, m, ChildCell(o, cell, oct), b)
  }

  /** The threaded pick is one scan over the points the ray reaches through
      hit boxes, in traversal order. */
  lemma {:induction false} NearestIsScan(o: Oracles, n: Node, cell: Cell, b: Best)
    requires WellFormed(n)
    ensures Nearest(o, n, cell, b) == Scan(o, Visited(o, n, cell, true), b)
    decreases n, 1
  {
    if o.hitsBox(cell) {
      NearestFromIsScan(o, n, cell, b, 0);
    }
  }

  lemma {:induction false} NearestFromIsScan(o: Oracles, n: Node, cell: Cell, b: Best, j: nat)
    requires WellFormed(n) && j <= |n.children|
    ensures NearestFrom(o, n, cell, b, j) == Scan(o, VisitedFrom(o, n, cell, true, j), b)
    decreases n, 0, |n.children| - j
  {
    if j < |n.children| {
      var b' := NearestAt(o, n, cell, b, j);
      NearestAtIsScan(o, n, cell, b, j);
      NearestFromIsScan(o, n, cell, b', j + 1);
      ScanConcat(o, VisitedAt(o, n, cell, true, j), VisitedFrom(o, n, cell, true, j + 1), b);
    }
  }

  lemma {:induction false} NearestAtIsScan(o: Oracles, n: Node, cell: Cell, b: Best, j: nat)
    requires WellFormed(n) && j < |n.children|
    ensures NearestAt(o, n, cell, b, j) == Scan(o, VisitedAt(o, n, cell, true, j), b)
    decreases n, 0, 0
  {
    match SlotAt(n, j)
    case LeafSlot(_, _) =>
    case NodeSlot(oct, m) => NearestIsScan(o, m, ChildCell(o, cell, oct), b);
  }

  /** The threaded pick selects, among the points the ray reaches, the first
      qualifying one nearest along the ray, if it beats the starting bound;
      otherwise it leaves the selection as it was. */
  lemma NearestSpec(o: Oracles, n: Node, cell: Cell, b: Best)
    requires WellFormed(n)
    ensures var r := Nearest(o, n, cell, b); var vs := Visited(o, n, cell, true);
      && (forall q :: q in vs && Qualifies(o, q) ==> r.min <= o.rayDist(q))
      && (r == b || exists i :: FirstNearest(o, vs, i, b.min) && r == Best(Some(vs[i]), o.rayDist(vs[i])))
  {
    NearestIsScan(o, n, cell, b);
    ScanSpec(o, Visited(o, n, cell, true), b);
  }

  /** `selectRay(point, node, center, size, min)` as written: the bound
      `min` is a value parameter, so a nearer point found inside a subtree
      replaces the selection but does not lower the bound of the caller,
      whose later children are then compared with the stale bound. */
  function NearestAsWritten(o: Oracles, n: Node, cell: Cell, b: Best): Option<Point>
    requires WellFormed(n)
    decreases n, 1
  {
    if !o.hitsBox(cell) then b.sel else NearestAsWrittenFrom(o, n, cell, b, 0).sel
  }

  function NearestAsWrittenFrom(o: Oracles, n: Node, cell: Cell, b: Best, j: nat): Best
    requires WellFormed(n) && j <= |n.children|
    decreases n, 0, |n.children| - j
  {
    if j == |n.children| then b
    else NearestAsWrittenFrom(o, n, cell, NearestAsWrittenAt(o, n, cell, b, j), j + 1)
  }

  function NearestAsWrittenAt(o: Oracles, n: Node, cell: Cell, b: Best, j: nat): Best
    requires WellFormed(n) && j < |n.children|
    decreases n, 0, 0
  {
    match SlotAt(n, j)
    case LeafSlot(oct, ps) => if o.hitsBox(PickBox(o, cell, oct)) then Scan(o, ps, b) else b
    case NodeSlot(oct, m) => Best(NearestAsWritten(o, m, ChildCell(o, cell, oct), b), b.min)
  }

  /** What the source does guarantee: the selection is the one passed in or
      a qualifying point the ray reaches. */
  lemma {:induction false} NearestAsWrittenSound(o: Oracles, n: Node, cell: Cell, b: Best)
    requires WellFormed(n)
    ensures var r := NearestAsWritten(o, n, cell, b);
      r == b.sel || (r.Some? && r.value in Visited(o, n, cell, true) && Qualifies(o, r.value))
    decreases n, 1
  {
    if o.hitsBox(cell) {
      NearestAsWrittenFromSound(o, n, cell, b, 0);
    }
  }

  lemma {:induction false} NearestAsWrittenFromSound(o: Oracles, n: Node, cell: Cell, b: Best, j: nat)
    requires WellFormed(n) && j <= |n.children|
    ensures var r := NearestAsWrittenFrom(o, n, cell, b, j);
      r.sel == b.sel || (r.sel.Some? && r.sel.value in VisitedFrom(o, n, cell, true, j) && Qualifies(o, r.sel.value))
    decreases n, 0, |n.children| - j
  {
    if j < |n.children| {
      var b' := NearestAsWrittenAt(o, n, cell, b, j);
      NearestAsWrittenAtSound(o, n, cell, b, j);
      NearestAsWrittenFromSound(o, n, cell, b', j + 1);
    }
  }

  lemma {:induction false} NearestAsWrittenAtSound(o: Oracles, n: Node, cell: Cell, b: Best, j: nat)
    requires WellFormed(n) && j < |n.children|
    ensures var r := NearestAsWrittenAt(o, n, cell, b, j);
      r.sel == b.sel || (r.sel.Some? && r.sel.value in VisitedAt(o, n, cell, true, j) && Qualifies(o, r.sel.value))
    decreases n, 0, 0
  {
    match SlotAt(n, j)
    case LeafSlot(oct, ps) =>
      if o.hitsBox(PickBox(o, cell, oct)) {
        ScanSpec(o, ps, b);
      }
    case NodeSlot(oct, m) => NearestAsWrittenSound(o, m, ChildCell(o, cell, oct), b);
  }

  /** As written, the pick still finds something: once the ray reaches a
      qualifying point nearer than the starting bound, the selection is
      not empty. */
  lemma {:induction false} NearestAsWrittenFinds(o: Oracles, n: Node, cell: Cell, b: Best, q: Point)
    requires WellFormed(n)
    requires q in Visited(o, n, cell, true) && Qualifies(o, q) && o.rayDist(q) < b.min
    ensures NearestAsWritten(o, n, cell, b).Some?
    decreases n, 1
  {
    NearestAsWrittenFromFinds(o, n, cell, b, q, 0);
  }

  lemma {:induction false} NearestAsWrittenFromFinds(o: Oracles, n: Node, cell: Cell, b: Best, q: Point, j: nat)
    requires WellFormed(n) && j <= |n.children|
    requires q in VisitedFrom(o, n, cell, true, j) && Qualifies(o, q) && o.rayDist(q) < b.min
    ensures NearestAsWrittenFrom(o, n, cell, b, j).sel.Some?
    decreases n, 0, |n.children| - j
  {
    var b' := NearestAsWrittenAt(o, n, cell, b, j);
    NearestAsWrittenAtSound(o, n, cell, b, j);
    NearestAsWrittenAtBound(o, n, cell, b, j);
    if q in VisitedAt(o, n, cell, true, j) {
      NearestAsWrittenAtFinds(o, n, cell, b, q, j);
      NearestAsWrittenFromKeeps(o, n, cell, b', j + 1);
    } else if b'.min < b.min {
      NearestAsWrittenFromKeeps(o, n, cell, b', j + 1);
    } else {
      NearestAsWrittenFromFinds(o, n, cell, b', q, j + 1);
    }
  }

  lemma {:induction false} NearestAsWrittenAtFinds(o: Oracles, n: Node, cell: Cell, b: Best, q: Point, j: nat)
    requires WellFormed(n) && j < |n.children|
    requires q in VisitedAt(o, n, cell, true, j) && Qualifies(o, q) && o.rayDist(q) < b.min
    ensures NearestAsWrittenAt(o, n, cell, b, j).sel.Some?
    decreases n, 0, 0
  {
    match SlotAt(n, j)
    case LeafSlot(oct, ps) => ScanSpec(o, ps, b);
    case NodeSlot(oct, m) => NearestAsWrittenFinds(o, m, ChildCell(o, cell, oct), b, q);
  }

  /** One child never raises the bound, and lowers it only by selecting. */
  lemma NearestAsWrittenAtBound(o: Oracles, n: Node, cell: Cell, b: Best, j: nat)
    requires WellFormed(n) && j < |n.children|
    ensures var r := NearestAsWrittenAt(o, n, cell, b, j);
      r.min <= b.min && (r.min < b.min ==> r.sel.Some?)
  {
    match SlotAt(n, j)
    case LeafSlot(oct, ps) => ScanSpec(o, ps, b);
    case NodeSlot(oct, m) =>
  }

  /** A selection, once made, is never cleared. */
  lemma {:induction false} NearestAsWrittenFromKeeps(o: Oracles, n: Node, cell: Cell, b: Best, j: nat)
    requires WellFormed(n) && j <= |n.children| && b.sel.Some?
    ensures NearestAsWrittenFrom(o, n, cell, b, j).sel.Some?
  {
    NearestAsWrittenFromSound(o, n, cell, b, j);
  }

  /** The stale bound picks a farther point: a subtree in octant 0 holding
      `p1` at distance 200 and a bucket in octant 1 holding `p2` at distance
      300, every box hit. As written, `p1` is selected inside the subtree,
      the root's bound stays at `FLT_MAX`, and `p2` then replaces it; the
      threaded pick keeps `p1`. */
  lemma StaleBoundPicksFartherPoint(o: Oracles, cell: Cell, p1: Point, p2: Point)
    requires p1 != p2
    requires forall c :: o.hitsBox(c)
    requires o.screenDist(p1) == 0.0 && o.screenDist(p2) == 0.0
    requires o.rayDist(p1) == 200.0 && o.rayDist(p2) == 300.0
    ensures var n := Node(3, 2, [Inner(Node(1, 1, [Bucket([p1])])), Bucket([p2])]);
      && WellFormed(n)
      && NearestAsWritten(o, n, cell, Best(None, FltMax)) == Some(p2)
      && Nearest(o, n, cell, Best(None, FltMax)) == Best(Some(p1), 200.0)
  {
    var m := Node(1, 1, [Bucket([p1])]);
    var n := Node(3, 2, [Inner(m), Bucket([p2])]);
    var start := Best(None, FltMax);
    assert Octants(1) == [0];
    assert Octants(3) == [0, 1];
    assert WellFormed(m);
    assert WellFormed(n);
    assert SlotAt(m, 0) == LeafSlot(0, [p1]);
    assert SlotAt(n, 0) == NodeSlot(0, m);
    assert SlotAt(n, 1) == LeafSlot(1, [p2]);
    var c0 := ChildCell(o, cell, 0);
    assert Scan(o, [p1], start) == Best(Some(p1), 200.0);
    assert NearestFrom(o, m, c0, start, 0) == Best(Some(p1), 200.0);
    assert NearestAsWrittenFrom(o, m, c0, start, 0) == Best(Some(p1), 200.0);
    assert NearestAsWrittenAt(o, n, cell, start, 0) == Best(Some(p1), FltMax);
    var b1 := Best(Some(p1), FltMax);
    assert Consider(o, p2, b1) == Best(Some(p2), 300.0);
    assert Scan(o, [p2], b1) == Scan(o, [], Best(Some(p2), 300.0));
    assert NearestAsWrittenAt(o, n, cell, b1, 1) == Best(Some(p2), 300.0);
    assert NearestAsWrittenFrom(o, n, cell, b1, 1) == Best(Some(p2), 300.0);
    assert NearestAsWrittenFrom(o, n, cell, start, 0) == Best(Some(p2), 300.0);
    assert NearestAt(o, n, cell, start, 0) == Best(Some(p1), 200.0);
    var b2 := Best(Some(p1), 200.0);
    assert Consider(o, p2, b2) == b2;
    assert Scan(o, [p2], b2) == Scan(o, [], b2);
    assert NearestAt(o, n, cell, b2, 1) == b2;
    assert NearestFrom(o, n, cell, b2, 1) == b2;
    assert NearestFrom(o, n, cell, start, 0) == Best(Some(p1), 200.0);
  }
}
