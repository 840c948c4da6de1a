/** Exhaustive emission, its frustum-culled variants and the visible-point
    count (show_Boctree.h: displayOctTreeAll, displayOctTreeAllCulled in its
    whole-frustum and plane-list forms, countVisiblePoints). */
module Exhaustive {
  import opened Geometry
  import opened Octree
  import opened Seqs
  import opened Options

  /** Every point of every bucket below `n`, bucket by bucket in octant
      order, each bucket in storage order. */
  function All(n: Node): seq<Point>
    requires WellFormed(n)
    decreases n, 1
  {
    AllFrom(n, 0)
  }

  /** The emission of children `j` onwards; every traversal below follows
      this split into a per-child part (`...At`) and the rest (`...From`). */
  function AllFrom(n: Node, j: nat): seq<Point>
    requires WellFormed(n) && j <= |n.children|
    decreases n, 0, |n.children| - j
  {
    if j == |n.children| then [] else AllAt(n, j) + AllFrom(n, j + 1)
  }

  /** What child `j` contributes: its bucket, or everything below it. */
  function AllAt(n: Node, j: nat): seq<Point>
    requires WellFormed(n) && j < |n.children|
    decreases n, 0, 0
  {
    match SlotAt(n, j)
    case LeafSlot(_, ps) => ps
    case NodeSlot(_, m) => All(m)
  }

  /** The exhaustive emission sends each stored point exactly as often as
      it is stored. */
  lemma {:induction false} AllIsBag(n: Node)
    requires WellFormed(n)
    ensures multiset(All(n)) == Bag(n)
    decreases n, 1
  {
    AllFromIsBag(n, 0);
  }

  lemma {:induction false} AllFromIsBag(n: Node, j: nat)
    requires WellFormed(n) && j <= |n.children|
    ensures multiset(AllFrom(n, j)) == BagFrom(n, j)
    decreases n, 0, |n.children| - j
  {
    if j < |n.children| {
      AllFromIsBag(n, j + 1);
      AllAtIsBag(n, j);
    }
  }

  lemma {:induction false} AllAtIsBag(n: Node, j: nat)
    requires WellFormed(n) && j < |n.children|
    ensures multiset(AllAt(n, j)) == BagAt(n, j)
    decreases n, 0, 0
  {
    match SlotAt(n, j)
    case LeafSlot(_, ps) =>
    case NodeSlot(_, m) => AllIsBag(m);
  }

  /** Hence it sends exactly as many points as the subtree stores, and
      every stored point. */
  lemma AllIsExhaustive(n: Node)
    requires WellFormed(n)
    ensures |All(n)| == |Bag(n)|
    ensures forall p :: p in All(n) <==> p in Members(n)
  {
    AllIsBag(n);
  }

  /** Exhaustive emission under whole-frustum culling: an outside cell is
      skipped, an inside cell is emitted without further tests, a partial
      cell is split. Leaf buckets get no frustum check of their own. */
  function AllCulled(o: Oracles, n: Node, cell: Cell): (r: seq<Point>)
    requires WellFormed(n)
    ensures o.classify(cell) == Outside ==> r == []
    ensures o.classify(cell) == Inside ==> r == All(n)
    decreases n, 1
  {
    match o.classify(cell)
    case Outside => []
    case Inside => All(n)
    case Partial => AllCulledFrom(o, n, cell, 0)
  }

  function AllCulledFrom(o: Oracles, n: Node, cell: Cell, j: nat): seq<Point>
    requires WellFormed(n) && j <= |n.children|
    decreases n, 0, |n.children| - j
  {
    if j == |n.children| then [] else AllCulledAt(o, n, cell, j) + AllCulledFrom(o, n, cell, j + 1)
  }

  function AllCulledAt(o: Oracles, n: Node, cell: Cell, j: nat): seq<Point>
    requires WellFormed(n) && j < |n.children|
    decreases n, 0, 0
  {
    match SlotAt(n, j)
    case LeafSlot(_, ps) => ps
    case NodeSlot(oct, m) => AllCulled(o, m, ChildCell(o, cell, oct))
  }

  /** Culling only drops points: the culled emission is the exhaustive one
      with some points left out and the order kept. */
  lemma {:induction false} AllCulledIsSub(o: Oracles, n: Node, cell: Cell)
    requires WellFormed(n)
    ensures Sub(AllCulled(o, n, cell), All(n))
    decreases n, 1
  {
    match o.classify(cell)
    case Outside => SubEmpty(All(n));
    case Inside => SubRefl(All(n));
    case Partial => AllCulledFromIsSub(o, n, cell, 0);
  }

  lemma {:induction false} AllCulledFromIsSub(o: Oracles, n: Node, cell: Cell, j: nat)
    requires WellFormed(n) && j <= |n.children|
    ensures Sub(AllCulledFrom(o, n, cell, j), AllFrom(n, j))
    decreases n, 0, |n.children| - j
  {
    if j < |n.children| {
      AllCulledFromIsSub(o, n, cell, j + 1);
      AllCulledAtIsSub(o, n, cell, j);
      SubConcat(AllCulledAt(o, n, cell, j), AllAt(n, j), AllCulledFrom(o, n, cell, j + 1), AllFrom(n, j + 1));
    } else {
      SubEmpty(AllFrom(n, j));
    }
  }

  lemma {:induction false} AllCulledAtIsSub(o: Oracles, n: Node, cell: Cell, j: nat)
    requires WellFormed(n) && j < |n.children|
    ensures Sub(AllCulledAt(o, n, cell, j), AllAt(n, j))
    decreases n, 0, 0
  {
    match SlotAt(n, j)
    case LeafSlot(_, ps) => SubRefl(ps);
    case NodeSlot(oct, m) => AllCulledIsSub(o, m, ChildCell(o, cell, oct));
  }

  /** The fully-inside shortcut is only an optimisation: when no cell is
      ever outside, the culled emission equals the exhaustive one. */
  lemma {:induction false} AllCulledUncut(o: Oracles, n: Node, cell: Cell)
    requires WellFormed(n) && NeverOutside(o)
    ensures AllCulled(o, n, cell) == All(n)
    decreases n, 1
  {
    if o.classify(cell) == Partial {
      AllCulledFromUncut(o, n, cell, 0);
    }
  }

  lemma {:induction false} AllCulledFromUncut(o: Oracles, n: Node, cell: Cell, j: nat)
    requires WellFormed(n) && NeverOutside(o) && j <= |n.children|
    ensures AllCulledFrom(o, n, cell, j) == AllFrom(n, j)
    decreases n, 0, |n.children| - j
  {
    if j < |n.children| {
      AllCulledFromUncut(o, n, cell, j + 1);
      AllCulledAtUncut(o, n, cell, j);
    }
  }

  lemma {:induction false} AllCulledAtUncut(o: Oracles, n: Node, cell: Cell, j: nat)
    requires WellFormed(n) && NeverOutside(o) && j < |n.children|
    ensures AllCulledAt(o, n, cell, j) == AllAt(n, j)
    decreases n, 0, 0
  {
    match SlotAt(n, j)
    case LeafSlot(_, _) =>
    case NodeSlot(oct, m) => AllCulledUncut(o, m, ChildCell(o, cell, oct));
  }

  /** The planes of `planes` that cross `cell`, in order; `None` as soon as
      one plane has the whole cell behind it. */
  function Straddled(o: Oracles, cell: Cell, planes: seq<Plane>): (r: Option<seq<Plane>>)
    ensures r.None? <==> exists k :: 0 <= k < |planes| && o.planeSide(cell, planes[k]) == Behind
    ensures r.Some? ==> |r.value| <= |planes|
    ensures r.Some? ==> forall q :: q in r.value <==> q in planes && o.planeSide(cell, q) == Crossing
    decreases |planes|
  {
    if planes == [] then Some([])
    else
      match o.planeSide(cell, planes[0])
      case Behind => None
      case InFront => Straddled(o, cell, planes[1..])
      case Crossing =>
        match Straddled(o, cell, planes[1..])
        case None => None
        case Some(rest) => Some([planes[0]] + rest)
  }

  /** Exhaustive emission culled plane by plane: a cell behind any plane is
      skipped, a cell in front of every plane is emitted whole, and only the
      planes the cell straddles are passed down to its children. The source
      keeps the passed-down planes in a buffer of six. */
  function AllCulledPlanes(o: Oracles, n: Node, cell: Cell, planes: seq<Plane>): (r: seq<Point>)
    requires WellFormed(n) && |planes| <= 6
    ensures Straddled(o, cell, planes).None? ==> r == []
    ensures Straddled(o, cell, planes) == Some([]) ==> r == All(n)
    decreases n, 1
  {
    match Straddled(o, cell, planes)
    case None => []
    case Some(kept) =>
      if kept == [] then All(n) else AllCulledPlanesFrom(o, n, cell, kept, 0)
  }

  function AllCulledPlanesFrom(o: Oracles, n: Node, cell: Cell, kept: seq<Plane>, j: nat): seq<Point>
    requires WellFormed(n) && |kept| <= 6 && j <= |n.children|
    decreases n, 0, |n.children| - j
  {
    if j == |n.children| then []
    else AllCulledPlanesAt(o, n, cell, kept, j) + AllCulledPlanesFrom(o, n, cell, kept, j + 1)
  }

  function AllCulledPlanesAt(o: Oracles, n: Node, cell: Cell, kept: seq<Plane>, j: nat): seq<Point>
    requires WellFormed(n) && |kept| <= 6 && j < |n.children|
    decreases n, 0, 0
  {
    match SlotAt(n, j)
    case LeafSlot(_, ps) => ps
    case NodeSlot(oct, m) => AllCulledPlanes(o, m, ChildCell(o, cell, oct), kept)
  }

  /** Plane culling only drops points, in order. */
  lemma {:induction false} AllCulledPlanesIsSub(o: Oracles, n: Node, cell: Cell, planes: seq<Plane>)
    requires WellFormed(n) && |planes| <= 6
    ensures Sub(AllCulledPlanes(o, n, cell, planes), All(n))
    decreases n, 1
  {
    match Straddled(o, cell, planes)
    case None => SubEmpty(All(n));
    case Some(kept) =>
      if kept == [] {
        SubRefl(All(n));
      } else {
        AllCulledPlanesFromIsSub(o, n, cell, kept, 0);
      }
  }

  lemma {:induction false} AllCulledPlanesFromIsSub(o: Oracles, n: Node, cell: Cell, kept: seq<Plane>, j: nat)
    requires WellFormed(n) && |kept| <= 6 && j <= |n.children|
    ensures Sub(AllCulledPlanesFrom(o, n, cell, kept, j), AllFrom(n, j))
    decreases n, 0, |n.children| - j
  {
    if j < |n.children| {
      AllCulledPlanesFromIsSub(o, n, cell, kept, j + 1);
      AllCulledPlanesAtIsSub(o, n, cell, kept, j);
      SubConcat(AllCulledPlanesAt(o, n, cell, kept, j), AllAt(n, j),
                AllCulledPlanesFrom(o, n, cell, kept, j + 1), AllFrom(n, j + 1));
    } else {
      SubEmpty(AllFrom(n, j));
    }
  }

  lemma {:induction false} AllCulledPlanesAtIsSub(o: Oracles, n: Node, cell: Cell, kept: seq<Plane>, j: nat)
    requires WellFormed(n) && |kept| <= 6 && j < |n.children|
    ensures Sub(AllCulledPlanesAt(o, n, cell, kept, j), AllAt(n, j))
    decreases n, 0, 0
  {
    match SlotAt(n, j)
    case LeafSlot(_, ps) => SubRefl(ps);
    case NodeSlot(oct, m) => AllCulledPlanesIsSub(o, m, ChildCell(o, cell, oct), kept);
  }

  /** The whole-frustum class a plane list induces: outside when some
      plane has the cell behind it, inside when every plane has it in
      front, partial otherwise. */
  function PlaneClass(o: Oracles, planes: seq<Plane>, c: Cell): Visibility
  {
    if exists k :: 0 <= k < |planes| && o.planeSide(c, planes[k]) == Behind then Outside
    else if forall k :: 0 <= k < |planes| ==> o.planeSide(c, planes[k]) == InFront then Inside
    else Partial
  }

  /** The same oracles, with the whole-frustum test answered from `planes`. */
  function PlaneOracles(o: Oracles, planes: seq<Plane>): Oracles
  {
    o.(classify := c => PlaneClass(o, planes, c))
  }

  /** Geometric fact the plane list relies on: a cell wholly in front of a
      plane has every child cell wholly in front of it too. */
  ghost predicate FrontIsInherited(o: Oracles)
  {
    forall c, p, oct :: o.planeSide(c, p) == InFront ==> o.planeSide(ChildCell(o, c, oct), p) == InFront
  }

  /** Passing only the straddled planes down is sound: when a cell in front
      of a plane keeps its children in front of it, the plane-list emission
      equals the whole-frustum emission that re-tests every plane at every
      cell. Stated for any subset `kept` of `planes` whose dropped planes
      all have `cell` in front. */
  lemma {:induction false} PlaneListMatchesFullTest(o: Oracles, n: Node, cell: Cell, planes: seq<Plane>, kept: seq<Plane>)
    requires WellFormed(n) && |kept| <= 6 && FrontIsInherited(o)
    requires forall q :: q in kept ==> q in planes
    requires forall q :: q in planes && q !in kept ==> o.planeSide(cell, q) == InFront
    ensures AllCulledPlanes(o, n, cell, kept) == AllCulled(PlaneOracles(o, planes), n, cell)
    decreases n, 1
  {
    var o' := PlaneOracles(o, planes);
    assert o'.classify(cell) == PlaneClass(o, planes, cell);
    match Straddled(o, cell, kept)
    case None =>
      var k :| 0 <= k < |kept| && o.planeSide(cell, kept[k]) == Behind;
      assert kept[k] in planes;
      var i :| 0 <= i < |planes| && planes[i] == kept[k];
      assert o'.classify(cell) == Outside;
    case Some(next) =>
      assert forall k :: 0 <= k < |planes| ==> o.planeSide(cell, planes[k]) != Behind by {
        forall k | 0 <= k < |planes|
          ensures o.planeSide(cell, planes[k]) != Behind
        {
          if planes[k] in kept {
            var i :| 0 <= i < |kept| && kept[i] == planes[k];
          }
        }
      }
      if next == [] {
        assert forall k :: 0 <= k < |planes| ==> o.planeSide(cell, planes[k]) == InFront;
        assert o'.classify(cell) == Inside;
      } else {
        assert next[0] in kept;
        assert o.planeSide(cell, next[0]) == Crossing;
        var i :| 0 <= i < |planes| && planes[i] == next[0];
        assert o'.classify(cell) == Partial;
        forall q | q in planes && q !in next
          ensures o.planeSide(cell, q) == InFront
        {
          var i :| 0 <= i < |planes| && planes[i] == q;
        }
        PlaneListMatchesFullTestFrom(o, n, cell, planes, next, 0);
      }
  }

  lemma {:induction false} PlaneListMatchesFullTestFrom(o: Oracles, n: Node, cell: Cell, planes: seq<Plane>, kept: seq<Plane>, j: nat)
    requires WellFormed(n) && |kept| <= 6 && FrontIsInherited(o) && j <= |n.children|
    requires forall q :: q in kept ==> q in planes
    requires forall q :: q in planes && q !in kept ==> o.planeSide(cell, q) == InFront
    ensures AllCulledPlanesFrom(o, n, cell, kept, j) == AllCulledFrom(PlaneOracles(o, planes), n, cell, j)
    decreases n, 0, |n.children| - j
  {
    if j < |n.children| {
      PlaneListMatchesFullTestFrom(o, n, cell, planes, kept, j + 1);
      PlaneListMatchesFullTestAt(o, n, cell, planes, kept, j);
    }
  }

  lemma {:induction false} PlaneListMatchesFullTestAt(o: Oracles, n: Node, cell: Cell, planes: seq<Plane>, kept: seq<Plane>, j: nat)
    requires WellFormed(n) && |kept| <= 6 && FrontIsInherited(o) && j < |n.children|
    requires forall q :: q in kept ==> q in planes
    requires forall q :: q in planes && q !in kept ==> o.planeSide(cell, q) == InFront
    ensures AllCulledPlanesAt(o, n, cell, kept, j) == AllCulledAt(PlaneOracles(o, planes), n, cell, j)
    decreases n, 0, 0
  {
    match SlotAt(n, j)
    case LeafSlot(_, _) =>
    case NodeSlot(oct, m) =>
      var c := ChildCell(o, cell, oct);
      assert ChildCell(PlaneOracles(o, planes), cell, oct) == c;
      PlaneListMatchesFullTest(o, m, c, planes, kept);
  }

  /** The number of points in buckets that pass the per-leaf frustum test,
      below cells that are not wholly outside. Unlike the emissions, the
      count has no fully-inside shortcut. */
  function CountVisible(o: Oracles, n: Node, cell: Cell): (r: nat)
    requires WellFormed(n)
    ensures o.classify(cell) == Outside ==> r == 0
    decreases n, 1
  {
    if o.classify(cell) == Outside then 0 else CountVisibleFrom(o, n, cell, 0)
  }

  function CountVisibleFrom(o: Oracles, n: Node, cell: Cell, j: nat): nat
    requires WellFormed(n) && j <= |n.children|
    decreases n, 0, |n.children| - j
  {
    if j == |n.children| then 0 else CountVisibleAt(o, n, cell, j) + CountVisibleFrom(o, n, cell, j + 1)
  }

  function CountVisibleAt(o: Oracles, n: Node, cell: Cell, j: nat): nat
    requires WellFormed(n) && j < |n.children|
    decreases n, 0, 0
  {
    match SlotAt(n, j)
    case LeafSlot(oct, ps) => if o.inFrustum(ChildCell(o, cell, oct)) then |ps| else 0
    case NodeSlot(oct, m) => CountVisible(o, m, ChildCell(o, cell, oct))
  }

  /** The count never exceeds what the culled exhaustive emission draws:
      the count re-tests every leaf, the emission does not. */
  lemma {:induction false} CountVisibleBelowEmitted(o: Oracles, n: Node, cell: Cell)
    requires WellFormed(n)
    ensures CountVisible(o, n, cell) <= |AllCulled(o, n, cell)|
    decreases n, 1
  {
    match o.classify(cell)
    case Outside =>
    case Inside =>
      CountVisibleFromBelowAll(o, n, cell, 0);
    case Partial =>
      CountVisibleFromBelowEmitted(o, n, cell, 0);
  }

  lemma {:induction false} CountVisibleFromBelowEmitted(o: Oracles, n: Node, cell: Cell, j: nat)
    requires WellFormed(n) && j <= |n.children|
    ensures CountVisibleFrom(o, n, cell, j) <= |AllCulledFrom(o, n, cell, j)|
    decreases n, 0, |n.children| - j
  {
    if j < |n.children| {
      CountVisibleFromBelowEmitted(o, n, cell, j + 1);
      CountVisibleAtBelowEmitted(o, n, cell, j);
    }
  }

  lemma {:induction false} CountVisibleAtBelowEmitted(o: Oracles, n: Node, cell: Cell, j: nat)
    requires WellFormed(n) && j < |n.children|
    ensures CountVisibleAt(o, n, cell, j) <= |AllCulledAt(o, n, cell, j)|
    decreases n, 0, 0
  {
    match SlotAt(n, j)
    case LeafSlot(_, _) =>
    case NodeSlot(oct, m) => CountVisibleBelowEmitted(o, m, ChildCell(o, cell, oct));
  }

  /** The count never exceeds the number of points stored. */
  lemma {:induction false} CountVisibleBelowAll(o: Oracles, n: Node, cell: Cell)
    requires WellFormed(n)
    ensures CountVisible(o, n, cell) <= |All(n)|
    decreases n, 1
  {
    if o.classify(cell) != Outside {
      CountVisibleFromBelowAll(o, n, cell, 0);
    }
  }

  lemma {:induction false} CountVisibleFromBelowAll(o: Oracles, n: Node, cell: Cell, j: nat)
    requires WellFormed(n) && j <= |n.children|
    ensures CountVisibleFrom(o, n, cell, j) <= |AllFrom(n, j)|
    decreases n, 0, |n.children| - j
  {
    if j < |n.children| {
      CountVisibleFromBelowAll(o, n, cell, j + 1);
      match SlotAt(n, j)
      case LeafSlot(_, _) =>
      case NodeSlot(oct, m) => CountVisibleBelowAll(o, m, ChildCell(o, cell, oct));
    }
  }

  /** With nothing culled, every stored point is counted. */
  lemma {:induction false} CountVisibleAll(o: Oracles, n: Node, cell: Cell)
    requires WellFormed(n) && NeverOutside(o) && AlwaysVisible(o)
    ensures CountVisible(o, n, cell) == |All(n)|
    decreases n, 1
  {
    CountVisibleFromAll(o, n, cell, 0);
  }

  lemma {:induction false} CountVisibleFromAll(o: Oracles, n: Node, cell: Cell, j: nat)
    requires WellFormed(n) && NeverOutside(o) && AlwaysVisible(o) && j <= |n.children|
    ensures CountVisibleFrom(o, n, cell, j) == |AllFrom(n, j)|
    decreases n, 0, |n.children| - j
  {
    if j < |n.children| {
      CountVisibleFromAll(o, n, cell, j + 1);
      match SlotAt(n, j)
      case LeafSlot(oct, _) => assert o.inFrustum(ChildCell(o, cell, oct));
      case NodeSlot(oct, m) => CountVisibleAll(o, m, ChildCell(o, cell, oct));
    }
  }
}
