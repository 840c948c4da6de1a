/** Level-of-detail mode 0: a point budget split evenly among the children
    of every node (show_Boctree.h: displayOctTreeLOD,
    displayOctTreeCulledLOD). */
module Budget {
  import opened Bits
  import opened Numeric
  import opened Seqs
  import opened Geometry
  import opened Octree
  import opened Stride
  import opened Exhaustive
  import opened Calibration

  /** What a bucket draws with a share `nt` of the budget: only its first
      point when it holds more than ten points and its cell is not worth
      detail; all of it when it fits the share; otherwise `nt` stride
      samples. */
  function BudgetLeaf(ps: seq<Point>, nt: int, worth: bool): (r: seq<Point>)
    requires |ps| > 0 && nt > 0
    ensures |r| <= nt
    ensures Sub(r, ps)
    ensures |ps| > 10 && !worth ==> r == [ps[0]]
    ensures !(|ps| > 10 && !worth) && |ps| <= nt ==> r == ps
    ensures !(|ps| > 10 && !worth) && |ps| > nt ==> |r| == nt && r[0] == ps[0]
  {
    if |ps| > 10 && !worth then
      SubHead(ps);
      [ps[0]]
    else if |ps| <= nt then
      SubRefl(ps);
      ps
    else
      SampleSpec(ps, nt);
      Sample(ps, nt)
  }

  /** The share each child of `n` gets of a budget `t`: the budget divided
      by the number of children (C division; `t` is positive here, so it
      rounds down). A node without children keeps `t`. */
  function Share(n: Node, t: int): int
  {
    var nc := Popcount(n.valid);
    if nc > 0 then t / nc else t
  }

  /** Whether a node with budget `t` draws anything at all. */
  predicate Draws(n: Node, t: int)
  {
    t > 0 && Share(n, t) > 0
  }

  /** Mode 0 without culling. */
  function Lod(o: Oracles, n: Node, cell: Cell, t: int): (r: seq<Point>)
    requires WellFormed(n)
    ensures t <= 0 ==> r == []
    ensures t > 0 && Popcount(n.valid) > 0 && t / Popcount(n.valid) <= 0 ==> r == []
    decreases n, 1
  {
    if Draws(n, t) then LodFrom(o, n, cell, Share(n, t), 0) else []
  }

  function LodFrom(o: Oracles, n: Node, cell: Cell, nt: int, j: nat): seq<Point>
    requires WellFormed(n) && nt > 0 && j <= |n.children|
    decreases n, 0, |n.children| - j
  {
    if j == |n.children| then [] else LodAt(o, n, cell, nt, j) + LodFrom(o, n, cell, nt, j + 1)
  }

  function LodAt(o: Oracles, n: Node, cell: Cell, nt: int, j: nat): seq<Point>
    requires WellFormed(n) && nt > 0 && j < |n.children|
    decreases n, 0, 0
  {
    match SlotAt(n, j)
    case LeafSlot(oct, ps) => BudgetLeaf(ps, nt, o.worthDetail(ChildCell(o, cell, oct)))
    case NodeSlot(oct, m) => Lod(o, m, ChildCell(o, cell, oct), nt)
  }

  /** Mode 0 with culling: an outside cell draws nothing, an inside cell
      switches to the unculled traversal, and at a partial cell each bucket
      must pass the frustum check before it draws. */
  function CulledLod(o: Oracles, n: Node, cell: Cell, t: int): (r: seq<Point>)
    requires WellFormed(n)
    ensures t <= 0 ==> r == []
    ensures o.classify(cell) == Outside ==> r == []
    ensures o.classify(cell) == Inside ==> r == Lod(o, n, cell, t)
    decreases n, 2
  {
    if t <= 0 then []
    else
      match o.classify(cell)
      case Outside => []
      case Inside => Lod(o, n, cell, t)
      case Partial =>
        if Draws(n, t) then CulledLodFrom(o, n, cell, Share(n, t), 0) else []
  }

  function CulledLodFrom(o: Oracles, n: Node, cell: Cell, nt: int, j: nat): seq<Point>
    requires WellFormed(n) && nt > 0 && j <= |n.children|
    decreases n, 0, |n.children| - j
  {
    if j == |n.children| then [] else CulledLodAt(o, n, cell, nt, j) + CulledLodFrom(o, n, cell, nt, j + 1)
  }

  function CulledLodAt(o: Oracles, n: Node, cell: Cell, nt: int, j: nat): seq<Point>
    requires WellFormed(n) && nt > 0 && j < |n.children|
    decreases n, 0, 0
  {
    match SlotAt(n, j)
    case LeafSlot(oct, ps) =>
      var c := ChildCell(o, cell, oct);
      if o.inFrustum(c) then BudgetLeaf(ps, nt, o.worthDetail(c)) else []
    case NodeSlot(oct, m) => CulledLod(o, m, ChildCell(o, cell, oct), nt)
  }

  /** Children share a node's budget evenly, so a node never draws more
      than it was given. */
  lemma {:induction false} LodWithinBudget(o: Oracles, n: Node, cell: Cell, t: int)
    requires WellFormed(n)
    ensures |Lod(o, n, cell, t)| <= Max(t, 0)
    decreases n, 1
  {
    if Draws(n, t) {
      var nt := Share(n, t);
      LodFromWithinBudget(o, n, cell, nt, 0);
      ChildCount(n);
      var nc := |n.children|;
      TimesIsMul(nt, nc);
      if nc > 0 {
        DivMulBound(t, nc);
        assert nt * nc <= t;
      }
    }
  }

  lemma {:induction false} LodFromWithinBudget(o: Oracles, n: Node, cell: Cell, nt: int, j: nat)
    requires WellFormed(n) && nt > 0 && j <= |n.children|
    ensures |LodFrom(o, n, cell, nt, j)| <= Times(nt, |n.children| - j)
    decreases n, 0, |n.children| - j
  {
    if j < |n.children| {
      LodFromWithinBudget(o, n, cell, nt, j + 1);
      LodAtWithinShare(o, n, cell, nt, j);
      LodFromLength(o, n, cell, nt, j);
      TimesStep(|LodAt(o, n, cell, nt, j)|, |LodFrom(o, n, cell, nt, j + 1)|, nt, |n.children| - j);
    }
  }

  /** One more share on top of `m - 1` shares stays within `m` shares. */
  lemma TimesStep(a: int, b: int, nt: int, m: nat)
    requires m > 0 && a <= nt && b <= Times(nt, m - 1)
    ensures a + b <= Times(nt, m)
  {
  }

  lemma {:induction false} LodAtWithinShare(o: Oracles, n: Node, cell: Cell, nt: int, j: nat)
    requires WellFormed(n) && nt > 0 && j < |n.children|
    ensures |LodAt(o, n, cell, nt, j)| <= nt
    decreases n, 0, 0
  {
    match SlotAt(n, j)
    case LeafSlot(_, _) =>
    case NodeSlot(oct, m) => LodWithinBudget(o, m, ChildCell(o, cell, oct), nt);
  }

  /** Mode 0 draws stored points only, in traversal order, none more often
      than stored. */
  lemma {:induction false} LodIsSub(o: Oracles, n: Node, cell: Cell, t: int)
    requires WellFormed(n)
    ensures Sub(Lod(o, n, cell, t), All(n))
    decreases n, 1
  {
    if Draws(n, t) {
      LodFromIsSub(o, n, cell, Share(n, t), 0);
    } else {
      SubEmpty(All(n));
    }
  }

  lemma {:induction false} LodFromIsSub(o: Oracles, n: Node, cell: Cell, nt: int, j: nat)
    requires WellFormed(n) && nt > 0 && j <= |n.children|
    ensures Sub(LodFrom(o, n, cell, nt, j), AllFrom(n, j))
    decreases n, 0, |n.children| - j
  {
    if j < |n.children| {
      LodFromIsSub(o, n, cell, nt, j + 1);
      LodAtIsSub(o, n, cell, nt, j);
      SubConcat(LodAt(o, n, cell, nt, j), AllAt(n, j), LodFrom(o, n, cell, nt, j + 1), AllFrom(n, j + 1));
    } else {
      SubEmpty(AllFrom(n, j));
    }
  }

  lemma {:induction false} LodAtIsSub(o: Oracles, n: Node, cell: Cell, nt: int, j: nat)
    requires WellFormed(n) && nt > 0 && j < |n.children|
    ensures Sub(LodAt(o, n, cell, nt, j), AllAt(n, j))
    decreases n, 0, 0
  {
    match SlotAt(n, j)
    case LeafSlot(_, _) =>
    case NodeSlot(oct, m) => LodIsSub(o, m, ChildCell(o, cell, oct), nt);
  }

  /** Culling only drops points from what mode 0 would draw unculled. */
  lemma {:induction false} CulledLodIsSub(o: Oracles, n: Node, cell: Cell, t: int)
    requires WellFormed(n)
    ensures Sub(CulledLod(o, n, cell, t), Lod(o, n, cell, t))
    decreases n, 2
  {
    if t <= 0 || o.classify(cell) == Outside {
      SubEmpty(Lod(o, n, cell, t));
    } else if o.classify(cell) == Inside {
      SubRefl(Lod(o, n, cell, t));
    } else if Draws(n, t) {
      CulledLodFromIsSub(o, n, cell, Share(n, t), 0);
    } else {
      SubEmpty(Lod(o, n, cell, t));
    }
  }

  lemma {:induction false} CulledLodFromIsSub(o: Oracles, n: Node, cell: Cell, nt: int, j: nat)
    requires WellFormed(n) && nt > 0 && j <= |n.children|
    ensures Sub(CulledLodFrom(o, n, cell, nt, j), LodFrom(o, n, cell, nt, j))
    decreases n, 0, |n.children| - j
  {
    if j < |n.children| {
      CulledLodFromIsSub(o, n, cell, nt, j + 1);
      CulledLodAtIsSub(o, n, cell, nt, j);
      SubConcat(CulledLodAt(o, n, cell, nt, j), LodAt(o, n, cell, nt, j),
                CulledLodFrom(o, n, cell, nt, j + 1), LodFrom(o, n, cell, nt, j + 1));
    } else {
      SubEmpty(LodFrom(o, n, cell, nt, j));
    }
  }

  lemma {:induction false} CulledLodAtIsSub(o: Oracles, n: Node, cell: Cell, nt: int, j: nat)
    requires WellFormed(n) && nt > 0 && j < |n.children|
    ensures Sub(CulledLodAt(o, n, cell, nt, j), LodAt(o, n, cell, nt, j))
    decreases n, 0, 0
  {
    match SlotAt(n, j)
    case LeafSlot(oct, ps) =>
      if o.inFrustum(ChildCell(o, cell, oct)) {
        SubRefl(LodAt(o, n, cell, nt, j));
      } else {
        SubEmpty(LodAt(o, n, cell, nt, j));
      }
    case NodeSlot(oct, m) => CulledLodIsSub(o, m, ChildCell(o, cell, oct), nt);
  }

  /** Culled mode 0 therefore stays within its budget too. */
  lemma CulledLodWithinBudget(o: Oracles, n: Node, cell: Cell, t: int)
    requires WellFormed(n)
    ensures |CulledLod(o, n, cell, t)| <= Max(t, 0)
  {
    CulledLodIsSub(o, n, cell, t);
    SubMultiset(CulledLod(o, n, cell, t), Lod(o, n, cell, t));
    LodWithinBudget(o, n, cell, t);
  }

  /** A larger share never gives a bucket fewer points. */
  lemma BudgetLeafMonotone(ps: seq<Point>, nt1: int, nt2: int, worth: bool)
    requires |ps| > 0 && 0 < nt1 <= nt2
    ensures |BudgetLeaf(ps, nt1, worth)| <= |BudgetLeaf(ps, nt2, worth)|
  {
  }

  /** A larger budget never leaves a node with a smaller share. */
  lemma ShareMonotone(n: Node, t1: int, t2: int)
    requires t1 <= t2
    ensures Share(n, t1) <= Share(n, t2)
    ensures Draws(n, t1) ==> Draws(n, t2)
  {
    var nc := Popcount(n.valid);
    if nc > 0 {
      DivMonotone(t1, t2, nc);
    }
  }

  /** Raising the mode-0 budget never draws fewer points. */
  lemma {:induction false} LodMonotone(o: Oracles, n: Node, cell: Cell, t1: int, t2: int)
    requires WellFormed(n) && t1 <= t2
    ensures |Lod(o, n, cell, t1)| <= |Lod(o, n, cell, t2)|
    decreases n, 1
  {
    ShareMonotone(n, t1, t2);
    if Draws(n, t1) {
      LodFromMonotone(o, n, cell, Share(n, t1), Share(n, t2), 0);
    }
  }

  lemma {:induction false} LodFromMonotone(o: Oracles, n: Node, cell: Cell, nt1: int, nt2: int, j: nat)
    requires WellFormed(n) && 0 < nt1 <= nt2 && j <= |n.children|
    ensures |LodFrom(o, n, cell, nt1, j)| <= |LodFrom(o, n, cell, nt2, j)|
    decreases n, 0, |n.children| - j
  {
    if j < |n.children| {
      LodFromMonotone(o, n, cell, nt1, nt2, j + 1);
      LodAtMonotone(o, n, cell, nt1, nt2, j);
      LodFromLength(o, n, cell, nt1, j);
      LodFromLength(o, n, cell, nt2, j);
    }
  }

  lemma LodFromLength(o: Oracles, n: Node, cell: Cell, nt: int, j: nat)
    requires WellFormed(n) && nt > 0 && j < |n.children|
    ensures |LodFrom(o, n, cell, nt, j)| == |LodAt(o, n, cell, nt, j)| + |LodFrom(o, n, cell, nt, j + 1)|
  {
  }

  lemma {:induction false} LodAtMonotone(o: Oracles, n: Node, cell: Cell, nt1: int, nt2: int, j: nat)
    requires WellFormed(n) && 0 < nt1 <= nt2 && j < |n.children|
    ensures |LodAt(o, n, cell, nt1, j)| <= |LodAt(o, n, cell, nt2, j)|
    decreases n, 0, 0
  {
    match SlotAt(n, j)
    case LeafSlot(oct, ps) => BudgetLeafMonotone(ps, nt1, nt2, o.worthDetail(ChildCell(o, cell, oct)));
    case NodeSlot(oct, m) => LodMonotone(o, m, ChildCell(o, cell, oct), nt1, nt2);
  }

  /** Raising the budget of culled mode 0 never draws fewer points. */
  lemma {:induction false} CulledLodMonotone(o: Oracles, n: Node, cell: Cell, t1: int, t2: int)
    requires WellFormed(n) && t1 <= t2
    ensures |CulledLod(o, n, cell, t1)| <= |CulledLod(o, n, cell, t2)|
    decreases n, 2
  {
    if t1 > 0 {
      match o.classify(cell)
      case Outside =>
      case Inside => LodMonotone(o, n, cell, t1, t2);
      case Partial =>
        ShareMonotone(n, t1, t2);
        if Draws(n, t1) {
          CulledLodFromMonotone(o, n, cell, Share(n, t1), Share(n, t2), 0);
        }
    }
  }

  lemma {:induction false} CulledLodFromMonotone(o: Oracles, n: Node, cell: Cell, nt1: int, nt2: int, j: nat)
    requires WellFormed(n) && 0 < nt1 <= nt2 && j <= |n.children|
    ensures |CulledLodFrom(o, n, cell, nt1, j)| <= |CulledLodFrom(o, n, cell, nt2, j)|
    decreases n, 0, |n.children| - j
  {
    if j < |n.children| {
      CulledLodFromMonotone(o, n, cell, nt1, nt2, j + 1);
      CulledLodAtMonotone(o, n, cell, nt1, nt2, j);
      CulledLodFromLength(o, n, cell, nt1, j);
      CulledLodFromLength(o, n, cell, nt2, j);
    }
  }

  lemma CulledLodFromLength(o: Oracles, n: Node, cell: Cell, nt: int, j: nat)
    requires WellFormed(n) && nt > 0 && j < |n.children|
    ensures |CulledLodFrom(o, n, cell, nt, j)| == |CulledLodAt(o, n, cell, nt, j)| + |CulledLodFrom(o, n, cell, nt, j + 1)|
  {
  }

  lemma {:induction false} CulledLodAtMonotone(o: Oracles, n: Node, cell: Cell, nt1: int, nt2: int, j: nat)
    requires WellFormed(n) && 0 < nt1 <= nt2 && j < |n.children|
    ensures |CulledLodAt(o, n, cell, nt1, j)| <= |CulledLodAt(o, n, cell, nt2, j)|
    decreases n, 0, 0
  {
    match SlotAt(n, j)
    case LeafSlot(oct, ps) => BudgetLeafMonotone(ps, nt1, nt2, o.worthDetail(ChildCell(o, cell, oct)));
    case NodeSlot(oct, m) => CulledLodMonotone(o, m, ChildCell(o, cell, oct), nt1, nt2);
  }

  /** With nothing outside the frustum and every bucket visible, the culled
      and unculled traversals agree. */
  lemma {:induction false} CulledLodUncut(o: Oracles, n: Node, cell: Cell, t: int)
    requires WellFormed(n) && NeverOutside(o) && AlwaysVisible(o)
    ensures CulledLod(o, n, cell, t) == Lod(o, n, cell, t)
    decreases n, 2
  {
    if t > 0 && o.classify(cell) == Partial && Draws(n, t) {
      CulledLodFromUncut(o, n, cell, Share(n, t), 0);
    }
  }

  lemma {:induction false} CulledLodFromUncut(o: Oracles, n: Node, cell: Cell, nt: int, j: nat)
    requires WellFormed(n) && NeverOutside(o) && AlwaysVisible(o) && nt > 0 && j <= |n.children|
    ensures CulledLodFrom(o, n, cell, nt, j) == LodFrom(o, n, cell, nt, j)
    decreases n, 0, |n.children| - j
  {
    if j < |n.children| {
      CulledLodFromUncut(o, n, cell, nt, j + 1);
      CulledLodAtUncut(o, n, cell, nt, j);
    }
  }

  lemma {:induction false} CulledLodAtUncut(o: Oracles, n: Node, cell: Cell, nt: int, j: nat)
    requires WellFormed(n) && NeverOutside(o) && AlwaysVisible(o) && nt > 0 && j < |n.children|
    ensures CulledLodAt(o, n, cell, nt, j) == LodAt(o, n, cell, nt, j)
    decreases n, 0, 0
  {
    match SlotAt(n, j)
    case LeafSlot(oct, _) => assert o.inFrustum(ChildCell(o, cell, oct));
    case NodeSlot(oct, m) => CulledLodUncut(o, m, ChildCell(o, cell, oct), nt);
  }

  /** Every cell is worth detail. */
  ghost predicate AllWorthDetail(o: Oracles)
  {
    forall c :: o.worthDetail(c)
  }

  /** At a budget of at least `maxTargetPoints`, each child's share covers
      the heaviest child. */
  lemma ShareCoversWeight(n: Node, t: int)
    requires WellFormed(n) && t >= MaxTargetPoints(n) && Draws(n, t)
    ensures MaxWeightFrom(n, 0) <= Share(n, t)
  {
    ChildCount(n);
    MaxWeightFromBound(n, 0);
    if |n.children| > 0 {
      BelowQuotient(MaxWeightFrom(n, 0), t, |n.children|);
    }
  }

  /** At a budget of at least `maxTargetPoints`, a node draws nothing only
      when it stores nothing. */
  lemma UndrawnIsEmpty(n: Node, t: int)
    requires WellFormed(n) && t >= MaxTargetPoints(n) && !Draws(n, t)
    ensures All(n) == []
  {
    AllWithinMaxTarget(n);
    ChildCount(n);
    var nc := |n.children|;
    if nc > 0 && t > 0 {
      BelowQuotient(MaxWeightFrom(n, 0), t, nc);
    }
  }

  /** The calibration is exact: a budget of at least `maxTargetPoints`
      draws every stored point when every cell is worth detail. */
  lemma {:induction false} LodFullBudget(o: Oracles, n: Node, cell: Cell, t: int)
    requires WellFormed(n) && AllWorthDetail(o) && t >= MaxTargetPoints(n)
    ensures Lod(o, n, cell, t) == All(n)
    decreases n, 1
  {
    if Draws(n, t) {
      ShareCoversWeight(n, t);
      LodFromFull(o, n, cell, Share(n, t), 0);
    } else {
      UndrawnIsEmpty(n, t);
    }
  }

  lemma {:induction false} LodFromFull(o: Oracles, n: Node, cell: Cell, nt: int, j: nat)
    requires WellFormed(n) && AllWorthDetail(o) && nt > 0 && j <= |n.children|
    requires MaxWeightFrom(n, 0) <= nt
    ensures LodFrom(o, n, cell, nt, j) == AllFrom(n, j)
    decreases n, 0, |n.children| - j
  {
    if j < |n.children| {
      LodFromFull(o, n, cell, nt, j + 1);
      MaxWeightFromBound(n, 0);
      LodAtFull(o, n, cell, nt, j);
    }
  }

  lemma {:induction false} LodAtFull(o: Oracles, n: Node, cell: Cell, nt: int, j: nat)
    requires WellFormed(n) && AllWorthDetail(o) && nt > 0 && j < |n.children|
    requires WeightAt(n, j) <= nt
    ensures LodAt(o, n, cell, nt, j) == AllAt(n, j)
    decreases n, 0, 0
  {
    match SlotAt(n, j)
    case LeafSlot(oct, _) => assert o.worthDetail(ChildCell(o, cell, oct));
    case NodeSlot(oct, m) => LodFullBudget(o, m, ChildCell(o, cell, oct), nt);
  }

  /** With every bucket visible, culled mode 0 at the calibrated budget
      draws exactly what the culled exhaustive traversal draws. */
  lemma {:induction false} CulledLodFullBudget(o: Oracles, n: Node, cell: Cell, t: int)
    requires WellFormed(n) && AllWorthDetail(o) && AlwaysVisible(o) && t >= MaxTargetPoints(n)
    ensures CulledLod(o, n, cell, t) == AllCulled(o, n, cell)
    decreases n, 2
  {
    if !Draws(n, t) {
      UndrawnIsEmpty(n, t);
      AllCulledIsSub(o, n, cell);
      SubMultiset(AllCulled(o, n, cell), All(n));
    } else if o.classify(cell) == Inside {
      LodFullBudget(o, n, cell, t);
    } else if o.classify(cell) == Partial {
      ShareCoversWeight(n, t);
      CulledLodFromFull(o, n, cell, Share(n, t), 0);
    }
  }

  lemma {:induction false} CulledLodFromFull(o: Oracles, n: Node, cell: Cell, nt: int, j: nat)
    requires WellFormed(n) && AllWorthDetail(o) && AlwaysVisible(o) && nt > 0 && j <= |n.children|
    requires MaxWeightFrom(n, 0) <= nt
    ensures CulledLodFrom(o, n, cell, nt, j) == AllCulledFrom(o, n, cell, j)
    decreases n, 0, |n.children| - j
  {
    if j < |n.children| {
      CulledLodFromFull(o, n, cell, nt, j + 1);
      MaxWeightFromBound(n, 0);
      CulledLodAtFull(o, n, cell, nt, j);
    }
  }

  lemma {:induction false} CulledLodAtFull(o: Oracles, n: Node, cell: Cell, nt: int, j: nat)
    requires WellFormed(n) && AllWorthDetail(o) && AlwaysVisible(o) && nt > 0 && j < |n.children|
    requires WeightAt(n, j) <= nt
    ensures CulledLodAt(o, n, cell, nt, j) == AllCulledAt(o, n, cell, j)
    decreases n, 0, 0
  {
    match SlotAt(n, j)
    case LeafSlot(oct, _) =>
      var c := ChildCell(o, cell, oct);
      assert o.worthDetail(c) && o.inFrustum(c);
    case NodeSlot(oct, m) => CulledLodFullBudget(o, m, ChildCell(o, cell, oct), nt);
  }
}
