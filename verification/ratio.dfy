/** Level-of-detail mode 1: each bucket draws as many points as its cell's
    scaled on-screen footprint (show_Boctree.h: displayOctTreeLOD2,
    displayOctTreeCulledLOD2), and the simpler footprint-threshold pair
    (displayOctTreeLOD3, displayOctTreeCulledLOD3). */
module Ratio {
  import opened Bits
  import opened Numeric
  import opened Seqs
  import opened Geometry
  import opened Octree
  import opened Stride
  import opened Exhaustive

  /** `l = max((int)(l * l * ratio), 0)` for the footprint `l` of a cell:
      the squared footprint scaled by the ratio, truncated toward zero,
      negative results clamped to zero. */
  function Scale(l: int, ratio: real): (r: nat)
    ensures (l * l) as real * ratio >= 0.0 ==> r as real <= (l * l) as real * ratio < r as real + 1.0
    ensures (l * l) as real * ratio < 1.0 ==> r == 0
  {
    Max(Trunc((l * l) as real * ratio), 0)
  }

  /** The scaled footprint of the cell of child octant `oct`. */
  function ChildScale(o: Oracles, cell: Cell, oct: nat, ratio: real): nat
  {
    Scale(o.footprint(ChildCell(o, cell, oct)), ratio)
  }

  /** At most `l` points of a bucket: all of it if it fits, else `l` stride
      samples. */
  function Thin(ps: seq<Point>, l: nat): (r: seq<Point>)
    requires |ps| > 0 && l > 0
    ensures |r| == Min(|ps|, l)
    ensures Sub(r, ps)
    ensures r[0] == ps[0]
  {
    SubRefl(ps);
    if |ps| > l then SampleSpec(ps, l); Sample(ps, l) else ps
  }

  /** The unculled leaf rule: more than one point only when the scaled
      footprint exceeds one; otherwise the first point alone, even when the
      footprint scales to zero. */
  function RatioLeaf(ps: seq<Point>, l: nat): (r: seq<Point>)
    requires |ps| > 0
    ensures l > 1 ==> |r| == Min(|ps|, l)
    ensures l <= 1 ==> r == [ps[0]]
    ensures Sub(r, ps)
  {
    if l > 1 then Thin(ps, l) else SubHead(ps); [ps[0]]
  }

  /** The culled leaf rule: `min(length, l)` points, so none at all when
      the footprint scales to zero. The source's third branch, for
      `l == 1`, cannot be reached after the two before it and is left
      out. */
  function CulledRatioLeaf(ps: seq<Point>, l: nat): (r: seq<Point>)
    requires |ps| > 0
    ensures |r| == Min(|ps|, l)
    ensures Sub(r, ps)
  {
    if l != 0 then Thin(ps, l) else SubEmpty(ps); []
  }

  /** The two leaf rules differ only when the footprint scales to zero. */
  lemma RatioLeafRulesAgree(ps: seq<Point>, l: nat)
    requires |ps| > 0 && l > 0
    ensures CulledRatioLeaf(ps, l) == RatioLeaf(ps, l)
  {
    if l == 1 {
      var r := CulledRatioLeaf(ps, l);
      assert |r| == 1 && r[0] == ps[0];
    }
  }

  /** Mode 1 without culling. A subtree whose scaled footprint is zero is
      skipped; any other subtree is drawn with the CULLED traversal. */
  function Lod2(o: Oracles, n: Node, cell: Cell, ratio: real): seq<Point>
    requires WellFormed(n)
    decreases n, 1
  {
    Lod2From(o, n, cell, ratio, 0)
  }

  function Lod2From(o: Oracles, n: Node, cell: Cell, ratio: real, j: nat): seq<Point>
    requires WellFormed(n) && j <= |n.children|
    decreases n, 0, |n.children| - j
  {
    if j == |n.children| then [] else Lod2At(o, n, cell, ratio, j) + Lod2From(o, n, cell, ratio, j + 1)
  }

  function Lod2At(o: Oracles, n: Node, cell: Cell, ratio: real, j: nat): seq<Point>
    requires WellFormed(n) && j < |n.children|
    decreases n, 0, 0
  {
    match SlotAt(n, j)
    case LeafSlot(oct, ps) => RatioLeaf(ps, ChildScale(o, cell, oct, ratio))
    case NodeSlot(oct, m) =>
      if ChildScale(o, cell, oct, ratio) > 0 then CulledLod2(o, m, ChildCell(o, cell, oct), ratio) else []
  }

  /** Mode 1 with culling: outside draws nothing, inside switches to the
      unculled traversal, and at a partial cell each bucket is checked
      against the frustum and drawn by the culled leaf rule. */
  function CulledLod2(o: Oracles, n: Node, cell: Cell, ratio: real): (r: seq<Point>)
    requires WellFormed(n)
    ensures o.classify(cell) == Outside ==> r == []
    ensures o.classify(cell) == Inside ==> r == Lod2(o, n, cell, ratio)
    decreases n, 2
  {
    match o.classify(cell)
    case Outside => []
    case Inside => Lod2(o, n, cell, ratio)
    case Partial => CulledLod2From(o, n, cell, ratio, 0)
  }

  function CulledLod2From(o: Oracles, n: Node, cell: Cell, ratio: real, j: nat): seq<Point>
    requires WellFormed(n) && j <= |n.children|
    decreases n, 0, |n.children| - j
  {
    if j == |n.children| then []
    else CulledLod2At(o, n, cell, ratio, j) + CulledLod2From(o, n, cell, ratio, j + 1)
  }

  function CulledLod2At(o: Oracles, n: Node, cell: Cell, ratio: real, j: nat): seq<Point>
    requires WellFormed(n) && j < |n.children|
    decreases n, 0, 0
  {
    match SlotAt(n, j)
    case LeafSlot(oct, ps) =>
      if o.inFrustum(ChildCell(o, cell, oct)) then CulledRatioLeaf(ps, ChildScale(o, cell, oct, ratio)) else []
    case NodeSlot(oct, m) => CulledLod2(o, m, ChildCell(o, cell, oct), ratio)
  }

  /** Mode 1 draws stored points only, in traversal order, none twice. */
  lemma {:induction false} Lod2IsSub(o: Oracles, n: Node, cell: Cell, ratio: real)
    requires WellFormed(n)
    ensures Sub(Lod2(o, n, cell, ratio), All(n))
    decreases n, 1
  {
    Lod2FromIsSub(o, n, cell, ratio, 0);
  }

  lemma {:induction false} Lod2FromIsSub(o: Oracles, n: Node, cell: Cell, ratio: real, j: nat)
    requires WellFormed(n) && j <= |n.children|
    ensures Sub(Lod2From(o, n, cell, ratio, j), AllFrom(n, j))
    decreases n, 0, |n.children| - j
  {
    if j < |n.children| {
      Lod2FromIsSub(o, n, cell, ratio, j + 1);
      Lod2AtIsSub(o, n, cell, ratio, j);
      SubConcat(Lod2At(o, n, cell, ratio, j), AllAt(n, j), Lod2From(o, n, cell, ratio, j + 1), AllFrom(n, j + 1));
    } else {
      SubEmpty(AllFrom(n, j));
    }
  }

  lemma {:induction false} Lod2AtIsSub(o: Oracles, n: Node, cell: Cell, ratio: real, j: nat)
    requires WellFormed(n) && j < |n.children|
    ensures Sub(Lod2At(o, n, cell, ratio, j), AllAt(n, j))
    decreases n, 0, 0
  {
    match SlotAt(n, j)
    case LeafSlot(_, _) =>
    case NodeSlot(oct, m) =>
      if ChildScale(o, cell, oct, ratio) > 0 {
        CulledLod2IsSub(o, m, ChildCell(o, cell, oct), ratio);
      } else {
        SubEmpty(AllAt(n, j));
      }
  }

  /** Culled mode 1 draws stored points only, in traversal order. */
  lemma {:induction false} CulledLod2IsSub(o: Oracles, n: Node, cell: Cell, ratio: real)
    requires WellFormed(n)
    ensures Sub(CulledLod2(o, n, cell, ratio), All(n))
    decreases n, 2
  {
    match o.classify(cell)
    case Outside => SubEmpty(All(n));
    case Inside => Lod2IsSub(o, n, cell, ratio);
    case Partial => CulledLod2FromIsSub(o, n, cell, ratio, 0);
  }

  lemma {:induction false} CulledLod2FromIsSub(o: Oracles, n: Node, cell: Cell, ratio: real, j: nat)
    requires WellFormed(n) && j <= |n.children|
    ensures Sub(CulledLod2From(o, n, cell, ratio, j), AllFrom(n, j))
    decreases n, 0, |n.children| - j
  {
    if j < |n.children| {
      CulledLod2FromIsSub(o, n, cell, ratio, j + 1);
      CulledLod2AtIsSub(o, n, cell, ratio, j);
      SubConcat(CulledLod2At(o, n, cell, ratio, j), AllAt(n, j),
                CulledLod2From(o, n, cell, ratio, j + 1), AllFrom(n, j + 1));
    } else {
      SubEmpty(AllFrom(n, j));
    }
  }

  lemma {:induction false} CulledLod2AtIsSub(o: Oracles, n: Node, cell: Cell, ratio: real, j: nat)
    requires WellFormed(n) && j < |n.children|
    ensures Sub(CulledLod2At(o, n, cell, ratio, j), AllAt(n, j))
    decreases n, 0, 0
  {
    match SlotAt(n, j)
    case LeafSlot(oct, ps) =>
      if !o.inFrustum(ChildCell(o, cell, oct)) {
        SubEmpty(ps);
      }
    case NodeSlot(oct, m) => CulledLod2IsSub(o, m, ChildCell(o, cell, oct), ratio);
  }

  /** Every cell's footprint scales to at least one point. */
  ghost predicate FootprintsPositive(o: Oracles, ratio: real)
  {
    forall c :: Scale(o.footprint(c), ratio) > 0
  }

  /** The culled and unculled mode-1 traversals agree when nothing is
      culled and no footprint scales to zero; only through a zero footprint
      can the two leaf rules and the two subtree rules tell them apart. */
  lemma {:induction false} CulledLod2Uncut(o: Oracles, n: Node, cell: Cell, ratio: real)
    requires WellFormed(n) && NeverOutside(o) && AlwaysVisible(o) && FootprintsPositive(o, ratio)
    ensures CulledLod2(o, n, cell, ratio) == Lod2(o, n, cell, ratio)
    decreases n, 2
  {
    if o.classify(cell) == Partial {
      CulledLod2FromUncut(o, n, cell, ratio, 0);
    }
  }

  lemma {:induction false} CulledLod2FromUncut(o: Oracles, n: Node, cell: Cell, ratio: real, j: nat)
    requires WellFormed(n) && NeverOutside(o) && AlwaysVisible(o) && FootprintsPositive(o, ratio)
    requires j <= |n.children|
    ensures CulledLod2From(o, n, cell, ratio, j) == Lod2From(o, n, cell, ratio, j)
    decreases n, 0, |n.children| - j
  {
    if j < |n.children| {
      CulledLod2FromUncut(o, n, cell, ratio, j + 1);
      CulledLod2AtUncut(o, n, cell, ratio, j);
    }
  }

  lemma {:induction false} CulledLod2AtUncut(o: Oracles, n: Node, cell: Cell, ratio: real, j: nat)
    requires WellFormed(n) && NeverOutside(o) && AlwaysVisible(o) && FootprintsPositive(o, ratio)
    requires j < |n.children|
    ensures CulledLod2At(o, n, cell, ratio, j) == Lod2At(o, n, cell, ratio, j)
    decreases n, 0, 0
  {
    match SlotAt(n, j)
    case LeafSlot(oct, ps) =>
      var c := ChildCell(o, cell, oct);
      assert o.inFrustum(c) && Scale(o.footprint(c), ratio) > 0;
      RatioLeafRulesAgree(ps, ChildScale(o, cell, oct, ratio));
    case NodeSlot(oct, m) =>
      assert Scale(o.footprint(ChildCell(o, cell, oct)), ratio) > 0;
  }

  /** A one-bucket tree whose footprint scales to zero: unculled, the
      bucket still draws its first point; culled at a partial cell, it
      draws nothing. */
  lemma ZeroFootprintRulesDiffer(p: Point, o: Oracles, cell: Cell, ratio: real)
    requires o.classify(cell) == Partial && AlwaysVisible(o)
    requires forall c :: Scale(o.footprint(c), ratio) == 0
    ensures var n := Node(1, 1, [Bucket([p])]);
      WellFormed(n) && Lod2(o, n, cell, ratio) == [p] && CulledLod2(o, n, cell, ratio) == []
  {
    var n := Node(1, 1, [Bucket([p])]);
    assert Octants(1) == [0];
    assert WellFormed(n);
    assert SlotAt(n, 0) == LeafSlot(0, [p]);
    assert ChildScale(o, cell, 0, ratio) == 0;
    assert o.inFrustum(ChildCell(o, cell, 0));
    assert Lod2At(o, n, cell, ratio, 0) == [p];
    assert CulledLod2At(o, n, cell, ratio, 0) == [];
    assert Lod2From(o, n, cell, ratio, 0) == [p] + Lod2From(o, n, cell, ratio, 1);
    assert CulledLod2From(o, n, cell, ratio, 0) == [] + CulledLod2From(o, n, cell, ratio, 1);
  }

  /** The threshold leaf rule of LOD3: the first point alone when the
      cell's footprint is at most the target, else every point. */
  function ThresholdLeaf(ps: seq<Point>, l: int, t: int): (r: seq<Point>)
    requires |ps| > 0
    ensures Sub(r, ps)
    ensures |r| == if l <= t then 1 else |ps|
    ensures r[0] == ps[0]
  {
    if l <= t then SubHead(ps); [ps[0]] else SubRefl(ps); ps
  }

  /** LOD3 without culling; a non-positive target draws nothing. */
  function Lod3(o: Oracles, n: Node, cell: Cell, t: int): (r: seq<Point>)
    requires WellFormed(n)
    ensures t <= 0 ==> r == []
    decreases n, 1
  {
    if t <= 0 then [] else Lod3From(o, n, cell, t, 0)
  }

  function Lod3From(o: Oracles, n: Node, cell: Cell, t: int, j: nat): seq<Point>
    requires WellFormed(n) && j <= |n.children|
    decreases n, 0, |n.children| - j
  {
    if j == |n.children| then [] else Lod3At(o, n, cell, t, j) + Lod3From(o, n, cell, t, j + 1)
  }

  function Lod3At(o: Oracles, n: Node, cell: Cell, t: int, j: nat): seq<Point>
    requires WellFormed(n) && j < |n.children|
    decreases n, 0, 0
  {
    match SlotAt(n, j)
    case LeafSlot(oct, ps) => ThresholdLeaf(ps, o.footprint(ChildCell(o, cell, oct)), t)
    case NodeSlot(oct, m) => Lod3(o, m, ChildCell(o, cell, oct), t)
  }

  /** LOD3 with culling. */
  function CulledLod3(o: Oracles, n: Node, cell: Cell, t: int): (r: seq<Point>)
    requires WellFormed(n)
    ensures t <= 0 ==> r == []
    ensures t > 0 && o.classify(cell) == Outside ==> r == []
    ensures t > 0 && o.classify(cell) == Inside ==> r == Lod3(o, n, cell, t)
    decreases n, 2
  {
    if t <= 0 then []
    else
      match o.classify(cell)
      case Outside => []
      case Inside => Lod3(o, n, cell, t)
      case Partial => CulledLod3From(o, n, cell, t, 0)
  }

  function CulledLod3From(o: Oracles, n: Node, cell: Cell, t: int, j: nat): seq<Point>
    requires WellFormed(n) && j <= |n.children|
    decreases n, 0, |n.children| - j
  {
    if j == |n.children| then [] else CulledLod3At(o, n, cell, t, j) + CulledLod3From(o, n, cell, t, j + 1)
  }

  function CulledLod3At(o: Oracles, n: Node, cell: Cell, t: int, j: nat): seq<Point>
    requires WellFormed(n) && j < |n.children|
    decreases n, 0, 0
  {
    match SlotAt(n, j)
    case LeafSlot(oct, ps) =>
      var c := ChildCell(o, cell, oct);
      if o.inFrustum(c) then ThresholdLeaf(ps, o.footprint(c), t) else []
    case NodeSlot(oct, m) => CulledLod3(o, m, ChildCell(o, cell, oct), t)
  }

  /** LOD3 draws stored points only, in traversal order. */
  lemma {:induction false} Lod3IsSub(o: Oracles, n: Node, cell: Cell, t: int)
    requires WellFormed(n)
    ensures Sub(Lod3(o, n, cell, t), All(n))
    decreases n, 1
  {
    if t <= 0 {
      SubEmpty(All(n));
    } else {
      Lod3FromIsSub(o, n, cell, t, 0);
    }
  }

  lemma {:induction false} Lod3FromIsSub(o: Oracles, n: Node, cell: Cell, t: int, j: nat)
    requires WellFormed(n) && j <= |n.children|
    ensures Sub(Lod3From(o, n, cell, t, j), AllFrom(n, j))
    decreases n, 0, |n.children| - j
  {
    if j < |n.children| {
      Lod3FromIsSub(o, n, cell, t, j + 1);
      Lod3AtIsSub(o, n, cell, t, j);
      SubConcat(Lod3At(o, n, cell, t, j), AllAt(n, j), Lod3From(o, n, cell, t, j + 1), AllFrom(n, j + 1));
    } else {
      SubEmpty(AllFrom(n, j));
    }
  }

  lemma {:induction false} Lod3AtIsSub(o: Oracles, n: Node, cell: Cell, t: int, j: nat)
    requires WellFormed(n) && j < |n.children|
    ensures Sub(Lod3At(o, n, cell, t, j), AllAt(n, j))
    decreases n, 0, 0
  {
    match SlotAt(n, j)
    case LeafSlot(_, _) =>
    case NodeSlot(oct, m) => Lod3IsSub(o, m, ChildCell(o, cell, oct), t);
  }

  /** Culling only drops points from what LOD3 would draw unculled. */
  lemma {:induction false} CulledLod3IsSub(o: Oracles, n: Node, cell: Cell, t: int)
    requires WellFormed(n)
    ensures Sub(CulledLod3(o, n, cell, t), Lod3(o, n, cell, t))
    decreases n, 2
  {
    if t <= 0 || o.classify(cell) == Outside {
      SubEmpty(Lod3(o, n, cell, t));
    } else if o.classify(cell) == Inside {
      SubRefl(Lod3(o, n, cell, t));
    } else {
      CulledLod3FromIsSub(o, n, cell, t, 0);
    }
  }

  lemma {:induction false} CulledLod3FromIsSub(o: Oracles, n: Node, cell: Cell, t: int, j: nat)
    requires WellFormed(n) && j <= |n.children|
    ensures Sub(CulledLod3From(o, n, cell, t, j), Lod3From(o, n, cell, t, j))
    decreases n, 0, |n.children| - j
  {
    if j < |n.children| {
      CulledLod3FromIsSub(o, n, cell, t, j + 1);
      CulledLod3AtIsSub(o, n, cell, t, j);
      SubConcat(CulledLod3At(o, n, cell, t, j), Lod3At(o, n, cell, t, j),
                CulledLod3From(o, n, cell, t, j + 1), Lod3From(o, n, cell, t, j + 1));
    } else {
      SubEmpty(Lod3From(o, n, cell, t, j));
    }
  }

  lemma {:induction false} CulledLod3AtIsSub(o: Oracles, n: Node, cell: Cell, t: int, j: nat)
    requires WellFormed(n) && j < |n.children|
    ensures Sub(CulledLod3At(o, n, cell, t, j), Lod3At(o, n, cell, t, j))
    decreases n, 0, 0
  {
    match SlotAt(n, j)
    case LeafSlot(oct, _) =>
      if o.inFrustum(ChildCell(o, cell, oct)) {
        SubRefl(Lod3At(o, n, cell, t, j));
      } else {
        SubEmpty(Lod3At(o, n, cell, t, j));
      }
    case NodeSlot(oct, m) => CulledLod3IsSub(o, m, ChildCell(o, cell, oct), t);
  }

  /** With nothing culled, the culled LOD3 equals the unculled one. */
  lemma {:induction false} CulledLod3Uncut(o: Oracles, n: Node, cell: Cell, t: int)
    requires WellFormed(n) && NeverOutside(o) && AlwaysVisible(o)
    ensures CulledLod3(o, n, cell, t) == Lod3(o, n, cell, t)
    decreases n, 2
  {
    if t > 0 && o.classify(cell) == Partial {
      CulledLod3FromUncut(o, n, cell, t, 0);
    }
  }

  lemma {:induction false} CulledLod3FromUncut(o: Oracles, n: Node, cell: Cell, t: int, j: nat)
    requires WellFormed(n) && NeverOutside(o) && AlwaysVisible(o) && t > 0 && j <= |n.children|
    ensures CulledLod3From(o, n, cell, t, j) == Lod3From(o, n, cell, t, j)
    decreases n, 0, |n.children| - j
  {
    if j < |n.children| {
      CulledLod3FromUncut(o, n, cell, t, j + 1);
      match SlotAt(n, j)
      case LeafSlot(oct, _) => assert o.inFrustum(ChildCell(o, cell, oct));
      case NodeSlot(oct, m) => CulledLod3Uncut(o, m, ChildCell(o, cell, oct), t);
    }
  }
}
