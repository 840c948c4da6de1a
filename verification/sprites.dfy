/** The sprite mode and the cell-outline debug display (show_Boctree.h:
    displayOctTreeCPAll, displayOctTreeCPAllCulled, displayOctTreeCAll,
    displayOctTreeCAllCulled).

    Both compare a threshold `minsize` with the half-size of the node being
    split. Above it every child of the node is drawn as one sprite (or one
    cube outline) instead of being descended into; below it the sprite
    mode draws the points of a bucket, and the outline display draws a cube
    for every bucket's cell. */
module Sprites {
  import opened Bits
  import opened Geometry
  import opened Octree
  import opened Seqs
  import opened Exhaustive

  /** The sprite standing for a whole cell: drawn at the cell's centre,
      with the cell's half-size as point size. */
  function SpriteOf(c: Cell): Event
  {
    Sprite(c.center, c.size)
  }

  /** A sprite for the cell, if it passes the per-cell frustum test. */
  function VisibleSprite(o: Oracles, c: Cell): (r: seq<Event>)
    ensures |r| <= 1
    ensures r == [SpriteOf(c)] <==> o.inFrustum(c)
    ensures !o.inFrustum(c) ==> r == []
  {
    if o.inFrustum(c) then [SpriteOf(c)] else []
  }

  /** The cells of the children of `n`, in storage order. */
  function ChildCells(o: Oracles, n: Node, cell: Cell): (r: seq<Cell>)
    requires WellFormed(n)
    ensures |r| == |n.children|
  {
    seq(|n.children|, j requires 0 <= j < |n.children| => ChildCell(o, cell, Octants(n.valid)[j]))
  }

  // ---------------------------------------------------------------------
  // Sprite mode

  /** `displayOctTreeCPAll`: no culling of inner cells, but the sprites
      themselves are drawn only when their cell passes the per-cell test. */
  function CPAll(o: Oracles, n: Node, cell: Cell, minsize: real): seq<Event>
    requires WellFormed(n)
    decreases n, 1
  {
    CPAllFrom(o, n, cell, minsize, 0)
  }

  function CPAllFrom(o: Oracles, n: Node, cell: Cell, minsize: real, j: nat): seq<Event>
    requires WellFormed(n) && j <= |n.children|
    decreases n, 0, |n.children| - j
  {
    if j == |n.children| then [] else CPAllAt(o, n, cell, minsize, j) + CPAllFrom(o, n, cell, minsize, j + 1)
  }

  function CPAllAt(o: Oracles, n: Node, cell: Cell, minsize: real, j: nat): seq<Event>
    requires WellFormed(n) && j < |n.children|
    decreases n, 0, 0
  {
    match SlotAt(n, j)
    case LeafSlot(oct, ps) =>
      if minsize > cell.size then VisibleSprite(o, ChildCell(o, cell, oct)) else Vertices(ps)
    case NodeSlot(oct, m) =>
      var c := ChildCell(o, cell, oct);
      if minsize > cell.size then VisibleSprite(o, c) else CPAll(o, m, c, minsize)
  }

  /** `displayOctTreeCPAllCulled`: whole-frustum culling of inner cells,
      the unculled traversal below fully-inside cells, and the per-cell
      test on both sprites and buckets. */
  function CPAllCulled(o: Oracles, n: Node, cell: Cell, minsize: real): (r: seq<Event>)
    requires WellFormed(n)
    ensures o.classify(cell) == Outside ==> r == []
    ensures o.classify(cell) == Inside ==> r == CPAll(o, n, cell, minsize)
    decreases n, 2
  {
    match o.classify(cell)
    case Outside => []
    case Inside => CPAll(o, n, cell, minsize)
    case Partial => CPAllCulledFrom(o, n, cell, minsize, 0)
  }

  function CPAllCulledFrom(o: Oracles, n: Node, cell: Cell, minsize: real, j: nat): seq<Event>
    requires WellFormed(n) && j <= |n.children|
    decreases n, 0, |n.children| - j
  {
    if j == |n.children| then []
    else CPAllCulledAt(o, n, cell, minsize, j) + CPAllCulledFrom(o, n, cell, minsize, j + 1)
  }

  function CPAllCulledAt(o: Oracles, n: Node, cell: Cell, minsize: real, j: nat): seq<Event>
    requires WellFormed(n) && j < |n.children|
    decreases n, 0, 0
  {
    match SlotAt(n, j)
    case LeafSlot(oct, ps) =>
      var c := ChildCell(o, cell, oct);
      if minsize > cell.size then VisibleSprite(o, c)
      else if o.inFrustum(c) then Vertices(ps)
      else []
    case NodeSlot(oct, m) =>
      var c := ChildCell(o, cell, oct);
      if minsize > cell.size then VisibleSprite(o, c) else CPAllCulled(o, m, c, minsize)
  }

  /** Culling only drops events, in order. */
  lemma {:induction false} CPAllCulledIsSub(o: Oracles, n: Node, cell: Cell, minsize: real)
    requires WellFormed(n)
    ensures Sub(CPAllCulled(o, n, cell, minsize), CPAll(o, n, cell, minsize))
    decreases n, 1
  {
    match o.classify(cell)
    case Outside => SubEmpty(CPAll(o, n, cell, minsize));
    case Inside => SubRefl(CPAll(o, n, cell, minsize));
    case Partial => CPAllCulledFromIsSub(o, n, cell, minsize, 0);
  }

  lemma {:induction false} CPAllCulledFromIsSub(o: Oracles, n: Node, cell: Cell, minsize: real, j: nat)
    requires WellFormed(n) && j <= |n.children|
    ensures Sub(CPAllCulledFrom(o, n, cell, minsize, j), CPAllFrom(o, n, cell, minsize, j))
    decreases n, 0, |n.children| - j
  {
    if j < |n.children| {
      CPAllCulledFromIsSub(o, n, cell, minsize, j + 1);
      CPAllCulledAtIsSub(o, n, cell, minsize, j);
      SubConcat(CPAllCulledAt(o, n, cell, minsize, j), CPAllAt(o, n, cell, minsize, j),
                CPAllCulledFrom(o, n, cell, minsize, j + 1), CPAllFrom(o, n, cell, minsize, j + 1));
    } else {
      SubEmpty(CPAllFrom(o, n, cell, minsize, j));
    }
  }

  lemma {:induction false} CPAllCulledAtIsSub(o: Oracles, n: Node, cell: Cell, minsize: real, j: nat)
    requires WellFormed(n) && j < |n.children|
    ensures Sub(CPAllCulledAt(o, n, cell, minsize, j), CPAllAt(o, n, cell, minsize, j))
    decreases n, 0, 0
  {
    var e := CPAllAt(o, n, cell, minsize, j);
    match SlotAt(n, j)
    case LeafSlot(oct, ps) =>
      if minsize > cell.size || o.inFrustum(ChildCell(o, cell, oct)) {
        SubRefl(e);
      } else {
        SubEmpty(e);
      }
    case NodeSlot(oct, m) =>
      if minsize > cell.size {
        SubRefl(e);
      } else {
        CPAllCulledIsSub(o, m, ChildCell(o, cell, oct), minsize);
      }
  }

  /** With no cell outside and every cell passing the per-cell test, the
      culled sprite traversal draws exactly what the unculled one draws. */
  lemma {:induction false} CPAllCulledUncut(o: Oracles, n: Node, cell: Cell, minsize: real)
    requires WellFormed(n) && NeverOutside(o) && AlwaysVisible(o)
    ensures CPAllCulled(o, n, cell, minsize) == CPAll(o, n, cell, minsize)
    decreases n, 1
  {
    if o.classify(cell) == Partial {
      CPAllCulledFromUncut(o, n, cell, minsize, 0);
    }
  }

  lemma {:induction false} CPAllCulledFromUncut(o: Oracles, n: Node, cell: Cell, minsize: real, j: nat)
    requires WellFormed(n) && NeverOutside(o) && AlwaysVisible(o) && j <= |n.children|
    ensures CPAllCulledFrom(o, n, cell, minsize, j) == CPAllFrom(o, n, cell, minsize, j)
    decreases n, 0, |n.children| - j
  {
    if j < |n.children| {
      CPAllCulledFromUncut(o, n, cell, minsize, j + 1);
      CPAllCulledAtUncut(o, n, cell, minsize, j);
    }
  }

  lemma {:induction false} CPAllCulledAtUncut(o: Oracles, n: Node, cell: Cell, minsize: real, j: nat)
    requires WellFormed(n) && NeverOutside(o) && AlwaysVisible(o) && j < |n.children|
    ensures CPAllCulledAt(o, n, cell, minsize, j) == CPAllAt(o, n, cell, minsize, j)
    decreases n, 0, 0
  {
    match SlotAt(n, j)
    case LeafSlot(oct, _) => assert o.inFrustum(ChildCell(o, cell, oct));
    case NodeSlot(oct, m) =>
      if minsize <= cell.size {
        CPAllCulledUncut(o, m, ChildCell(o, cell, oct), minsize);
      }
  }

  /** With a threshold no cell exceeds, the sprite mode draws every stored
      point once, in the exhaustive traversal's order. */
  lemma {:induction false} CPAllFullDetail(o: Oracles, n: Node, cell: Cell, minsize: real)
    requires WellFormed(n) && minsize <= 0.0 && cell.size >= 0.0
    ensures CPAll(o, n, cell, minsize) == Vertices(All(n))
    decreases n, 1
  {
    CPAllFromFullDetail(o, n, cell, minsize, 0);
  }

  lemma {:induction false} CPAllFromFullDetail(o: Oracles, n: Node, cell: Cell, minsize: real, j: nat)
    requires WellFormed(n) && minsize <= 0.0 && cell.size >= 0.0 && j <= |n.children|
    ensures CPAllFrom(o, n, cell, minsize, j) == Vertices(AllFrom(n, j))
    decreases n, 0, |n.children| - j
  {
    if j < |n.children| {
      CPAllFromFullDetail(o, n, cell, minsize, j + 1);
      CPAllAtFullDetail(o, n, cell, minsize, j);
      VerticesConcat(AllAt(n, j), AllFrom(n, j + 1));
    }
  }

  lemma {:induction false} CPAllAtFullDetail(o: Oracles, n: Node, cell: Cell, minsize: real, j: nat)
    requires WellFormed(n) && minsize <= 0.0 && cell.size >= 0.0 && j < |n.children|
    ensures CPAllAt(o, n, cell, minsize, j) == Vertices(AllAt(n, j))
    decreases n, 0, 0
  {
    match SlotAt(n, j)
    case LeafSlot(_, _) =>
    case NodeSlot(oct, m) => CPAllFullDetail(o, m, ChildCell(o, cell, oct), minsize);
  }

  /** With a threshold above the node's half-size, the sprite mode draws one
      sprite per child cell, in storage order, and nothing else (every cell
      passing the test). */
  lemma CPAllCoarse(o: Oracles, n: Node, cell: Cell, minsize: real)
    requires WellFormed(n) && minsize > cell.size && AlwaysVisible(o)
    ensures CPAll(o, n, cell, minsize) == SpritesOf(ChildCells(o, n, cell))
  {
    assert ChildrenVisible(o, n, cell);
    CPAllFromCoarse(o, n, cell, minsize, 0);
    SpritesFromIsSpritesOf(ChildCells(o, n, cell), 0);
    assert ChildCells(o, n, cell)[0..] == ChildCells(o, n, cell);
  }

  lemma {:induction false} CPAllFromCoarse(o: Oracles, n: Node, cell: Cell, minsize: real, j: nat)
    requires WellFormed(n) && minsize > cell.size && j <= |n.children|
    requires ChildrenVisible(o, n, cell)
    ensures CPAllFrom(o, n, cell, minsize, j) == SpritesFrom(ChildCells(o, n, cell), j)
    decreases |n.children| - j
  {
    if j < |n.children| {
      CPAllFromCoarse(o, n, cell, minsize, j + 1);
      CPAllAtCoarse(o, n, cell, minsize, j);
    }
  }

  lemma CPAllAtCoarse(o: Oracles, n: Node, cell: Cell, minsize: real, j: nat)
    requires WellFormed(n) && minsize > cell.size && j < |n.children|
    requires ChildrenVisible(o, n, cell)
    ensures CPAllAt(o, n, cell, minsize, j) == [SpriteOf(ChildCells(o, n, cell)[j])]
  {
    assert o.inFrustum(ChildCells(o, n, cell)[j]);
  }

  /** Every child cell of `n` passes the per-cell frustum test. */
  ghost predicate ChildrenVisible(o: Oracles, n: Node, cell: Cell)
    requires WellFormed(n)
  {
    forall k :: 0 <= k < |n.children| ==> o.inFrustum(ChildCells(o, n, cell)[k])
  }

  function SpritesOf(cs: seq<Cell>): (r: seq<Event>)
    ensures |r| == |cs|
    ensures forall k :: 0 <= k < |cs| ==> r[k] == SpriteOf(cs[k])
  {
    seq(|cs|, k requires 0 <= k < |cs| => SpriteOf(cs[k]))
  }

  lemma SpritesOfConcat(a: seq<Cell>, b: seq<Cell>)
    ensures SpritesOf(a + b) == SpritesOf(a) + SpritesOf(b)
  {
  }

  /** `SpritesOf` of a suffix, built front to back. */
  function SpritesFrom(cs: seq<Cell>, j: nat): seq<Event>
    requires j <= |cs|
    decreases |cs| - j
  {
    if j == |cs| then [] else [SpriteOf(cs[j])] + SpritesFrom(cs, j + 1)
  }

  lemma {:induction false} SpritesFromIsSpritesOf(cs: seq<Cell>, j: nat)
    requires j <= |cs|
    ensures SpritesFrom(cs, j) == SpritesOf(cs[j..])
    decreases |cs| - j
  {
    if j < |cs| {
      SpritesFromIsSpritesOf(cs, j + 1);
      assert cs[j..] == [cs[j]] + cs[j + 1..];
      SpritesOfConcat([cs[j]], cs[j + 1..]);
    }
  }

  // ---------------------------------------------------------------------
  // Cell outlines

  /** `displayOctTreeCAll`: one cube outline per bucket cell, and one per
      child cell of any node whose half-size is below the threshold. */
  function CAll(o: Oracles, n: Node, cell: Cell, minsize: real): seq<Event>
    requires WellFormed(n)
    decreases n, 1
  {
    CAllFrom(o, n, cell, minsize, 0)
  }

  function CAllFrom(o: Oracles, n: Node, cell: Cell, minsize: real, j: nat): seq<Event>
    requires WellFormed(n) && j <= |n.children|
    decreases n, 0, |n.children| - j
  {
    if j == |n.children| then [] else CAllAt(o, n, cell, minsize, j) + CAllFrom(o, n, cell, minsize, j + 1)
  }

  function CAllAt(o: Oracles, n: Node, cell: Cell, minsize: real, j: nat): seq<Event>
    requires WellFormed(n) && j < |n.children|
    decreases n, 0, 0
  {
    match SlotAt(n, j)
    case LeafSlot(oct, _) => [Cube(ChildCell(o, cell, oct))]
    case NodeSlot(oct, m) =>
      var c := ChildCell(o, cell, oct);
      if minsize > cell.size then [Cube(c)] else CAll(o, m, c, minsize)
  }

  /** `displayOctTreeCAllCulled`: the outlines, culled like the sprites. */
  function CAllCulled(o: Oracles, n: Node, cell: Cell, minsize: real): (r: seq<Event>)
    requires WellFormed(n)
    ensures o.classify(cell) == Outside ==> r == []
    ensures o.classify(cell) == Inside ==> r == CAll(o, n, cell, minsize)
    decreases n, 2
  {
    match o.classify(cell)
    case Outside => []
    case Inside => CAll(o, n, cell, minsize)
    case Partial => CAllCulledFrom(o, n, cell, minsize, 0)
  }

  function CAllCulledFrom(o: Oracles, n: Node, cell: Cell, minsize: real, j: nat): seq<Event>
    requires WellFormed(n) && j <= |n.children|
    decreases n, 0, |n.children| - j
  {
    if j == |n.children| then []
    else CAllCulledAt(o, n, cell, minsize, j) + CAllCulledFrom(o, n, cell, minsize, j + 1)
  }

  function CAllCulledAt(o: Oracles, n: Node, cell: Cell, minsize: real, j: nat): seq<Event>
    requires WellFormed(n) && j < |n.children|
    decreases n, 0, 0
  {
    match SlotAt(n, j)
    case LeafSlot(oct, _) =>
      var c := ChildCell(o, cell, oct);
      if o.inFrustum(c) then [Cube(c)] else []
    case NodeSlot(oct, m) =>
      var c := ChildCell(o, cell, oct);
      if minsize > cell.size then (if o.inFrustum(c) then [Cube(c)] else [])
      else CAllCulled(o, m, c, minsize)
  }

  /** Culling only drops outlines, in order. */
  lemma {:induction false} CAllCulledIsSub(o: Oracles, n: Node, cell: Cell, minsize: real)
    requires WellFormed(n)
    ensures Sub(CAllCulled(o, n, cell, minsize), CAll(o, n, cell, minsize))
    decreases n, 1
  {
    match o.classify(cell)
    case Outside => SubEmpty(CAll(o, n, cell, minsize));
    case Inside => SubRefl(CAll(o, n, cell, minsize));
    case Partial => CAllCulledFromIsSub(o, n, cell, minsize, 0);
  }

  lemma {:induction false} CAllCulledFromIsSub(o: Oracles, n: Node, cell: Cell, minsize: real, j: nat)
    requires WellFormed(n) && j <= |n.children|
    ensures Sub(CAllCulledFrom(o, n, cell, minsize, j), CAllFrom(o, n, cell, minsize, j))
    decreases n, 0, |n.children| - j
  {
    if j < |n.children| {
      CAllCulledFromIsSub(o, n, cell, minsize, j + 1);
      CAllCulledAtIsSub(o, n, cell, minsize, j);
      SubConcat(CAllCulledAt(o, n, cell, minsize, j), CAllAt(o, n, cell, minsize, j),
                CAllCulledFrom(o, n, cell, minsize, j + 1), CAllFrom(o, n, cell, minsize, j + 1));
    } else {
      SubEmpty(CAllFrom(o, n, cell, minsize, j));
    }
  }

  lemma {:induction false} CAllCulledAtIsSub(o: Oracles, n: Node, cell: Cell, minsize: real, j: nat)
    requires WellFormed(n) && j < |n.children|
    ensures Sub(CAllCulledAt(o, n, cell, minsize, j), CAllAt(o, n, cell, minsize, j))
    decreases n, 0, 0
  {
    var e := CAllAt(o, n, cell, minsize, j);
    match SlotAt(n, j)
    case LeafSlot(oct, _) =>
      if o.inFrustum(ChildCell(o, cell, oct)) { SubRefl(e); } else { SubEmpty(e); }
    case NodeSlot(oct, m) =>
      var c := ChildCell(o, cell, oct);
      if minsize <= cell.size {
        CAllCulledIsSub(o, m, c, minsize);
      } else if o.inFrustum(c) {
        SubRefl(e);
      } else {
        SubEmpty(e);
      }
  }

  /** With nothing culled, the culled outlines are all the outlines. */
  lemma {:induction false} CAllCulledUncut(o: Oracles, n: Node, cell: Cell, minsize: real)
    requires WellFormed(n) && NeverOutside(o) && AlwaysVisible(o)
    ensures CAllCulled(o, n, cell, minsize) == CAll(o, n, cell, minsize)
    decreases n, 1
  {
    if o.classify(cell) == Partial {
      CAllCulledFromUncut(o, n, cell, minsize, 0);
    }
  }

  lemma {:induction false} CAllCulledFromUncut(o: Oracles, n: Node, cell: Cell, minsize: real, j: nat)
    requires WellFormed(n) && NeverOutside(o) && AlwaysVisible(o) && j <= |n.children|
    ensures CAllCulledFrom(o, n, cell, minsize, j) == CAllFrom(o, n, cell, minsize, j)
    decreases n, 0, |n.children| - j
  {
    if j < |n.children| {
      CAllCulledFromUncut(o, n, cell, minsize, j + 1);
      CAllCulledAtUncut(o, n, cell, minsize, j);
    }
  }

  lemma {:induction false} CAllCulledAtUncut(o: Oracles, n: Node, cell: Cell, minsize: real, j: nat)
    requires WellFormed(n) && NeverOutside(o) && AlwaysVisible(o) && j < |n.children|
    ensures CAllCulledAt(o, n, cell, minsize, j) == CAllAt(o, n, cell, minsize, j)
    decreases n, 0, 0
  {
    match SlotAt(n, j)
    case LeafSlot(oct, _) => assert o.inFrustum(ChildCell(o, cell, oct));
    case NodeSlot(oct, m) =>
      var c := ChildCell(o, cell, oct);
      assert o.inFrustum(c);
      if minsize <= cell.size {
        CAllCulledUncut(o, m, c, minsize);
      }
  }

  ghost predicate OnlyCubes(es: seq<Event>)
  {
    forall e :: e in es ==> e.Cube?
  }

  /** With a threshold no cell exceeds, there is exactly one outline per
      point bucket, and nothing but outlines. */
  lemma {:induction false} CAllOnePerBucket(o: Oracles, n: Node, cell: Cell, minsize: real)
    requires WellFormed(n) && minsize <= 0.0 && cell.size >= 0.0
    ensures |CAll(o, n, cell, minsize)| == LeafCount(n)
    ensures OnlyCubes(CAll(o, n, cell, minsize))
    decreases n, 1
  {
    CAllFromOnePerBucket(o, n, cell, minsize, 0);
  }

  lemma {:induction false} CAllFromOnePerBucket(o: Oracles, n: Node, cell: Cell, minsize: real, j: nat)
    requires WellFormed(n) && minsize <= 0.0 && cell.size >= 0.0 && j <= |n.children|
    ensures |CAllFrom(o, n, cell, minsize, j)| == LeafCountFrom(n, j)
    ensures OnlyCubes(CAllFrom(o, n, cell, minsize, j))
    decreases n, 0, |n.children| - j
  {
    if j < |n.children| {
      CAllFromOnePerBucket(o, n, cell, minsize, j + 1);
      CAllAtOnePerBucket(o, n, cell, minsize, j);
    }
  }

  lemma {:induction false} CAllAtOnePerBucket(o: Oracles, n: Node, cell: Cell, minsize: real, j: nat)
    requires WellFormed(n) && minsize <= 0.0 && cell.size >= 0.0 && j < |n.children|
    ensures |CAllAt(o, n, cell, minsize, j)| == LeafCountAt(n, j)
    ensures OnlyCubes(CAllAt(o, n, cell, minsize, j))
    decreases n, 0, 0
  {
    match SlotAt(n, j)
    case LeafSlot(_, _) =>
    case NodeSlot(oct, m) => CAllOnePerBucket(o, m, ChildCell(o, cell, oct), minsize);
  }

  /** With a threshold above the node's half-size, there is one outline per
      child cell, in storage order. */
  lemma CAllCoarse(o: Oracles, n: Node, cell: Cell, minsize: real)
    requires WellFormed(n) && minsize > cell.size
    ensures CAll(o, n, cell, minsize) == CubesOf(ChildCells(o, n, cell))
  {
    CAllFromCoarse(o, n, cell, minsize, 0);
    CubesFromIsCubesOf(ChildCells(o, n, cell), 0);
    assert ChildCells(o, n, cell)[0..] == ChildCells(o, n, cell);
  }

  lemma {:induction false} CAllFromCoarse(o: Oracles, n: Node, cell: Cell, minsize: real, j: nat)
    requires WellFormed(n) && minsize > cell.size && j <= |n.children|
    ensures CAllFrom(o, n, cell, minsize, j) == CubesFrom(ChildCells(o, n, cell), j)
    decreases |n.children| - j
  {
    if j < |n.children| {
      CAllFromCoarse(o, n, cell, minsize, j + 1);
      CAllAtCoarse(o, n, cell, minsize, j);
    }
  }

  lemma CAllAtCoarse(o: Oracles, n: Node, cell: Cell, minsize: real, j: nat)
    requires WellFormed(n) && minsize > cell.size && j < |n.children|
    ensures CAllAt(o, n, cell, minsize, j) == [Cube(ChildCells(o, n, cell)[j])]
  {
  }

  function CubesOf(cs: seq<Cell>): (r: seq<Event>)
    ensures |r| == |cs|
    ensures forall k :: 0 <= k < |cs| ==> r[k] == Cube(cs[k])
  {
    seq(|cs|, k requires 0 <= k < |cs| => Cube(cs[k]))
  }

  lemma CubesOfConcat(a: seq<Cell>, b: seq<Cell>)
    ensures CubesOf(a + b) == CubesOf(a) + CubesOf(b)
  {
  }

  /** `CubesOf` of a suffix, built front to back. */
  function CubesFrom(cs: seq<Cell>, j: nat): seq<Event>
    requires j <= |cs|
    decreases |cs| - j
  {
    if j == |cs| then [] else [Cube(cs[j])] + CubesFrom(cs, j + 1)
  }

  lemma {:induction false} CubesFromIsCubesOf(cs: seq<Cell>, j: nat)
    requires j <= |cs|
    ensures CubesFrom(cs, j) == CubesOf(cs[j..])
    decreases |cs| - j
  {
    if j < |cs| {
      CubesFromIsCubesOf(cs, j + 1);
      assert cs[j..] == [cs[j]] + cs[j + 1..];
      CubesOfConcat([cs[j]], cs[j + 1..]);
    }
  }
}
