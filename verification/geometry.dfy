/** Points, octree cells and the geometric oracles the traversals consult.

    The oracles live in headers this model does not contain (child-centre
    computation, view-frustum tests, on-screen footprint, ray tests); each is
    a total function field of `Oracles`, so every property proved here holds
    for every camera, frustum and pick ray. */
module Geometry {

  datatype Vec3 = Vec3(x: real, y: real, z: real)

  /** A cubic octree cell: its centre and its half-size (the source's
      `center` and `size`). */
  datatype Cell = Cell(center: Vec3, size: real)

  /** A stored point. `addr` is its identity (the source hands out the
      address of the point inside its bucket); `pos` its first three
      coordinates, the ones sent to the renderer. */
  datatype Point = Point(addr: nat, pos: Vec3)

  /** A culling plane of the view frustum (four coefficients). */
  datatype Plane = Plane(a: real, b: real, c: real, d: real)

  /** Result of the whole-frustum test of a cell: 0, 1 or 2 in the source. */
  datatype Visibility = Outside | Partial | Inside

  /** Result of testing a cell against one frustum plane: 0, 1 or other. */
  datatype PlaneSide = Behind | Crossing | InFront

  datatype Oracles = Oracles(
    /** centre of child octant `i` of the cell with this centre and half-size */
    childCenter: (Vec3, real, nat) -> Vec3,
    /** whole-frustum classification of a cell */
    classify: Cell -> Visibility,
    /** whether a cell is at least partly in the frustum */
    inFrustum: Cell -> bool,
    /** whether a cell covers enough of the screen to be worth detail */
    worthDetail: Cell -> bool,
    /** estimated on-screen size of a cell */
    footprint: Cell -> int,
    /** where a cell lies relative to one frustum plane */
    planeSide: (Cell, Plane) -> PlaneSide,
    /** whether the pick ray meets the box of a cell */
    hitsBox: Cell -> bool,
    /** distance of a point along the pick ray */
    rayDist: Point -> real,
    /** on-screen distance of a point from the pick ray */
    screenDist: Point -> real)

  /** The cell of child octant `oct`: the oracle's child centre and half the
      parent's half-size. */
  function ChildCell(o: Oracles, cell: Cell, oct: nat): (c: Cell)
    ensures c.size * 2.0 == cell.size
  {
    Cell(o.childCenter(cell.center, cell.size, oct), cell.size / 2.0)
  }

  /** The box the selection traversals test for a leaf: the child's centre
      with the PARENT's half-size. */
  function PickBox(o: Oracles, cell: Cell, oct: nat): (c: Cell)
    ensures c.center == ChildCell(o, cell, oct).center
    ensures c.size == cell.size
  {
    Cell(o.childCenter(cell.center, cell.size, oct), cell.size)
  }

  /** No cell is ever classified as wholly outside the frustum. */
  ghost predicate NeverOutside(o: Oracles)
  {
    forall c :: o.classify(c) != Outside
  }

  /** Every cell passes the per-leaf frustum test. */
  ghost predicate AlwaysVisible(o: Oracles)
  {
    forall c :: o.inFrustum(c)
  }

  /** Events a traversal sends to the renderer. `Vertex` is one point,
      `Sprite` one enlarged point standing for a whole cell, `Cube` the
      six-face outline of a cell. */
  datatype Event = Vertex(p: Point) | Sprite(at: Vec3, size: real) | Cube(cell: Cell)

  function Vertices(ps: seq<Point>): (r: seq<Event>)
    ensures |r| == |ps|
    ensures forall k :: 0 <= k < |ps| ==> r[k] == Vertex(ps[k])
  {
    seq(|ps|, k requires 0 <= k < |ps| => Vertex(ps[k]))
  }

  /** Vertices distribute over concatenation. */
  lemma VerticesConcat(a: seq<Point>, b: seq<Point>)
    ensures Vertices(a + b) == Vertices(a) + Vertices(b)
  {
  }
}
