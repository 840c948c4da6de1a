/** The bit-packed octree node the viewer traverses.

    A node records which of its eight octants hold a child (`valid`) and
    which of those children are point buckets rather than subtrees (`leaf`);
    the children themselves are stored densely, in increasing octant order,
    one per set `valid` bit. */
module Octree {
  import opened Bits
  import opened Geometry

  datatype Child = Bucket(points: seq<Point>) | Inner(node: Node)

  datatype Node = Node(valid: bv8, leaf: bv8, children: seq<Child>)

  /** The tree the construction code hands over: one stored child per set
      `valid` bit, the `leaf` bit of each child's octant telling a bucket
      from a subtree, and no empty bucket (the traversals read a bucket's
      first point unconditionally in several places). */
  predicate WellFormed(n: Node)
    decreases n
  {
    && |n.children| == |Octants(n.valid)|
    && forall j :: 0 <= j < |n.children| ==>
         ChildFits(n.children[j], Has(n.leaf, Octants(n.valid)[j]))
  }

  predicate ChildFits(c: Child, leafBit: bool)
    decreases c
  {
    match c
    case Bucket(ps) => leafBit && |ps| > 0
    case Inner(m) => !leafBit && WellFormed(m)
  }

  /** What the traversal loop finds at child cursor position `j`: the
      octant it belongs to and, as decided by that octant's `leaf` bit,
      either a point bucket or a subtree. */
  datatype Slot = LeafSlot(octant: nat, points: seq<Point>) | NodeSlot(octant: nat, node: Node)

  /** The loop body shared by every traversal: child `j` sits in the j-th
      octant whose `valid` bit is set, and is read as a bucket exactly when
      that octant's `leaf` bit is set. */
  function SlotAt(n: Node, j: nat): (s: Slot)
    requires WellFormed(n) && j < |n.children|
    ensures s.octant < 8 && Has(n.valid, s.octant)
    ensures s.octant == Octants(n.valid)[j]
    ensures s.LeafSlot? <==> Has(n.leaf, s.octant)
    ensures s.LeafSlot? ==> n.children[j] == Bucket(s.points) && |s.points| > 0
    ensures s.NodeSlot? ==> n.children[j] == Inner(s.node) && WellFormed(s.node)
  {
    OctantsFromSound(n.valid, 0);
    var oct := Octants(n.valid)[j];
    assert ChildFits(n.children[j], Has(n.leaf, oct));
    if Has(n.leaf, oct) then LeafSlot(oct, n.children[j].points)
    else NodeSlot(oct, n.children[j].node)
  }

  /** A well-formed node has exactly `Popcount(valid)` stored children. */
  lemma ChildCount(n: Node)
    requires WellFormed(n)
    ensures |n.children| == Popcount(n.valid)
  {
    OctantsSpec(n.valid);
  }

  /** Every point stored below `n`, with multiplicity, read from the child
      sequence alone (masks ignored). */
  function Bag(n: Node): multiset<Point>
    decreases n, 1
  {
    BagFrom(n, 0)
  }

  function BagFrom(n: Node, j: nat): multiset<Point>
    requires j <= |n.children|
    decreases n, 0, |n.children| - j
  {
    if j == |n.children| then multiset{} else BagAt(n, j) + BagFrom(n, j + 1)
  }

  function BagAt(n: Node, j: nat): multiset<Point>
    requires j < |n.children|
    decreases n, 0, 0
  {
    match n.children[j]
    case Bucket(ps) => multiset(ps)
    case Inner(m) => Bag(m)
  }

  /** The distinct points stored below `n`. */
  function Members(n: Node): set<Point>
  {
    set p | p in Bag(n)
  }

  /** Number of point buckets below `n`. */
  function LeafCount(n: Node): nat
    decreases n, 1
  {
    LeafCountFrom(n, 0)
  }

  function LeafCountFrom(n: Node, j: nat): nat
    requires j <= |n.children|
    decreases n, 0, |n.children| - j
  {
    if j == |n.children| then 0 else LeafCountAt(n, j) + LeafCountFrom(n, j + 1)
  }

  function LeafCountAt(n: Node, j: nat): nat
    requires j < |n.children|
    decreases n, 0, 0
  {
    match n.children[j]
    case Bucket(_) => 1
    case Inner(m) => LeafCount(m)
  }

  /** The number of node levels on the longest path from `n` down to a
      bucket: 1 for a node whose children are all buckets. */
  function Height(n: Node): nat
    decreases n, 1
  {
    1 + HeightFrom(n, 0)
  }

  function HeightFrom(n: Node, j: nat): nat
    requires j <= |n.children|
    decreases n, 0, |n.children| - j
  {
    if j == |n.children| then 0
    else
      var h, rest := HeightAt(n, j), HeightFrom(n, j + 1);
      if h >= rest then h else rest
  }

  function HeightAt(n: Node, j: nat): nat
    requires j < |n.children|
    decreases n, 0, 0
  {
    match n.children[j]
    case Bucket(_) => 0
    case Inner(m) => Height(m)
  }
}
