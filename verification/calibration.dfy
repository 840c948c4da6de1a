/** The viewer's calibration and mode state: the point budget that makes
    level-of-detail mode 0 draw everything when every cell is worth detail
    and every bucket is visible, the mode selector, and the
    size threshold of the sprite mode (show_Boctree.h: maxTargetPoints,
    cycleLOD, the mode-2 arm of drawLOD). */
module Calibration {
  import opened Bits
  import opened Numeric
  import opened Octree
  import opened Exhaustive

  /** `maxTargetPoints`: the largest weight among the children, times the
      number of children. A bucket weighs its length, a subtree its own
      value. */
  function MaxTargetPoints(n: Node): nat
    requires WellFormed(n)
    decreases n, 1
  {
    MaxWeightFrom(n, 0) * Popcount(n.valid)
  }

  /** The running maximum of the source's loop, over children `j` onwards. */
  function MaxWeightFrom(n: Node, j: nat): nat
    requires WellFormed(n) && j <= |n.children|
    decreases n, 0, |n.children| - j
  {
    if j == |n.children| then 0
    else
      var w := WeightAt(n, j);
      var rest := MaxWeightFrom(n, j + 1);
      if w > rest then w else rest
  }

  function WeightAt(n: Node, j: nat): nat
    requires WellFormed(n) && j < |n.children|
    decreases n, 0, 0
  {
    match SlotAt(n, j)
    case LeafSlot(_, ps) => |ps|
    case NodeSlot(_, m) => MaxTargetPoints(m)
  }

  /** No child outweighs the running maximum. */
  lemma {:induction false} MaxWeightFromBound(n: Node, j: nat)
    requires WellFormed(n) && j <= |n.children|
    ensures forall i :: j <= i < |n.children| ==> WeightAt(n, i) <= MaxWeightFrom(n, j)
  {
    forall i | j <= i < |n.children|
      ensures WeightAt(n, i) <= MaxWeightFrom(n, j)
    {
      MaxWeightFromAbove(n, j, i);
    }
  }

  lemma {:induction false} MaxWeightFromAbove(n: Node, j: nat, i: nat)
    requires WellFormed(n) && j <= i < |n.children|
    ensures WeightAt(n, i) <= MaxWeightFrom(n, j)
    decreases i - j
  {
    if j < i {
      MaxWeightFromAbove(n, j + 1, i);
    }
  }

  /** When there is a child, one of them attains the running maximum. */
  lemma {:induction false} MaxWeightFromAttained(n: Node, j: nat) returns (i: nat)
    requires WellFormed(n) && j < |n.children|
    ensures j <= i < |n.children| && WeightAt(n, i) == MaxWeightFrom(n, j)
    decreases |n.children| - j
  {
    if j + 1 < |n.children| && WeightAt(n, j) <= MaxWeightFrom(n, j + 1) {
      i := MaxWeightFromAttained(n, j + 1);
    } else {
      i := j;
    }
  }

  /** `maxTargetPoints` is zero for a node without children; otherwise it is
      the popcount times the heaviest child, so at least every bucket length
      and every subtree value. */
  lemma MaxTargetPointsSpec(n: Node)
    requires WellFormed(n)
    ensures n.valid == 0 ==> MaxTargetPoints(n) == 0
    ensures forall j :: 0 <= j < |n.children| ==> WeightAt(n, j) * Popcount(n.valid) <= MaxTargetPoints(n)
    ensures forall j :: 0 <= j < |n.children| ==> WeightAt(n, j) <= MaxTargetPoints(n)
    ensures |n.children| > 0 ==> exists j :: 0 <= j < |n.children| && MaxTargetPoints(n) == WeightAt(n, j) * Popcount(n.valid)
  {
    MaxWeightFromBound(n, 0);
    ChildCount(n);
    if |n.children| > 0 {
      var i := MaxWeightFromAttained(n, 0);
    }
    forall j | 0 <= j < |n.children|
      ensures WeightAt(n, j) * Popcount(n.valid) <= MaxTargetPoints(n)
      ensures WeightAt(n, j) <= MaxTargetPoints(n)
    {
      var k := Popcount(n.valid);
      MulMonotone(k, WeightAt(n, j), MaxWeightFrom(n, 0));
      MulMonotone(WeightAt(n, j), 1, k);
    }
  }

  /** The calibration is an upper bound on what the exhaustive emission
      draws: the heaviest child, counted once per child, outweighs all
      children together. */
  lemma {:induction false} AllWithinMaxTarget(n: Node)
    requires WellFormed(n)
    ensures |All(n)| <= MaxTargetPoints(n)
    decreases n, 1
  {
    ChildCount(n);
    MaxWeightFromBound(n, 0);
    AllFromWithinMaxWeight(n, 0, MaxWeightFrom(n, 0));
    TimesIsMul(MaxWeightFrom(n, 0), |n.children|);
  }

  lemma {:induction false} AllFromWithinMaxWeight(n: Node, j: nat, w: nat)
    requires WellFormed(n) && j <= |n.children|
    requires forall i :: j <= i < |n.children| ==> WeightAt(n, i) <= w
    ensures |AllFrom(n, j)| <= Times(w, |n.children| - j)
    decreases n, 0, |n.children| - j
  {
    if j < |n.children| {
      AllFromWithinMaxWeight(n, j + 1, w);
      AllAtWithinWeight(n, j);
      assert |AllFrom(n, j)| == |AllAt(n, j)| + |AllFrom(n, j + 1)|;
    }
  }

  lemma {:induction false} AllAtWithinWeight(n: Node, j: nat)
    requires WellFormed(n) && j < |n.children|
    ensures |AllAt(n, j)| <= WeightAt(n, j)
    decreases n, 0, 0
  {
    match SlotAt(n, j)
    case LeafSlot(_, _) =>
    case NodeSlot(_, m) => AllWithinMaxTarget(m);
  }

  /** `cycleLOD`: the mode counter is an `unsigned int`, incremented with
      wrap-around, then reduced modulo three. */
  function CycleLod(mode: nat): (r: nat)
    requires mode < 0x1_0000_0000
    ensures r < 3
    ensures mode < 2 ==> r == mode + 1
    ensures mode == 2 ==> r == 0
  {
    ((mode + 1) % 0x1_0000_0000) % 3
  }

  /** From any of the three modes, three presses return to it. */
  lemma CycleLodPeriod(mode: nat)
    requires mode < 3
    ensures CycleLod(CycleLod(CycleLod(mode))) == mode
    ensures CycleLod(mode) != mode
  {
  }

  /** The exponent of the mode-2 size threshold:
      `min((int)(ratio * max_depth), max_depth - 3)`. */
  function SpriteExponent(ratio: real, maxDepth: int): (e: int)
    ensures e <= maxDepth - 3
  {
    Min(Trunc(ratio * maxDepth as real), maxDepth - 3)
  }

  /** A larger ratio never gives a smaller exponent. */
  lemma SpriteExponentMonotone(r1: real, r2: real, maxDepth: int)
    requires r1 <= r2 && maxDepth >= 0
    ensures SpriteExponent(r1, maxDepth) <= SpriteExponent(r2, maxDepth)
  {
    SpriteExponentIs(r1, maxDepth);
    SpriteExponentIs(r2, maxDepth);
    CappedTruncMonotone(r1, r2, maxDepth as real, maxDepth - 3);
  }

  lemma CappedTruncMonotone(r1: real, r2: real, d: real, cap: int)
    requires r1 <= r2 && d >= 0.0
    ensures Min(Trunc(r1 * d), cap) <= Min(Trunc(r2 * d), cap)
  {
    TruncScaleMonotone(r1, r2, d);
    MinMonotone(Trunc(r1 * d), Trunc(r2 * d), cap);
  }

  lemma SpriteExponentIs(ratio: real, maxDepth: int)
    ensures SpriteExponent(ratio, maxDepth) == Min(Trunc(ratio * maxDepth as real), maxDepth - 3)
  {
  }

  /** The mode-2 threshold: the root's half-size divided by `2^e`. Cells
      larger than it are split further, smaller ones are drawn as one
      sprite. */
  function SpriteMinSize(size: real, ratio: real, maxDepth: int): (r: real)
    ensures size > 0.0 ==> r > 0.0
  {
    size / Pow2(SpriteExponent(ratio, maxDepth))
  }

  /** A larger ratio asks for more detail: the threshold never grows. */
  lemma SpriteMinSizeMonotone(size: real, r1: real, r2: real, maxDepth: int)
    requires size > 0.0 && r1 <= r2 && maxDepth >= 0
    ensures SpriteMinSize(size, r2, maxDepth) <= SpriteMinSize(size, r1, maxDepth)
  {
    var e1, e2 := SpriteExponent(r1, maxDepth), SpriteExponent(r2, maxDepth);
    SpriteExponentMonotone(r1, r2, maxDepth);
    Pow2Monotone(e1, e2);
    DivByLarger(size, Pow2(e1), Pow2(e2));
  }

  /** The threshold never falls below the size of a cell at depth
      `max_depth - 3`. */
  lemma SpriteMinSizeFloor(size: real, ratio: real, maxDepth: int)
    requires size > 0.0
    ensures SpriteMinSize(size, ratio, maxDepth) >= size / Pow2(maxDepth - 3)
  {
    var e := SpriteExponent(ratio, maxDepth);
    Pow2Monotone(e, maxDepth - 3);
    DivByLarger(size, Pow2(e), Pow2(maxDepth - 3));
  }
}
