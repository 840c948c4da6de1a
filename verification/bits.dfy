/** Eight-bit octant masks: the `valid` and `leaf` fields of an octree node.

    A node stores its present children densely, in increasing octant order.
    The traversals walk octants 0..7 and advance a child cursor once per set
    `valid` bit; `Octants` is that walk, and `Popcount` is the number of set
    bits, defined independently as the size of a set. */
module Bits {

  /** `OctantBit[i]` is the one-bit mask `1 << i`. */
  const OctantBit: seq<bv8> := [1, 2, 4, 8, 16, 32, 64, 128]

  /** Bit `i` of `mask` is set: the source's `(1 << i) & mask`. */
  predicate Has(mask: bv8, i: nat)
    requires i < 8
  {
    mask & OctantBit[i] != 0
  }

  /** The set bits of `mask` at positions `i` and above. */
  function BitsFrom(mask: bv8, i: nat): set<nat>
    requires i <= 8
  {
    set k: nat | i <= k < 8 && Has(mask, k)
  }

  /** Number of set bits of an eight-bit mask. */
  function Popcount(mask: bv8): (r: nat)
    ensures r <= 8
    ensures r == 0 <==> mask == 0
  {
    ZeroMaskHasNoBits(mask);
    CardinalityBound(mask, 0);
    |BitsFrom(mask, 0)|
  }

  /** The octants visited, in order, by a scan from octant `i` that keeps
      only octants whose bit is set. */
  function OctantsFrom(mask: bv8, i: nat): seq<nat>
    requires i <= 8
    decreases 8 - i
  {
    if i == 8 then []
    else if Has(mask, i) then [i] + OctantsFrom(mask, i + 1)
    else OctantsFrom(mask, i + 1)
  }

  /** The octant of every stored child, in storage order: the j-th stored
      child belongs to octant `Octants(mask)[j]`. */
  function Octants(mask: bv8): (r: seq<nat>)
    ensures forall k :: 0 <= k < |r| ==> r[k] < 8
  {
    OctantsFromSound(mask, 0);
    OctantsFrom(mask, 0)
  }

  lemma ZeroMaskHasNoBits(mask: bv8)
    ensures mask == 0 <==> BitsFrom(mask, 0) == {}
  {
    if mask != 0 {
      var k: nat :| k < 8 && Has(mask, k) by {
        assert Has(mask, 0) || Has(mask, 1) || Has(mask, 2) || Has(mask, 3)
            || Has(mask, 4) || Has(mask, 5) || Has(mask, 6) || Has(mask, 7);
      }
      assert k in BitsFrom(mask, 0);
    } else {
      forall k: nat | k < 8 ensures !Has(mask, k) { }
    }
  }

  lemma CardinalityBound(mask: bv8, i: nat)
    requires i <= 8
    ensures |BitsFrom(mask, i)| <= 8 - i
    decreases 8 - i
  {
    if i < 8 {
      CardinalityBound(mask, i + 1);
      assert BitsFrom(mask, i) <= {i} + BitsFrom(mask, i + 1);
      SubsetCardinality(BitsFrom(mask, i), {i} + BitsFrom(mask, i + 1));
    } else {
      assert BitsFrom(mask, i) == {};
    }
  }

  lemma SubsetCardinality(a: set<nat>, b: set<nat>)
    requires a <= b
    ensures |a| <= |b|
  {
    assert b == a + (b - a);
  }

  /** Every octant the walk from `i` lists is a set bit in `i..7`. */
  lemma {:induction false} OctantsFromSound(mask: bv8, i: nat)
    requires i <= 8
    ensures forall k :: 0 <= k < |OctantsFrom(mask, i)| ==>
      i <= OctantsFrom(mask, i)[k] < 8 && Has(mask, OctantsFrom(mask, i)[k])
    decreases 8 - i
  {
    if i < 8 {
      OctantsFromSound(mask, i + 1);
    }
  }

  /** The walk from `i` lists octants in strictly increasing order. */
  lemma {:induction false} OctantsFromSorted(mask: bv8, i: nat)
    requires i <= 8
    ensures forall k, l :: 0 <= k < l < |OctantsFrom(mask, i)| ==>
      OctantsFrom(mask, i)[k] < OctantsFrom(mask, i)[l]
    decreases 8 - i
  {
    if i < 8 {
      OctantsFromSorted(mask, i + 1);
      OctantsFromSound(mask, i + 1);
    }
  }

  /** The walk from `i` misses no set bit in `i..7`. */
  lemma {:induction false} OctantsFromComplete(mask: bv8, i: nat)
    requires i <= 8
    ensures forall b :: i <= b < 8 && Has(mask, b) ==> b in OctantsFrom(mask, i)
    decreases 8 - i
  {
    if i < 8 {
      OctantsFromComplete(mask, i + 1);
    }
  }

  /** The walk from `i` has one entry per set bit in `i..7`. */
  lemma {:induction false} OctantsFromCount(mask: bv8, i: nat)
    requires i <= 8
    ensures |OctantsFrom(mask, i)| == |BitsFrom(mask, i)|
    decreases 8 - i
  {
    if i == 8 {
      assert BitsFrom(mask, i) == {};
    } else {
      OctantsFromCount(mask, i + 1);
      BitsFromStep(mask, i);
    }
  }

  /** Peeling octant `i` off the set bits in `i..7`. */
  lemma BitsFromStep(mask: bv8, i: nat)
    requires i < 8
    ensures Has(mask, i) ==> |BitsFrom(mask, i)| == 1 + |BitsFrom(mask, i + 1)|
    ensures !Has(mask, i) ==> BitsFrom(mask, i) == BitsFrom(mask, i + 1)
  {
    var rest := BitsFrom(mask, i + 1);
    assert forall k :: k in BitsFrom(mask, i) <==> (k == i && Has(mask, i)) || k in rest;
    if Has(mask, i) {
      assert BitsFrom(mask, i) == {i} + rest;
      assert i !in rest;
    } else {
      assert BitsFrom(mask, i) == rest;
    }
  }

  /** The dense child cursor: `Octants(mask)` has exactly `Popcount(mask)`
      entries, strictly increasing, each a set bit below 8, and every set bit
      occurs in it. */
  lemma OctantsSpec(mask: bv8)
    ensures |Octants(mask)| == Popcount(mask)
    ensures forall k :: 0 <= k < |Octants(mask)| ==>
      Octants(mask)[k] < 8 && Has(mask, Octants(mask)[k])
    ensures forall k, l :: 0 <= k < l < |Octants(mask)| ==> Octants(mask)[k] < Octants(mask)[l]
    ensures forall b :: 0 <= b < 8 && Has(mask, b) ==> b in Octants(mask)
  {
    OctantsFromSound(mask, 0);
    OctantsFromSorted(mask, 0);
    OctantsFromComplete(mask, 0);
    OctantsFromCount(mask, 0);
  }
}
