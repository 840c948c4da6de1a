/** Order-preserving sub-selection of a sequence, and selection by index.

    Every rendering traversal of the octree emits, in order, some of the
    points the exhaustive traversal emits; `Sub` names that relation. */
module Seqs {

  ghost predicate StrictlyIncreasing(idx: seq<nat>)
  {
    forall k, l :: 0 <= k < l < |idx| ==> idx[k] < idx[l]
  }

  /** `idx` lists, in increasing order, the positions of `b` that make up `a`. */
  ghost predicate Embeds<T>(idx: seq<nat>, a: seq<T>, b: seq<T>)
  {
    && |idx| == |a|
    && StrictlyIncreasing(idx)
    && forall k :: 0 <= k < |idx| ==> idx[k] < |b| && a[k] == b[idx[k]]
  }

  /** `a` is `b` with some elements dropped, the rest kept in order. */
  ghost predicate Sub<T>(a: seq<T>, b: seq<T>)
  {
    exists idx :: Embeds(idx, a, b)
  }

  /** The elements of `b` at the positions `idx`, in the order of `idx`. */
  function Pick<T>(b: seq<T>, idx: seq<nat>): (r: seq<T>)
    requires forall k :: 0 <= k < |idx| ==> idx[k] < |b|
    ensures |r| == |idx|
    ensures forall k :: 0 <= k < |idx| ==> r[k] == b[idx[k]]
  {
    seq(|idx|, k requires 0 <= k < |idx| => b[idx[k]])
  }

  function Identity(n: nat): (r: seq<nat>)
    ensures |r| == n
    ensures forall k :: 0 <= k < n ==> r[k] == k
  {
    seq(n, k requires 0 <= k < n => k)
  }

  lemma SubRefl<T>(a: seq<T>)
    ensures Sub(a, a)
  {
    assert Embeds(Identity(|a|), a, a);
  }

  lemma SubEmpty<T>(b: seq<T>)
    ensures Sub([], b)
  {
    assert Embeds([], [], b);
  }

  /** The first element alone is a sub-selection. */
  lemma SubHead<T>(b: seq<T>)
    requires |b| > 0
    ensures Sub([b[0]], b)
  {
    assert Embeds([0], [b[0]], b);
  }

  /** Picking at strictly increasing positions is an order-preserving
      sub-selection. */
  lemma PickSub<T>(b: seq<T>, idx: seq<nat>)
    requires forall k :: 0 <= k < |idx| ==> idx[k] < |b|
    requires StrictlyIncreasing(idx)
    ensures Sub(Pick(b, idx), b)
  {
    assert Embeds(idx, Pick(b, idx), b);
  }

  function Offset(idx: seq<nat>, d: nat): (r: seq<nat>)
    ensures |r| == |idx|
    ensures forall k :: 0 <= k < |idx| ==> r[k] == idx[k] + d
  {
    seq(|idx|, k requires 0 <= k < |idx| => idx[k] + d)
  }

  /** Sub-selections of two parts give a sub-selection of the concatenation. */
  lemma SubConcat<T>(a1: seq<T>, b1: seq<T>, a2: seq<T>, b2: seq<T>)
    requires Sub(a1, b1) && Sub(a2, b2)
    ensures Sub(a1 + a2, b1 + b2)
  {
    var i1 :| Embeds(i1, a1, b1);
    var i2 :| Embeds(i2, a2, b2);
    var idx := i1 + Offset(i2, |b1|);
    forall k, l | 0 <= k < l < |idx|
      ensures idx[k] < idx[l]
    {
      if l < |i1| {
      } else if k < |i1| {
        assert idx[k] < |b1| <= idx[l];
      } else {
        assert idx[k] == i2[k - |i1|] + |b1| && idx[l] == i2[l - |i1|] + |b1|;
      }
    }
    assert Embeds(idx, a1 + a2, b1 + b2);
  }

  lemma SubTrans<T>(a: seq<T>, b: seq<T>, c: seq<T>)
    requires Sub(a, b) && Sub(b, c)
    ensures Sub(a, c)
  {
    var i1 :| Embeds(i1, a, b);
    var i2 :| Embeds(i2, b, c);
    var idx := Pick(i2, i1);
    assert Embeds(idx, a, c);
  }

  /** A sub-selection is no longer than what it selects from and takes no
      element more often than it occurs there. */
  lemma {:induction false} SubMultiset<T>(a: seq<T>, b: seq<T>)
    requires Sub(a, b)
    ensures |a| <= |b|
    ensures multiset(a) <= multiset(b)
    decreases |b|
  {
    var idx :| Embeds(idx, a, b);
    if a != [] {
      assert idx[|a| - 1] < |b|;
      var last := |b| - 1;
      assert b == b[..last] + [b[last]];
      if idx[|a| - 1] == last {
        var a' := a[..|a| - 1];
        assert Embeds(idx[..|a| - 1], a', b[..last]);
        SubMultiset(a', b[..last]);
        assert a == a' + [b[last]];
      } else {
        assert Embeds(idx, a, b[..last]);
        SubMultiset(a, b[..last]);
      }
    }
  }

  /** The elements of a concatenation are those of its parts. */
  lemma ElementsConcat<T>(a: seq<T>, b: seq<T>)
    ensures (set x | x in a + b) == (set x | x in a) + (set x | x in b)
  {
    assert forall x :: x in a + b <==> x in a || x in b;
  }
}
