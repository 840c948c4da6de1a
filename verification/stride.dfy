/** Stride sampling of an oversized bucket: `k` of its points, the i-th
    taken at bucket index `i * length / k` (show_Boctree.h, the "select
    points to show" loops of the LOD and LOD2 traversals). */
module Stride {
  import opened Numeric
  import opened Seqs
  import opened Geometry

  /** `BOctTree<T>::POINTDIM`, the number of values stored per point.
      `BOctTree` is not part of this model; `SourceIndex` shows that the
      sampled index does not depend on the value. */
  const PointDim: nat := 3

  /** The point index the source's stride loop reads at step `i`: it steps
      through the coordinate array by `each = dim * (length / k)`, converts
      `i * each` to an `int` and rounds that down to a multiple of `dim`
      (`index - index % dim`). In exact arithmetic this is the point
      `floor(i * length / k)`, for every positive `dim`. */
  function SourceIndex(dim: nat, len: nat, k: nat, i: nat): (r: int)
    requires dim > 0 && k > 0
    ensures r == i * len / k
  {
    var each := dim as real * (len as real / k as real);
    var index := Trunc(i as real * each);
    SourceIndexIsFloor(dim, len, k, i, index);
    (index - index % dim) / dim
  }

  /** The truncated offset lies in the `dim` coordinates of point
      `i * len / k`, so rounding it down to a multiple of `dim` and
      dividing gives that point. */
  lemma SourceIndexIsFloor(dim: nat, len: nat, k: nat, i: nat, index: int)
    requires dim > 0 && k > 0
    requires index == Trunc(i as real * (dim as real * (len as real / k as real)))
    ensures (index - index % dim) / dim == i * len / k
  {
    var q := i * len / k;
    OffsetBounds(dim, len, k, i, q);
    var x := i as real * (dim as real * (len as real / k as real));
    assert (dim * q) as real <= x < (dim * q + dim) as real;
    assert dim * q <= index < dim * q + dim;
    DivUnique(index, dim, q, index - dim * q);
    assert index % dim == index - dim * q;
    DivUnique(dim * q, dim, q, 0);
  }

  /** The exact offset `i * dim * len / k` lies in `[dim * q, dim * q + dim)`
      for the floor quotient `q` of `i * len` by `k`. */
  lemma OffsetBounds(dim: nat, len: nat, k: nat, i: nat, q: int)
    requires dim > 0 && k > 0 && q == i * len / k
    ensures (dim * q) as real <= i as real * (dim as real * (len as real / k as real)) < (dim * q + dim) as real
  {
    OffsetIsScaledQuotient(dim, len, k, i);
    RealQuotientBounds(i * len, k, q);
    ScaledBounds(q as real, (i * len) as real / k as real, dim as real);
    CastMul(dim, q);
  }

  /** The source's offset is `dim` times the exact quotient `i * len / k`. */
  lemma OffsetIsScaledQuotient(dim: nat, len: nat, k: nat, i: nat)
    requires k > 0
    ensures i as real * (dim as real * (len as real / k as real)) == dim as real * ((i * len) as real / k as real)
  {
    CastMul(i, len);
    ProductOfQuotient(i as real, dim as real, len as real, k as real);
  }

  /** Scaling `q <= y < q + 1` by a positive `d`. */
  lemma ScaledBounds(q: real, y: real, d: real)
    requires q <= y < q + 1.0 && d > 0.0
    ensures d * q <= d * y < d * q + d
  {
    ScaleMonotone(q, y, d);
    StrictScale(y, q + 1.0, d);
  }

  /** Converting a product to a real is the product of the conversions. */
  lemma CastMul(a: int, b: int)
    ensures (a * b) as real == a as real * b as real
  {
  }

  /** `k * q <= a < k * (q + 1)` carries over to the real quotient. */
  lemma RealQuotientBounds(a: int, k: int, q: int)
    requires k > 0 && k * q <= a < k * q + k
    ensures q as real <= a as real / k as real < (q + 1) as real
  {
    var y := a as real / k as real;
    assert y * k as real == a as real;
    if y < q as real {
      ScaleMonotone(y, q as real, k as real);
    }
    if y >= (q + 1) as real {
      ScaleMonotone((q + 1) as real, y, k as real);
    }
  }

  lemma ProductOfQuotient(i: real, d: real, l: real, k: real)
    requires k > 0.0
    ensures i * (d * (l / k)) == d * ((i * l) / k)
  {
  }

  lemma StrictScale(x: real, y: real, d: real)
    requires x < y && d > 0.0
    ensures x * d < y * d
  {
    assert y * d - x * d == (y - x) * d;
  }

  /** The sampled point indices: the i-th is the point the source reads at
      step `i`. */
  function StrideIndices(len: nat, k: nat): (r: seq<nat>)
    requires k > 0
    ensures |r| == k
    ensures forall i :: 0 <= i < k ==> r[i] == i * len / k
  {
    seq(k, i requires 0 <= i < k => SourceIndex(PointDim, len, k, i))
  }

  /** Every index lies inside the bucket, the first is its first point, and
      the indices never decrease; when there are at least as many points
      as samples they strictly increase, so no point is taken twice. */
  lemma StrideIndicesSpec(len: nat, k: nat)
    requires 0 < k
    ensures len > 0 ==> forall i :: 0 <= i < k ==> StrideIndices(len, k)[i] < len
    ensures StrideIndices(len, k)[0] == 0
    ensures forall i, l :: 0 <= i <= l < k ==> StrideIndices(len, k)[i] <= StrideIndices(len, k)[l]
    ensures k <= len ==> StrictlyIncreasing(StrideIndices(len, k))
  {
    FloorIndicesSpec(StrideIndices(len, k), len, k);
  }

  /** The same facts for any sequence of the floor indices `i * len / k`. */
  lemma FloorIndicesSpec(r: seq<nat>, len: nat, k: nat)
    requires 0 < k && |r| == k
    requires forall i :: 0 <= i < k ==> r[i] == i * len / k
    ensures len > 0 ==> forall i :: 0 <= i < k ==> r[i] < len
    ensures r[0] == 0
    ensures forall i, l :: 0 <= i <= l < k ==> r[i] <= r[l]
    ensures k <= len ==> StrictlyIncreasing(r)
  {
    forall i | 0 <= i < k && len > 0
      ensures r[i] < len
    {
      MulMonotone(len, i + 1, k);
      assert i * len < len * k;
      QuotientBelow(i * len, k, len);
    }
    forall i, l | 0 <= i <= l < k
      ensures r[i] <= r[l]
    {
      MulMonotone(len, i, l);
      DivMonotone(i * len, l * len, k);
    }
    if k <= len {
      forall i, l | 0 <= i < l < k
        ensures r[i] < r[l]
      {
        MulMonotone(len, i + 1, l);
        assert (i + 1) * len == i * len + len;
        DivMonotone(i * len + k, l * len, k);
        DivAddDivisor(i * len, k);
      }
    }
  }

  /** The `k` stride samples of a bucket with more than `k` points. */
  function Sample(ps: seq<Point>, k: nat): (r: seq<Point>)
    requires 0 < k <= |ps|
    ensures |r| == k
  {
    StrideIndicesSpec(|ps|, k);
    Pick(ps, StrideIndices(|ps|, k))
  }

  /** A sample is an order-preserving selection from its bucket that starts
      with the bucket's first point. */
  lemma SampleSpec(ps: seq<Point>, k: nat)
    requires 0 < k <= |ps|
    ensures Sub(Sample(ps, k), ps)
    ensures Sample(ps, k)[0] == ps[0]
    ensures forall i :: 0 <= i < k ==> StrideIndices(|ps|, k)[i] < |ps|
    ensures forall i :: 0 <= i < k ==> Sample(ps, k)[i] == ps[StrideIndices(|ps|, k)[i]]
  {
    StrideIndicesSpec(|ps|, k);
    PickSub(ps, StrideIndices(|ps|, k));
  }

  /** Sampling every point of a bucket returns the bucket. */
  lemma SampleAll(ps: seq<Point>)
    requires 0 < |ps|
    ensures Sample(ps, |ps|) == ps
  {
    var n := |ps|;
    forall i | 0 <= i < n
      ensures Sample(ps, n)[i] == ps[i]
    {
      DivUnique(i * n, n, i, 0);
    }
  }

  /** A bucket of 100 points sampled down to 10 yields every tenth point. */
  lemma StrideHundredByTen()
    ensures StrideIndices(100, 10) == [0, 10, 20, 30, 40, 50, 60, 70, 80, 90]
  {
  }
}
