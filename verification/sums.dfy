/**
 Sums of real sequences, the arithmetic under every aggregate of the model:
 sum-tree totals, reward lists, merged usage fields and column lengths.
 */
module Sums {

  /** Python's `sum(xs)` over floats: a left fold starting at zero. */
  function Sum(xs: seq<real>): real
  {
    if |xs| == 0 then 0.0 else Sum(xs[..|xs| - 1]) + xs[|xs| - 1]
  }

  /** Sum of integers, for byte lengths. */
  function SumInt(xs: seq<int>): int
  {
    if |xs| == 0 then 0 else SumInt(xs[..|xs| - 1]) + xs[|xs| - 1]
  }

  predicate AllNonNegative(xs: seq<real>)
  {
    forall i :: 0 <= i < |xs| ==> xs[i] >= 0.0
  }

  lemma {:induction false} SumAppend(a: seq<real>, b: seq<real>)
    ensures Sum(a + b) == Sum(a) + Sum(b)
    decreases |b|
  {
    if |b| == 0 {
      assert a + b == a;
    } else {
      var b' := b[..|b| - 1];
      assert (a + b)[..|a + b| - 1] == a + b';
      SumAppend(a, b');
    }
  }

  lemma SumSingleton(x: real)
    ensures Sum([x]) == x
  {
    assert [x][..0] == [];
  }

  /** Summing a slice one element further extends the sum by that element. */
  lemma SliceStep(xs: seq<real>, lo: nat, hi: nat)
    requires lo <= hi < |xs|
    ensures Sum(xs[lo..hi + 1]) == Sum(xs[lo..hi]) + xs[hi]
  {
    assert xs[lo..hi + 1][..hi - lo] == xs[lo..hi];
  }

  /** Splitting a slice at any point splits its sum. */
  lemma SliceSplit(xs: seq<real>, lo: nat, mid: nat, hi: nat)
    requires lo <= mid <= hi <= |xs|
    ensures Sum(xs[lo..hi]) == Sum(xs[lo..mid]) + Sum(xs[mid..hi])
  {
    assert xs[lo..hi] == xs[lo..mid] + xs[mid..hi];
    SumAppend(xs[lo..mid], xs[mid..hi]);
  }

  lemma {:induction false} SumNonNegative(xs: seq<real>)
    requires AllNonNegative(xs)
    ensures Sum(xs) >= 0.0
    decreases |xs|
  {
    if |xs| > 0 {
      SumNonNegative(xs[..|xs| - 1]);
    }
  }

  /** With non-negative terms every prefix sum is bounded by the whole sum. */
  lemma PrefixBounded(xs: seq<real>, j: nat)
    requires AllNonNegative(xs)
    requires j <= |xs|
    ensures Sum(xs[..j]) <= Sum(xs)
  {
    assert xs == xs[..j] + xs[j..];
    SumAppend(xs[..j], xs[j..]);
    SumNonNegative(xs[j..]);
  }

  /** With non-negative terms every single term is bounded by the whole sum. */
  lemma TermBounded(xs: seq<real>, k: nat)
    requires AllNonNegative(xs) && k < |xs|
    ensures xs[k] <= Sum(xs)
  {
    SliceSplit(xs, 0, k + 1, |xs|);
    SliceStep(xs, 0, k);
    assert xs[0..|xs|] == xs;
    assert AllNonNegative(xs[0..k]) && AllNonNegative(xs[k + 1..|xs|]);
    SumNonNegative(xs[0..k]);
    SumNonNegative(xs[k + 1..|xs|]);
  }

  /** `n` copies of `x` sum to `n * x`. */
  lemma {:induction false} SumCopies(xs: seq<real>, x: real)
    requires forall i :: 0 <= i < |xs| ==> xs[i] == x
    ensures Sum(xs) == |xs| as real * x
    decreases |xs|
  {
    if |xs| > 0 {
      SumCopies(xs[..|xs| - 1], x);
    }
  }
}
