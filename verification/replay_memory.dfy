/**
 Prioritized experience replay (class `Memory`): a sum-tree whose leaf
 priorities are `(error + e) ** a`, sampled by splitting the total priority
 mass into equal strata and drawing one point uniformly from each.
 */
module ReplayMemory {
  import opened Wrappers
  import opened Sums
  import opened PriorityTree
  import opened Numerics

  /** `Memory.e`: keeps every priority positive, even for a zero error. */
  const E: real := 0.01
  /** `MEMORY_CAPACITY`. */
  const MemoryCapacity: nat := 900

  datatype Memory<T> = Memory(tree: SumTree<T>)

  /**
   An unwritten slot weighs nothing: numpy's placeholder `0` only sits beside
   a zero-priority leaf.
   */
  ghost predicate EmptySlotsWeightless<T>(t: SumTree<T>)
    requires Shaped(t)
  {
    forall k :: 0 <= k < t.capacity && t.data[k] == None ==> t.tree[LeafOf(t, k)] == 0.0
  }

  /** The memory's invariant: a valid sum-tree with non-negative priorities. */
  ghost predicate Good<T>(m: Memory<T>)
  {
    Valid(m.tree) && NonNegativeLeaves(m.tree.tree) && EmptySlotsWeightless(m.tree)
  }

  /** `Memory(capacity)`. */
  function Create<T>(capacity: nat): (r: Result<Memory<T>>)
    ensures r.Err? <==> capacity == 0
    ensures r.Ok? ==> Good(r.value) && r.value.tree.capacity == capacity && Total(r.value.tree) == 0.0
  {
    var t :- PriorityTree.Create<T>(capacity);
    Ok(Memory(t))
  }

  /** `_get_priority(error)`: `(error + e) ** a`, positive for every error the learner produces. */
  function Priority(n: Numerics, error: real): (p: real)
    requires Sound(n) && error >= 0.0
    ensures p > 0.0
  {
    n.powAlpha(error + E)
  }

  /**
   `add(error, sample)`: the sample takes the cursor's slot with priority
   `Priority(error)`, evicting whatever was there; the invariant is kept.
   */
  function Add<T>(n: Numerics, m: Memory<T>, error: real, sample: T): (r: Memory<T>)
    requires Sound(n) && Good(m) && error >= 0.0
    ensures Good(r) && r.tree.capacity == m.tree.capacity
    ensures r.tree.data[m.tree.write] == Some(sample)
    ensures r.tree.tree[LeafOf(m.tree, m.tree.write)] == Priority(n, error)
    ensures forall k :: 0 <= k < m.tree.capacity && k != m.tree.write ==>
              r.tree.data[k] == m.tree.data[k] && r.tree.tree[LeafOf(m.tree, k)] == m.tree.tree[LeafOf(m.tree, k)]
    ensures r.tree.write == Wrap(m.tree.write + 1, m.tree.capacity)
    ensures Total(r.tree) == Total(m.tree) + Priority(n, error) - m.tree.tree[LeafOf(m.tree, m.tree.write)]
    ensures Total(r.tree) >= Priority(n, error)
  {
    LeafBelowTotal(m, m.tree.write);
    var p := Priority(n, error);
    var t := PriorityTree.Add(m.tree, p, sample);
    assert EmptySlotsWeightless(t) by {
      forall k | 0 <= k < t.capacity && t.data[k] == None
        ensures t.tree[LeafOf(t, k)] == 0.0
      {
        assert IsLeaf(m.tree.tree, LeafOf(m.tree, k));
      }
    }
    Memory(t)
  }

  /**
   `update(idx, error)`: the leaf `idx` takes priority `Priority(error)`; the
   payloads and the cursor stay. An empty slot stays weightless only if the
   updated leaf holds a payload.
   */
  function Update<T>(n: Numerics, m: Memory<T>, idx: nat, error: real): (r: Memory<T>)
    requires Sound(n) && Good(m) && IsLeaf(m.tree.tree, idx) && error >= 0.0
    ensures Valid(r.tree) && NonNegativeLeaves(r.tree.tree)
    ensures r.tree.capacity == m.tree.capacity && r.tree.data == m.tree.data && r.tree.write == m.tree.write
    ensures r.tree.tree[idx] == Priority(n, error)
    ensures forall k :: IsLeaf(m.tree.tree, k) && k != idx ==> r.tree.tree[k] == m.tree.tree[k]
    ensures m.tree.data[idx - (m.tree.capacity - 1)].Some? ==> Good(r)
  {
    var t := PriorityTree.Update(m.tree, idx, Priority(n, error));
    assert m.tree.data[idx - (m.tree.capacity - 1)].Some? ==> EmptySlotsWeightless(t) by {
      if m.tree.data[idx - (m.tree.capacity - 1)].Some? {
        forall k | 0 <= k < t.capacity && t.data[k] == None
          ensures t.tree[LeafOf(t, k)] == 0.0
        {
          assert IsLeaf(m.tree.tree, LeafOf(m.tree, k));
        }
      }
    }
    Memory(t)
  }

  /** `random.uniform(a, b)` from a draw `u` of `random.random()`. */
  function Uniform(a: real, b: real, u: real): (s: real)
    requires a <= b && 0.0 <= u < 1.0
    ensures a <= s <= b
  {
    var width := b - a;
    ScaleWithin(width, u);
    a + width * u
  }

  /** The point drawn for stratum `i` of `n` equal strata of `[0, total]`. */
  function StratumPoint(total: real, n: nat, i: nat, u: real): (s: real)
    requires total >= 0.0 && i < n && 0.0 <= u < 1.0
    ensures (total / n as real) * i as real <= s <= (total / n as real) * (i + 1) as real
    ensures 0.0 <= s <= total
  {
    var segment := total / n as real;
    assert segment >= 0.0;
    assert segment * i as real <= segment * (i + 1) as real;
    assert segment * n as real == total;
    assert segment * (i + 1) as real <= segment * n as real;
    Uniform(segment * i as real, segment * (i + 1) as real, u)
  }

  /** The memory's total priority is the sum of its leaves, hence non-negative. */
  lemma TotalNonNegative<T>(m: Memory<T>)
    requires Good(m)
    ensures Total(m.tree) >= 0.0
  {
    RootIsLeafSum(m.tree);
    var leaves := LeafValues(m.tree);
    forall j | 0 <= j < |leaves|
      ensures leaves[j] >= 0.0
    {
      assert IsLeaf(m.tree.tree, m.tree.capacity - 1 + j);
    }
    SumNonNegative(leaves);
  }

  /** No single priority exceeds the total. */
  lemma LeafBelowTotal<T>(m: Memory<T>, k: nat)
    requires Good(m) && k < m.tree.capacity
    ensures 0.0 <= m.tree.tree[LeafOf(m.tree, k)] <= Total(m.tree)
  {
    RootIsLeafSum(m.tree);
    var leaves := LeafValues(m.tree);
    forall j | 0 <= j < |leaves|
      ensures leaves[j] >= 0.0
    {
      assert IsLeaf(m.tree.tree, m.tree.capacity - 1 + j);
    }
    TermBounded(leaves, k);
    assert IsLeaf(m.tree.tree, LeafOf(m.tree, k));
  }

  /**
   `sample(n)`: `n` pairs `(idx, data)`, the `i`-th found by `get` at a point of
   stratum `i`. Every `idx` is a leaf and every `data` the payload of that
   leaf's slot. For `n == 0` the float64 division by zero yields `inf` or `nan`
   without raising, and the empty loop returns `[]`.
   */
  function Sample<T>(m: Memory<T>, n: nat, us: seq<real>): (r: seq<(nat, Option<T>)>)
    requires Good(m) && |us| == n
    requires forall i :: 0 <= i < n ==> 0.0 <= us[i] < 1.0
    ensures |r| == n
    ensures forall i :: 0 <= i < n ==>
              && IsLeaf(m.tree.tree, r[i].0)
              && r[i].1 == m.tree.data[r[i].0 - (m.tree.capacity - 1)]
  {
    if n == 0 then []
    else
      TotalNonNegative(m);
      var total := Total(m.tree);
      seq(n, i requires 0 <= i < n =>
        var g := Get(m.tree, StratumPoint(total, n, i, us[i]));
        (g.0, g.2))
  }

  /**
   Stratified inverse-CDF sampling: the `i`-th sampled leaf is the first leaf,
   in `_retrieve`'s left-to-right order, whose cumulative priority reaches the
   stratum point drawn for `i`.
   */
  lemma SampleIsInverseCdf<T>(m: Memory<T>, n: nat, us: seq<real>, i: nat) returns (k: nat)
    requires Good(m) && |us| == n && i < n
    requires forall j :: 0 <= j < n ==> 0.0 <= us[j] < 1.0
    ensures Total(m.tree) >= 0.0
    ensures var s := StratumPoint(Total(m.tree), n, i, us[i]);
            var order := Leaves(m.tree.tree, 0);
            var w := Weights(m.tree.tree, order);
            && k < |order| && order[k] == Sample(m, n, us)[i].0
            && Cumulative(w, k) >= s
            && forall j :: 0 <= j < k ==> Cumulative(w, j) < s
  {
    TotalNonNegative(m);
    var s := StratumPoint(Total(m.tree), n, i, us[i]);
    k := DescendIsInverseCdf(m.tree.tree, 0, s);
  }

  /**
   A point above zero never lands on a zero-priority leaf: the leaf the
   descent reaches carries the last bit of cumulative mass below the point.
   */
  lemma PositivePointHitsWeight(tree: seq<real>, s: real)
    requires |tree| % 2 == 1 && SumsHold(tree) && NonNegativeLeaves(tree)
    requires 0.0 < s <= tree[0]
    ensures tree[Descend(tree, 0, s)] > 0.0
  {
    var k := DescendIsInverseCdf(tree, 0, s);
    var order := Leaves(tree, 0);
    var w := Weights(tree, order);
    if k == 0 {
      assert w[..1] == [w[0]];
      SumSingleton(w[0]);
    } else {
      assert Cumulative(w, k - 1) < s;
      SliceStep(w, 0, k);
      assert w[0..k + 1] == w[..k + 1] && w[0..k] == w[..k] == w[..(k - 1) + 1];
      assert w[k] == tree[order[k]];
    }
  }

  /**
   Over exact reals, the `TypeError` of an unwritten slot needs a draw at
   exactly the bottom of the first stratum: for every other point, sampling
   returns a payload. Floating-point drift of the sums is not modelled.
   */
  lemma PositivePointFindsPayload<T>(m: Memory<T>, n: nat, us: seq<real>, i: nat)
    requires Good(m) && |us| == n && i < n
    requires forall j :: 0 <= j < n ==> 0.0 <= us[j] < 1.0
    requires Total(m.tree) >= 0.0 && StratumPoint(Total(m.tree), n, i, us[i]) > 0.0
    ensures Sample(m, n, us)[i].1.Some?
  {
    var s := StratumPoint(Total(m.tree), n, i, us[i]);
    PositivePointHitsWeight(m.tree.tree, s);
    var leaf := Descend(m.tree.tree, 0, s);
    assert LeafOf(m.tree, leaf - (m.tree.capacity - 1)) == leaf;
  }
}
