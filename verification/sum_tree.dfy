/**
 The sum-tree behind prioritized replay (class `SumTree`).

 A complete binary tree over `capacity` leaves is flattened into `tree`, of
 length `2 * capacity - 1`: node `i` has children `2i+1` and `2i+2`, the last
 `capacity` entries are the leaves, and leaf `capacity - 1 + k` belongs to
 payload slot `data[k]`. Every internal node caches the sum of its children, so
 the root is the total priority mass. `write` is the circular cursor of the next
 slot to overwrite.

 `Propagate` and `Descend` follow the recursive `_propagate` and `_retrieve`;
 `PropagateLoop` and `RetrieveLoop` are the iterative versions, proved equal.
 */
module PriorityTree {
  import opened Wrappers
  import opened Sums

  /** An unwritten payload slot holds `None` (numpy's integer 0 placeholder). */
  datatype SumTree<T> = SumTree(capacity: nat, tree: seq<real>, data: seq<Option<T>>, write: nat)

  // ---------------------------------------------------------------------------
  // Shape and invariants
  // ---------------------------------------------------------------------------

  predicate Shaped<T>(t: SumTree<T>)
  {
    && t.capacity >= 1
    && |t.tree| == 2 * t.capacity - 1
    && |t.data| == t.capacity
    && t.write < t.capacity
  }

  /** `_retrieve` stops at `i` exactly when its left child falls outside the array. */
  predicate IsLeaf(tree: seq<real>, i: int)
  {
    0 <= i < |tree| && 2 * i + 1 >= |tree|
  }

  /** Internal node `i` equals the sum of its two children. */
  predicate SumAt(tree: seq<real>, i: nat)
    requires 2 * i + 2 < |tree|
  {
    tree[i] == tree[2 * i + 1] + tree[2 * i + 2]
  }

  /** Every internal node equals the sum of its two children. */
  predicate SumsHold(tree: seq<real>)
  {
    forall i: nat :: i < |tree| && 2 * i + 2 < |tree| ==> SumAt(tree, i)
  }

  /** Internal node `i` lags its children by `change` if it is the parent of `idx`, and is exact otherwise. */
  predicate SumAtExcept(tree: seq<real>, idx: nat, change: real, i: nat)
    requires 2 * i + 2 < |tree|
  {
    tree[i] + (if idx > 0 && i == (idx - 1) / 2 then change else 0.0) == tree[2 * i + 1] + tree[2 * i + 2]
  }

  /** The sums hold everywhere except at the parent of `idx`. */
  predicate SumsHoldExcept(tree: seq<real>, idx: nat, change: real)
  {
    forall i: nat :: i < |tree| && 2 * i + 2 < |tree| ==> SumAtExcept(tree, idx, change, i)
  }

  predicate Valid<T>(t: SumTree<T>)
  {
    Shaped(t) && SumsHold(t.tree)
  }

  predicate NonNegativeLeaves(tree: seq<real>)
  {
    forall i :: 0 <= i < |tree| && 2 * i + 1 >= |tree| ==> tree[i] >= 0.0
  }

  /** `total()`: the root. */
  function Total<T>(t: SumTree<T>): real
    requires Shaped(t)
  {
    t.tree[0]
  }

  /** The leaf priorities in array (slot) order. */
  function LeafValues<T>(t: SumTree<T>): seq<real>
    requires Shaped(t)
  {
    t.tree[t.capacity - 1..]
  }

  /** The tree index of the leaf paired with payload slot `k`. */
  function LeafOf<T>(t: SumTree<T>, k: nat): nat
    requires Shaped(t) && k < t.capacity
  {
    k + t.capacity - 1
  }

  // ---------------------------------------------------------------------------
  // Construction
  // ---------------------------------------------------------------------------

  /** `SumTree(capacity)`: numpy refuses the negative length `2 * 0 - 1`. */
  function Create<T>(capacity: nat): (r: Result<SumTree<T>>)
    ensures r.Err? <==> capacity == 0
    ensures r.Ok? ==> Valid(r.value) && r.value.capacity == capacity && r.value.write == 0
    ensures r.Ok? ==> Total(r.value) == 0.0 && NonNegativeLeaves(r.value.tree)
    ensures r.Ok? ==> forall k :: 0 <= k < capacity ==> r.value.data[k] == None
  {
    if capacity == 0 then Err(ValueError)
    else Ok(SumTree(capacity, seq(2 * capacity - 1, _ => 0.0), seq(capacity, _ => None), 0))
  }

  // ---------------------------------------------------------------------------
  // Ancestors
  // ---------------------------------------------------------------------------

  /** `k` lies strictly above `j` on the path from `j` to the root. */
  predicate IsAncestor(k: nat, j: nat)
    decreases j
  {
    j > 0 && (k == (j - 1) / 2 || IsAncestor(k, (j - 1) / 2))
  }

  lemma {:induction false} AncestorIsAbove(k: nat, j: nat)
    requires IsAncestor(k, j)
    ensures 2 * k + 1 <= j
    decreases j
  {
    if k != (j - 1) / 2 {
      AncestorIsAbove(k, (j - 1) / 2);
    }
  }

  lemma {:induction false} RootIsAncestor(j: nat)
    requires j > 0
    ensures IsAncestor(0, j)
    decreases j
  {
    if (j - 1) / 2 != 0 {
      RootIsAncestor((j - 1) / 2);
    }
  }

  // ---------------------------------------------------------------------------
  // Update
  // ---------------------------------------------------------------------------

  /**
   `_propagate(idx, change)` for `idx > 0`, and the identity at the root (see
   `PropagateAsWritten` for what the source does at the root): every strict
   ancestor of `idx` gains `change`, nothing else moves, and a tree whose only
   broken sum is at the parent of `idx` comes out with all sums restored.
   */
  function Propagate(tree: seq<real>, idx: nat, change: real): (r: seq<real>)
    requires idx < |tree|
    ensures |r| == |tree|
    ensures forall k :: 0 <= k < |tree| ==> r[k] == tree[k] + (if IsAncestor(k, idx) then change else 0.0)
    ensures SumsHoldExcept(tree, idx, change) ==> SumsHold(r)
    decreases idx
  {
    if idx == 0 then
      assert SumsHoldExcept(tree, idx, change) ==> SumsHold(tree) by {
        if SumsHoldExcept(tree, idx, change) {
          forall i: nat | i < |tree| && 2 * i + 2 < |tree|
            ensures SumAt(tree, i)
          {
            assert SumAtExcept(tree, idx, change, i);
          }
        }
      }
      tree
    else
      var parent := (idx - 1) / 2;
      var tree' := tree[parent := tree[parent] + change];
      assert SumsHoldExcept(tree, idx, change) ==> SumsHoldExcept(tree', parent, change) by {
        if SumsHoldExcept(tree, idx, change) {
          forall i: nat | 2 * i + 2 < |tree'|
            ensures SumAtExcept(tree', parent, change, i)
          {
            assert SumAtExcept(tree, idx, change, i);
          }
        }
      }
      assert forall k :: 0 <= k < |tree| && IsAncestor(k, parent) ==> k != parent by {
        forall k | 0 <= k < |tree| && IsAncestor(k, parent) ensures k != parent {
          AncestorIsAbove(k, parent);
        }
      }
      Propagate(tree', parent, change)
  }

  /**
   `update(idx, p)` on a leaf: the leaf becomes `p`, every ancestor moves by
   `p - old`, no other node moves, and the tree stays valid.
   */
  function Update<T>(t: SumTree<T>, idx: nat, p: real): (r: SumTree<T>)
    requires Valid(t) && IsLeaf(t.tree, idx)
    ensures Valid(r)
    ensures r.capacity == t.capacity && r.data == t.data && r.write == t.write
    ensures r.tree[idx] == p
    ensures forall k :: 0 <= k < |t.tree| && k != idx ==>
              r.tree[k] == t.tree[k] + (if IsAncestor(k, idx) then p - t.tree[idx] else 0.0)
    ensures forall k :: IsLeaf(t.tree, k) && k != idx ==> r.tree[k] == t.tree[k]
    ensures Total(r) == Total(t) + (p - t.tree[idx])
    ensures NonNegativeLeaves(t.tree) && p >= 0.0 ==> NonNegativeLeaves(r.tree)
  {
    var change := p - t.tree[idx];
    var written := t.tree[idx := p];
    assert SumsHoldExcept(written, idx, change) by {
      forall i: nat | 2 * i + 2 < |written|
        ensures SumAtExcept(written, idx, change, i)
      {
        assert SumAt(t.tree, i);
      }
    }
    var r := t.(tree := Propagate(written, idx, change));
    assert forall k :: 0 <= k < |t.tree| && IsAncestor(k, idx) ==> !IsLeaf(t.tree, k) by {
      forall k | 0 <= k < |t.tree| && IsAncestor(k, idx) ensures !IsLeaf(t.tree, k) {
        AncestorIsAbove(k, idx);
      }
    }
    assert idx > 0 ==> IsAncestor(0, idx) by {
      if idx > 0 { RootIsAncestor(idx); }
    }
    r
  }

  /** The iterative climb of `_propagate` from a node to the root along parent links. */
  method PropagateLoop(tree: seq<real>, idx: nat, change: real) returns (r: seq<real>)
    requires idx < |tree|
    ensures r == Propagate(tree, idx, change)
    ensures forall k :: 0 <= k < |tree| ==> r[k] == tree[k] + (if IsAncestor(k, idx) then change else 0.0)
  {
    r := tree;
    var i: nat := idx;
    while i != 0
      invariant i < |r| == |tree|
      invariant Propagate(r, i, change) == Propagate(tree, idx, change)
      decreases i
    {
      var parent: nat := (i - 1) / 2;
      r := r[parent := r[parent] + change];
      i := parent;
    }
  }

  // ---------------------------------------------------------------------------
  // Root = sum of leaves
  // ---------------------------------------------------------------------------

  /** The first `k` nodes sum to the nodes `1 .. 2k`: their children, pair by pair. */
  lemma {:induction false} InternalSumsTelescope(tree: seq<real>, k: nat)
    requires SumsHold(tree)
    requires |tree| % 2 == 1 && 2 * k + 1 <= |tree|
    ensures Sum(tree[..k]) == Sum(tree[1..2 * k + 1])
  {
    if k > 0 {
      InternalSumsTelescope(tree, k - 1);
      assert SumAt(tree, k - 1);
      SliceStep(tree, 0, k - 1);
      assert tree[0..k] == tree[..k] && tree[0..k - 1] == tree[..k - 1];
      SliceStep(tree, 1, 2 * k - 1);
      SliceStep(tree, 1, 2 * k);
    }
  }

  /** The root holds the sum of all leaf priorities (in slot order). */
  lemma RootIsLeafSum<T>(t: SumTree<T>)
    requires Valid(t)
    ensures Total(t) == Sum(LeafValues(t))
  {
    var c := t.capacity;
    var a := t.tree;
    if c == 1 {
      assert LeafValues(t) == [a[0]];
      SumSingleton(a[0]);
    } else {
      InternalSumsTelescope(a, c - 1);
      assert a[..c - 1] == a[0..c - 1];
      SliceSplit(a, 0, 1, c - 1);
      assert a[0..1] == [a[0]];
      SumSingleton(a[0]);
      SliceSplit(a, 1, c - 1, 2 * c - 1);
      assert a[c - 1..2 * c - 1] == LeafValues(t);
    }
  }

  // ---------------------------------------------------------------------------
  // Retrieval
  // ---------------------------------------------------------------------------

  /**
   `_retrieve(i, s)`: go left when `s <= tree[left]`, otherwise go right with
   `s - tree[left]`; the descent always ends at a leaf whose index is at
   least `i`.
   */
  function Descend(tree: seq<real>, i: nat, s: real): (leaf: nat)
    requires i < |tree| && |tree| % 2 == 1
    ensures IsLeaf(tree, leaf) && i <= leaf
    decreases |tree| - i
  {
    var left := 2 * i + 1;
    if left >= |tree| then i
    else if s <= tree[left] then Descend(tree, left, s)
    else Descend(tree, left + 1, s - tree[left])
  }

  /** The iterative descent of `_retrieve` from the root to a leaf. */
  method RetrieveLoop(tree: seq<real>, s: real) returns (leaf: nat)
    requires |tree| % 2 == 1
    ensures leaf == Descend(tree, 0, s)
    ensures IsLeaf(tree, leaf)
  {
    var i := 0;
    var v := s;
    while 2 * i + 1 < |tree|
      invariant i < |tree|
      invariant Descend(tree, i, v) == Descend(tree, 0, s)
      decreases |tree| - i
    {
      var left := 2 * i + 1;
      if v <= tree[left] {
        i := left;
      } else {
        v := v - tree[left];
        i := left + 1;
      }
    }
    leaf := i;
  }

  /** The leaves under node `i`, left to right (the order in which `_retrieve` scans them). */
  function Leaves(tree: seq<real>, i: nat): (ls: seq<nat>)
    requires i < |tree| && |tree| % 2 == 1
    ensures |ls| >= 1
    ensures forall j :: 0 <= j < |ls| ==> IsLeaf(tree, ls[j])
    decreases |tree| - i
  {
    if 2 * i + 1 >= |tree| then [i] else Leaves(tree, 2 * i + 1) + Leaves(tree, 2 * i + 2)
  }

  /** The priorities of the listed nodes. */
  function Weights(tree: seq<real>, ls: seq<nat>): (w: seq<real>)
    requires forall j :: 0 <= j < |ls| ==> ls[j] < |tree|
    ensures |w| == |ls|
  {
    seq(|ls|, j requires 0 <= j < |ls| => tree[ls[j]])
  }

  lemma WeightsAppend(tree: seq<real>, l: seq<nat>, r: seq<nat>)
    requires forall j :: 0 <= j < |l| ==> l[j] < |tree|
    requires forall j :: 0 <= j < |r| ==> r[j] < |tree|
    ensures Weights(tree, l + r) == Weights(tree, l) + Weights(tree, r)
  {
  }

  /** Cumulative weight of the first `j + 1` entries. */
  function Cumulative(w: seq<real>, j: nat): real
    requires j < |w|
  {
    Sum(w[..j + 1])
  }

  lemma {:induction false} NodeIsSumOfItsLeaves(tree: seq<real>, i: nat)
    requires i < |tree| && |tree| % 2 == 1 && SumsHold(tree)
    ensures tree[i] == Sum(Weights(tree, Leaves(tree, i)))
    decreases |tree| - i
  {
    if 2 * i + 1 >= |tree| {
      assert Weights(tree, Leaves(tree, i)) == [tree[i]];
      SumSingleton(tree[i]);
    } else {
      assert SumAt(tree, i);
      var l, r := Leaves(tree, 2 * i + 1), Leaves(tree, 2 * i + 2);
      NodeIsSumOfItsLeaves(tree, 2 * i + 1);
      NodeIsSumOfItsLeaves(tree, 2 * i + 2);
      assert Leaves(tree, i) == l + r;
      WeightsAppend(tree, l, r);
      SumAppend(Weights(tree, l), Weights(tree, r));
    }
  }

  lemma CumulativeInLeftPart(wl: seq<real>, wr: seq<real>, j: nat)
    requires j < |wl|
    ensures Cumulative(wl + wr, j) == Cumulative(wl, j)
  {
    assert (wl + wr)[..j + 1] == wl[..j + 1];
  }

  lemma CumulativeInRightPart(wl: seq<real>, wr: seq<real>, j: nat)
    requires |wl| <= j < |wl| + |wr|
    ensures Cumulative(wl + wr, j) == Sum(wl) + Cumulative(wr, j - |wl|)
  {
    assert (wl + wr)[..j + 1] == wl + wr[..j - |wl| + 1];
    SumAppend(wl, wr[..j - |wl| + 1]);
  }

  /** Cumulative sums below `s` in the left part stay below `s` after appending. */
  lemma BelowInLeftPart(wl: seq<real>, wr: seq<real>, k: nat, s: real)
    requires k <= |wl|
    requires forall j :: 0 <= j < k ==> Cumulative(wl, j) < s
    ensures forall j :: 0 <= j < k ==> Cumulative(wl + wr, j) < s
  {
    forall j | 0 <= j < k
      ensures Cumulative(wl + wr, j) < s
    {
      CumulativeInLeftPart(wl, wr, j);
    }
  }

  /**
   When the whole left part stays below `s`, a right-part position `k'` whose
   predecessors stay below `s - Sum(wl)` has predecessors below `s` in the join.
   */
  lemma BelowInRightPart(wl: seq<real>, wr: seq<real>, k': nat, s: real)
    requires AllNonNegative(wl) && Sum(wl) < s && k' <= |wr|
    requires forall j :: 0 <= j < k' ==> Cumulative(wr, j) < s - Sum(wl)
    ensures forall j :: 0 <= j < |wl| + k' ==> Cumulative(wl + wr, j) < s
  {
    forall j | 0 <= j < |wl| + k'
      ensures Cumulative(wl + wr, j) < s
    {
      if j < |wl| {
        CumulativeInLeftPart(wl, wr, j);
        PrefixBounded(wl, j + 1);
      } else {
        CumulativeInRightPart(wl, wr, j);
      }
    }
  }

  lemma LeafWeightsNonNegative(tree: seq<real>, i: nat)
    requires i < |tree| && |tree| % 2 == 1 && NonNegativeLeaves(tree)
    ensures AllNonNegative(Weights(tree, Leaves(tree, i)))
  {
  }

  /**
   Inverse-CDF sampling: for `0 <= s <= tree[i]` over non-negative leaves, the
   descent from `i` ends at the FIRST leaf (left to right below `i`) whose
   cumulative priority reaches `s`. `k` is that leaf's position.
   */
  lemma {:induction false} DescendIsInverseCdf(tree: seq<real>, i: nat, s: real) returns (k: nat)
    requires i < |tree| && |tree| % 2 == 1
    requires SumsHold(tree) && NonNegativeLeaves(tree)
    requires 0.0 <= s <= tree[i]
    ensures k < |Leaves(tree, i)| && Leaves(tree, i)[k] == Descend(tree, i, s)
    ensures Cumulative(Weights(tree, Leaves(tree, i)), k) >= s
    ensures forall j :: 0 <= j < k ==> Cumulative(Weights(tree, Leaves(tree, i)), j) < s
    decreases |tree| - i
  {
    var left := 2 * i + 1;
    if left >= |tree| {
      k := 0;
      assert Weights(tree, Leaves(tree, i))[..1] == [tree[i]];
      SumSingleton(tree[i]);
    } else {
      var ll, lr := Leaves(tree, left), Leaves(tree, left + 1);
      var wl, wr := Weights(tree, ll), Weights(tree, lr);
      assert Leaves(tree, i) == ll + lr;
      WeightsAppend(tree, ll, lr);
      var w := Weights(tree, Leaves(tree, i));
      assert w == wl + wr;
      NodeIsSumOfItsLeaves(tree, left);
      assert SumAt(tree, i);
      if s <= tree[left] {
        k := DescendIsInverseCdf(tree, left, s);
        assert Descend(tree, i, s) == Descend(tree, left, s);
        CumulativeInLeftPart(wl, wr, k);
        BelowInLeftPart(wl, wr, k, s);
      } else {
        var k' := DescendIsInverseCdf(tree, left + 1, s - tree[left]);
        k := |wl| + k';
        assert Descend(tree, i, s) == Descend(tree, left + 1, s - tree[left]);
        CumulativeInRightPart(wl, wr, k);
        LeafWeightsNonNegative(tree, left);
        BelowInRightPart(wl, wr, k', s);
      }
    }
  }

  /** `get(s)`: the leaf found by the descent, with its priority and payload. */
  function Get<T>(t: SumTree<T>, s: real): (r: (nat, real, Option<T>))
    requires Valid(t)
    ensures t.capacity - 1 <= r.0 < 2 * t.capacity - 1
    ensures IsLeaf(t.tree, r.0)
    ensures r.1 == t.tree[r.0] && r.2 == t.data[r.0 - (t.capacity - 1)]
  {
    var idx := Descend(t.tree, 0, s);
    (idx, t.tree[idx], t.data[idx - t.capacity + 1])
  }

  // ---------------------------------------------------------------------------
  // Insertion and FIFO eviction
  // ---------------------------------------------------------------------------

  /**
   `add(p, data)`: the payload goes to `data[write]`, its priority to the
   matching leaf, the cursor advances and wraps to 0 at `capacity`. No other
   slot or leaf changes.
   */
  function Add<T>(t: SumTree<T>, p: real, d: T): (r: SumTree<T>)
    requires Valid(t)
    ensures Valid(r) && r.capacity == t.capacity
    ensures r.write == Wrap(t.write + 1, t.capacity)
    ensures r.data[t.write] == Some(d)
    ensures forall k :: 0 <= k < t.capacity && k != t.write ==> r.data[k] == t.data[k]
    ensures r.tree[LeafOf(t, t.write)] == p
    ensures forall k :: IsLeaf(t.tree, k) && k != LeafOf(t, t.write) ==> r.tree[k] == t.tree[k]
    ensures Total(r) == Total(t) + (p - t.tree[LeafOf(t, t.write)])
    ensures NonNegativeLeaves(t.tree) && p >= 0.0 ==> NonNegativeLeaves(r.tree)
  {
    var idx := t.write + t.capacity - 1;
    var stored := t.(data := t.data[t.write := Some(d)]);
    assert Valid(stored) && IsLeaf(stored.tree, idx);
    var u := Update(stored, idx, p);
    u.(write := if t.write + 1 >= t.capacity then 0 else t.write + 1)
  }

  lemma MulAtLeast(x: int, c: int)
    requires x >= 1 && c > 0
    ensures x * c >= c
  {
  }

  /** Euclidean division has one remainder. */
  lemma ModUnique(a: int, c: int, q: int, r: int)
    requires c > 0 && 0 <= r < c && a == q * c + r
    ensures a % c == r
  {
    var q', r' := a / c, a % c;
    assert (q - q') * c == r' - r;
    if q - q' >= 1 {
      MulAtLeast(q - q', c);
    } else if q' - q >= 1 {
      MulAtLeast(q' - q, c);
    }
  }

  /** `a` reduced below `c` by repeated subtraction: `a % c` without nonlinear arithmetic. */
  function Wrap(a: nat, c: nat): (w: nat)
    requires c > 0
    ensures w < c
    decreases a
  {
    if a < c then a else Wrap(a - c, c)
  }

  lemma {:induction false} WrapIsMod(a: nat, c: nat)
    requires c > 0
    ensures Wrap(a, c) == a % c
    decreases a
  {
    if a < c {
      ModUnique(a, c, 0, a);
    } else {
      WrapIsMod(a - c, c);
      ModUnique(a, c, (a - c) / c + 1, (a - c) % c);
    }
  }

  /** One more step of the cursor is the source's advance-and-wrap. */
  lemma {:induction false} WrapStep(a: nat, c: nat)
    requires c > 0
    ensures Wrap(a + 1, c) == (if Wrap(a, c) + 1 >= c then 0 else Wrap(a, c) + 1)
    decreases a
  {
    if a + 1 > c {
      WrapStep(a - c, c);
      assert a + 1 - c == a - c + 1;
    }
  }

  /** Fewer than `c` steps apart never share a slot. */
  lemma {:induction false} WrapDistinct(a: nat, b: nat, c: nat)
    requires c > 0 && a < b < a + c
    ensures Wrap(a, c) != Wrap(b, c)
    decreases a
  {
    if a >= c {
      WrapDistinct(a - c, b - c, c);
    } else if b >= c {
      assert Wrap(b, c) == Wrap(b - c, c) == b - c;
    }
  }

  /** The slot the `j`-th insertion after `t` writes to: `(write + j) % capacity`. */
  function Slot<T>(t: SumTree<T>, j: nat): (k: nat)
    requires Shaped(t)
    ensures k < t.capacity
  {
    Wrap(t.write + j, t.capacity)
  }

  /** `Slot` is the source's `(write + j) % capacity`. */
  lemma SlotIsMod<T>(t: SumTree<T>, j: nat)
    requires Shaped(t)
    ensures Slot(t, j) == (t.write + j) % t.capacity
  {
    WrapIsMod(t.write + j, t.capacity);
  }

  /** Insertions fewer than `capacity` apart write different slots. */
  lemma SlotsDistinct<T>(t: SumTree<T>, i: nat, j: nat)
    requires Shaped(t) && i < j < i + t.capacity
    ensures Slot(t, i) != Slot(t, j)
  {
    WrapDistinct(t.write + i, t.write + j, t.capacity);
  }

  /** After the first `i` insertions of `items`, the newest `capacity` of them sit in their slots. */
  ghost predicate HoldsNewest<T>(t: SumTree<T>, items: seq<(real, T)>, i: nat, r: SumTree<T>)
    requires Shaped(t) && Shaped(r) && r.capacity == t.capacity && i <= |items|
  {
    forall j :: 0 <= j < i && i - t.capacity <= j ==>
      r.data[Slot(t, j)] == Some(items[j].1) && r.tree[LeafOf(t, Slot(t, j))] == items[j].0
  }

  /** Slots the first `i` insertions never reached still hold what `t` held. */
  ghost predicate HoldsUntouched<T>(t: SumTree<T>, i: nat, r: SumTree<T>)
    requires Shaped(t) && Shaped(r) && r.capacity == t.capacity
  {
    forall j :: i <= j < t.capacity ==>
      r.data[Slot(t, j)] == t.data[Slot(t, j)] && r.tree[LeafOf(t, Slot(t, j))] == t.tree[LeafOf(t, Slot(t, j))]
  }

  /** The state after `i` insertions of a run. */
  ghost predicate RunState<T>(t: SumTree<T>, items: seq<(real, T)>, i: nat, r: SumTree<T>)
  {
    && Valid(t) && Valid(r) && r.capacity == t.capacity && i <= |items|
    && r.write == Slot(t, i)
    && HoldsNewest(t, items, i, r)
    && HoldsUntouched(t, i, r)
  }

  lemma NewestStep<T>(t: SumTree<T>, items: seq<(real, T)>, i: nat, r: SumTree<T>)
    requires RunState(t, items, i, r) && i < |items|
    ensures HoldsNewest(t, items, i + 1, Add(r, items[i].0, items[i].1))
  {
    var next := Add(r, items[i].0, items[i].1);
    forall j | 0 <= j < i + 1 && i + 1 - t.capacity <= j
      ensures next.data[Slot(t, j)] == Some(items[j].1)
      ensures next.tree[LeafOf(t, Slot(t, j))] == items[j].0
    {
      if j < i {
        SlotsDistinct(t, j, i);
        AddKeepsOtherSlots(r, items[i].0, items[i].1, Slot(t, j));
      }
    }
  }

  lemma UntouchedStep<T>(t: SumTree<T>, items: seq<(real, T)>, i: nat, r: SumTree<T>)
    requires RunState(t, items, i, r) && i < |items|
    ensures HoldsUntouched(t, i + 1, Add(r, items[i].0, items[i].1))
  {
    var next := Add(r, items[i].0, items[i].1);
    forall j | i + 1 <= j < t.capacity
      ensures next.data[Slot(t, j)] == t.data[Slot(t, j)]
      ensures next.tree[LeafOf(t, Slot(t, j))] == t.tree[LeafOf(t, Slot(t, j))]
    {
      SlotsDistinct(t, i, j);
      AddKeepsOtherSlots(r, items[i].0, items[i].1, Slot(t, j));
    }
  }

  /** One more `add` of the run keeps the run's bookkeeping. */
  lemma RunStep<T>(t: SumTree<T>, items: seq<(real, T)>, i: nat, r: SumTree<T>)
    requires RunState(t, items, i, r) && i < |items|
    ensures RunState(t, items, i + 1, Add(r, items[i].0, items[i].1))
  {
    NewestStep(t, items, i, r);
    UntouchedStep(t, items, i, r);
    WrapStep(t.write + i, t.capacity);
  }

  /**
   FIFO eviction over a run of `add` calls, oldest first: the cursor moves
   `|items|` slots (mod capacity), the newest `capacity` items sit in the slots
   they were written to, and slots the run never reached are untouched.
   */
  method AddRun<T>(t: SumTree<T>, items: seq<(real, T)>) returns (r: SumTree<T>)
    requires Valid(t)
    ensures Valid(r) && r.capacity == t.capacity
    ensures r.write == Slot(t, |items|)
    ensures forall j :: 0 <= j < |items| && |items| - t.capacity <= j ==>
              r.data[Slot(t, j)] == Some(items[j].1) && r.tree[LeafOf(t, Slot(t, j))] == items[j].0
    ensures forall j :: |items| <= j < t.capacity ==>
              r.data[Slot(t, j)] == t.data[Slot(t, j)] && r.tree[LeafOf(t, Slot(t, j))] == t.tree[LeafOf(t, Slot(t, j))]
  {
    r := t;
    var i := 0;
    while i < |items|
      invariant RunState(t, items, i, r)
    {
      RunStep(t, items, i, r);
      r, i := Add(r, items[i].0, items[i].1), i + 1;
    }
  }

  lemma AddKeepsOtherSlots<T>(t: SumTree<T>, p: real, d: T, k: nat)
    requires Valid(t) && k < t.capacity && k != t.write
    ensures Add(t, p, d).data[k] == t.data[k]
    ensures Add(t, p, d).tree[LeafOf(t, k)] == t.tree[LeafOf(t, k)]
  {
    assert IsLeaf(t.tree, LeafOf(t, k));
  }

  // ---------------------------------------------------------------------------
  // The source's `_propagate` at the root
  // ---------------------------------------------------------------------------

  /**
   `_propagate` exactly as written: the parent is computed with Python's floor
   division (`(0 - 1) // 2 == -1`, which Dafny's `/` by a positive constant
   reproduces), a negative subscript counts from the end, and the recursion stops
   only once a parent equals 0. `fuel` stands for Python's recursion limit.
   */
  function PropagateAsWritten(tree: seq<real>, idx: int, change: real, fuel: nat): (r: Result<seq<real>>)
    ensures r.Ok? ==> |r.value| == |tree|
    ensures |tree| > 0 && -1 <= idx <= |tree| && r.Err? ==> r.error == RecursionError
    decreases fuel
  {
    var parent := (idx - 1) / 2;
    var slot := if parent < 0 then parent + |tree| else parent;
    if !(0 <= slot < |tree|) then Err(IndexError)
    else
      var tree' := tree[slot := tree[slot] + change];
      if parent == 0 then Ok(tree')
      else if fuel == 0 then Err(RecursionError)
      else PropagateAsWritten(tree', parent, change, fuel - 1)
  }

  /** Below the root the source's recursion agrees with `Propagate`. */
  lemma {:induction false} PropagateAsWrittenAgrees(tree: seq<real>, idx: nat, change: real, fuel: nat)
    requires 0 < idx < |tree| && fuel >= idx
    ensures PropagateAsWritten(tree, idx, change, fuel) == Ok(Propagate(tree, idx, change))
    decreases idx
  {
    var parent := (idx - 1) / 2;
    var tree' := tree[parent := tree[parent] + change];
    assert Propagate(tree, idx, change) == Propagate(tree', parent, change);
    if parent == 0 {
      assert PropagateAsWritten(tree, idx, change, fuel) == Ok(tree');
    } else {
      assert PropagateAsWritten(tree, idx, change, fuel) == PropagateAsWritten(tree', parent, change, fuel - 1);
      PropagateAsWrittenAgrees(tree', parent, change, fuel - 1);
    }
  }

  lemma {:induction false} RootPropagationNeverStops(tree: seq<real>, idx: int, change: real, fuel: nat)
    requires |tree| == 1 && (idx == 0 || idx == -1)
    ensures PropagateAsWritten(tree, idx, change, fuel) == Err(RecursionError)
    decreases fuel
  {
    assert (idx - 1) / 2 == -1;
    if fuel > 0 {
      var tree' := tree[0 := tree[0] + change];
      RootPropagationNeverStops(tree', -1, change, fuel - 1);
    }
  }

  /**
   With `capacity == 1` the single leaf is the root, and `update(0, p)` as
   written never returns, whatever the recursion limit; `Update` instead just
   sets the root to `p`.
   */
  lemma CapacityOneUpdateDiverges<T>(t: SumTree<T>, p: real, fuel: nat)
    requires Valid(t) && t.capacity == 1
    ensures PropagateAsWritten(t.tree[0 := p], 0, p - t.tree[0], fuel) == Err(RecursionError)
    ensures Update(t, 0, p).tree == [p]
  {
    RootPropagationNeverStops(t.tree[0 := p], 0, p - t.tree[0], fuel);
  }
}
