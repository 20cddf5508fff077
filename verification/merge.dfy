/**
 `merge_index_use`: usage tuples grouped by their first field (an index or
 relation name) with the numeric fields summed position by position, groups
 in the order their key first appears. The sums are formed with `zip`, so a
 group is as wide as its narrowest tuple.
 */
module IndexUseMerge {
  import opened PlanUsage

  /** The `defaultdict` being filled: keys in insertion order and their running sums. */
  datatype Groups = Groups(keys: seq<string>, sums: map<string, seq<real>>)

  /** `[sum(x) for x in zip(a, b)]`. */
  function ZipSum(a: seq<real>, b: seq<real>): (r: seq<real>)
    ensures |r| == (if |a| <= |b| then |a| else |b|)
    ensures forall j :: 0 <= j < |r| ==> r[j] == a[j] + b[j]
  {
    seq(if |a| <= |b| then |a| else |b|, j requires 0 <= j < |a| && j < |b| => a[j] + b[j])
  }

  function Zeros(n: nat): (z: seq<real>)
    ensures |z| == n && forall j :: 0 <= j < n ==> z[j] == 0.0
  {
    seq(n, _ => 0.0)
  }

  /** One iteration of the loop: a new key starts from zeros, then the tuple is added in. */
  function Step(g: Groups, u: Record): Groups
  {
    var start := if u.key in g.sums then g.sums[u.key] else Zeros(|u.fields|);
    var keys := if u.key in g.sums then g.keys else g.keys + [u.key];
    Groups(keys, g.sums[u.key := ZipSum(start, u.fields)])
  }

  /** The loop over `index_uses`. */
  function Fold(uses: seq<Record>): Groups
  {
    if |uses| == 0 then Groups([], map[]) else Step(Fold(uses[..|uses| - 1]), uses[|uses| - 1])
  }

  /** `merge_index_use(index_uses)`: one record per key of the dictionary, in its order. */
  function Merge(uses: seq<Record>): (r: seq<Record>)
    ensures |uses| == 0 ==> r == []
    ensures |r| <= |uses|
  {
    var g := Fold(uses);
    FoldInvariant(uses);
    DedupSpec(KeysOf(uses));
    DedupShorter(KeysOf(uses));
    seq(|g.keys|, i requires 0 <= i < |g.keys| => Record(g.keys[i], g.sums[g.keys[i]]))
  }

  // ---------------------------------------------------------------------------
  // Reference definitions, independent of the dictionary
  // ---------------------------------------------------------------------------

  /** The first fields of the tuples, in order. */
  function KeysOf(uses: seq<Record>): (ks: seq<string>)
    ensures |ks| == |uses| && forall i :: 0 <= i < |uses| ==> ks[i] == uses[i].key
  {
    if |uses| == 0 then [] else KeysOf(uses[..|uses| - 1]) + [uses[|uses| - 1].key]
  }

  /** The position of the first `k` in `xs`. */
  function IndexOf(xs: seq<string>, k: string): (i: nat)
    requires k in xs
    ensures i < |xs| && xs[i] == k && k !in xs[..i]
  {
    if xs[0] == k then 0
    else
      var i := 1 + IndexOf(xs[1..], k);
      assert xs[..i] == [xs[0]] + xs[1..][..i - 1];
      i
  }

  /** `xs` with each value kept at its first occurrence only. */
  function Dedup(xs: seq<string>): seq<string>
  {
    if |xs| == 0 then []
    else
      var front := Dedup(xs[..|xs| - 1]);
      if xs[|xs| - 1] in front then front else front + [xs[|xs| - 1]]
  }

  /** The width of the narrowest tuple with key `k`. */
  function Width(uses: seq<Record>, k: string): nat
  {
    if |uses| == 0 then 0
    else
      var last := uses[|uses| - 1];
      var front := uses[..|uses| - 1];
      if last.key != k then Width(front, k)
      else if k !in KeysOf(front) || |last.fields| < Width(front, k) then |last.fields|
      else Width(front, k)
  }

  /** The total of field `j` over the tuples with key `k`. */
  function FieldTotal(uses: seq<Record>, k: string, j: nat): real
  {
    if |uses| == 0 then 0.0
    else
      var last := uses[|uses| - 1];
      var front := uses[..|uses| - 1];
      FieldTotal(front, k, j) + (if last.key == k && j < |last.fields| then last.fields[j] else 0.0)
  }

  // ---------------------------------------------------------------------------
  // The first-occurrence order
  // ---------------------------------------------------------------------------

  lemma IndexOfAppend(xs: seq<string>, y: string, k: string)
    requires k in xs
    ensures k in xs + [y] && IndexOf(xs + [y], k) == IndexOf(xs, k)
  {
    var i := IndexOf(xs, k);
    assert (xs + [y])[..i] == xs[..i];
    assert (xs + [y])[i] == k;
  }

  lemma IndexOfNew(xs: seq<string>, k: string)
    requires k !in xs
    ensures IndexOf(xs + [k], k) == |xs|
  {
    assert (xs + [k])[..|xs|] == xs;
  }

  /** `Dedup` keeps every value exactly once, in order of first occurrence. */
  lemma {:induction false} DedupSpec(xs: seq<string>)
    ensures forall k :: k in Dedup(xs) <==> k in xs
    ensures forall i, i' :: 0 <= i < i' < |Dedup(xs)| ==> Dedup(xs)[i] != Dedup(xs)[i']
    ensures forall i, i' :: 0 <= i < i' < |Dedup(xs)| ==> IndexOf(xs, Dedup(xs)[i]) < IndexOf(xs, Dedup(xs)[i'])
  {
    if |xs| > 0 {
      var front := xs[..|xs| - 1];
      var y := xs[|xs| - 1];
      assert xs == front + [y];
      DedupSpec(front);
      var d := Dedup(front);
      forall k | k in d
        ensures IndexOf(xs, k) == IndexOf(front, k)
      {
        IndexOfAppend(front, y, k);
      }
      if y !in d {
        IndexOfNew(front, y);
        var d' := d + [y];
        forall i, i' | 0 <= i < i' < |d'|
          ensures d'[i] != d'[i'] && IndexOf(xs, d'[i]) < IndexOf(xs, d'[i'])
        {
          assert d'[i] == d[i];
          if i' == |d| {
            assert IndexOf(front, d[i]) < |front|;
          } else {
            assert d'[i'] == d[i'];
          }
        }
      }
    }
  }

  lemma {:induction false} DedupShorter(xs: seq<string>)
    ensures |Dedup(xs)| <= |xs|
  {
    if |xs| > 0 {
      DedupShorter(xs[..|xs| - 1]);
    }
  }

  // ---------------------------------------------------------------------------
  // The loop invariant
  // ---------------------------------------------------------------------------

  /** What the fold maintains: keys in first-occurrence order, each with its totals. */
  ghost predicate Summarises(g: Groups, uses: seq<Record>)
  {
    && g.keys == Dedup(KeysOf(uses))
    && (forall k :: k in g.sums <==> k in KeysOf(uses))
    && (forall k :: k in g.sums ==> |g.sums[k]| == Width(uses, k))
    && (forall k, j :: k in g.sums && 0 <= j < |g.sums[k]| ==> g.sums[k][j] == FieldTotal(uses, k, j))
  }

  lemma {:induction false} FoldInvariant(uses: seq<Record>)
    ensures Summarises(Fold(uses), uses)
  {
    if |uses| > 0 {
      var front := uses[..|uses| - 1];
      var u := uses[|uses| - 1];
      assert uses == front + [u];
      assert Fold(uses) == Step(Fold(front), u);
      FoldInvariant(front);
      DedupSpec(KeysOf(front));
      StepKeeps(Fold(front), front, u);
    }
  }

  lemma StepKeeps(g: Groups, front: seq<Record>, u: Record)
    requires Summarises(g, front)
    requires forall k :: k in Dedup(KeysOf(front)) <==> k in KeysOf(front)
    ensures Summarises(Step(g, u), front + [u])
  {
    var uses := front + [u];
    var g' := Step(g, u);
    assert uses[..|uses| - 1] == front && uses[|uses| - 1] == u;
    assert KeysOf(uses) == KeysOf(front) + [u.key];
    assert KeysOf(uses)[..|uses| - 1] == KeysOf(front);
    forall k | k in g'.sums
      ensures |g'.sums[k]| == Width(uses, k)
      ensures forall j :: 0 <= j < |g'.sums[k]| ==> g'.sums[k][j] == FieldTotal(uses, k, j)
    {
      if k == u.key {
        forall j | 0 <= j < |g'.sums[k]|
          ensures g'.sums[k][j] == FieldTotal(uses, k, j)
        {
          if k !in g.sums {
            FieldTotalAbsent(front, k, j);
          }
        }
      }
    }
  }

  /** A key that never occurred has total zero. */
  lemma {:induction false} FieldTotalAbsent(uses: seq<Record>, k: string, j: nat)
    requires k !in KeysOf(uses)
    ensures FieldTotal(uses, k, j) == 0.0
  {
    if |uses| > 0 {
      var front := uses[..|uses| - 1];
      assert KeysOf(uses) == KeysOf(front) + [uses[|uses| - 1].key];
      FieldTotalAbsent(front, k, j);
    }
  }

  // ---------------------------------------------------------------------------
  // What the merge promises
  // ---------------------------------------------------------------------------

  /** The merged records' keys, in order, are the input's keys without repeats. */
  lemma MergeKeysAreDedup(uses: seq<Record>)
    ensures |Merge(uses)| == |Dedup(KeysOf(uses))|
    ensures forall i :: 0 <= i < |Merge(uses)| ==> Merge(uses)[i].key == Dedup(KeysOf(uses))[i]
  {
    FoldInvariant(uses);
  }

  /** The merged records' keys are the input's keys, each once, in order of first occurrence. */
  lemma MergeKeys(uses: seq<Record>)
    ensures var r := Merge(uses);
            && (forall i, i' :: 0 <= i < i' < |r| ==> r[i].key != r[i'].key)
            && (forall k :: k in KeysOf(uses) <==> exists i :: 0 <= i < |r| && r[i].key == k)
            && (forall i, i' :: 0 <= i < i' < |r| ==>
                  IndexOf(KeysOf(uses), r[i].key) < IndexOf(KeysOf(uses), r[i'].key))
  {
    MergeKeysAreDedup(uses);
    DedupSpec(KeysOf(uses));
    var r := Merge(uses);
    var d := Dedup(KeysOf(uses));
    forall k | k in KeysOf(uses)
      ensures exists i :: 0 <= i < |r| && r[i].key == k
    {
      var i :| 0 <= i < |d| && d[i] == k;
      assert r[i].key == k;
    }
  }

  /**
   Each merged record carries, position by position, the total of that field
   over its key's tuples, with as many positions as the key's narrowest tuple.
   */
  lemma MergeSums(uses: seq<Record>)
    ensures var r := Merge(uses);
            && (forall i :: 0 <= i < |r| ==> |r[i].fields| == Width(uses, r[i].key))
            && (forall i, j :: 0 <= i < |r| && 0 <= j < |r[i].fields| ==> r[i].fields[j] == FieldTotal(uses, r[i].key, j))
  {
    var g := Fold(uses);
    FoldInvariant(uses);
    DedupSpec(KeysOf(uses));
    var r := Merge(uses);
    forall i | 0 <= i < |r|
      ensures r[i].key in g.sums && r[i].fields == g.sums[r[i].key]
    {
      assert r[i].key == g.keys[i];
    }
  }

  /** Tuples of one width give records of that width: the plain element-wise sum. */
  lemma UniformWidth(uses: seq<Record>, k: string, n: nat)
    requires k in KeysOf(uses)
    requires forall i :: 0 <= i < |uses| && uses[i].key == k ==> |uses[i].fields| == n
    ensures Width(uses, k) == n
  {
    WidthIsNarrowest(uses, k);
  }

  /** The width is that of some tuple with the key, and no such tuple is narrower. */
  lemma {:induction false} WidthIsNarrowest(uses: seq<Record>, k: string)
    requires k in KeysOf(uses)
    ensures exists i :: 0 <= i < |uses| && uses[i].key == k && |uses[i].fields| == Width(uses, k)
    ensures forall i :: 0 <= i < |uses| && uses[i].key == k ==> Width(uses, k) <= |uses[i].fields|
  {
    var front := uses[..|uses| - 1];
    var last := uses[|uses| - 1];
    assert KeysOf(uses) == KeysOf(front) + [last.key];
    if k in KeysOf(front) {
      WidthIsNarrowest(front, k);
      var i :| 0 <= i < |front| && front[i].key == k && |front[i].fields| == Width(front, k);
      assert uses[i] == front[i];
    }
    forall i | 0 <= i < |uses| && uses[i].key == k
      ensures Width(uses, k) <= |uses[i].fields|
    {
      if i < |front| {
        assert uses[i] == front[i];
      }
    }
    if last.key == k {
      assert uses[|uses| - 1].key == k;
    }
  }
}
