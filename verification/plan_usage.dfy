/**
 The walk over a PostgreSQL `EXPLAIN (FORMAT JSON)` plan tree that records
 which indexes and which base relations a query touched
 (`_collect_plan_usage`), and the per-table row estimates the same kind of
 walk gathers for `get_selectivity_v3`.

 A plan node is a JSON object; a key the object lacks is `None` here. The
 `Plans` list is `children`: a node without `Plans`, or with an empty or null
 one, has no children, which is all `plan_node.get('Plans', []) or []` tells
 apart.
 */
module PlanUsage {
  import opened Wrappers

  datatype PlanNode = PlanNode(
    nodeType: Option<string>,
    relationName: Option<string>,
    alias: Option<string>,
    indexName: Option<string>,
    actualTotalTime: Option<real>,
    planRows: Option<real>,
    actualRows: Option<real>,
    totalCost: Option<real>,
    children: seq<PlanNode>)

  /** One usage tuple: the index or relation name, then five numbers. */
  datatype Record = Record(key: string, fields: seq<real>)

  /** Python truthiness of an optional string: present and non-empty. */
  predicate Truthy(s: Option<string>)
  {
    s.Some? && |s.value| > 0
  }

  function GetOr<T>(o: Option<T>, default: T): T
  {
    if o.Some? then o.value else default
  }

  /** `plan_node.get('Relation Name') or plan_node.get('Alias')`. */
  function Relation(node: PlanNode): (r: Option<string>)
    ensures Truthy(node.relationName) ==> r == node.relationName
    ensures !Truthy(node.relationName) ==> r == node.alias
    ensures Truthy(r) <==> Truthy(node.relationName) || Truthy(node.alias)
  {
    if Truthy(node.relationName) then node.relationName else node.alias
  }

  /** Node types that scan a secondary (non-clustered) index. */
  predicate IsIndexScan(nodeType: string)
  {
    nodeType == "Index Scan" || nodeType == "Index Only Scan" || nodeType == "Bitmap Index Scan"
  }

  /** Node types that read the table itself. */
  predicate IsTableScan(nodeType: string)
  {
    nodeType == "Seq Scan" || nodeType == "Bitmap Heap Scan" || nodeType == "Tid Scan"
  }

  /** `node_type`, with `''` for a node without one. */
  function NodeType(node: PlanNode): string
  {
    GetOr(node.nodeType, "")
  }

  /**
   The numbers recorded for a node: the actual time in seconds twice, the total
   cost, the actual rows and the planned rows. Missing numbers count as zero,
   except that missing actual rows fall back to the planned rows.
   */
  function Fields(node: PlanNode): (f: seq<real>)
    ensures |f| == 5
    ensures f[0] == f[1] && f[0] * 1000.0 == GetOr(node.actualTotalTime, 0.0)
    ensures f[2] == GetOr(node.totalCost, 0.0)
    ensures f[3] == (if node.actualRows.Some? then node.actualRows.value else f[4])
    ensures f[4] == GetOr(node.planRows, 0.0)
  {
    var time := GetOr(node.actualTotalTime, 0.0) / 1000.0;
    var planRows := GetOr(node.planRows, 0.0);
    [time, time, GetOr(node.totalCost, 0.0), GetOr(node.actualRows, planRows), planRows]
  }

  /** The record one node contributes to `non_clustered_usage`, if any. */
  function IndexRecord(node: PlanNode): (r: Option<Record>)
    ensures r.Some? <==> IsIndexScan(NodeType(node)) && Truthy(node.indexName)
    ensures r.Some? ==> r.value == Record(node.indexName.value, Fields(node))
  {
    if IsIndexScan(NodeType(node)) && Truthy(node.indexName) then
      Some(Record(node.indexName.value, Fields(node)))
    else
      None
  }

  /** The record one node contributes to `clustered_usage`, if any. */
  function TableRecord(node: PlanNode): (r: Option<Record>)
    ensures r.Some? <==> IsTableScan(NodeType(node)) && Truthy(Relation(node))
    ensures r.Some? ==> r.value == Record(Relation(node).value, Fields(node))
  {
    if IsTableScan(NodeType(node)) && Truthy(Relation(node)) then
      Some(Record(Relation(node).value, Fields(node)))
    else
      None
  }

  function AsSeq<T>(o: Option<T>): seq<T>
  {
    if o.Some? then [o.value] else []
  }

  /**
   `_collect_plan_usage(plan_node, non_clustered_usage, clustered_usage)`: the
   node's own record, then the children's in order. The two lists are the ones
   the call appends to the caller's lists.
   */
  function Collect(node: PlanNode): (r: (seq<Record>, seq<Record>))
    decreases node
  {
    var rest := CollectAll(node.children);
    (AsSeq(IndexRecord(node)) + rest.0, AsSeq(TableRecord(node)) + rest.1)
  }

  /** The loop over `Plans`. */
  function CollectAll(nodes: seq<PlanNode>): (r: (seq<Record>, seq<Record>))
    decreases nodes
  {
    if |nodes| == 0 then ([], [])
    else
      var first := Collect(nodes[0]);
      var rest := CollectAll(nodes[1..]);
      (first.0 + rest.0, first.1 + rest.1)
  }

  /** The caller's view: both lists grow by what the walk collects, at their end. */
  function CollectPlanUsage(node: PlanNode, nonClustered: seq<Record>, clustered: seq<Record>): (r: (seq<Record>, seq<Record>))
    ensures |r.0| >= |nonClustered| && r.0[..|nonClustered|] == nonClustered
    ensures |r.1| >= |clustered| && r.1[..|clustered|] == clustered
    ensures r.0[|nonClustered|..] == Pick(Nodes(node), IndexRecord)
    ensures r.1[|clustered|..] == Pick(Nodes(node), TableRecord)
    ensures |r.0| + |r.1| <= |nonClustered| + |clustered| + |Nodes(node)|
  {
    CollectBounded(node);
    CollectIsPreOrderFilter(node);
    (nonClustered + Collect(node).0, clustered + Collect(node).1)
  }

  // ---------------------------------------------------------------------------
  // The nodes in visiting order
  // ---------------------------------------------------------------------------

  /** Every node of the tree, in the pre-order the walk visits them. */
  function Nodes(node: PlanNode): (ns: seq<PlanNode>)
    ensures |ns| >= 1 && ns[0] == node
    decreases node
  {
    [node] + NodesAll(node.children)
  }

  function NodesAll(nodes: seq<PlanNode>): seq<PlanNode>
    decreases nodes
  {
    if |nodes| == 0 then [] else Nodes(nodes[0]) + NodesAll(nodes[1..])
  }

  /** The records `f` gives for a list of nodes, in order. */
  function Pick(ns: seq<PlanNode>, f: PlanNode -> Option<Record>): seq<Record>
  {
    if |ns| == 0 then [] else Pick(ns[..|ns| - 1], f) + AsSeq(f(ns[|ns| - 1]))
  }

  lemma {:induction false} PickAppend(xs: seq<PlanNode>, ys: seq<PlanNode>, f: PlanNode -> Option<Record>)
    ensures Pick(xs + ys, f) == Pick(xs, f) + Pick(ys, f)
    decreases |ys|
  {
    if |ys| == 0 {
      assert xs + ys == xs;
    } else {
      var ys' := ys[..|ys| - 1];
      var last := ys[|ys| - 1];
      assert (xs + ys)[..|xs + ys| - 1] == xs + ys';
      assert (xs + ys)[|xs + ys| - 1] == last;
      PickAppend(xs, ys', f);
      calc {
        Pick(xs + ys, f);
        Pick(xs + ys', f) + AsSeq(f(last));
        Pick(xs, f) + Pick(ys', f) + AsSeq(f(last));
        Pick(xs, f) + Pick(ys, f);
      }
    }
  }

  lemma PickSingleton(n: PlanNode, f: PlanNode -> Option<Record>)
    ensures Pick([n], f) == AsSeq(f(n))
  {
    assert [n][..0] == [];
  }

  /**
   The walk keeps exactly the records of the visited nodes, in visiting order:
   `non_clustered_usage` gains the index records and `clustered_usage` the
   table records of the pre-order node list.
   */
  lemma {:induction false} CollectIsPreOrderFilter(node: PlanNode)
    ensures Collect(node).0 == Pick(Nodes(node), IndexRecord)
    ensures Collect(node).1 == Pick(Nodes(node), TableRecord)
    decreases node
  {
    CollectAllIsPreOrderFilter(node.children);
    PickAppend([node], NodesAll(node.children), IndexRecord);
    PickAppend([node], NodesAll(node.children), TableRecord);
    PickSingleton(node, IndexRecord);
    PickSingleton(node, TableRecord);
  }

  lemma {:induction false} CollectAllIsPreOrderFilter(nodes: seq<PlanNode>)
    ensures CollectAll(nodes).0 == Pick(NodesAll(nodes), IndexRecord)
    ensures CollectAll(nodes).1 == Pick(NodesAll(nodes), TableRecord)
    decreases nodes
  {
    if |nodes| > 0 {
      CollectIsPreOrderFilter(nodes[0]);
      CollectAllIsPreOrderFilter(nodes[1..]);
      PickAppend(Nodes(nodes[0]), NodesAll(nodes[1..]), IndexRecord);
      PickAppend(Nodes(nodes[0]), NodesAll(nodes[1..]), TableRecord);
    }
  }

  /** A record is picked exactly when some node yields it. */
  lemma {:induction false} PickContains(ns: seq<PlanNode>, f: PlanNode -> Option<Record>, r: Record)
    ensures r in Pick(ns, f) <==> exists i :: 0 <= i < |ns| && f(ns[i]) == Some(r)
  {
    if |ns| > 0 {
      var front := ns[..|ns| - 1];
      PickContains(front, f, r);
      if r in Pick(ns, f) && r !in Pick(front, f) {
        assert f(ns[|ns| - 1]) == Some(r);
      }
      if exists i :: 0 <= i < |ns| && f(ns[i]) == Some(r) {
        var i :| 0 <= i < |ns| && f(ns[i]) == Some(r);
        if i < |ns| - 1 {
          assert front[i] == ns[i];
        }
      }
      forall i | 0 <= i < |front| && f(front[i]) == Some(r)
        ensures f(ns[i]) == Some(r)
      {
      }
    }
  }

  /** No node is both an index scan and a table scan. */
  lemma ScanKindsDisjoint(t: string)
    ensures !(IsIndexScan(t) && IsTableScan(t))
  {
  }

  /** Each node adds at most one record to the two lists together. */
  lemma {:induction false} PickBounded(ns: seq<PlanNode>)
    ensures |Pick(ns, IndexRecord)| + |Pick(ns, TableRecord)| <= |ns|
  {
    if |ns| > 0 {
      PickBounded(ns[..|ns| - 1]);
      ScanKindsDisjoint(NodeType(ns[|ns| - 1]));
    }
  }

  /** The walk records at most one entry per plan node. */
  lemma CollectBounded(node: PlanNode)
    ensures |Collect(node).0| + |Collect(node).1| <= |Nodes(node)|
  {
    CollectIsPreOrderFilter(node);
    PickBounded(Nodes(node));
  }

  /**
   `non_clustered_usage` holds a record exactly when some plan node is an index
   scan that names its index, with that node's index name and numbers.
   */
  lemma IndexUsage(node: PlanNode, r: Record)
    ensures r in Collect(node).0 <==>
              exists i :: 0 <= i < |Nodes(node)| && IsIndexScan(NodeType(Nodes(node)[i]))
                        && Truthy(Nodes(node)[i].indexName)
                        && r == Record(Nodes(node)[i].indexName.value, Fields(Nodes(node)[i]))
  {
    CollectIsPreOrderFilter(node);
    PickContains(Nodes(node), IndexRecord, r);
  }

  /**
   `clustered_usage` holds a record exactly when some plan node is a table scan
   with a relation, with that relation and the node's numbers.
   */
  lemma TableUsage(node: PlanNode, r: Record)
    ensures r in Collect(node).1 <==>
              exists i :: 0 <= i < |Nodes(node)| && IsTableScan(NodeType(Nodes(node)[i]))
                        && Truthy(Relation(Nodes(node)[i]))
                        && r == Record(Relation(Nodes(node)[i]).value, Fields(Nodes(node)[i]))
  {
    CollectIsPreOrderFilter(node);
    PickContains(Nodes(node), TableRecord, r);
  }

  /** Children are visited whatever their parent is: a child's records all reach the parent's lists. */
  lemma ChildRecordsKept(node: PlanNode, k: nat, r: Record)
    requires k < |node.children|
    ensures r in Collect(node.children[k]).0 ==> r in Collect(node).0
    ensures r in Collect(node.children[k]).1 ==> r in Collect(node).1
  {
    ChildrenKept(node.children, k, r);
  }

  lemma {:induction false} ChildrenKept(nodes: seq<PlanNode>, k: nat, r: Record)
    requires k < |nodes|
    ensures r in Collect(nodes[k]).0 ==> r in CollectAll(nodes).0
    ensures r in Collect(nodes[k]).1 ==> r in CollectAll(nodes).1
    decreases k
  {
    if k > 0 {
      ChildrenKept(nodes[1..], k - 1, r);
      assert nodes[1..][k - 1] == nodes[k];
    }
  }
}
