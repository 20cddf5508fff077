/**
 The optimizer-derived numbers the bandit's context uses: per-table
 selectivities from the planner's row estimates (`get_selectivity_v3`) and the
 estimated on-disk size of a candidate index (`get_estimated_size_of_index_v1`).
 Catalog lookups (row counts, primary keys, column types) are inputs.
 */
module Estimates {
  import opened Wrappers
  import opened PlanUsage
  import opened Sums

  // ---------------------------------------------------------------------------
  // Selectivity
  // ---------------------------------------------------------------------------

  /** `Plan Rows`, zero when the node lacks it. */
  function PlanRows(node: PlanNode): real
  {
    GetOr(node.planRows, 0.0)
  }

  /** The node scans table `t`: its relation is present, non-empty and equal to `t`. */
  predicate Names(node: PlanNode, t: string)
  {
    Truthy(Relation(node)) && Relation(node).value == t
  }

  /**
   One visit of `_collect_selectivity`: a node naming a table of interest lowers
   that table's estimate to its planned rows. A table absent from `est` has the
   estimate `inf`.
   */
  function Visit(node: PlanNode, tables: set<string>, est: map<string, real>): (r: map<string, real>)
    ensures r.Keys == est.Keys + (if Truthy(Relation(node)) && Relation(node).value in tables then {Relation(node).value} else {})
  {
    var rel := Relation(node);
    if Truthy(rel) && rel.value in tables then
      var t := rel.value;
      var rows := PlanRows(node);
      est[t := if t in est && est[t] <= rows then est[t] else rows]
    else
      est
  }

  /** `_collect_selectivity(node)`: the node, then each child's subtree in order. */
  function Gather(node: PlanNode, tables: set<string>, est: map<string, real>): map<string, real>
    decreases node
  {
    GatherAll(node.children, tables, Visit(node, tables, est))
  }

  function GatherAll(nodes: seq<PlanNode>, tables: set<string>, est: map<string, real>): map<string, real>
    decreases nodes
  {
    if |nodes| == 0 then est else GatherAll(nodes[1..], tables, Gather(nodes[0], tables, est))
  }

  /** The same visits over a flat list of nodes, in order. */
  function VisitAll(ns: seq<PlanNode>, tables: set<string>, est: map<string, real>): map<string, real>
  {
    if |ns| == 0 then est else Visit(ns[|ns| - 1], tables, VisitAll(ns[..|ns| - 1], tables, est))
  }

  lemma {:induction false} VisitAllAppend(xs: seq<PlanNode>, ys: seq<PlanNode>, tables: set<string>, est: map<string, real>)
    ensures VisitAll(xs + ys, tables, est) == VisitAll(ys, tables, VisitAll(xs, tables, est))
    decreases |ys|
  {
    if |ys| == 0 {
      assert xs + ys == xs;
    } else {
      var ys' := ys[..|ys| - 1];
      assert (xs + ys)[..|xs + ys| - 1] == xs + ys';
      assert (xs + ys)[|xs + ys| - 1] == ys[|ys| - 1];
      VisitAllAppend(xs, ys', tables, est);
    }
  }

  /** The recursive walk visits exactly the pre-order node list. */
  lemma {:induction false} GatherIsPreOrder(node: PlanNode, tables: set<string>, est: map<string, real>)
    ensures Gather(node, tables, est) == VisitAll(Nodes(node), tables, est)
    decreases node
  {
    GatherAllIsPreOrder(node.children, tables, Visit(node, tables, est));
    VisitAllAppend([node], NodesAll(node.children), tables, est);
    assert [node][..0] == [];
  }

  lemma {:induction false} GatherAllIsPreOrder(nodes: seq<PlanNode>, tables: set<string>, est: map<string, real>)
    ensures GatherAll(nodes, tables, est) == VisitAll(NodesAll(nodes), tables, est)
    decreases nodes
  {
    if |nodes| > 0 {
      GatherIsPreOrder(nodes[0], tables, est);
      GatherAllIsPreOrder(nodes[1..], tables, Gather(nodes[0], tables, est));
      VisitAllAppend(Nodes(nodes[0]), NodesAll(nodes[1..]), tables, est);
    }
  }

  /**
   Starting from no estimates, a table gets one exactly when it is of interest
   and some node names it; its estimate is then the smallest `Plan Rows` among
   those nodes.
   */
  lemma {:induction false} VisitAllIsMinimum(ns: seq<PlanNode>, tables: set<string>, t: string)
    ensures t in VisitAll(ns, tables, map[]) <==> t in tables && exists i :: 0 <= i < |ns| && Names(ns[i], t)
    ensures t in VisitAll(ns, tables, map[]) ==>
              && (exists i :: 0 <= i < |ns| && Names(ns[i], t) && VisitAll(ns, tables, map[])[t] == PlanRows(ns[i]))
              && (forall i :: 0 <= i < |ns| && Names(ns[i], t) ==> VisitAll(ns, tables, map[])[t] <= PlanRows(ns[i]))
  {
    if |ns| > 0 {
      var front := ns[..|ns| - 1];
      var last := ns[|ns| - 1];
      VisitAllIsMinimum(front, tables, t);
      var before := VisitAll(front, tables, map[]);
      var after := VisitAll(ns, tables, map[]);
      assert after == Visit(last, tables, before);
      forall i | 0 <= i < |front|
        ensures ns[i] == front[i]
      {
      }
      if exists i :: 0 <= i < |ns| && Names(ns[i], t) {
        var i :| 0 <= i < |ns| && Names(ns[i], t);
        if i < |ns| - 1 {
          assert Names(front[i], t);
        }
      }
      if t in after {
        if Names(last, t) {
          if t in before && before[t] <= PlanRows(last) {
            var i :| 0 <= i < |front| && Names(front[i], t) && before[t] == PlanRows(front[i]);
            assert Names(ns[i], t);
          } else {
            assert Names(ns[|ns| - 1], t);
          }
        } else {
          assert after[t] == before[t];
          var i :| 0 <= i < |front| && Names(front[i], t) && before[t] == PlanRows(front[i]);
          assert Names(ns[i], t);
        }
      }
    }
  }

  /** Some node of the plan names table `t`. */
  predicate NamedIn(plan: PlanNode, t: string)
  {
    exists i :: 0 <= i < |Nodes(plan)| && Names(Nodes(plan)[i], t)
  }

  /** `min(1, estimated_rows / max(row_count, 1))`. */
  function TableSelectivity(estRows: real, rowCount: int): (s: real)
    ensures s <= 1.0
    ensures s == 1.0 || s * (if rowCount < 1 then 1 else rowCount) as real == estRows
    ensures estRows <= (if rowCount < 1 then 1 else rowCount) as real ==> s * (if rowCount < 1 then 1 else rowCount) as real == estRows
    ensures estRows >= 0.0 ==> s >= 0.0
  {
    var rows := if rowCount < 1 then 1 else rowCount;
    var ratio := estRows / rows as real;
    if 1.0 <= ratio then 1.0 else ratio
  }

  /**
   `get_selectivity_v3`: one selectivity per table of interest. `plan` is the
   plan tree of `EXPLAIN (FORMAT JSON)`, `None` when the statement returned no
   plan; `rowCount` is the catalog's row count. A table no plan node names
   keeps selectivity 1.
   */
  function Selectivity(tables: set<string>, plan: Option<PlanNode>, rowCount: string -> int): (r: map<string, real>)
    ensures r.Keys == tables
    ensures forall t :: t in tables ==> r[t] <= 1.0
    ensures plan.None? ==> forall t :: t in tables ==> r[t] == 1.0
    ensures plan.Some? ==> forall t :: t in tables && !NamedIn(plan.value, t) ==> r[t] == 1.0
  {
    if plan.None? then
      map t | t in tables :: 1.0
    else
      var est := Gather(plan.value, tables, map[]);
      var r := map t | t in tables :: if t in est then TableSelectivity(est[t], rowCount(t)) else 1.0;
      assert forall t :: t in tables && !NamedIn(plan.value, t) ==> r[t] == 1.0 by {
        forall t | t in tables && !NamedIn(plan.value, t)
          ensures r[t] == 1.0
        {
          UnnamedTableUnestimated(plan.value, tables, t);
        }
      }
      r
  }

  /** A table no node names gets no estimate. */
  lemma UnnamedTableUnestimated(plan: PlanNode, tables: set<string>, t: string)
    requires !NamedIn(plan, t)
    ensures t !in Gather(plan, tables, map[])
  {
    GatherIsPreOrder(plan, tables, map[]);
    VisitAllIsMinimum(Nodes(plan), tables, t);
  }

  /**
   A table some plan node names gets the clamped ratio of the smallest planned
   row count among those nodes to its catalog row count.
   */
  lemma NamedTableSelectivity(tables: set<string>, plan: PlanNode, rowCount: string -> int, t: string)
    requires t in tables
    requires NamedIn(plan, t)
    ensures exists i :: && 0 <= i < |Nodes(plan)| && Names(Nodes(plan)[i], t)
                        && (forall j :: 0 <= j < |Nodes(plan)| && Names(Nodes(plan)[j], t) ==> PlanRows(Nodes(plan)[i]) <= PlanRows(Nodes(plan)[j]))
                        && Selectivity(tables, Some(plan), rowCount)[t] == TableSelectivity(PlanRows(Nodes(plan)[i]), rowCount(t))
  {
    GatherIsPreOrder(plan, tables, map[]);
    VisitAllIsMinimum(Nodes(plan), tables, t);
    var est := Gather(plan, tables, map[]);
    var i :| 0 <= i < |Nodes(plan)| && Names(Nodes(plan)[i], t) && est[t] == PlanRows(Nodes(plan)[i]);
    assert Selectivity(tables, Some(plan), rowCount)[t] == TableSelectivity(est[t], rowCount(t));
  }

  /** A plan whose root lacks `Plan` walks an empty node: every table keeps selectivity 1. */
  lemma EmptyPlanSelectsAll(tables: set<string>, rowCount: string -> int)
    ensures var empty := PlanNode(None, None, None, None, None, None, None, None, []);
            forall t :: t in tables ==> Selectivity(tables, Some(empty), rowCount)[t] == 1.0
  {
    var empty := PlanNode(None, None, None, None, None, None, None, None, []);
    assert Nodes(empty) == [empty];
  }

  // ---------------------------------------------------------------------------
  // Index size
  // ---------------------------------------------------------------------------

  /** A column's recorded width in bytes, as `get_columns` sets both sizes. */
  datatype Column = Column(columnSize: Option<int>, maxColumnSize: Option<int>)

  /** The cached catalog entry of a table: its row count and its columns by name. */
  datatype Table = Table(rowCount: int, columns: map<string, Column>)

  /**
   `get_columns`' byte width of a column: the character length when declared,
   else the numeric precision in bits floor-divided by 8, else 8.
   */
  function ColumnLength(charLen: Option<int>, numericPrecision: Option<int>, datetimePrecision: Option<int>): (n: int)
    ensures charLen.Some? ==> n == charLen.value
    ensures charLen.None? && numericPrecision.Some? ==>
              8 * n <= numericPrecision.value < 8 * n + 8
    ensures charLen.None? && numericPrecision.None? ==> n == 8
  {
    // Dafny's division by a positive divisor rounds down like Python's `//`.
    if charLen.Some? then charLen.value
    else if numericPrecision.Some? then numericPrecision.value / 8
    else if datetimePrecision.Some? then 8
    else 8
  }

  /** The column `get_columns` builds from one catalog row. */
  function MakeColumn(length: int): (c: Column)
    ensures c.columnSize == Some(length) && c.maxColumnSize == Some(length)
  {
    Column(Some(length), Some(length))
  }

  /**
   `get_columns`: one column per catalog row `(character length, numeric
   precision, datetime precision)`, both sizes set to its `ColumnLength`.
   */
  function GetColumns(catalog: map<string, (Option<int>, Option<int>, Option<int>)>): (cs: map<string, Column>)
    ensures cs.Keys == catalog.Keys
  {
    map c | c in catalog :: MakeColumn(ColumnLength(catalog[c].0, catalog[c].1, catalog[c].2))
  }

  /** A missing or zero size counts as zero (`column.column_size if column.column_size else 0`). */
  function Bytes(size: Option<int>): int
  {
    GetOr(size, 0)
  }

  predicate HasColumns(table: Table, cols: seq<string>)
  {
    forall i :: 0 <= i < |cols| ==> cols[i] in table.columns
  }

  /** The bytes one column contributes: its size, or its maximum size when `useMax`. */
  function ColumnBytes(table: Table, c: string, useMax: bool): int
    requires c in table.columns
  {
    var col := table.columns[c];
    Bytes(if useMax then col.maxColumnSize else col.columnSize)
  }

  /** The per-column byte counts of a column list, one entry per mention. */
  function Sizes(table: Table, cols: seq<string>, useMax: bool): (sizes: seq<int>)
    requires HasColumns(table, cols)
    ensures |sizes| == |cols|
    ensures forall i :: 0 <= i < |cols| ==> sizes[i] == ColumnBytes(table, cols[i], useMax)
  {
    seq(|cols|, i requires 0 <= i < |cols| && HasColumns(table, cols) => ColumnBytes(table, cols[i], useMax))
  }

  /**
   `get_column_data_length_v2` (`useMax` false) and
   `get_max_column_data_length_v2` (`useMax` true): the sizes of the named
   columns added up, each name as often as it is listed; a name the table
   lacks raises `KeyError`.
   */
  function DataLength(table: Table, cols: seq<string>, useMax: bool): (r: Result<int>)
    ensures r.Err? <==> !HasColumns(table, cols)
    ensures r.Err? ==> r.error == KeyError
    ensures r.Ok? ==> r.value == SumInt(Sizes(table, cols, useMax))
  {
    if |cols| == 0 then Ok(0)
    else
      var front :- DataLength(table, cols[..|cols| - 1], useMax);
      var c := cols[|cols| - 1];
      if c !in table.columns then Err(KeyError)
      else
        assert Sizes(table, cols, useMax)[..|cols| - 1] == Sizes(table, cols[..|cols| - 1], useMax);
        Ok(front + ColumnBytes(table, c, useMax))
  }

  /** A single listed column contributes exactly its own size. */
  lemma DataLengthOfOneColumn(table: Table, c: string, useMax: bool)
    requires c in table.columns
    ensures DataLength(table, [c], useMax) == Ok(ColumnBytes(table, c, useMax))
  {
    assert [c][..0] == [];
  }

  /**
   `get_column_data_length_v2` and its maximum variant over a table whose
   columns `get_columns` built: the sum of the catalog widths of the listed
   columns, one term per mention; both variants agree.
   */
  lemma CatalogWidthsAddUp(catalog: map<string, (Option<int>, Option<int>, Option<int>)>, rowCount: int, cols: seq<string>, useMax: bool)
    requires forall i :: 0 <= i < |cols| ==> cols[i] in catalog
    ensures var table := Table(rowCount, GetColumns(catalog));
            var widths := seq(|cols|, i requires 0 <= i < |cols| =>
                            ColumnLength(catalog[cols[i]].0, catalog[cols[i]].1, catalog[cols[i]].2));
            DataLength(table, cols, useMax) == Ok(SumInt(widths))
  {
    var table := Table(rowCount, GetColumns(catalog));
    var widths := seq(|cols|, i requires 0 <= i < |cols| =>
                    ColumnLength(catalog[cols[i]].0, catalog[cols[i]].1, catalog[cols[i]].2));
    assert HasColumns(table, cols);
    assert Sizes(table, cols, useMax) == widths;
  }

  /** Column lists concatenate to summed lengths. */
  lemma {:induction false} DataLengthAppend(table: Table, xs: seq<string>, ys: seq<string>, useMax: bool)
    requires HasColumns(table, xs) && HasColumns(table, ys)
    ensures HasColumns(table, xs + ys)
    ensures DataLength(table, xs + ys, useMax).value ==
            DataLength(table, xs, useMax).value + DataLength(table, ys, useMax).value
    decreases |ys|
  {
    assert HasColumns(table, xs + ys) by {
      forall i | 0 <= i < |xs + ys|
        ensures (xs + ys)[i] in table.columns
      {
        if i >= |xs| {
          assert (xs + ys)[i] == ys[i - |xs|];
        }
      }
    }
    if |ys| == 0 {
      assert xs + ys == xs;
    } else {
      var ys' := ys[..|ys| - 1];
      assert (xs + ys)[..|xs + ys| - 1] == xs + ys';
      assert (xs + ys)[|xs + ys| - 1] == ys[|ys| - 1];
      DataLengthAppend(table, xs, ys', useMax);
    }
  }

  /** The maximum-length sum counts a column once per mention. */
  lemma RepeatedColumnCountsTwice(table: Table, cols: seq<string>, c: string)
    requires HasColumns(table, cols) && c in table.columns
    ensures DataLength(table, cols + [c], true).Ok?
    ensures DataLength(table, cols + [c], true).value ==
            DataLength(table, cols, true).value + Bytes(table.columns[c].maxColumnSize)
  {
    assert (cols + [c])[..|cols|] == cols;
  }

  /**
   `tuple(set(col_names) - set(primary_key))`: each key column outside the
   primary key, once. The set's iteration order is Python's; the order here is
   that of first mention, which the summed length does not depend on.
   */
  function KeyColumns(cols: seq<string>, pk: seq<string>): (r: seq<string>)
    ensures forall c :: c in r <==> c in cols && c !in pk
    ensures forall i, j :: 0 <= i < j < |r| ==> r[i] != r[j]
  {
    if |cols| == 0 then []
    else
      var front := KeyColumns(cols[..|cols| - 1], pk);
      var c := cols[|cols| - 1];
      assert forall x :: x in cols <==> x in cols[..|cols| - 1] || x == c;
      if c in pk || c in front then front else front + [c]
  }

  /** Mentioning a column again, or a primary-key column, leaves the key columns alone. */
  lemma KeyColumnsIgnoreRepeats(cols: seq<string>, pk: seq<string>, c: string)
    requires c in cols || c in pk
    ensures KeyColumns(cols + [c], pk) == KeyColumns(cols, pk)
  {
    assert (cols + [c])[..|cols|] == cols;
  }

  /** Sentinel size of an index whose maximum row length exceeds the limit. */
  const OversizeSentinel: real := 99999999.0
  /** PostgreSQL's B-tree row limit the estimate checks against. */
  const MaxIndexRowLength: int := 1700
  const HeaderSize: int := 6
  const NullableBuffer: int := 2

  /** The estimate in MiB for `rows` rows of `rowLength` bytes each. */
  function SizeInMiB(rows: int, rowLength: int): real
  {
    (rows * rowLength) as real / (1024 * 1024) as real
  }

  /**
   `get_estimated_size_of_index_v1(tbl_name, col_names)`: `tables` is the
   cached catalog and `pk` the table's primary key. A missing table or column
   raises `KeyError`.
   */
  /** `max(table.table_row_count, 1)`. */
  function Rows(t: Table): int
  {
    if t.rowCount < 1 then 1 else t.rowCount
  }

  /** Header, primary key, the other key columns and the nullable buffer, in bytes. */
  function RowLength(t: Table, pk: seq<string>, cols: seq<string>): int
    requires HasColumns(t, pk) && HasColumns(t, cols)
  {
    KeyColumnsPresent(t, cols, pk);
    HeaderSize + DataLength(t, pk, false).value + DataLength(t, KeyColumns(cols, pk), false).value + NullableBuffer
  }

  function EstimatedIndexSize(tables: map<string, Table>, tbl: string, pk: seq<string>, cols: seq<string>): (r: Result<real>)
    ensures r.Err? <==> tbl !in tables || !HasColumns(tables[tbl], pk) || !HasColumns(tables[tbl], cols)
    ensures r.Err? ==> r.error == KeyError
    ensures r.Ok? && DataLength(tables[tbl], cols, true).value > MaxIndexRowLength ==>
              r.value == OversizeSentinel
    ensures r.Ok? && DataLength(tables[tbl], cols, true).value <= MaxIndexRowLength ==>
              r.value * (1024 * 1024) as real == (Rows(tables[tbl]) * RowLength(tables[tbl], pk, cols)) as real
  {
    if tbl !in tables then Err(KeyError)
    else
      var table := tables[tbl];
      var pkSize :- DataLength(table, pk, false);
      KeyColumnsPresent(table, cols, pk);
      var keyLength :- DataLength(table, KeyColumns(cols, pk), false);
      var rowLength := HeaderSize + pkSize + keyLength + NullableBuffer;
      var size := SizeInMiB(Rows(table), rowLength);
      var maxLength := DataLength(table, cols, true).value;
      if maxLength > MaxIndexRowLength then Ok(OversizeSentinel) else Ok(size)
  }

  /** With the primary key present, the columns are present exactly when the key columns are. */
  lemma KeyColumnsPresent(table: Table, cols: seq<string>, pk: seq<string>)
    requires HasColumns(table, pk)
    ensures HasColumns(table, cols) <==> HasColumns(table, KeyColumns(cols, pk))
  {
    var keys := KeyColumns(cols, pk);
    if HasColumns(table, keys) {
      forall i | 0 <= i < |cols|
        ensures cols[i] in table.columns
      {
        if cols[i] !in pk {
          assert cols[i] in keys;
        } else {
          var j :| 0 <= j < |pk| && pk[j] == cols[i];
        }
      }
    }
    if HasColumns(table, cols) {
      forall i | 0 <= i < |keys|
        ensures keys[i] in table.columns
      {
        assert keys[i] in cols;
      }
    }
  }

  /**
   Below the length limit, the estimate never shrinks as the table grows, when
   column sizes are non-negative.
   */
  lemma SizeGrowsWithRows(tables: map<string, Table>, grown: map<string, Table>, tbl: string, pk: seq<string>, cols: seq<string>)
    requires tbl in tables && tbl in grown
    requires grown[tbl].columns == tables[tbl].columns && grown[tbl].rowCount >= tables[tbl].rowCount
    requires forall c :: c in tables[tbl].columns ==> Bytes(tables[tbl].columns[c].columnSize) >= 0
    requires EstimatedIndexSize(tables, tbl, pk, cols).Ok?
    requires DataLength(tables[tbl], cols, true).value <= MaxIndexRowLength
    ensures EstimatedIndexSize(grown, tbl, pk, cols).Ok?
    ensures EstimatedIndexSize(tables, tbl, pk, cols).value <= EstimatedIndexSize(grown, tbl, pk, cols).value
  {
    var t, t' := tables[tbl], grown[tbl];
    SameColumnsSameLengths(t, t', pk, cols);
    RowLengthNonNegative(t, pk, cols);
    var rowLength := RowLength(t, pk, cols);
    assert Rows(t) <= Rows(t');
    MultiplyMonotone(Rows(t), Rows(t'), rowLength);
  }

  lemma MultiplyMonotone(a: int, b: int, c: int)
    requires a <= b && c >= 0
    ensures a * c <= b * c
  {
  }

  lemma SameColumnsSameLengths(t: Table, t': Table, pk: seq<string>, cols: seq<string>)
    requires t.columns == t'.columns
    ensures HasColumns(t, pk) == HasColumns(t', pk) && HasColumns(t, cols) == HasColumns(t', cols)
    ensures DataLength(t, cols, true) == DataLength(t', cols, true)
    ensures HasColumns(t, pk) && HasColumns(t, cols) ==> RowLength(t, pk, cols) == RowLength(t', pk, cols)
  {
    DataLengthSameColumns(t, t', pk, false);
    DataLengthSameColumns(t, t', KeyColumns(cols, pk), false);
    DataLengthSameColumns(t, t', cols, true);
  }

  lemma RowLengthNonNegative(t: Table, pk: seq<string>, cols: seq<string>)
    requires HasColumns(t, pk) && HasColumns(t, cols)
    requires forall c :: c in t.columns ==> Bytes(t.columns[c].columnSize) >= 0
    ensures RowLength(t, pk, cols) >= HeaderSize + NullableBuffer
  {
    KeyColumnsPresent(t, cols, pk);
    DataLengthNonNegative(t, pk);
    DataLengthNonNegative(t, KeyColumns(cols, pk));
  }

  lemma {:induction false} DataLengthSameColumns(t: Table, t': Table, cols: seq<string>, useMax: bool)
    requires t.columns == t'.columns
    ensures DataLength(t, cols, useMax) == DataLength(t', cols, useMax)
  {
    if |cols| > 0 {
      DataLengthSameColumns(t, t', cols[..|cols| - 1], useMax);
    }
  }

  lemma {:induction false} DataLengthNonNegative(t: Table, cols: seq<string>)
    requires HasColumns(t, cols)
    requires forall c :: c in t.columns ==> Bytes(t.columns[c].columnSize) >= 0
    ensures DataLength(t, cols, false).value >= 0
  {
    if |cols| > 0 {
      DataLengthNonNegative(t, cols[..|cols| - 1]);
    }
  }
}
