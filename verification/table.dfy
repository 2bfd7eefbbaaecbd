/**
 * The table store of `BTreeStorage`: tables hold an ordered column list, rows in
 * insertion order and hash indexes whose buckets list row positions.
 *
 * The store is generic in the index key. Each implementation is an instance:
 *  - Go keys a cell by `makeKey` of the cell, an absent cell keying as nil;
 *  - Rust keys a present cell by the value itself and leaves rows lacking the column
 *    out of the index (`row.get(column)` is `None`);
 *  - Python keys a cell by the value with numeric equality (`1 == 1.0`).
 * A condition matches a row when both derive the same key.
 */
module Tables {
  import opened Base
  import opened Values
  import opened Strings
  import opened Indexes
  import opened Commands

  /** Derives the index key of a cell; `None` keeps the row out of every bucket. */
  type KeyFn<K> = Option<Value> -> Option<K>

  datatype Table<K> = Table(columns: seq<string>, rows: seq<Row>, indexes: map<string, Index<K>>)

  /** How a projected name is resolved against a row: after the last `.` or after the first. */
  datatype NameRule = AfterLastDot | AfterFirstDot

  /** The keys of one column, row by row. */
  function Keys<K>(rows: seq<Row>, col: string, key: KeyFn<K>): (r: seq<Option<K>>)
    ensures |r| == |rows|
    ensures forall i :: 0 <= i < |rows| ==> r[i] == key(Get(rows[i], col))
  {
    seq(|rows|, i requires 0 <= i < |rows| => key(Get(rows[i], col)))
  }

  /** `rebuildIndex` / `rebuild_index` / `_rebuild_index`: the index of one column, built from scratch. */
  function Rebuild<K(==,!new)>(rows: seq<Row>, col: string, key: KeyFn<K>): Index<K> {
    BuildIndex(Keys(rows, col, key))
  }

  /** Rebuilds every index named in `cols`. */
  function RebuildAll<K(==,!new)>(rows: seq<Row>, cols: set<string>, key: KeyFn<K>): (r: map<string, Index<K>>)
    ensures r.Keys == cols
  {
    map c | c in cols :: Rebuild(rows, c, key)
  }

  /** The store's central invariant: every index equals a full rebuild from the current rows. */
  ghost predicate Consistent<K(!new)>(t: Table<K>, key: KeyFn<K>) {
    forall c :: c in t.indexes ==> t.indexes[c] == BuildIndex(Keys(t.rows, c, key))
  }

  /** A row satisfies `column = value` when the cell and the value derive the same key. */
  predicate Matches<K(==,!new)>(row: Row, cond: Condition, key: KeyFn<K>) {
    key(Some(cond.value)).Some? && key(Get(row, cond.column)) == key(Some(cond.value))
  }

  /** Reference linear scan: the rows matching `cond`, in table order. */
  function Matching<K(==,!new)>(rows: seq<Row>, cond: Condition, key: KeyFn<K>): (r: seq<Row>)
    ensures |r| <= |rows|
    ensures forall i :: 0 <= i < |r| ==> Matches(r[i], cond, key)
    decreases |rows|
  {
    if rows == [] then []
    else
      var n := |rows| - 1;
      Matching(rows[..n], cond, key) + (if Matches(rows[n], cond, key) then [rows[n]] else [])
  }

  /** Reference linear scan: the rows not matching `cond`, in table order. */
  function NotMatching<K(==,!new)>(rows: seq<Row>, cond: Condition, key: KeyFn<K>): (r: seq<Row>)
    ensures |r| <= |rows|
    ensures forall i :: 0 <= i < |r| ==> !Matches(r[i], cond, key)
    decreases |rows|
  {
    if rows == [] then []
    else
      var n := |rows| - 1;
      NotMatching(rows[..n], cond, key) + (if Matches(rows[n], cond, key) then [] else [rows[n]])
  }

  /** The rows a WHERE clause selects: every row without one. */
  function Selected<K(==,!new)>(rows: seq<Row>, where: Option<Condition>, key: KeyFn<K>): seq<Row> {
    match where
    case None => rows
    case Some(c) => Matching(rows, c, key)
  }

  /** Every row is either selected or kept, so the two counts add up to the table size. */
  lemma {:induction false} MatchingPartition<K(!new)>(rows: seq<Row>, cond: Condition, key: KeyFn<K>)
    ensures |Matching(rows, cond, key)| + |NotMatching(rows, cond, key)| == |rows|
    decreases |rows|
  {
    if rows != [] {
      MatchingPartition(rows[..|rows| - 1], cond, key);
    }
  }

  /** Rows none of which match select nothing: what a delete leaves behind for its own condition. */
  lemma {:induction false} NoneMatching<K(!new)>(rows: seq<Row>, cond: Condition, key: KeyFn<K>)
    requires forall i :: 0 <= i < |rows| ==> !Matches(rows[i], cond, key)
    ensures Matching(rows, cond, key) == []
    decreases |rows|
  {
    if rows != [] {
      NoneMatching(rows[..|rows| - 1], cond, key);
    }
  }

  /** The rows at the given positions, in the order the positions are listed. */
  function Pick(rows: seq<Row>, ps: seq<nat>): (r: seq<Row>)
    requires forall i :: 0 <= i < |ps| ==> ps[i] < |rows|
    ensures |r| == |ps|
    ensures forall i :: 0 <= i < |ps| ==> r[i] == rows[ps[i]]
  {
    seq(|ps|, i requires 0 <= i < |ps| => rows[ps[i]])
  }

  /** The positions 0 .. n-1. */
  function Range(n: nat): (r: seq<nat>)
    ensures |r| == n && forall i :: 0 <= i < n ==> r[i] == i
    ensures forall i: nat :: i < n ==> i in r
  {
    var r: seq<nat> := seq(n, i requires 0 <= i < n => i);
    assert forall i: nat :: i < n ==> i in r by {
      forall i: nat | i < n ensures i in r { assert r[i] == i; }
    }
    r
  }

  /** Positions of matching rows, by scanning the column's keys. */
  function ScanPositions<K(==,!new)>(rows: seq<Row>, cond: Condition, key: KeyFn<K>): (r: seq<nat>)
    ensures forall i :: 0 <= i < |r| ==> r[i] < |rows|
    ensures forall i :: 0 <= i < |rows| ==> (i in r <==> Matches(rows[i], cond, key))
    ensures Ascending(r)
  {
    match key(Some(cond.value))
    case None => []
    case Some(k) => Scan(Keys(rows, cond.column, key), k)
  }

  /** Picking the scanned positions yields exactly the reference scan. */
  lemma PickScanIsMatching<K(!new)>(rows: seq<Row>, cond: Condition, key: KeyFn<K>)
    ensures Pick(rows, ScanPositions(rows, cond, key)) == Matching(rows, cond, key)
  {
    match key(Some(cond.value))
    case None =>
      NoneMatching(rows, cond, key);
    case Some(k) =>
      PickScan(rows, cond.column, key, k);
      MatchingIsWithKey(rows, cond, key, k);
  }

  /** With a key for the value, matching the condition is having that key in its column. */
  lemma {:induction false} MatchingIsWithKey<K(!new)>(rows: seq<Row>, cond: Condition, key: KeyFn<K>, k: K)
    requires key(Some(cond.value)) == Some(k)
    ensures Matching(rows, cond, key) == WithKey(rows, cond.column, key, k)
    decreases |rows|
  {
    if rows != [] {
      MatchingIsWithKey(rows[..|rows| - 1], cond, key, k);
    }
  }

  /** Picking a concatenation of positions concatenates the picks. */
  lemma PickConcat(rows: seq<Row>, a: seq<nat>, b: seq<nat>)
    requires forall i :: 0 <= i < |a| ==> a[i] < |rows|
    requires forall i :: 0 <= i < |b| ==> b[i] < |rows|
    ensures Pick(rows, a + b) == Pick(rows, a) + Pick(rows, b)
  {
  }

  /** Positions below `n` pick the same rows from the first `n` rows. */
  lemma PickPrefix(rows: seq<Row>, n: nat, ps: seq<nat>)
    requires n <= |rows| && forall i :: 0 <= i < |ps| ==> ps[i] < n
    ensures Pick(rows, ps) == Pick(rows[..n], ps)
  {
  }

  /** Picking the positions a scan finds for key `k` gives the rows with that key. */
  lemma {:induction false} PickScan<K(!new)>(rows: seq<Row>, col: string, key: KeyFn<K>, k: K)
    ensures Pick(rows, Scan(Keys(rows, col, key), k)) == WithKey(rows, col, key, k)
    decreases |rows|
  {
    if rows != [] {
      var n := |rows| - 1;
      var keys := Keys(rows, col, key);
      PickScan(rows[..n], col, key, k);
      KeysPrefix(rows, col, key, n);
      var front := Scan(Keys(rows[..n], col, key), k);
      var tail: seq<nat> := if keys[n] == Some(k) then [n] else [];
      assert Scan(keys, k) == front + tail;
      PickConcat(rows, front, tail);
      PickPrefix(rows, n, front);
    }
  }

  /**
   * `rowsFor` / `rows_for` / `_rows_for`: every position without a condition; the
   * bucket of the condition's key when the column is indexed (empty when the key is
   * absent); otherwise a linear scan. On a consistent table the bucket is the scan.
   */
  function RowsFor<K(==,!new)>(t: Table<K>, where: Option<Condition>, key: KeyFn<K>): (r: seq<nat>)
    ensures where.None? ==> r == Range(|t.rows|)
    ensures where.Some? && Consistent(t, key) ==> r == ScanPositions(t.rows, where.value, key)
  {
    match where
    case None => Range(|t.rows|)
    case Some(c) =>
      if c.column in t.indexes then
        match key(Some(c.value))
        case None => []
        case Some(k) =>
          BucketIsScan(Keys(t.rows, c.column, key), k);
          Lookup(t.indexes[c.column], k)
      else ScanPositions(t.rows, c, key)
  }

  /** On a consistent table the rows `RowsFor` designates are exactly the reference selection. */
  lemma RowsForSelects<K(!new)>(t: Table<K>, where: Option<Condition>, key: KeyFn<K>)
    requires Consistent(t, key)
    ensures forall i :: 0 <= i < |RowsFor(t, where, key)| ==> RowsFor(t, where, key)[i] < |t.rows|
    ensures Pick(t.rows, RowsFor(t, where, key)) == Selected(t.rows, where, key)
  {
    if where.Some? {
      PickScanIsMatching(t.rows, where.value, key);
    }
  }

  /** Go `splitLast` then the last part, Python `col.split(".", 1)[-1]`: the column name a projected name reads. */
  function LookupName(col: string, rule: NameRule): (r: string)
    ensures '.' !in col ==> r == col
    ensures rule.AfterLastDot? ==> '.' !in r
    ensures '.' in col ==> |r| < |col| && r == col[|col| - |r|..]
  {
    match (if rule.AfterLastDot? then LastIndexOfChar(col, '.') else IndexOfChar(col, '.'))
    case None => col
    case Some(i) => col[i + 1..]
  }

  /** A name with at most one `.` resolves the same way under both rules. */
  lemma LookupNameRulesAgree(col: string)
    requires forall i, j :: 0 <= i < j < |col| && col[i] == '.' ==> col[j] != '.'
    ensures LookupName(col, AfterLastDot) == LookupName(col, AfterFirstDot)
  {
    if '.' in col {
      var a := LastIndexOfChar(col, '.').value;
      var b := IndexOfChar(col, '.').value;
    }
  }

  /** `a.b.c` reads `c` in Go and Rust but `b.c` in Python. */
  lemma LookupNameRulesDiverge()
    ensures LookupName("a.b.c", AfterLastDot) == "c"
    ensures LookupName("a.b.c", AfterFirstDot) == "b.c"
  {
    assert "a.b.c"[3] == '.';
    assert '.' !in "a.b.c"[4..];
    assert "a.b.c"[4..] == "c";
    assert '.' !in "a.b.c"[..1];
    assert "a.b.c"[2..] == "b.c";
  }

  /** The projection of one row: each requested name maps to its looked-up cell, nil when absent. */
  function Project(row: Row, columns: seq<string>, rule: NameRule): (r: Row)
    ensures r.Keys == set c | c in columns
    ensures forall c :: c in columns ==> r[c] == Cell(row, LookupName(c, rule))
  {
    map c | c in columns :: Cell(row, LookupName(c, rule))
  }

  predicate IsStar(columns: seq<string>) { columns == ["*"] }

  /** The rows of a single-table SELECT: copies for `*`, projections otherwise. */
  function Shape(rows: seq<Row>, columns: seq<string>, rule: NameRule): (r: seq<Row>)
    ensures |r| == |rows|
    ensures forall i :: 0 <= i < |rows| ==> r[i] == (if IsStar(columns) then rows[i] else Project(rows[i], columns, rule))
  {
    if IsStar(columns) then rows else seq(|rows|, i requires 0 <= i < |rows| => Project(rows[i], columns, rule))
  }

  /**
   * `SelectRows` without a join: the selected rows, shaped. The index path and the
   * scan path give the same answer, the reference linear selection.
   */
  function SelectRows<K(==,!new)>(t: Table<K>, columns: seq<string>, where: Option<Condition>, key: KeyFn<K>, rule: NameRule): (r: seq<Row>)
    requires Consistent(t, key)
    ensures r == Shape(Selected(t.rows, where, key), columns, rule)
  {
    RowsForSelects(t, where, key);
    Shape(Pick(t.rows, RowsFor(t, where, key)), columns, rule)
  }

  /** Keys of the rows up to a prefix are the keys of that prefix. */
  lemma KeysPrefix<K(!new)>(rows: seq<Row>, col: string, key: KeyFn<K>, n: nat)
    requires n <= |rows|
    ensures Keys(rows, col, key)[..n] == Keys(rows[..n], col, key)
  {
  }

  /**
   * `InsertRow` / `insert_row`: the values fill the columns position by position;
   * extra values are dropped and trailing columns stay absent. A repeated column name
   * takes the later value.
   */
  function BuildRow(columns: seq<string>, values: seq<Value>): (r: Row)
    ensures forall c :: c in r <==> c in columns[..Min(|columns|, |values|)]
    ensures forall i :: 0 <= i < Min(|columns|, |values|) && LastOccurrence(columns[..Min(|columns|, |values|)], i) ==> r[columns[i]] == values[i]
  {
    var n := Min(|columns|, |values|);
    Fill(columns[..n], values[..n])
  }

  /** No later position repeats the name at position `i`. */
  predicate LastOccurrence(cols: seq<string>, i: nat)
    requires i < |cols|
  {
    forall j :: i < j < |cols| ==> cols[j] != cols[i]
  }

  /** Every name is written, and each position that names its column for the last time holds its value. */
  ghost predicate Filled(cols: seq<string>, vals: seq<Value>, r: Row)
    requires |cols| == |vals|
  {
    (forall c :: c in r <==> c in cols)
    && (forall i :: 0 <= i < |cols| && LastOccurrence(cols, i) ==> r[cols[i]] == vals[i])
  }

  /** The facts about the shorter prefix carry over once the last pair is written. */
  lemma FillStep(cols: seq<string>, vals: seq<Value>, front: Row)
    requires |cols| == |vals| && cols != []
    requires Filled(cols[..|cols| - 1], vals[..|cols| - 1], front)
    ensures Filled(cols, vals, front[cols[|cols| - 1] := vals[|cols| - 1]])
  {
    var m := |cols| - 1;
    var r := front[cols[m] := vals[m]];
    FillStepNames(cols, front, vals[m]);
    forall i | 0 <= i < |cols| && LastOccurrence(cols, i) ensures r[cols[i]] == vals[i] {
      if i < m {
        FillStepEarlier(cols, vals, front, i);
        assert cols[i] != cols[m];
      }
    }
  }

  lemma FillStepNames(cols: seq<string>, front: Row, v: Value)
    requires cols != [] && forall c :: c in front <==> c in cols[..|cols| - 1]
    ensures forall c :: c in front[cols[|cols| - 1] := v] <==> c in cols
  {
    var m := |cols| - 1;
    forall x | x in cols && x != cols[m] ensures x in cols[..m] {
      var i :| 0 <= i < |cols| && cols[i] == x;
      assert cols[..m][i] == x;
    }
  }

  lemma FillStepEarlier(cols: seq<string>, vals: seq<Value>, front: Row, i: nat)
    requires |cols| == |vals| && i < |cols| - 1 && LastOccurrence(cols, i)
    requires Filled(cols[..|cols| - 1], vals[..|cols| - 1], front)
    ensures front[cols[i]] == vals[i]
  {
    var m := |cols| - 1;
    LastOccurrenceInPrefix(cols, m, i);
    assert front[cols[..m][i]] == vals[..m][i];
  }

  lemma LastOccurrenceInPrefix(cols: seq<string>, m: nat, i: nat)
    requires i < m <= |cols| && LastOccurrence(cols, i)
    ensures LastOccurrence(cols[..m], i) && cols[..m][i] == cols[i]
  {
    forall j | i < j < m ensures cols[..m][j] != cols[..m][i] {
      assert cols[..m][j] == cols[j];
    }
  }

  /** Writes `vals[i]` under `cols[i]` for each position in turn. */
  function Fill(cols: seq<string>, vals: seq<Value>): (r: Row)
    requires |cols| == |vals|
    ensures Filled(cols, vals, r)
    decreases |cols|
  {
    if cols == [] then map[]
    else
      var m := |cols| - 1;
      var front := Fill(cols[..m], vals[..m]);
      FillStep(cols, vals, front);
      front[cols[m] := vals[m]]
  }

  /** With as many values as columns and distinct names, every column gets its own value. */
  lemma BuildRowFull(columns: seq<string>, values: seq<Value>)
    requires |columns| == |values|
    requires forall i, j :: 0 <= i < j < |columns| ==> columns[i] != columns[j]
    ensures forall i :: 0 <= i < |columns| ==> Get(BuildRow(columns, values), columns[i]) == Some(values[i])
  {
    var r := BuildRow(columns, values);
    assert columns[..Min(|columns|, |values|)] == columns;
    forall i | 0 <= i < |columns| ensures Get(r, columns[i]) == Some(values[i]) {
      assert LastOccurrence(columns, i);
    }
  }

  /**
   * Appends the built row and pushes its position into the matching bucket of every
   * index (Rust only into those of columns the row has).
   */
  function InsertRow<K(==,!new)>(t: Table<K>, values: seq<Value>, key: KeyFn<K>): (r: (Table<K>, Row))
    ensures r.1 == BuildRow(t.columns, values)
    ensures r.0.columns == t.columns && r.0.indexes.Keys == t.indexes.Keys
    ensures r.0.rows == t.rows + [r.1]
  {
    var row := BuildRow(t.columns, values);
    var ixs := map c | c in t.indexes :: AddToBucket(t.indexes[c], key(Get(row, c)), |t.rows|);
    (Table(t.columns, t.rows + [row], ixs), row)
  }

  /** The incremental append on insert keeps every index equal to a full rebuild. */
  lemma InsertKeepsConsistent<K(!new)>(t: Table<K>, values: seq<Value>, key: KeyFn<K>)
    requires Consistent(t, key)
    ensures Consistent(InsertRow(t, values, key).0, key)
  {
    var r := InsertRow(t, values, key).0;
    var row := BuildRow(t.columns, values);
    forall c | c in r.indexes ensures r.indexes[c] == BuildIndex(Keys(r.rows, c, key)) {
      assert Keys(r.rows, c, key) == Keys(t.rows, c, key) + [key(Get(row, c))];
      BuildIndexAppend(Keys(t.rows, c, key), key(Get(row, c)));
    }
  }

  /**
   * `AddColumn` / `add_column`: a known column changes nothing; a new one is appended,
   * set to null on every row, and every index is rebuilt.
   */
  function AddColumn<K(==,!new)>(t: Table<K>, column: string, key: KeyFn<K>): (r: Table<K>)
    ensures column in t.columns ==> r == t
    ensures column !in t.columns ==> r.columns == t.columns + [column] && |r.rows| == |t.rows|
    ensures column !in t.columns ==> forall i :: 0 <= i < |t.rows| ==> r.rows[i] == t.rows[i][column := Null]
    ensures r.indexes.Keys == t.indexes.Keys
    ensures column in r.columns
  {
    if column in t.columns then t
    else
      var rows := seq(|t.rows|, i requires 0 <= i < |t.rows| => t.rows[i][column := Null]);
      Table(t.columns + [column], rows, RebuildAll(rows, t.indexes.Keys, key))
  }

  /** Adding a column keeps the store consistent, and adding it twice is the same as once. */
  lemma AddColumnConsistentIdempotent<K(!new)>(t: Table<K>, column: string, key: KeyFn<K>)
    requires Consistent(t, key)
    ensures Consistent(AddColumn(t, column, key), key)
    ensures AddColumn(AddColumn(t, column, key), column, key) == AddColumn(t, column, key)
  {
  }

  /** `CreateIndex` / `create_index`: builds the index only when the column has none. */
  function CreateIndex<K(==,!new)>(t: Table<K>, column: string, key: KeyFn<K>): (r: Table<K>)
    ensures column in t.indexes ==> r == t
    ensures r.columns == t.columns && r.rows == t.rows
    ensures r.indexes.Keys == t.indexes.Keys + {column}
    ensures Consistent(t, key) ==> Consistent(r, key)
  {
    if column in t.indexes then t else t.(indexes := t.indexes[column := Rebuild(t.rows, column, key)])
  }

  /** `DropIndex` / `drop_index`: removes that index only; rows and other indexes stay. */
  function DropIndex<K>(t: Table<K>, column: string): (r: Table<K>)
    ensures r.columns == t.columns && r.rows == t.rows
    ensures r.indexes.Keys == t.indexes.Keys - {column}
    ensures forall c :: c in r.indexes ==> r.indexes[c] == t.indexes[c]
  {
    t.(indexes := t.indexes - {column})
  }

  /** Dropping an index keeps consistency; rebuilding it afterwards restores the table. */
  lemma DropThenCreateIndex<K(!new)>(t: Table<K>, column: string, key: KeyFn<K>)
    requires Consistent(t, key)
    ensures Consistent(DropIndex(t, column), key)
    ensures column in t.indexes ==> CreateIndex(DropIndex(t, column), column, key) == t
  {
    if column in t.indexes {
      assert CreateIndex(DropIndex(t, column), column, key).indexes == t.indexes;
    }
  }

  /** An update leaves unassigned cells as they are, so their index keys do not change. */
  lemma KeysUnchangedOutsideAssignments<K(!new)>(old_: seq<Row>, new_: seq<Row>, assignments: map<string, Value>, c: string, key: KeyFn<K>)
    requires |old_| == |new_| && c !in assignments
    requires forall i :: 0 <= i < |old_| ==> new_[i] == old_[i] || new_[i] == old_[i] + assignments
    ensures Keys(new_, c, key) == Keys(old_, c, key)
  {
    forall i | 0 <= i < |old_| ensures Get(new_[i], c) == Get(old_[i], c) {
    }
  }

  /**
   * `UpdateRows` (Go, Python): applies the assignments to the selected rows, rebuilds
   * only the indexes of assigned columns and returns how many rows were selected.
   */
  function UpdateRows<K(==,!new)>(t: Table<K>, assignments: map<string, Value>, where: Option<Condition>, key: KeyFn<K>): (r: (Table<K>, nat))
    requires Consistent(t, key)
    ensures Consistent(r.0, key)
    ensures r.1 == |Selected(t.rows, where, key)|
    ensures r.0.columns == t.columns && r.0.indexes.Keys == t.indexes.Keys && |r.0.rows| == |t.rows|
    ensures forall i :: 0 <= i < |t.rows| ==> r.0.rows[i] == (if where.None? || Matches(t.rows[i], where.value, key) then t.rows[i] + assignments else t.rows[i])
  {
    RowsForSelects(t, where, key);
    var ps := RowsFor(t, where, key);
    var rows := ApplyAt(t.rows, ps, assignments);
    RefreshKeepsConsistent(t, rows, assignments, key);
    (Table(t.columns, rows, Refresh(t.indexes, rows, assignments, key)), |ps|)
  }

  /** The rows with `assignments` applied at the listed positions only. */
  function ApplyAt(rows: seq<Row>, ps: seq<nat>, assignments: map<string, Value>): (r: seq<Row>)
    ensures |r| == |rows|
    ensures forall i :: 0 <= i < |rows| ==> r[i] == (if i in ps then rows[i] + assignments else rows[i])
  {
    seq(|rows|, i requires 0 <= i < |rows| => if i in ps then rows[i] + assignments else rows[i])
  }

  /** Rebuilds the indexes of assigned columns against `rows`, keeping the others. */
  function Refresh<K(==,!new)>(ixs: map<string, Index<K>>, rows: seq<Row>, assignments: map<string, Value>, key: KeyFn<K>): (r: map<string, Index<K>>)
    ensures r.Keys == ixs.Keys
  {
    map c | c in ixs :: if c in assignments then Rebuild(rows, c, key) else ixs[c]
  }

  /** Rebuilding only the assigned columns is enough: the other columns' keys did not move. */
  lemma RefreshKeepsConsistent<K(!new)>(t: Table<K>, rows: seq<Row>, assignments: map<string, Value>, key: KeyFn<K>)
    requires Consistent(t, key)
    requires |rows| == |t.rows|
    requires forall i :: 0 <= i < |rows| ==> rows[i] == t.rows[i] || rows[i] == t.rows[i] + assignments
    ensures Consistent(Table(t.columns, rows, Refresh(t.indexes, rows, assignments, key)), key)
  {
    forall c | c in t.indexes && c !in assignments ensures t.indexes[c] == Rebuild(rows, c, key) {
      KeysUnchangedOutsideAssignments(t.rows, rows, assignments, c, key);
    }
  }

  /**
   * `DeleteRows` / `delete_rows`: without a condition every row goes; with one the
   * non-matching rows are kept in order. Every index is rebuilt and the number of
   * removed rows is returned.
   */
  function DeleteRows<K(==,!new)>(t: Table<K>, where: Option<Condition>, key: KeyFn<K>): (r: (Table<K>, nat))
    ensures Consistent(r.0, key)
    ensures r.0.columns == t.columns && r.0.indexes.Keys == t.indexes.Keys
    ensures where.None? ==> r.0.rows == [] && r.1 == |t.rows|
    ensures where.Some? ==> r.0.rows == NotMatching(t.rows, where.value, key)
    ensures r.1 + |r.0.rows| == |t.rows|
    ensures r.1 == |Selected(t.rows, where, key)|
  {
    match where
    case None => (Table(t.columns, [], RebuildAll([], t.indexes.Keys, key)), |t.rows|)
    case Some(c) =>
      MatchingPartition(t.rows, c, key);
      var kept := NotMatching(t.rows, c, key);
      (Table(t.columns, kept, RebuildAll(kept, t.indexes.Keys, key)), |t.rows| - |kept|)
  }

  /** The qualified name `prefix.col`. */
  function Qualify(prefix: string, col: string): (q: string)
    ensures |q| == |prefix| + 1 + |col| && q[|prefix|] == '.'
    ensures q[..|prefix|] == prefix && q[|prefix| + 1..] == col
  {
    prefix + "." + col
  }

  /** The cells of `row` under their qualified names, one per listed column. */
  function Prefixed(prefix: string, cols: seq<string>, row: Row): (r: Row)
    ensures PrefixedRow(prefix, cols, row, r)
    decreases |cols|
  {
    if cols == [] then map[]
    else
      var n := |cols| - 1;
      var front := Prefixed(prefix, cols[..n], row);
      PrefixedStep(prefix, cols, row, front);
      front[Qualify(prefix, cols[n]) := Cell(row, cols[n])]
  }

  /**
   * `r` holds each listed column's cell under its qualified name, and nothing but
   * qualified names of listed columns.
   */
  predicate PrefixedRow(prefix: string, cols: seq<string>, row: Row, r: Row) {
    (forall c :: c in cols ==> Qualify(prefix, c) in r && r[Qualify(prefix, c)] == Cell(row, c))
    && (forall q :: q in r ==> |q| > |prefix| && q[..|prefix|] == prefix && q[|prefix| + 1..] in cols)
  }

  lemma PrefixedStep(prefix: string, cols: seq<string>, row: Row, front: Row)
    requires cols != [] && PrefixedRow(prefix, cols[..|cols| - 1], row, front)
    ensures PrefixedRow(prefix, cols, row, front[Qualify(prefix, cols[|cols| - 1]) := Cell(row, cols[|cols| - 1])])
  {
    var n := |cols| - 1;
    assert forall c :: c in cols[..n] ==> c in cols;
    forall c | c in cols && c != cols[n] ensures c in cols[..n] {
      var i :| 0 <= i < |cols| && cols[i] == c;
      assert cols[..n][i] == c;
    }
  }

  /** One joined output row: the combined qualified row, or the requested projection of it. */
  function JoinOutput(j: Join, leftCols: seq<string>, left: Row, rightCols: seq<string>, right: Row, columns: seq<string>): (r: Row)
    ensures IsStar(columns) ==> r == Prefixed(j.leftTable, leftCols, left) + Prefixed(j.rightTable, rightCols, right)
    ensures !IsStar(columns) ==> r.Keys == set c | c in columns
    ensures !IsStar(columns) ==> forall c :: c in columns && '.' !in c && c in leftCols ==> r[c] == Cell(left, c)
    ensures !IsStar(columns) ==> forall c :: c in columns && '.' !in c && c !in leftCols && c in rightCols ==> r[c] == Cell(right, c)
    ensures !IsStar(columns) ==> forall c :: c in columns && '.' !in c && c !in leftCols && c !in rightCols ==> r[c] == Null
  {
    var combined := Prefixed(j.leftTable, leftCols, left) + Prefixed(j.rightTable, rightCols, right);
    if IsStar(columns) then combined
    else
      map c | c in columns ::
        if '.' in c then Cell(combined, c)
        else if c in leftCols then Cell(left, c)
        else if c in rightCols then Cell(right, c)
        else Null
  }

  /** The rows of `rows` whose column derives key `k`, in table order. */
  function WithKey<K(==,!new)>(rows: seq<Row>, col: string, key: KeyFn<K>, k: K): (r: seq<Row>)
    ensures forall i :: 0 <= i < |r| ==> key(Get(r[i], col)) == Some(k)
    decreases |rows|
  {
    if rows == [] then []
    else
      var n := |rows| - 1;
      WithKey(rows[..n], col, key, k) + (if key(Get(rows[n], col)) == Some(k) then [rows[n]] else [])
  }

  /** The output rows for one left row: one per right row with the same join key, in right-table order. */
  function PairsFor<K(==,!new)>(left: Row, rights: seq<Row>, j: Join, leftCols: seq<string>, rightCols: seq<string>, columns: seq<string>, key: KeyFn<K>): seq<Row> {
    match key(Get(left, j.leftColumn))
    case None => []
    case Some(k) =>
      var ms := WithKey(rights, j.rightColumn, key, k);
      seq(|ms|, i requires 0 <= i < |ms| => JoinOutput(j, leftCols, left, rightCols, ms[i], columns))
  }

  /** Reference join: a nested loop, left rows outside, right rows inside, both in order. */
  function NestedLoopJoin<K(==,!new)>(lefts: seq<Row>, rights: seq<Row>, j: Join, leftCols: seq<string>, rightCols: seq<string>, columns: seq<string>, key: KeyFn<K>): (r: seq<Row>)
    ensures lefts == [] ==> r == []
    decreases |lefts|
  {
    if lefts == [] then []
    else
      var n := |lefts| - 1;
      NestedLoopJoin(lefts[..n], rights, j, leftCols, rightCols, columns, key)
        + PairsFor(lefts[n], rights, j, leftCols, rightCols, columns, key)
  }

  /** Picking a bucket of a rebuilt index gives the rows with that key. */
  lemma PickBucketIsWithKey<K(!new)>(rows: seq<Row>, col: string, key: KeyFn<K>, k: K)
    ensures forall i :: 0 <= i < |Lookup(Rebuild(rows, col, key), k)| ==> Lookup(Rebuild(rows, col, key), k)[i] < |rows|
    ensures Pick(rows, Lookup(Rebuild(rows, col, key), k)) == WithKey(rows, col, key, k)
  {
    BucketIsScan(Keys(rows, col, key), k);
    PickScan(rows, col, key, k);
  }

  /** Output rows for one left row, reading the matching right rows out of an index bucket. */
  function BucketPairs<K(==,!new)>(left: Row, right: Table<K>, j: Join, leftCols: seq<string>, columns: seq<string>, key: KeyFn<K>): (r: seq<Row>)
    requires j.rightColumn in right.indexes && Consistent(right, key)
    ensures r == PairsFor(left, right.rows, j, leftCols, right.columns, columns, key)
  {
    match key(Get(left, j.leftColumn))
    case None => []
    case Some(k) =>
      PickBucketIsWithKey(right.rows, j.rightColumn, key, k);
      var ms := Pick(right.rows, Lookup(right.indexes[j.rightColumn], k));
      seq(|ms|, i requires 0 <= i < |ms| => JoinOutput(j, leftCols, left, right.columns, ms[i], columns))
  }

  /** The index-driven join loop: each left row in order, then its bucket in order. */
  function BucketJoin<K(==,!new)>(lefts: seq<Row>, right: Table<K>, j: Join, leftCols: seq<string>, columns: seq<string>, key: KeyFn<K>): (r: seq<Row>)
    requires j.rightColumn in right.indexes && Consistent(right, key)
    ensures r == NestedLoopJoin(lefts, right.rows, j, leftCols, right.columns, columns, key)
    decreases |lefts|
  {
    if lefts == [] then []
    else
      var n := |lefts| - 1;
      BucketJoin(lefts[..n], right, j, leftCols, columns, key) + BucketPairs(lefts[n], right, j, leftCols, columns, key)
  }

  /**
   * `joinRows` / `_join_rows` (Go, Python): builds the right table's index on the join
   * column when it is missing (a lasting change to the store), then pairs each selected
   * left row with its bucket. The result equals the nested-loop reference.
   */
  function JoinRows<K(==,!new)>(s: map<string, Table<K>>, table: string, columns: seq<string>, where: Option<Condition>, j: Join, key: KeyFn<K>): (r: (map<string, Table<K>>, seq<Row>))
    requires table in s && j.table in s
    requires Consistent(s[table], key) && Consistent(s[j.table], key)
    ensures r.0 == s[j.table := CreateIndex(s[j.table], j.rightColumn, key)]
    ensures r.1 == NestedLoopJoin(Selected(s[table].rows, where, key), s[j.table].rows, j, s[table].columns, s[j.table].columns, columns, key)
  {
    var left := s[table];
    RowsForSelects(left, where, key);
    var lefts := Pick(left.rows, RowsFor(left, where, key));
    var right := CreateIndex(s[j.table], j.rightColumn, key);
    var s' := s[j.table := right];
    (s', BucketJoin(lefts, right, j, s'[table].columns, columns, key))
  }

  /** A join changes no rows and keeps every table consistent. */
  lemma JoinKeepsConsistent<K(!new)>(s: map<string, Table<K>>, table: string, columns: seq<string>, where: Option<Condition>, j: Join, key: KeyFn<K>)
    requires table in s && j.table in s
    requires forall n :: n in s ==> Consistent(s[n], key)
    ensures var s' := JoinRows(s, table, columns, where, j, key).0;
      s'.Keys == s.Keys && (forall n :: n in s' ==> Consistent(s'[n], key) && s'[n].rows == s[n].rows && s'[n].columns == s[n].columns)
  {
  }

  /** `Describe` / `describe` per table: its columns, its row count and the names of its indexes. */
  datatype Summary = Summary(columns: seq<string>, rowCount: nat, indexes: set<string>)

  function Describe<K>(s: map<string, Table<K>>): (r: map<string, Summary>)
    ensures r.Keys == s.Keys
    ensures forall n :: n in s ==> r[n].rowCount == |s[n].rows| && r[n].indexes == s[n].indexes.Keys && r[n].columns == s[n].columns
  {
    map n | n in s :: Summary(s[n].columns, |s[n].rows|, s[n].indexes.Keys)
  }

  /**
   * The summary follows the table operations: an insert raises the row count by one,
   * a new column is appended to the column list, and CREATE INDEX and DROP INDEX add
   * and remove exactly that index name.
   */
  lemma DescribeFollowsOperations<K(!new)>(s: map<string, Table<K>>, t: string, values: seq<Value>, c: string, key: KeyFn<K>)
    requires t in s
    ensures var d := Describe(s)[t];
      Describe(s[t := InsertRow(s[t], values, key).0])[t] == d.(rowCount := d.rowCount + 1)
      && (c !in s[t].columns ==> Describe(s[t := AddColumn(s[t], c, key)])[t] == d.(columns := d.columns + [c]))
      && Describe(s[t := CreateIndex(s[t], c, key)])[t] == d.(indexes := d.indexes + {c})
      && Describe(s[t := DropIndex(s[t], c)])[t] == d.(indexes := d.indexes - {c})
  {
  }

  /** A dropped table leaves the summary and every other table reads as before. */
  lemma DescribeAfterDrop<K>(s: map<string, Table<K>>, t: string)
    ensures Describe(s - {t}) == Describe(s) - {t}
  {
    var r := Describe(s - {t});
    assert r.Keys == Describe(s).Keys - {t};
    forall n | n in r
      ensures r[n] == (Describe(s) - {t})[n]
    {
    }
  }

  /** Only the changed table's summary moves: every other table reads as before. */
  lemma DescribeKeepsOthers<K>(s: map<string, Table<K>>, t: string, u: Table<K>)
    ensures forall n :: n in s && n != t ==> Describe(s[t := u])[n] == Describe(s)[n]
    ensures Describe(s[t := u]).Keys == s.Keys + {t}
  {
  }
}
