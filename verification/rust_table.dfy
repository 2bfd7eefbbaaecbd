/**
 * The Rust `BTreeStorage` operations that differ from the Go and Python ones: each
 * looks the table up itself, insert checks the value count, update always scans and
 * rebuilds every index, and the join is a nested loop that never builds an index.
 * Tables are keyed by `RustKey`.
 */
module RustTables {
  import opened Base
  import opened Values
  import Commands
  import opened Indexes
  import opened Tables
  import opened KeyFunctions

  type RTable = Table<Value>
  type RStore = map<string, RTable>

  /** `filter_map(|idx| table.rows.get(*idx))`: positions past the end are skipped. */
  function PickPresent(rows: seq<Row>, ps: seq<nat>): (r: seq<Row>)
    ensures |r| <= |ps|
    ensures (forall i :: 0 <= i < |ps| ==> ps[i] < |rows|) ==> r == Pick(rows, ps)
    decreases |ps|
  {
    if ps == [] then []
    else
      var n := |ps| - 1;
      var front := PickPresent(rows, ps[..n]);
      assert (forall i :: 0 <= i < |ps| ==> ps[i] < |rows|) ==> front + [rows[ps[n]]] == Pick(rows, ps) by {
        if forall i :: 0 <= i < |ps| ==> ps[i] < |rows| {
          assert front == Pick(rows, ps[..n]);
        }
      }
      front + (if ps[n] < |rows| then [rows[ps[n]]] else [])
  }

  function NotFound(name: string): string { "Table '" + name + "' not found" }

  const COUNT_MISMATCH: string := "Value count does not match table schema"

  /**
   * `insert_row`: an error for a missing table or a value count different from the
   * column count; otherwise the generic insert, which files the row only under the
   * indexes of columns it has.
   */
  function RustInsertRow(s: RStore, name: string, values: seq<Value>): (r: Result<(RStore, Row)>)
    ensures name !in s ==> r == Err(NotFound(name))
    ensures name in s && |values| != |s[name].columns| ==> r == Err(COUNT_MISMATCH)
    ensures name in s && |values| == |s[name].columns| ==>
      (r.Ok? && r.value.1 == BuildRow(s[name].columns, values) && r.value.0 == s[name := InsertRow(s[name], values, RustKey).0])
  {
    if name !in s then Err(NotFound(name))
    else if |values| != |s[name].columns| then Err(COUNT_MISMATCH)
    else
      var (t, row) := InsertRow(s[name], values, RustKey);
      Ok((s[name := t], row))
  }

  /** A successful insert with distinct column names stores every value under its column. */
  lemma RustInsertFillsEveryColumn(s: RStore, name: string, values: seq<Value>)
    requires name in s && |values| == |s[name].columns|
    requires forall i, j :: 0 <= i < j < |s[name].columns| ==> s[name].columns[i] != s[name].columns[j]
    ensures RustInsertRow(s, name, values).Ok?
    ensures forall i :: 0 <= i < |values| ==> Get(RustInsertRow(s, name, values).value.1, s[name].columns[i]) == Some(values[i])
  {
    BuildRowFull(s[name].columns, values);
  }

  /** With too few values Go inserts a row with trailing columns absent; Rust refuses it. */
  lemma ShortInsertDiverges(s: RStore, name: string, g: Table<string>)
    requires name in s && s[name].columns == ["a", "b"] && g.columns == ["a", "b"]
    ensures RustInsertRow(s, name, [Integer(1)]) == Err(COUNT_MISMATCH)
    ensures InsertRow(g, [Integer(1)], GoKey).1 == map["a" := Integer(1)]
  {
    var cols := g.columns;
    assert cols[..Min(|cols|, 1)] == ["a"];
  }

  /** `add_column`: a missing table is left alone; otherwise the generic operation. */
  function RustAddColumn(s: RStore, name: string, column: string): (r: RStore)
    ensures name !in s ==> r == s
    ensures name in s ==> r == s[name := AddColumn(s[name], column, RustKey)]
  {
    if name in s then s[name := AddColumn(s[name], column, RustKey)] else s
  }

  /** `create_index`: a missing table is left alone; otherwise the generic operation. */
  function RustCreateIndex(s: RStore, name: string, column: string): (r: RStore)
    ensures name !in s ==> r == s
    ensures name in s ==> r == s[name := CreateIndex(s[name], column, RustKey)]
  {
    if name in s then s[name := CreateIndex(s[name], column, RustKey)] else s
  }

  /** `drop_index`: a missing table is left alone; otherwise the generic operation. */
  function RustDropIndex(s: RStore, name: string, column: string): (r: RStore)
    ensures name !in s ==> r == s
    ensures name in s ==> r == s[name := DropIndex(s[name], column)]
  {
    if name in s then s[name := DropIndex(s[name], column)] else s
  }

  /** The positions `update_rows` touches: a linear scan, every row without a condition. */
  function ScanOrAll(t: RTable, where: Option<Commands.Condition>): (r: seq<nat>)
    ensures forall i :: 0 <= i < |r| ==> r[i] < |t.rows|
    ensures forall i :: 0 <= i < |t.rows| ==> (i in r <==> where.None? || Matches(t.rows[i], where.value, RustKey))
  {
    match where
    case None => Range(|t.rows|)
    case Some(c) => ScanPositions(t.rows, c, RustKey)
  }

  /**
   * `update_rows` on an existing table: scans without consulting any index, applies
   * the assignments, rebuilds every index and returns the match count. It needs no
   * invariant to start from and leaves the table consistent.
   */
  function RustUpdateTable(t: RTable, assignments: map<string, Value>, where: Option<Commands.Condition>): (r: (RTable, nat))
    ensures Consistent(r.0, RustKey)
    ensures r.0.columns == t.columns && r.0.indexes.Keys == t.indexes.Keys && |r.0.rows| == |t.rows|
    ensures forall i :: 0 <= i < |t.rows| ==> r.0.rows[i] == (if where.None? || Matches(t.rows[i], where.value, RustKey) then t.rows[i] + assignments else t.rows[i])
  {
    var ps := ScanOrAll(t, where);
    var rows := ApplyAt(t.rows, ps, assignments);
    (Table(t.columns, rows, RebuildAll(rows, t.indexes.Keys, RustKey)), |ps|)
  }

  /** On a consistent table, Rust's scan-and-rebuild-all update equals the Go one instantiated with the Rust key. */
  lemma RustUpdateAgrees(t: RTable, assignments: map<string, Value>, where: Option<Commands.Condition>)
    requires Consistent(t, RustKey)
    ensures RustUpdateTable(t, assignments, where) == UpdateRows(t, assignments, where, RustKey)
  {
    var ps := ScanOrAll(t, where);
    var rows := ApplyAt(t.rows, ps, assignments);
    assert ps == RowsFor(t, where, RustKey);
    RefreshKeepsConsistent(t, rows, assignments, RustKey);
    var a := RebuildAll(rows, t.indexes.Keys, RustKey);
    var b := Refresh(t.indexes, rows, assignments, RustKey);
    assert a == b;
  }

  /** `update_rows`: an error for a missing table. */
  function RustUpdateRows(s: RStore, name: string, assignments: map<string, Value>, where: Option<Commands.Condition>): (r: Result<(RStore, nat)>)
    ensures name !in s <==> r.Err?
    ensures r.Err? ==> r.msg == NotFound(name)
    ensures r.Ok? ==> r.value.0.Keys == s.Keys && r.value.1 == RustUpdateTable(s[name], assignments, where).1
  {
    if name !in s then Err(NotFound(name))
    else
      var (t, n) := RustUpdateTable(s[name], assignments, where);
      Ok((s[name := t], n))
  }

  /** `delete_rows`: an error for a missing table, otherwise the generic delete with the Rust key. */
  function RustDeleteRows(s: RStore, name: string, where: Option<Commands.Condition>): (r: Result<(RStore, nat)>)
    ensures name !in s <==> r.Err?
    ensures r.Ok? ==> r.value.0 == s[name := DeleteRows(s[name], where, RustKey).0]
    ensures r.Ok? ==> Consistent(r.value.0[name], RustKey)
    ensures r.Ok? ==> r.value.1 == |Selected(s[name].rows, where, RustKey)|
  {
    if name !in s then Err(NotFound(name))
    else
      var (t, n) := DeleteRows(s[name], where, RustKey);
      Ok((s[name := t], n))
  }

  /** A condition without `=` is dropped by the Rust parser, so its DELETE removes every row. */
  lemma RustConditionlessDeleteClears(s: RStore, name: string)
    requires name in s
    ensures RustDeleteRows(s, name, None).Ok?
    ensures RustDeleteRows(s, name, None).value.0[name].rows == []
    ensures RustDeleteRows(s, name, None).value.1 == |s[name].rows|
  {
  }

  /** `rows_for` on a table that may be missing: nothing for a missing table. */
  function RustRowsFor(s: RStore, name: string, where: Option<Commands.Condition>): (r: seq<Row>)
    ensures name !in s ==> r == []
    ensures name in s && Consistent(s[name], RustKey) ==> r == Selected(s[name].rows, where, RustKey)
  {
    if name !in s then []
    else
      var t := s[name];
      var ps := RowsFor(t, where, RustKey);
      SelectsWhenConsistent(t, where);
      PickPresent(t.rows, ps)
  }

  lemma SelectsWhenConsistent(t: RTable, where: Option<Commands.Condition>)
    ensures Consistent(t, RustKey) ==> PickPresent(t.rows, RowsFor(t, where, RustKey)) == Selected(t.rows, where, RustKey)
  {
    if Consistent(t, RustKey) {
      RowsForSelects(t, where, RustKey);
    }
  }

  /** `select_rows` without a join: an error for a missing table, else the shaped selection. */
  function RustSelectRows(s: RStore, name: string, columns: seq<string>, where: Option<Commands.Condition>): (r: Result<seq<Row>>)
    ensures name !in s <==> r.Err?
    ensures name in s && Consistent(s[name], RustKey) ==> r == Ok(SelectRows(s[name], columns, where, RustKey, AfterLastDot))
  {
    if name !in s then Err(NotFound(name))
    else Ok(Shape(RustRowsFor(s, name, where), columns, AfterLastDot))
  }

  /**
   * `join_rows`: an error if either table is missing; otherwise every selected left
   * row with a join value is paired with the right rows holding an equal value, in
   * right-table order. The store is not changed.
   */
  function RustJoinRows(s: RStore, name: string, columns: seq<string>, where: Option<Commands.Condition>, j: Commands.Join): (r: Result<seq<Row>>)
    ensures name !in s ==> r == Err(NotFound(name))
    ensures name in s && j.table !in s ==> r == Err(NotFound(j.table))
    ensures name in s && j.table in s && Consistent(s[name], RustKey) ==>
      r == Ok(NestedLoopJoin(Selected(s[name].rows, where, RustKey), s[j.table].rows, j, s[name].columns, s[j.table].columns, columns, RustKey))
  {
    if name !in s then Err(NotFound(name))
    else if j.table !in s then Err(NotFound(j.table))
    else Ok(NestedLoopJoin(RustRowsFor(s, name, where), s[j.table].rows, j, s[name].columns, s[j.table].columns, columns, RustKey))
  }

  /** On consistent tables the Rust and Go joins emit the same rows, but only Go builds an index. */
  lemma RustJoinMatchesGoShape(s: RStore, name: string, columns: seq<string>, where: Option<Commands.Condition>, j: Commands.Join)
    requires name in s && j.table in s
    requires Consistent(s[name], RustKey) && Consistent(s[j.table], RustKey)
    ensures RustJoinRows(s, name, columns, where, j) == Ok(JoinRows(s, name, columns, where, j, RustKey).1)
    ensures j.rightColumn in JoinRows(s, name, columns, where, j, RustKey).0[j.table].indexes
  {
  }
}
