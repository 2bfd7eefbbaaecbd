/**
 * The Python `SQLExecutor.execute` dispatch over the table store keyed by Python
 * equality. A `KeyError` from a missing dictionary key is a `Fault`. It differs from
 * Go in three places: an empty condition dictionary is falsy and selects every row
 * instead of crashing; CREATE TABLE and DELETE without a payload always raise; and
 * the rendering shows `None` for a null and nothing for an absent key.
 */
module PyExecutor {
  import opened Base
  import opened Values
  import opened Commands
  import opened Tables
  import opened KeyFunctions
  import opened CommitLog
  import opened Executors

  type PyState = Executor<PyHash>

  function KeyError(k: string): string { "KeyError: " + k }

  /** `str(row.get(col, ""))`: an absent key renders empty, a null as `None`. */
  function PyShow(o: Option<Value>): string {
    if o.Some? then PyStr(o.value) else ""
  }

  /**
   * The runs that raise. CREATE TABLE without a payload reads `details["columns"]`.
   * Any other command that passes the existence and join checks raises on a missing
   * payload field, on DELETE's lookup of the table `None`, or when its branch looks
   * up an unnamed table that does not exist.
   */
  predicate PyRaises(s: Store<PyHash>, cmd: Command) {
    if cmd.CreateTable? then cmd.create.None?
    else
      Found(s, TableOf(cmd)) && !JoinMissing(s, cmd)
      && (PayloadMissing(cmd) || (cmd.Delete? && cmd.delete.None?) || (UsesTable(cmd) && TableOf(cmd) !in s))
  }

  /** Puts `tbl` under the name `t` in the active database. */
  function Put(e: PyState, t: string, tbl: Table<PyHash>, integral: string -> Option<int>): (r: PyState)
    requires Inv(e, PyKey(integral)) && Consistent(tbl, PyKey(integral))
    ensures Inv(r, PyKey(integral))
    ensures r == WithStore(e, Active(e)[t := tbl])
  {
    WithStoreKeepsInv(e, Active(e)[t := tbl], PyKey(integral));
    WithStore(e, Active(e)[t := tbl])
  }

  /** `execute`: one parsed command against the state, giving the new state and the output lines. */
  function PyExecute(e: PyState, p: Parsed, star: Row -> seq<string>, integral: string -> Option<int>): (r: Outcome<(PyState, seq<string>)>)
    requires Inv(e, PyKey(integral))
    ensures r.Done? ==> Inv(r.value.0, PyKey(integral)) && r.value.1 != []
  {
    match p.cmd
    case Empty => Done((e, [""]))
    case CreateDatabase(name) =>
      ActivateKeepsInv(e, name, PyKey(integral));
      Done((Activate(e, name), [Ready(name)]))
    case AlterDatabase(name) =>
      ActivateKeepsInv(e, name, PyKey(integral));
      Done((Activate(e, name), [Using(name)]))
    case UseDatabase(name) =>
      if name !in e.dbs then Done((e, [DatabaseNotFound(name)]))
      else Done((e.(active := name), [Using(name)]))
    case _ => PyTableCommand(e, p, star, integral)
  }

  /** The commands after `storage = self._databases[self._active_db]`. */
  function PyTableCommand(e: PyState, p: Parsed, star: Row -> seq<string>, integral: string -> Option<int>): (r: Outcome<(PyState, seq<string>)>)
    requires Inv(e, PyKey(integral))
    requires !p.cmd.CreateDatabase? && !p.cmd.AlterDatabase? && !p.cmd.UseDatabase?
    ensures r.Done? ==> Inv(r.value.0, PyKey(integral)) && r.value.1 != []
  {
    var t := TableOf(p.cmd);
    if p.cmd.CreateTable? then PyCreateTable(e, p.cmd.create, integral)
    else if !Found(Active(e), t) then Done((e, [TableNotFound(t)]))
    else PyStoreCommand(e, p, star, integral)
  }

  /** CREATE_TABLE: the table `None` never exists, so a missing payload raises on `details["columns"]`. */
  function PyCreateTable(e: PyState, spec: Option<CreateTableSpec>, integral: string -> Option<int>): (r: Outcome<(PyState, seq<string>)>)
    requires Inv(e, PyKey(integral))
    ensures r.Fault? <==> spec.None?
    ensures r.Done? ==> Inv(r.value.0, PyKey(integral)) && |r.value.1| == 1
  {
    if spec.None? then Fault(KeyError("'columns'"))
    else
      var t := spec.value.table;
      if t in Active(e) then Done((e, [AlreadyExists(t)]))
      else
        NewTableConsistent<PyHash>(ColumnNames(spec.value.columns), PyKey(integral));
        Done((Put(e, t, NewTable(ColumnNames(spec.value.columns)), integral), [Created(t)]))
  }

  /** The chain of `if cmd == ...` once the table, if named, is known to exist. */
  function PyStoreCommand(e: PyState, p: Parsed, star: Row -> seq<string>, integral: string -> Option<int>): (r: Outcome<(PyState, seq<string>)>)
    requires Inv(e, PyKey(integral)) && Found(Active(e), TableOf(p.cmd))
    requires !p.cmd.CreateDatabase? && !p.cmd.AlterDatabase? && !p.cmd.UseDatabase? && !p.cmd.CreateTable?
    ensures r.Done? ==> Inv(r.value.0, PyKey(integral)) && r.value.1 != []
  {
    if IsSchema(p.cmd) then PySchemaCommand(e, p.cmd, integral)
    else if IsDml(p.cmd) then PyDmlCommand(e, p.cmd, integral)
    else PyOtherCommand(e, p, star, integral)
  }

  /** SELECT, COMMIT and the commands no branch handles. */
  function PyOtherCommand(e: PyState, p: Parsed, star: Row -> seq<string>, integral: string -> Option<int>): (r: Outcome<(PyState, seq<string>)>)
    requires Inv(e, PyKey(integral)) && Found(Active(e), TableOf(p.cmd)) && !IsSchema(p.cmd) && !IsDml(p.cmd)
    requires !p.cmd.CreateDatabase? && !p.cmd.AlterDatabase? && !p.cmd.UseDatabase? && !p.cmd.CreateTable?
    ensures p.cmd.Select? ==> (r.Fault? <==> p.cmd.select.None? || (!JoinMissing(Active(e), p.cmd) && p.cmd.select.value.table !in Active(e)))
    ensures !p.cmd.Select? ==> r.Done?
    ensures r.Done? ==> Inv(r.value.0, PyKey(integral)) && r.value.1 != []
  {
    match p.cmd
    case Select(spec) => PySelect(e, spec, star, integral)
    case Commit =>
      var (e', out) := CommitStep(e);
      Done((e', out))
    case _ => Done((e, [NotUnderstood(p.raw)]))
  }

  /** The schema commands: ALTER TABLE, DROP TABLE, CREATE INDEX and DROP INDEX. */
  function PySchemaCommand(e: PyState, cmd: Command, integral: string -> Option<int>): (r: Outcome<(PyState, seq<string>)>)
    requires Inv(e, PyKey(integral))
    requires IsSchema(cmd)
    ensures cmd.AlterTable? ==> (r.Fault? <==> cmd.alter.None? || cmd.alter.value.table !in Active(e))
    ensures cmd.CreateIndex? ==> (r.Fault? <==> cmd.table !in Active(e))
    ensures cmd.DropTable? || cmd.DropIndex? ==> r.Done?
    ensures r.Done? ==> Inv(r.value.0, PyKey(integral)) && r.value.0.log == e.log && |r.value.1| == 1
  {
    var t := TableOf(cmd);
    match cmd
    case AlterTable(spec) => PyAlterTable(e, spec, integral)
    case DropTable(_) =>
      WithStoreKeepsInv(e, Active(e) - {t}, PyKey(integral));
      Done((WithStore(e, Active(e) - {t}), [Dropped(t)]))
    case CreateIndex(_, c) => PyCreateIndex(e, t, c, integral)
    case DropIndex(_, c) => PyDropIndex(e, t, c, integral)
  }

  /** ALTER_TABLE: `details["column"]` first, then `self._tables[name]` in `add_column`. */
  function PyAlterTable(e: PyState, spec: Option<AlterTableSpec>, integral: string -> Option<int>): (r: Outcome<(PyState, seq<string>)>)
    requires Inv(e, PyKey(integral))
    ensures r.Fault? <==> spec.None? || spec.value.table !in Active(e)
    ensures r.Done? ==> Inv(r.value.0, PyKey(integral)) && |r.value.1| == 1
  {
    if spec.None? then Fault(KeyError("'column'"))
    else if spec.value.table !in Active(e) then Fault(KeyError("''"))
    else
      var (t, c) := (spec.value.table, spec.value.column.name);
      AddColumnConsistentIdempotent(Active(e)[t], c, PyKey(integral));
      Done((Put(e, t, AddColumn(Active(e)[t], c, PyKey(integral)), integral), [ColumnAdded(c, t)]))
  }

  /** CREATE_INDEX: `create_index` looks the table up without a default. */
  function PyCreateIndex(e: PyState, t: string, c: string, integral: string -> Option<int>): (r: Outcome<(PyState, seq<string>)>)
    requires Inv(e, PyKey(integral))
    ensures r.Fault? <==> t !in Active(e)
    ensures r.Done? ==> Inv(r.value.0, PyKey(integral)) && |r.value.1| == 1
  {
    if t !in Active(e) then Fault(KeyError("''"))
    else Done((Put(e, t, Tables.CreateIndex(Active(e)[t], c, PyKey(integral)), integral), [IndexBuilt(t, c)]))
  }

  /** DROP_INDEX: `drop_index` uses `get`, so an absent table changes nothing. */
  function PyDropIndex(e: PyState, t: string, c: string, integral: string -> Option<int>): (r: Outcome<(PyState, seq<string>)>)
    requires Inv(e, PyKey(integral))
    ensures r.Done? && Inv(r.value.0, PyKey(integral)) && |r.value.1| == 1
  {
    if t !in Active(e) then Done((e, [IndexRemoved(t, c)]))
    else
      DropThenCreateIndex(Active(e)[t], c, PyKey(integral));
      Done((Put(e, t, Tables.DropIndex(Active(e)[t], c), integral), [IndexRemoved(t, c)]))
  }

  /** The data commands INSERT, UPDATE and DELETE. */
  function PyDmlCommand(e: PyState, cmd: Command, integral: string -> Option<int>): (r: Outcome<(PyState, seq<string>)>)
    requires Inv(e, PyKey(integral)) && IsDml(cmd)
    ensures cmd.Insert? ==> (r.Fault? <==> cmd.insert.None? || cmd.insert.value.table !in Active(e))
    ensures cmd.Update? ==> (r.Fault? <==> cmd.update.None? || cmd.update.value.table !in Active(e))
    ensures cmd.Delete? ==> (r.Fault? <==> cmd.delete.None? || cmd.delete.value.table !in Active(e))
    ensures r.Done? ==> Inv(r.value.0, PyKey(integral)) && |r.value.1| == 1
  {
    match cmd
    case Insert(spec) => PyInsert(e, spec, integral)
    case Update(spec) => PyUpdate(e, spec, integral)
    case Delete(spec) => PyDelete(e, spec, integral)
  }

  /** INSERT: `details["values"]`, `insert_row`, then one log entry holding the row. */
  function PyInsert(e: PyState, spec: Option<InsertSpec>, integral: string -> Option<int>): (r: Outcome<(PyState, seq<string>)>)
    requires Inv(e, PyKey(integral))
    ensures r.Fault? <==> spec.None? || spec.value.table !in Active(e)
    ensures r.Done? ==> Inv(r.value.0, PyKey(integral)) && r.value.1 == [INSERTED]
  {
    if spec.None? then Fault(KeyError("'values'"))
    else if spec.value.table !in Active(e) then Fault(KeyError("''"))
    else
      var t := spec.value.table;
      var (tbl, row) := InsertRow(Active(e)[t], spec.value.values, PyKey(integral));
      InsertKeepsConsistent(Active(e)[t], spec.value.values, PyKey(integral));
      Done((Logged(Put(e, t, tbl, integral), "INSERT", RowDetail(row)), [INSERTED]))
  }

  /** UPDATE: `details["assignments"]`, `update_rows`, then one log entry holding the count. */
  function PyUpdate(e: PyState, spec: Option<UpdateSpec>, integral: string -> Option<int>): (r: Outcome<(PyState, seq<string>)>)
    requires Inv(e, PyKey(integral))
    ensures r.Fault? <==> spec.None? || spec.value.table !in Active(e)
    ensures r.Done? ==> Inv(r.value.0, PyKey(integral)) && |r.value.1| == 1
  {
    if spec.None? then Fault(KeyError("'assignments'"))
    else if spec.value.table !in Active(e) then Fault(KeyError("''"))
    else
      var t := spec.value.table;
      var (tbl, n) := UpdateRows(Active(e)[t], spec.value.assignments, ConditionOf(spec.value.where), PyKey(integral));
      Done((Logged(Put(e, t, tbl, integral), "UPDATE", CountDetail(n)), [Updated(n)]))
  }

  /** DELETE: `delete_rows` indexes `self._tables` by the table, `None` for a missing payload. */
  function PyDelete(e: PyState, spec: Option<DeleteSpec>, integral: string -> Option<int>): (r: Outcome<(PyState, seq<string>)>)
    requires Inv(e, PyKey(integral))
    ensures r.Fault? <==> spec.None? || spec.value.table !in Active(e)
    ensures r.Done? ==> Inv(r.value.0, PyKey(integral)) && |r.value.1| == 1
  {
    if spec.None? then Fault(KeyError("None"))
    else if spec.value.table !in Active(e) then Fault(KeyError("''"))
    else
      var t := spec.value.table;
      var (tbl, n) := DeleteRows(Active(e)[t], ConditionOf(spec.value.where), PyKey(integral));
      Done((Logged(Put(e, t, tbl, integral), "DELETE", CountDetail(n)), [Deleted(n)]))
  }

  /** SELECT: the join check, then `select_rows` (whose join may build an index), rendered. */
  function PySelect(e: PyState, spec: Option<SelectSpec>, star: Row -> seq<string>, integral: string -> Option<int>): (r: Outcome<(PyState, seq<string>)>)
    requires Inv(e, PyKey(integral))
    ensures r.Fault? <==> spec.None? || (!JoinMissing(Active(e), Select(spec)) && spec.value.table !in Active(e))
    ensures r.Done? ==> Inv(r.value.0, PyKey(integral)) && r.value.1 != []
  {
    if spec.None? then Fault(KeyError("'columns'"))
    else
      var q := spec.value;
      var s := Active(e);
      var where := ConditionOf(q.where);
      if q.join.Some? && q.join.value.table !in s then Done((e, [TableNotFound(q.join.value.table)]))
      else if q.table !in s then Fault(KeyError("''"))
      else if q.join.None? then
        Done((e, FormatRows(SelectRows(s[q.table], q.columns, where, PyKey(integral), AfterFirstDot), q.columns, star, PyShow)))
      else
        var (s', rows) := JoinRows(s, q.table, q.columns, where, q.join.value, PyKey(integral));
        JoinKeepsConsistent(s, q.table, q.columns, where, q.join.value, PyKey(integral));
        WithStoreKeepsInv(e, s', PyKey(integral));
        Done((WithStore(e, s'), FormatRows(rows, q.columns, star, PyShow)))
  }

  // ---------------------------------------------------------------------------
  // Properties of the dispatch
  // ---------------------------------------------------------------------------

  /** A run raises exactly in the cases `PyRaises` names; every other run answers. */
  lemma PyFaultsExactly(e: PyState, p: Parsed, star: Row -> seq<string>, integral: string -> Option<int>)
    requires Inv(e, PyKey(integral))
    ensures PyExecute(e, p, star, integral).Fault? <==> PyRaises(Active(e), p.cmd)
  {
    var r := PyExecute(e, p, star, integral);
    if p.cmd.Empty? || p.cmd.CreateDatabase? || p.cmd.AlterDatabase? || p.cmd.UseDatabase? {
    } else if p.cmd.CreateTable? {
      assert r == PyCreateTable(e, p.cmd.create, integral);
    } else if Found(Active(e), TableOf(p.cmd)) {
      assert r == PyStoreCommand(e, p, star, integral);
      PyStoreFaults(e, p, star, integral);
    }
  }

  /** The same past the existence check, category by category. */
  lemma PyStoreFaults(e: PyState, p: Parsed, star: Row -> seq<string>, integral: string -> Option<int>)
    requires Inv(e, PyKey(integral)) && Found(Active(e), TableOf(p.cmd))
    requires !p.cmd.CreateDatabase? && !p.cmd.AlterDatabase? && !p.cmd.UseDatabase? && !p.cmd.CreateTable?
    ensures PyStoreCommand(e, p, star, integral).Fault? <==> PyRaises(Active(e), p.cmd)
  {
    if IsSchema(p.cmd) {
      assert PyStoreCommand(e, p, star, integral) == PySchemaCommand(e, p.cmd, integral);
      PySchemaFaults(e, p.cmd, integral);
    } else if IsDml(p.cmd) {
      assert PyStoreCommand(e, p, star, integral) == PyDmlCommand(e, p.cmd, integral);
      PyDmlFaults(e, p.cmd, integral);
    } else {
      assert PyStoreCommand(e, p, star, integral) == PyOtherCommand(e, p, star, integral);
    }
  }

  lemma PySchemaFaults(e: PyState, cmd: Command, integral: string -> Option<int>)
    requires Inv(e, PyKey(integral)) && IsSchema(cmd) && Found(Active(e), TableOf(cmd))
    ensures PySchemaCommand(e, cmd, integral).Fault? <==> PyRaises(Active(e), cmd)
  {
    var s := Active(e);
    match cmd
    case AlterTable(spec) =>
      assert PyRaises(s, cmd) <==> spec.None? || spec.value.table !in s;
    case CreateIndex(t, _) =>
      assert TableOf(cmd) == t && !PayloadMissing(cmd) && UsesTable(cmd);
    case DropTable(t) =>
      assert !UsesTable(cmd) && !PayloadMissing(cmd) && !PyRaises(s, cmd);
    case DropIndex(t, _) =>
      assert !UsesTable(cmd) && !PayloadMissing(cmd) && !PyRaises(s, cmd);
  }

  lemma PyDmlFaults(e: PyState, cmd: Command, integral: string -> Option<int>)
    requires Inv(e, PyKey(integral)) && IsDml(cmd) && Found(Active(e), TableOf(cmd))
    ensures PyDmlCommand(e, cmd, integral).Fault? <==> PyRaises(Active(e), cmd)
  {
    var s := Active(e);
    match cmd
    case Insert(spec) =>
      assert PyRaises(s, cmd) <==> spec.None? || spec.value.table !in s;
    case Update(spec) =>
      assert TableOf(cmd) == (if spec.Some? then spec.value.table else "") && UsesTable(cmd);
    case Delete(spec) =>
      assert TableOf(cmd) == (if spec.Some? then spec.value.table else "") && UsesTable(cmd);
  }

  /** CREATE_DATABASE and ALTER_DATABASE ensure the database, keep the others and the log, and activate it. */
  lemma PyActivatesDatabase(e: PyState, p: Parsed, star: Row -> seq<string>, integral: string -> Option<int>)
    requires Inv(e, PyKey(integral)) && (p.cmd.CreateDatabase? || p.cmd.AlterDatabase?)
    ensures var r := PyExecute(e, p, star, integral);
      r.Done? && r.value.0.active == p.cmd.name && r.value.0.dbs.Keys == e.dbs.Keys + {p.cmd.name}
      && (forall d :: d in e.dbs ==> r.value.0.dbs[d] == e.dbs[d])
      && r.value.0.log == e.log
  {
  }

  /** USE on an unknown name answers `not found` and changes nothing. */
  lemma PyUseUnknown(e: PyState, p: Parsed, star: Row -> seq<string>, integral: string -> Option<int>)
    requires Inv(e, PyKey(integral)) && p.cmd.UseDatabase? && p.cmd.name !in e.dbs
    ensures PyExecute(e, p, star, integral) == Done((e, [DatabaseNotFound(p.cmd.name)]))
  {
  }

  /** The refusals (existing table on CREATE, missing named table, missing join table) change nothing. */
  lemma PyRefusalsChangeNothing(e: PyState, p: Parsed, star: Row -> seq<string>, integral: string -> Option<int>)
    requires Inv(e, PyKey(integral)) && !p.cmd.CreateDatabase? && !p.cmd.AlterDatabase? && !p.cmd.UseDatabase?
    ensures p.cmd.CreateTable? && p.cmd.create.Some? && TableOf(p.cmd) in Active(e) ==>
      PyExecute(e, p, star, integral) == Done((e, [AlreadyExists(TableOf(p.cmd))]))
    ensures !p.cmd.CreateTable? && !Found(Active(e), TableOf(p.cmd)) ==>
      PyExecute(e, p, star, integral) == Done((e, [TableNotFound(TableOf(p.cmd))]))
    ensures Found(Active(e), TableOf(p.cmd)) && JoinMissing(Active(e), p.cmd) ==>
      PyExecute(e, p, star, integral) == Done((e, [TableNotFound(p.cmd.select.value.join.value.table)]))
  {
  }

  /** An INSERT, UPDATE or DELETE past the existence check appends exactly one entry tagged with the active database. */
  lemma PyDmlLogsOnce(e: PyState, p: Parsed, star: Row -> seq<string>, integral: string -> Option<int>)
    requires Inv(e, PyKey(integral)) && PyExecute(e, p, star, integral).Done?
    requires IsDml(p.cmd) && Found(Active(e), TableOf(p.cmd))
    ensures var l := PyExecute(e, p, star, integral).value.0.log;
      |l.segments| == |e.log.segments| + 1 && l.segments[..|e.log.segments|] == e.log.segments
      && l.segments[|e.log.segments|].db == e.active && l.segments[|e.log.segments|].command == Verb(p.cmd)
  {
    assert PyExecute(e, p, star, integral) == PyTableCommand(e, p, star, integral);
    assert PyTableCommand(e, p, star, integral) == PyStoreCommand(e, p, star, integral);
    assert PyStoreCommand(e, p, star, integral) == PyDmlCommand(e, p.cmd, integral);
    PyDmlCommandLogsOnce(e, p.cmd, integral);
  }

  /** The step of `PyDmlLogsOnce` past the dispatch: each verb appends its one entry. */
  lemma PyDmlCommandLogsOnce(e: PyState, cmd: Command, integral: string -> Option<int>)
    requires Inv(e, PyKey(integral)) && IsDml(cmd) && PyDmlCommand(e, cmd, integral).Done?
    ensures var l := PyDmlCommand(e, cmd, integral).value.0.log;
      |l.segments| == |e.log.segments| + 1 && l.segments[..|e.log.segments|] == e.log.segments
      && l.segments[|e.log.segments|].db == e.active && l.segments[|e.log.segments|].command == Verb(cmd)
  {
    var r := PyDmlCommand(e, cmd, integral);
    match cmd
    case Insert(spec) => assert r == PyInsert(e, spec, integral);
    case Update(spec) => assert r == PyUpdate(e, spec, integral);
    case Delete(spec) => assert r == PyDelete(e, spec, integral);
  }

  /** COMMIT empties the log and reports its length; `entr{y|ies}` spells the same words as Go. */
  lemma PyCommit(e: PyState, c: Parsed, star: Row -> seq<string>, integral: string -> Option<int>)
    requires Inv(e, PyKey(integral)) && c.cmd.Commit?
    ensures PyExecute(e, c, star, integral) == Done((e.(log := CommitLog.Empty()), [Committed(Pending(e.log))]))
  {
  }

  /**
   * An empty condition dictionary is falsy: the DELETE removes every row, where Go
   * panics. Python's own parser never builds this command (`_parse_condition` raises
   * on a clause without `=`), so this compares the executors on a payload only Go's
   * parser produces.
   */
  lemma PyEmptyConditionDeletesAll(e: PyState, t: string, raw: string, star: Row -> seq<string>, integral: string -> Option<int>)
    requires Inv(e, PyKey(integral)) && t in Active(e)
    ensures var r := PyExecute(e, Parsed(Delete(Some(DeleteSpec(t, Malformed))), raw), star, integral);
      r.Done? && r.value.1 == [Deleted(|Active(e)[t].rows|)] && Active(r.value.0)[t].rows == []
  {
  }

  /** Six-token ALTER TABLE gives Python an empty payload too, and `details["column"]` raises. */
  lemma PyEmptyAlterRaises(e: PyState, raw: string, star: Row -> seq<string>, integral: string -> Option<int>)
    requires Inv(e, PyKey(integral))
    ensures PyExecute(e, Parsed(AlterTable(None), raw), star, integral) == Fault(KeyError("'column'"))
  {
  }
}
