/**
 * The Rust `SQLExecutor::execute` dispatch over the table store keyed by `RustKey`.
 *
 * The Rust command enum always carries its fields, so a command without payload or
 * with an empty condition map cannot reach it (`RustExpressible`). Every table
 * command checks its own table first, and the storage errors it can still meet
 * become an `Error: ` line instead of a crash.
 */
module RustExecutor {
  import opened Base
  import opened Values
  import opened Commands
  import opened Tables
  import opened KeyFunctions
  import opened CommitLog
  import opened RustTables
  import opened Executors

  type RustState = Executor<Value>

  /** `row.get(col).map(|v| v.to_string()).unwrap_or_else(String::new)`. */
  function RustShow(o: Option<Value>): string {
    if o.Some? then RustDisplay(o.value) else ""
  }

  /** The commands the Rust `CommandType` can hold: every payload present, no empty condition map. */
  predicate RustExpressible(cmd: Command) {
    match cmd
    case CreateTable(spec) => spec.Some?
    case AlterTable(spec) => spec.Some?
    case Insert(spec) => spec.Some?
    case Update(spec) => spec.Some? && !spec.value.where.Malformed?
    case Delete(spec) => spec.Some? && !spec.value.where.Malformed?
    case Select(spec) => spec.Some? && !spec.value.where.Malformed?
    case _ => true
  }

  /** The commands whose arm begins with `if !storage.table_exists(table)`. */
  predicate ChecksTable(cmd: Command) {
    cmd.AlterTable? || cmd.DropTable? || cmd.CreateIndex? || cmd.DropIndex?
    || cmd.Insert? || cmd.Update? || cmd.Delete? || cmd.Select?
  }

  function ErrorLine(msg: string): string { "Error: " + msg }

  /** Replaces the active store with one whose tables are all consistent. */
  function Put(e: RustState, s: Store<Value>): (r: RustState)
    requires Inv(e, RustKey) && StoreOk(s, RustKey)
    ensures Inv(r, RustKey) && r == WithStore(e, s)
  {
    WithStoreKeepsInv(e, s, RustKey);
    WithStore(e, s)
  }

  /** `execute`: one parsed command against the state, giving the new state and the output lines. */
  function RustExecute(e: RustState, p: Parsed): (r: (RustState, seq<string>))
    requires Inv(e, RustKey) && RustExpressible(p.cmd)
    ensures Inv(r.0, RustKey) && r.1 != []
    ensures r.0.log != e.log ==> IsDml(p.cmd) || p.cmd.Commit?
    ensures r.0.active != e.active ==> p.cmd.CreateDatabase? || p.cmd.AlterDatabase? || p.cmd.UseDatabase?
  {
    match p.cmd
    case Empty => (e, [""])
    case CreateDatabase(name) =>
      ActivateKeepsInv(e, name, RustKey);
      (Activate(e, name), [Ready(name)])
    case AlterDatabase(name) =>
      ActivateKeepsInv(e, name, RustKey);
      (Activate(e, name), [Using(name)])
    case UseDatabase(name) =>
      if name in e.dbs then (e.(active := name), [Using(name)])
      else (e, [DatabaseNotFound(name)])
    case CreateTable(spec) => RustCreateTable(e, spec.value)
    case Commit => CommitStep(e)
    case Unknown => (e, [NotUnderstood(p.raw)])
    case _ =>
      var t := TableOf(p.cmd);
      if t !in Active(e) then (e, [TableNotFound(t)])
      else RustTableCommand(e, p.cmd)
  }

  /** `CreateTable`: refused for an existing name, else an empty table with the declared column names. */
  function RustCreateTable(e: RustState, spec: CreateTableSpec): (r: (RustState, seq<string>))
    requires Inv(e, RustKey)
    ensures Inv(r.0, RustKey) && r.0.log == e.log && r.0.active == e.active && |r.1| == 1
  {
    var t := spec.table;
    if t in Active(e) then (e, [AlreadyExists(t)])
    else
      NewTableConsistent<Value>(ColumnNames(spec.columns), RustKey);
      (Put(e, Active(e)[t := NewTable(ColumnNames(spec.columns))]), [Created(t)])
  }

  /** The arms after their existence check has passed. */
  function RustTableCommand(e: RustState, cmd: Command): (r: (RustState, seq<string>))
    requires Inv(e, RustKey) && RustExpressible(cmd) && ChecksTable(cmd) && TableOf(cmd) in Active(e)
    ensures Inv(r.0, RustKey) && r.1 != [] && r.0.active == e.active
    ensures r.0.log != e.log ==> IsDml(cmd)
  {
    var s := Active(e);
    var t := TableOf(cmd);
    match cmd
    case AlterTable(spec) =>
      AddColumnConsistentIdempotent(s[t], spec.value.column.name, RustKey);
      (Put(e, RustAddColumn(s, t, spec.value.column.name)), [ColumnAdded(spec.value.column.name, t)])
    case DropTable(_) => (Put(e, s - {t}), [Dropped(t)])
    case CreateIndex(_, c) => (Put(e, RustCreateIndex(s, t, c)), [IndexBuilt(t, c)])
    case DropIndex(_, c) =>
      DropThenCreateIndex(s[t], c, RustKey);
      (Put(e, RustDropIndex(s, t, c)), [IndexRemoved(t, c)])
    case Insert(spec) => RustInsert(e, spec.value)
    case Update(spec) => RustUpdate(e, spec.value)
    case Delete(spec) => RustDelete(e, spec.value)
    case Select(spec) => (e, RustSelect(s, spec.value))
  }

  /** INSERT: `insert_row`; an error line and no log entry on failure, else one entry naming the table. */
  function RustInsert(e: RustState, spec: InsertSpec): (r: (RustState, seq<string>))
    requires Inv(e, RustKey)
    ensures Inv(r.0, RustKey) && |r.1| == 1 && r.0.active == e.active
  {
    match RustInsertRow(Active(e), spec.table, spec.values)
    case Err(m) => (e, [ErrorLine(m)])
    case Ok((s', _)) =>
      InsertKeepsConsistent(Active(e)[spec.table], spec.values, RustKey);
      (Logged(Put(e, s'), "INSERT", TableDetail(spec.table)), [INSERTED])
  }

  /** UPDATE: `update_rows`, then one entry holding the count. */
  function RustUpdate(e: RustState, spec: UpdateSpec): (r: (RustState, seq<string>))
    requires Inv(e, RustKey)
    ensures Inv(r.0, RustKey) && |r.1| == 1 && r.0.active == e.active
  {
    match RustUpdateRows(Active(e), spec.table, spec.assignments, ConditionOf(spec.where))
    case Err(m) => (e, [ErrorLine(m)])
    case Ok((s', n)) => (Logged(Put(e, s'), "UPDATE", CountDetail(n)), [Updated(n)])
  }

  /** DELETE: `delete_rows`, then one entry holding the count. */
  function RustDelete(e: RustState, spec: DeleteSpec): (r: (RustState, seq<string>))
    requires Inv(e, RustKey)
    ensures Inv(r.0, RustKey) && |r.1| == 1 && r.0.active == e.active
  {
    match RustDeleteRows(Active(e), spec.table, ConditionOf(spec.where))
    case Err(m) => (e, [ErrorLine(m)])
    case Ok((s', n)) => (Logged(Put(e, s'), "DELETE", CountDetail(n)), [Deleted(n)])
  }

  /** SELECT: the join table's check, then `select_rows`, rendered with sorted `*` headers. */
  function RustSelect(s: Store<Value>, q: SelectSpec): (r: seq<string>)
    ensures r != []
  {
    if q.join.Some? && q.join.value.table !in s then [TableNotFound(q.join.value.table)]
    else
      var rows := if q.join.None? then RustSelectRows(s, q.table, q.columns, ConditionOf(q.where))
        else RustJoinRows(s, q.table, q.columns, ConditionOf(q.where), q.join.value);
      match rows
      case Err(m) => [ErrorLine(m)]
      case Ok(rows) => FormatRows(rows, q.columns, SortedKeys, RustShow)
  }

  // ---------------------------------------------------------------------------
  // Properties of the dispatch
  // ---------------------------------------------------------------------------

  /** Every table command naming a table missing from the active database answers `not found` and changes nothing. */
  lemma RustRefusalsChangeNothing(e: RustState, p: Parsed)
    requires Inv(e, RustKey) && RustExpressible(p.cmd) && ChecksTable(p.cmd) && TableOf(p.cmd) !in Active(e)
    ensures RustExecute(e, p) == (e, [TableNotFound(TableOf(p.cmd))])
  {
  }

  /** A SELECT whose main table exists but whose join table does not answers with the join table. */
  lemma RustJoinRefused(e: RustState, p: Parsed)
    requires Inv(e, RustKey) && RustExpressible(p.cmd) && p.cmd.Select? && TableOf(p.cmd) in Active(e)
    requires JoinMissing(Active(e), p.cmd)
    ensures RustExecute(e, p) == (e, [TableNotFound(p.cmd.select.value.join.value.table)])
  {
  }

  /** An INSERT whose value count differs from the column count reports the error and changes nothing, log included. */
  lemma RustBadInsertChangesNothing(e: RustState, t: string, values: seq<Value>, raw: string)
    requires Inv(e, RustKey) && t in Active(e) && |values| != |Active(e)[t].columns|
    ensures RustExecute(e, Parsed(Insert(Some(InsertSpec(t, values))), raw)) == (e, [ErrorLine(COUNT_MISMATCH)])
  {
  }

  /** A good INSERT appends the built row and logs one entry that names the table, not the row. */
  lemma RustInsertLogsTable(e: RustState, t: string, values: seq<Value>, raw: string)
    requires Inv(e, RustKey) && t in Active(e) && |values| == |Active(e)[t].columns|
    ensures var r := RustExecute(e, Parsed(Insert(Some(InsertSpec(t, values))), raw));
      r.1 == [INSERTED] && Active(r.0)[t] == InsertRow(Active(e)[t], values, RustKey).0
      && r.0.log == Append(e.log, Entry(e.active, "INSERT", TableDetail(t)))
  {
  }

  /** An UPDATE or DELETE on an existing table appends exactly one entry, tagged with the active database and its verb. */
  lemma RustDmlLogsOnce(e: RustState, p: Parsed)
    requires Inv(e, RustKey) && RustExpressible(p.cmd) && (p.cmd.Update? || p.cmd.Delete?) && TableOf(p.cmd) in Active(e)
    ensures var l := RustExecute(e, p).0.log;
      |l.segments| == |e.log.segments| + 1 && l.segments[..|e.log.segments|] == e.log.segments
      && l.segments[|e.log.segments|].db == e.active && l.segments[|e.log.segments|].command == Verb(p.cmd)
  {
    assert RustExecute(e, p) == RustTableCommand(e, p.cmd);
    RustDmlCommandLogsOnce(e, p.cmd);
  }

  /** The step of `RustDmlLogsOnce` past the dispatch: UPDATE and DELETE append their one entry. */
  lemma RustDmlCommandLogsOnce(e: RustState, cmd: Command)
    requires Inv(e, RustKey) && RustExpressible(cmd) && (cmd.Update? || cmd.Delete?) && TableOf(cmd) in Active(e)
    ensures var l := RustTableCommand(e, cmd).0.log;
      |l.segments| == |e.log.segments| + 1 && l.segments[..|e.log.segments|] == e.log.segments
      && l.segments[|e.log.segments|].db == e.active && l.segments[|e.log.segments|].command == Verb(cmd)
  {
    var r := RustTableCommand(e, cmd);
    match cmd
    case Update(spec) => assert r == RustUpdate(e, spec.value);
    case Delete(spec) => assert r == RustDelete(e, spec.value);
  }

  /** COMMIT empties the log and reports its length, as in Go and Python. */
  lemma RustCommit(e: RustState, c: Parsed)
    requires Inv(e, RustKey) && c.cmd.Commit?
    ensures RustExecute(e, c) == (e.(log := CommitLog.Empty()), [Committed(Pending(e.log))])
  {
  }

  /**
   * The Rust parser drops a condition without `=`, so the DELETE it builds removes
   * every row of the table, where Go's empty condition map panics.
   */
  lemma RustConditionlessDeleteClearsAll(e: RustState, t: string, raw: string)
    requires Inv(e, RustKey) && t in Active(e)
    ensures var r := RustExecute(e, Parsed(Delete(Some(DeleteSpec(t, NoWhere))), raw));
      r.1 == [Deleted(|Active(e)[t].rows|)] && Active(r.0)[t].rows == []
  {
    RustConditionlessDeleteClears(Active(e), t);
  }

  /** A SELECT without a join renders the selected rows of a consistent table; nothing changes. */
  lemma RustSelectRenders(e: RustState, t: string, columns: seq<string>, w: Where, raw: string)
    requires Inv(e, RustKey) && t in Active(e) && !w.Malformed?
    ensures RustExecute(e, Parsed(Select(Some(SelectSpec(t, columns, w, None))), raw))
      == (e, FormatRows(SelectRows(Active(e)[t], columns, ConditionOf(w), RustKey, AfterLastDot), columns, SortedKeys, RustShow))
  {
    var q := SelectSpec(t, columns, w, None);
    var p := Parsed(Select(Some(q)), raw);
    assert Consistent(Active(e)[t], RustKey);
    assert RustExecute(e, p) == RustTableCommand(e, p.cmd);
    assert RustTableCommand(e, p.cmd) == (e, RustSelect(Active(e), q));
    assert RustSelectRows(Active(e), t, columns, ConditionOf(w)) == Ok(SelectRows(Active(e)[t], columns, ConditionOf(w), RustKey, AfterLastDot));
  }
}
