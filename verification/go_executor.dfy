/**
 * The Go `SQLExecutor.Execute` dispatch over the table store keyed by `makeKey`.
 *
 * Go panics on an unchecked type assertion or a nil table pointer; such a run is a
 * `Fault` carrying the runtime message. Which commands panic is characterised
 * independently by `GoPanics`: a missing payload, an empty condition map, or an
 * unnamed table that the `table != ""` guard lets through.
 */
module GoExecutor {
  import opened Base
  import opened Values
  import opened Commands
  import opened Tables
  import opened KeyFunctions
  import opened CommitLog
  import opened Executors

  type GoState = Executor<string>

  const NIL_POINTER: string := "runtime error: invalid memory address or nil pointer dereference"
  const NIL_CONVERSION: string := "interface conversion: interface {} is nil"

  /** `fmt.Sprintf("%v", row[col])`: an absent key reads as nil, which renders like a null. */
  function GoShow(o: Option<Value>): string {
    GoDisplay(if o.Some? then o.value else Null)
  }

  /**
   * The runs that panic. CREATE TABLE without a payload reaches `extractColumns(nil)`
   * unless a table named "" exists. Any other command that passes the existence
   * check and the join check panics on a missing payload, on an empty condition
   * map, or when its branch reads an unnamed table that does not exist.
   */
  predicate GoPanics(s: Store<string>, cmd: Command) {
    if cmd.CreateTable? then cmd.create.None? && "" !in s
    else
      Found(s, TableOf(cmd)) && !JoinMissing(s, cmd)
      && (PayloadMissing(cmd) || WhereOf(cmd).Malformed? || (UsesTable(cmd) && TableOf(cmd) !in s))
  }

  /** Puts `tbl` under the name `t` in the active database. */
  function Put(e: GoState, t: string, tbl: Table<string>): (r: GoState)
    requires Inv(e, GoKey) && Consistent(tbl, GoKey)
    ensures Inv(r, GoKey)
    ensures r == WithStore(e, Active(e)[t := tbl])
  {
    WithStoreKeepsInv(e, Active(e)[t := tbl], GoKey);
    WithStore(e, Active(e)[t := tbl])
  }

  /** `Execute`: one parsed command against the state, giving the new state and the output lines. */
  function GoExecute(e: GoState, p: Parsed, star: Row -> seq<string>): (r: Outcome<(GoState, seq<string>)>)
    requires Inv(e, GoKey)
    ensures r.Done? ==> Inv(r.value.0, GoKey) && r.value.1 != []
  {
    match p.cmd
    case Empty => Done((e, [""]))
    case CreateDatabase(name) =>
      ActivateKeepsInv(e, name, GoKey);
      Done((Activate(e, name), [Ready(name)]))
    case AlterDatabase(name) =>
      ActivateKeepsInv(e, name, GoKey);
      Done((Activate(e, name), [Using(name)]))
    case UseDatabase(name) =>
      if name !in e.dbs then Done((e, [DatabaseNotFound(name)]))
      else Done((e.(active := name), [Using(name)]))
    case _ => GoTableCommand(e, p, star)
  }

  /** The commands after `store := e.databases[e.activeDB]`. */
  function GoTableCommand(e: GoState, p: Parsed, star: Row -> seq<string>): (r: Outcome<(GoState, seq<string>)>)
    requires Inv(e, GoKey)
    requires !p.cmd.CreateDatabase? && !p.cmd.AlterDatabase? && !p.cmd.UseDatabase?
    ensures r.Done? ==> Inv(r.value.0, GoKey) && r.value.1 != []
  {
    var t := TableOf(p.cmd);
    if p.cmd.CreateTable? then GoCreateTable(e, p.cmd.create)
    else if !Found(Active(e), t) then Done((e, [TableNotFound(t)]))
    else GoStoreCommand(e, p, star)
  }

  /** CREATE TABLE: refused for an existing name, else `extractColumns` and an empty table. */
  function GoCreateTable(e: GoState, spec: Option<CreateTableSpec>): (r: Outcome<(GoState, seq<string>)>)
    requires Inv(e, GoKey)
    ensures r.Fault? <==> spec.None? && "" !in Active(e)
    ensures r.Done? ==> Inv(r.value.0, GoKey) && |r.value.1| == 1
  {
    var t := if spec.Some? then spec.value.table else "";
    if t in Active(e) then Done((e, [AlreadyExists(t)]))
    else if spec.None? then Fault(NIL_CONVERSION)
    else
      NewTableConsistent<string>(ColumnNames(spec.value.columns), GoKey);
      Done((Put(e, t, NewTable(ColumnNames(spec.value.columns))), [Created(t)]))
  }

  /** The `switch` on the command once the table, if named, is known to exist. */
  function GoStoreCommand(e: GoState, p: Parsed, star: Row -> seq<string>): (r: Outcome<(GoState, seq<string>)>)
    requires Inv(e, GoKey) && Found(Active(e), TableOf(p.cmd))
    requires !p.cmd.CreateDatabase? && !p.cmd.AlterDatabase? && !p.cmd.UseDatabase? && !p.cmd.CreateTable?
    ensures r.Done? ==> Inv(r.value.0, GoKey) && r.value.1 != []
  {
    if IsSchema(p.cmd) then GoSchemaCommand(e, p.cmd)
    else if IsDml(p.cmd) then GoDmlCommand(e, p.cmd)
    else GoOtherCommand(e, p, star)
  }

  /** SELECT, COMMIT and the commands no branch handles. */
  function GoOtherCommand(e: GoState, p: Parsed, star: Row -> seq<string>): (r: Outcome<(GoState, seq<string>)>)
    requires Inv(e, GoKey) && Found(Active(e), TableOf(p.cmd)) && !IsSchema(p.cmd) && !IsDml(p.cmd)
    requires !p.cmd.CreateDatabase? && !p.cmd.AlterDatabase? && !p.cmd.UseDatabase? && !p.cmd.CreateTable?
    ensures p.cmd.Select? ==> (r.Fault? <==> p.cmd.select.None? || (!JoinMissing(Active(e), p.cmd) && (p.cmd.select.value.where.Malformed? || p.cmd.select.value.table !in Active(e))))
    ensures !p.cmd.Select? ==> r.Done?
    ensures r.Done? ==> Inv(r.value.0, GoKey) && r.value.1 != []
  {
    match p.cmd
    case Select(spec) => GoSelect(e, spec, star)
    case Commit =>
      var (e', out) := CommitStep(e);
      Done((e', out))
    case _ => Done((e, [NotUnderstood(p.raw)]))
  }

  /** The schema commands: ALTER TABLE, DROP TABLE, CREATE INDEX and DROP INDEX. */
  function GoSchemaCommand(e: GoState, cmd: Command): (r: Outcome<(GoState, seq<string>)>)
    requires Inv(e, GoKey)
    requires IsSchema(cmd)
    ensures cmd.AlterTable? ==> (r.Fault? <==> cmd.alter.None? || cmd.alter.value.table !in Active(e))
    ensures cmd.CreateIndex? ==> (r.Fault? <==> cmd.table !in Active(e))
    ensures cmd.DropTable? || cmd.DropIndex? ==> r.Done?
    ensures r.Done? ==> Inv(r.value.0, GoKey) && r.value.0.log == e.log && |r.value.1| == 1
  {
    var t := TableOf(cmd);
    match cmd
    case AlterTable(spec) => GoAlterTable(e, spec)
    case DropTable(_) => GoDropTable(e, t)
    case CreateIndex(_, c) => GoCreateIndex(e, t, c)
    case DropIndex(_, c) => GoDropIndex(e, t, c)
  }

  /** DROP TABLE: removes the name from the active database, present or not. */
  function GoDropTable(e: GoState, t: string): (r: Outcome<(GoState, seq<string>)>)
    requires Inv(e, GoKey)
    ensures r.Done? && Inv(r.value.0, GoKey) && |r.value.1| == 1
  {
    WithStoreKeepsInv(e, Active(e) - {t}, GoKey);
    Done((WithStore(e, Active(e) - {t}), [Dropped(t)]))
  }

  /** CREATE INDEX: `CreateIndex` dereferences the table, so an absent one panics. */
  function GoCreateIndex(e: GoState, t: string, c: string): (r: Outcome<(GoState, seq<string>)>)
    requires Inv(e, GoKey)
    ensures r.Fault? <==> t !in Active(e)
    ensures r.Done? ==> Inv(r.value.0, GoKey) && |r.value.1| == 1
  {
    if t !in Active(e) then Fault(NIL_POINTER)
    else Done((Put(e, t, Tables.CreateIndex(Active(e)[t], c, GoKey)), [IndexBuilt(t, c)]))
  }

  /** DROP INDEX: `DropIndex` checks for the table itself, so an absent one changes nothing. */
  function GoDropIndex(e: GoState, t: string, c: string): (r: Outcome<(GoState, seq<string>)>)
    requires Inv(e, GoKey)
    ensures r.Done? && Inv(r.value.0, GoKey) && |r.value.1| == 1
  {
    if t !in Active(e) then Done((e, [IndexRemoved(t, c)]))
    else
      DropThenCreateIndex(Active(e)[t], c, GoKey);
      Done((Put(e, t, Tables.DropIndex(Active(e)[t], c)), [IndexRemoved(t, c)]))
  }

  /** ALTER TABLE: `details["column"]`, then `AddColumn` on the table. */
  function GoAlterTable(e: GoState, spec: Option<AlterTableSpec>): (r: Outcome<(GoState, seq<string>)>)
    requires Inv(e, GoKey)
    ensures r.Fault? <==> spec.None? || spec.value.table !in Active(e)
    ensures r.Done? ==> Inv(r.value.0, GoKey) && |r.value.1| == 1
  {
    if spec.None? then Fault(NIL_CONVERSION)
    else if spec.value.table !in Active(e) then Fault(NIL_POINTER)
    else
      var (t, c) := (spec.value.table, spec.value.column.name);
      AddColumnConsistentIdempotent(Active(e)[t], c, GoKey);
      Done((Put(e, t, AddColumn(Active(e)[t], c, GoKey)), [ColumnAdded(c, t)]))
  }

  /** The data commands INSERT, UPDATE and DELETE. */
  function GoDmlCommand(e: GoState, cmd: Command): (r: Outcome<(GoState, seq<string>)>)
    requires Inv(e, GoKey) && IsDml(cmd)
    ensures cmd.Insert? ==> (r.Fault? <==> cmd.insert.None? || cmd.insert.value.table !in Active(e))
    ensures cmd.Update? ==> (r.Fault? <==> cmd.update.None? || cmd.update.value.where.Malformed? || cmd.update.value.table !in Active(e))
    ensures cmd.Delete? ==> (r.Fault? <==> (cmd.delete.Some? && cmd.delete.value.where.Malformed?) || (if cmd.delete.Some? then cmd.delete.value.table else "") !in Active(e))
    ensures r.Done? ==> Inv(r.value.0, GoKey) && |r.value.1| == 1
  {
    match cmd
    case Insert(spec) => GoInsert(e, spec)
    case Update(spec) => GoUpdate(e, spec)
    case Delete(spec) => GoDelete(e, spec)
  }

  /** INSERT: `details["values"]`, then `InsertRow` on the table, then one log entry with the row. */
  function GoInsert(e: GoState, spec: Option<InsertSpec>): (r: Outcome<(GoState, seq<string>)>)
    requires Inv(e, GoKey)
    ensures r.Fault? <==> spec.None? || spec.value.table !in Active(e)
    ensures r.Done? ==> Inv(r.value.0, GoKey) && r.value.1 == [INSERTED]
  {
    if spec.None? then Fault(NIL_CONVERSION)
    else if spec.value.table !in Active(e) then Fault(NIL_POINTER)
    else
      var t := spec.value.table;
      var (tbl, row) := InsertRow(Active(e)[t], spec.value.values, GoKey);
      InsertKeepsConsistent(Active(e)[t], spec.value.values, GoKey);
      Done((Logged(Put(e, t, tbl), "INSERT", RowDetail(row)), [INSERTED]))
  }

  /**
   * The condition a Go storage call receives: none, one equality, or a panic on the
   * empty map of a condition without `=`.
   */
  function GoCondition(w: Where): Outcome<Option<Condition>> {
    match w
    case NoWhere => Done(None)
    case Cond(c) => Done(Some(c))
    case Malformed => Fault(NIL_CONVERSION)
  }

  /** UPDATE: `details["assignments"]`, then `UpdateRows`, then one log entry with the count. */
  function GoUpdate(e: GoState, spec: Option<UpdateSpec>): (r: Outcome<(GoState, seq<string>)>)
    requires Inv(e, GoKey)
    ensures r.Fault? <==> spec.None? || spec.value.where.Malformed? || spec.value.table !in Active(e)
    ensures r.Done? ==> Inv(r.value.0, GoKey) && |r.value.1| == 1
  {
    if spec.None? then Fault(NIL_CONVERSION)
    else
      match GoCondition(spec.value.where)
      case Fault(m) => Fault(m)
      case Done(where) =>
        var t := spec.value.table;
        if t !in Active(e) then Fault(NIL_POINTER)
        else
          var (tbl, n) := UpdateRows(Active(e)[t], spec.value.assignments, where, GoKey);
          Done((Logged(Put(e, t, tbl), "UPDATE", CountDetail(n)), [Updated(n)]))
  }

  /** DELETE: `DeleteRows` (a missing payload reads the table "" with no condition), then one log entry. */
  function GoDelete(e: GoState, spec: Option<DeleteSpec>): (r: Outcome<(GoState, seq<string>)>)
    requires Inv(e, GoKey)
    ensures r.Fault? <==> (spec.Some? && spec.value.where.Malformed?) || (if spec.Some? then spec.value.table else "") !in Active(e)
    ensures r.Done? ==> Inv(r.value.0, GoKey) && |r.value.1| == 1
  {
    var t := if spec.Some? then spec.value.table else "";
    match GoCondition(if spec.Some? then spec.value.where else NoWhere)
    case Fault(m) => Fault(m)
    case Done(where) =>
      if t !in Active(e) then Fault(NIL_POINTER)
      else
        var (tbl, n) := DeleteRows(Active(e)[t], where, GoKey);
        Done((Logged(Put(e, t, tbl), "DELETE", CountDetail(n)), [Deleted(n)]))
  }

  /**
   * SELECT: a missing join table is reported first; otherwise the rows of
   * `SelectRows` (which for a join may build the right table's index) are rendered.
   */
  function GoSelect(e: GoState, spec: Option<SelectSpec>, star: Row -> seq<string>): (r: Outcome<(GoState, seq<string>)>)
    requires Inv(e, GoKey)
    ensures r.Fault? <==> spec.None? || (!JoinMissing(Active(e), Select(spec)) && (spec.value.where.Malformed? || spec.value.table !in Active(e)))
    ensures r.Done? ==> Inv(r.value.0, GoKey) && r.value.1 != []
  {
    if spec.None? then Fault(NIL_CONVERSION)
    else
      var q := spec.value;
      var s := Active(e);
      if q.join.Some? && q.join.value.table !in s then Done((e, [TableNotFound(q.join.value.table)]))
      else
        match GoCondition(q.where)
        case Fault(m) => Fault(m)
        case Done(where) =>
          if q.table !in s then Fault(NIL_POINTER)
          else if q.join.None? then
            Done((e, FormatRows(SelectRows(s[q.table], q.columns, where, GoKey, AfterLastDot), q.columns, star, GoShow)))
          else
            var (s', rows) := JoinRows(s, q.table, q.columns, where, q.join.value, GoKey);
            JoinKeepsConsistent(s, q.table, q.columns, where, q.join.value, GoKey);
            WithStoreKeepsInv(e, s', GoKey);
            Done((WithStore(e, s'), FormatRows(rows, q.columns, star, GoShow)))
  }

  // ---------------------------------------------------------------------------
  // Properties of the dispatch
  // ---------------------------------------------------------------------------

  /** A run panics exactly in the cases `GoPanics` names; every other run answers. */
  lemma GoFaultsExactly(e: GoState, p: Parsed, star: Row -> seq<string>)
    requires Inv(e, GoKey)
    ensures GoExecute(e, p, star).Fault? <==> GoPanics(Active(e), p.cmd)
  {
    var r := GoExecute(e, p, star);
    if p.cmd.Empty? || p.cmd.CreateDatabase? || p.cmd.AlterDatabase? || p.cmd.UseDatabase? {
    } else if p.cmd.CreateTable? {
      assert r == GoCreateTable(e, p.cmd.create);
    } else if Found(Active(e), TableOf(p.cmd)) {
      assert r == GoStoreCommand(e, p, star);
      GoStoreFaults(e, p, star);
    }
  }

  /** The same past the existence check, category by category. */
  lemma GoStoreFaults(e: GoState, p: Parsed, star: Row -> seq<string>)
    requires Inv(e, GoKey) && Found(Active(e), TableOf(p.cmd))
    requires !p.cmd.CreateDatabase? && !p.cmd.AlterDatabase? && !p.cmd.UseDatabase? && !p.cmd.CreateTable?
    ensures GoStoreCommand(e, p, star).Fault? <==> GoPanics(Active(e), p.cmd)
  {
    if IsSchema(p.cmd) {
      assert GoStoreCommand(e, p, star) == GoSchemaCommand(e, p.cmd);
      GoSchemaFaults(e, p.cmd);
    } else if IsDml(p.cmd) {
      assert GoStoreCommand(e, p, star) == GoDmlCommand(e, p.cmd);
      GoDmlFaults(e, p.cmd);
    } else {
      assert GoStoreCommand(e, p, star) == GoOtherCommand(e, p, star);
    }
  }

  lemma GoSchemaFaults(e: GoState, cmd: Command)
    requires Inv(e, GoKey) && IsSchema(cmd) && Found(Active(e), TableOf(cmd))
    ensures GoSchemaCommand(e, cmd).Fault? <==> GoPanics(Active(e), cmd)
  {
    var s := Active(e);
    match cmd
    case AlterTable(spec) =>
      assert GoPanics(s, cmd) <==> spec.None? || spec.value.table !in s;
    case CreateIndex(t, _) =>
      assert TableOf(cmd) == t && !PayloadMissing(cmd) && UsesTable(cmd);
    case DropTable(t) =>
      assert !UsesTable(cmd) && !PayloadMissing(cmd) && !GoPanics(s, cmd);
    case DropIndex(t, _) =>
      assert !UsesTable(cmd) && !PayloadMissing(cmd) && !GoPanics(s, cmd);
  }

  lemma GoDmlFaults(e: GoState, cmd: Command)
    requires Inv(e, GoKey) && IsDml(cmd) && Found(Active(e), TableOf(cmd))
    ensures GoDmlCommand(e, cmd).Fault? <==> GoPanics(Active(e), cmd)
  {
    var s := Active(e);
    match cmd
    case Insert(spec) =>
      assert GoPanics(s, cmd) <==> spec.None? || spec.value.table !in s;
    case Update(spec) =>
      assert TableOf(cmd) == (if spec.Some? then spec.value.table else "") && UsesTable(cmd);
    case Delete(spec) =>
      assert TableOf(cmd) == (if spec.Some? then spec.value.table else "") && UsesTable(cmd);
  }

  /**
   * CREATE DATABASE and ALTER DATABASE create the database only when it is new,
   * leave every existing database and the log as they were, and make it active.
   */
  lemma GoActivatesDatabase(e: GoState, p: Parsed, star: Row -> seq<string>)
    requires Inv(e, GoKey) && (p.cmd.CreateDatabase? || p.cmd.AlterDatabase?)
    ensures var r := GoExecute(e, p, star);
      r.Done? && r.value.0.active == p.cmd.name && r.value.0.dbs.Keys == e.dbs.Keys + {p.cmd.name}
      && (forall d :: d in e.dbs ==> r.value.0.dbs[d] == e.dbs[d])
      && (p.cmd.name !in e.dbs ==> r.value.0.dbs[p.cmd.name] == map[])
      && r.value.0.log == e.log
  {
  }

  /** Running CREATE DATABASE a second time changes nothing further. */
  lemma GoCreateDatabaseIdempotent(e: GoState, p: Parsed, star: Row -> seq<string>)
    requires Inv(e, GoKey) && p.cmd.CreateDatabase?
    ensures GoExecute(e, p, star).Done?
    ensures GoExecute(GoExecute(e, p, star).value.0, p, star) == GoExecute(e, p, star)
  {
    var e1 := GoExecute(e, p, star).value.0;
    ActivateIdempotent(e, p.cmd.name);
    assert e1 == Activate(e, p.cmd.name);
  }

  /** USE switches to a known database and leaves everything else; an unknown name changes nothing. */
  lemma GoUseDatabase(e: GoState, p: Parsed, star: Row -> seq<string>)
    requires Inv(e, GoKey) && p.cmd.UseDatabase?
    ensures p.cmd.name !in e.dbs ==> GoExecute(e, p, star) == Done((e, [DatabaseNotFound(p.cmd.name)]))
    ensures p.cmd.name in e.dbs ==> GoExecute(e, p, star) == Done((e.(active := p.cmd.name), [Using(p.cmd.name)]))
  {
  }

  /**
   * The refusals: CREATE TABLE of an existing table, a named table missing from the
   * active database, or a missing join table. Each answers with one line and leaves
   * the state, log included, exactly as it was.
   */
  lemma GoRefusalsChangeNothing(e: GoState, p: Parsed, star: Row -> seq<string>)
    requires Inv(e, GoKey) && !p.cmd.CreateDatabase? && !p.cmd.AlterDatabase? && !p.cmd.UseDatabase?
    ensures p.cmd.CreateTable? && TableOf(p.cmd) in Active(e) ==>
      GoExecute(e, p, star) == Done((e, [AlreadyExists(TableOf(p.cmd))]))
    ensures !p.cmd.CreateTable? && !Found(Active(e), TableOf(p.cmd)) ==>
      GoExecute(e, p, star) == Done((e, [TableNotFound(TableOf(p.cmd))]))
    ensures Found(Active(e), TableOf(p.cmd)) && JoinMissing(Active(e), p.cmd) ==>
      GoExecute(e, p, star) == Done((e, [TableNotFound(p.cmd.select.value.join.value.table)]))
  {
  }

  /** CREATE TABLE of a new name adds an empty table with the payload's column names, and nothing else. */
  lemma GoCreatesTable(e: GoState, p: Parsed, star: Row -> seq<string>)
    requires Inv(e, GoKey) && p.cmd.CreateTable? && p.cmd.create.Some? && p.cmd.create.value.table !in Active(e)
    ensures var r := GoExecute(e, p, star);
      r.Done? && r.value.1 == [Created(p.cmd.create.value.table)]
      && r.value.0 == WithStore(e, Active(e)[p.cmd.create.value.table := NewTable(ColumnNames(p.cmd.create.value.columns))])
  {
  }

  /**
   * The log discipline for INSERT, UPDATE and DELETE: one that gets past the
   * existence check appends exactly one entry, tagged with the active database and
   * its verb, and nothing before it moves.
   */
  lemma GoDmlLogsOnce(e: GoState, p: Parsed, star: Row -> seq<string>)
    requires Inv(e, GoKey) && GoExecute(e, p, star).Done?
    requires IsDml(p.cmd) && Found(Active(e), TableOf(p.cmd))
    ensures var l := GoExecute(e, p, star).value.0.log;
      |l.segments| == |e.log.segments| + 1 && l.segments[..|e.log.segments|] == e.log.segments
      && l.segments[|e.log.segments|].db == e.active && l.segments[|e.log.segments|].command == Verb(p.cmd)
  {
    assert GoExecute(e, p, star) == GoTableCommand(e, p, star);
    assert GoTableCommand(e, p, star) == GoStoreCommand(e, p, star);
    assert GoStoreCommand(e, p, star) == GoDmlCommand(e, p.cmd);
    GoDmlCommandLogsOnce(e, p.cmd);
  }

  /** The step of `GoDmlLogsOnce` past the dispatch: each verb appends its one entry. */
  lemma GoDmlCommandLogsOnce(e: GoState, cmd: Command)
    requires Inv(e, GoKey) && IsDml(cmd) && GoDmlCommand(e, cmd).Done?
    ensures var l := GoDmlCommand(e, cmd).value.0.log;
      |l.segments| == |e.log.segments| + 1 && l.segments[..|e.log.segments|] == e.log.segments
      && l.segments[|e.log.segments|].db == e.active && l.segments[|e.log.segments|].command == Verb(cmd)
  {
    var r := GoDmlCommand(e, cmd);
    match cmd
    case Insert(spec) => assert r == GoInsert(e, spec);
    case Update(spec) => assert r == GoUpdate(e, spec);
    case Delete(spec) => assert r == GoDelete(e, spec);
  }

  /** Every command other than COMMIT and a DML command past the existence check leaves the log alone. */
  lemma GoOthersKeepLog(e: GoState, p: Parsed, star: Row -> seq<string>)
    requires Inv(e, GoKey) && GoExecute(e, p, star).Done?
    requires !p.cmd.Commit? && !(IsDml(p.cmd) && Found(Active(e), TableOf(p.cmd)))
    ensures GoExecute(e, p, star).value.0.log == e.log
  {
  }

  /** COMMIT alone: the log is emptied and its length reported; the catalog stays. */
  lemma GoCommit(e: GoState, c: Parsed, star: Row -> seq<string>)
    requires Inv(e, GoKey) && c.cmd.Commit?
    ensures GoExecute(e, c, star) == Done((e.(log := CommitLog.Empty()), [Committed(Pending(e.log))]))
  {
  }

  /** A COMMIT right after a successful INSERT, UPDATE or DELETE reports one more entry than was pending. */
  lemma GoCommitCountsDml(e: GoState, p: Parsed, c: Parsed, star: Row -> seq<string>)
    requires Inv(e, GoKey) && IsDml(p.cmd) && Found(Active(e), TableOf(p.cmd))
    requires GoExecute(e, p, star).Done? && c.cmd.Commit?
    ensures GoExecute(GoExecute(e, p, star).value.0, c, star) == Done((GoExecute(e, p, star).value.0.(log := CommitLog.Empty()), [Committed(Pending(e.log) + 1)]))
  {
    var e1 := GoExecute(e, p, star).value.0;
    GoDmlLogsOnce(e, p, star);
    assert Pending(e1.log) == Pending(e.log) + 1;
    GoCommit(e1, c, star);
  }

  /** A successful INSERT stores the built row at the end of its table. */
  lemma GoInsertAppends(e: GoState, t: string, values: seq<Value>, raw: string, star: Row -> seq<string>)
    requires Inv(e, GoKey) && t in Active(e)
    ensures var r := GoExecute(e, Parsed(Insert(Some(InsertSpec(t, values))), raw), star);
      r.Done? && r.value.1 == [INSERTED] && t in Active(r.value.0)
      && Active(r.value.0)[t] == InsertRow(Active(e)[t], values, GoKey).0
  {
  }

  /** `SELECT *` without a condition or join renders every row of the table, in order. */
  lemma GoSelectAll(e: GoState, t: string, raw: string, star: Row -> seq<string>)
    requires Inv(e, GoKey) && t in Active(e)
    ensures GoExecute(e, Parsed(Select(Some(SelectSpec(t, ["*"], NoWhere, None))), raw), star)
      == Done((e, FormatRows(Active(e)[t].rows, ["*"], star, GoShow)))
  {
    assert SelectRows(Active(e)[t], ["*"], None, GoKey, AfterLastDot) == Active(e)[t].rows;
  }

  /** After an INSERT, `SELECT *` without a condition shows the old rows followed by the built row. */
  lemma GoInsertThenSelectAll(e: GoState, t: string, values: seq<Value>, raw1: string, raw2: string, star: Row -> seq<string>)
    requires Inv(e, GoKey) && t in Active(e)
    ensures var r1 := GoExecute(e, Parsed(Insert(Some(InsertSpec(t, values))), raw1), star);
      r1.Done? && r1.value.1 == [INSERTED]
      && GoExecute(r1.value.0, Parsed(Select(Some(SelectSpec(t, ["*"], NoWhere, None))), raw2), star)
         == Done((r1.value.0, FormatRows(Active(e)[t].rows + [BuildRow(Active(e)[t].columns, values)], ["*"], star, GoShow)))
  {
    GoInsertAppends(e, t, values, raw1, star);
    var e1 := GoExecute(e, Parsed(Insert(Some(InsertSpec(t, values))), raw1), star).value.0;
    GoSelectAll(e1, t, raw2, star);
  }

  /** A DELETE with a condition keeps exactly the table's non-matching rows, in order. */
  lemma GoDeleteKeeps(e: GoState, t: string, cond: Condition, raw: string, star: Row -> seq<string>)
    requires Inv(e, GoKey) && t in Active(e)
    ensures var r := GoExecute(e, Parsed(Delete(Some(DeleteSpec(t, Cond(cond)))), raw), star);
      r.Done? && t in Active(r.value.0) && Active(r.value.0)[t].rows == NotMatching(Active(e)[t].rows, cond, GoKey)
  {
  }

  /** A SELECT with a condition and no join renders the matching rows, shaped by the requested columns. */
  lemma GoSelectWhere(e: GoState, t: string, cond: Condition, columns: seq<string>, raw: string, star: Row -> seq<string>)
    requires Inv(e, GoKey) && t in Active(e)
    ensures GoExecute(e, Parsed(Select(Some(SelectSpec(t, columns, Cond(cond), None))), raw), star)
      == Done((e, FormatRows(Shape(Matching(Active(e)[t].rows, cond, GoKey), columns, AfterLastDot), columns, star, GoShow)))
  {
    var q := SelectSpec(t, columns, Cond(cond), None);
    var p := Parsed(Select(Some(q)), raw);
    assert GoExecute(e, p, star) == GoTableCommand(e, p, star);
    assert Found(Active(e), t);
    assert GoTableCommand(e, p, star) == GoStoreCommand(e, p, star);
    assert GoStoreCommand(e, p, star) == GoOtherCommand(e, p, star);
    assert GoOtherCommand(e, p, star) == GoSelect(e, Some(q), star);
    var rows := SelectRows(Active(e)[t], columns, Some(cond), GoKey, AfterLastDot);
    assert rows == Shape(Matching(Active(e)[t].rows, cond, GoKey), columns, AfterLastDot);
  }

  /** After `DELETE ... WHERE c = v`, a SELECT with the same condition finds no rows. */
  lemma GoDeleteThenSelectEmpty(e: GoState, t: string, cond: Condition, columns: seq<string>, raw1: string, raw2: string, star: Row -> seq<string>)
    requires Inv(e, GoKey) && t in Active(e)
    ensures var r1 := GoExecute(e, Parsed(Delete(Some(DeleteSpec(t, Cond(cond)))), raw1), star);
      r1.Done?
      && GoExecute(r1.value.0, Parsed(Select(Some(SelectSpec(t, columns, Cond(cond), None))), raw2), star)
         == Done((r1.value.0, [NO_ROWS]))
  {
    GoDeleteKeeps(e, t, cond, raw1, star);
    var e1 := GoExecute(e, Parsed(Delete(Some(DeleteSpec(t, Cond(cond)))), raw1), star).value.0;
    NoneMatching(Active(e1)[t].rows, cond, GoKey);
    GoSelectWhere(e1, t, cond, columns, raw2, star);
  }

  /**
   * A condition without `=` reaches Go's storage as an empty map and panics, whatever
   * the table holds: the DELETE crashes instead of deleting.
   */
  lemma GoMalformedConditionPanics(e: GoState, t: string, raw: string, star: Row -> seq<string>)
    requires Inv(e, GoKey) && t in Active(e)
    ensures GoExecute(e, Parsed(Delete(Some(DeleteSpec(t, Malformed))), raw), star) == Fault(NIL_CONVERSION)
  {
  }

  /** The empty ALTER TABLE payload of a six-token statement reaches a type assertion on a missing column. */
  lemma GoEmptyAlterPanics(e: GoState, raw: string, star: Row -> seq<string>)
    requires Inv(e, GoKey)
    ensures GoExecute(e, Parsed(AlterTable(None), raw), star) == Fault(NIL_CONVERSION)
  {
  }
}
