/**
 * What the three `SQLExecutor`s share: the catalog of databases, the active
 * database and the commit log; the status lines; `ensureDatabase`; the row
 * rendering of `formatRows`; and the sorted database listing.
 *
 * A database is a table store keyed by table name. The store is generic in the
 * index key, so each implementation instantiates it with its own key function.
 */
module Executors {
  import opened Base
  import opened Values
  import opened Decimal
  import Strings
  import opened Commands
  import opened Tables
  import opened CommitLog
  import opened Sorting

  type Store<K> = map<string, Table<K>>

  /** What a log entry carries besides its database and verb. */
  datatype Detail = RowDetail(row: Row) | CountDetail(count: nat) | TableDetail(table: string)

  /** `LogEntry`: the database it happened in, the verb, and the inserted row or the row count. */
  datatype Entry = Entry(db: string, command: string, detail: Detail)

  /** The executor state: every database by name, the active one, and the commit log. */
  datatype Executor<K> = Executor(dbs: map<string, Store<K>>, active: string, log: Log<Entry>)

  /** Every index of every table equals a full rebuild from that table's rows. */
  ghost predicate StoreOk<K(!new)>(s: Store<K>, key: KeyFn<K>) {
    forall t :: t in s ==> Consistent(s[t], key)
  }

  /**
   * The state the constructors establish and every command keeps: the active
   * database exists, and all stores are consistent.
   */
  ghost predicate Inv<K(!new)>(e: Executor<K>, key: KeyFn<K>) {
    e.active in e.dbs && forall d :: d in e.dbs ==> StoreOk(e.dbs[d], key)
  }

  /** The store of the active database. */
  function Active<K>(e: Executor<K>): Store<K>
    requires e.active in e.dbs
  {
    e.dbs[e.active]
  }

  /** Replaces the active database's store; the others and the log stay. */
  function WithStore<K>(e: Executor<K>, s: Store<K>): (r: Executor<K>)
    requires e.active in e.dbs
    ensures r.active == e.active && r.log == e.log && r.dbs.Keys == e.dbs.Keys
    ensures Active(r) == s
    ensures forall d :: d in e.dbs && d != e.active ==> r.dbs[d] == e.dbs[d]
  {
    e.(dbs := e.dbs[e.active := s])
  }

  lemma WithStoreKeepsInv<K(!new)>(e: Executor<K>, s: Store<K>, key: KeyFn<K>)
    requires Inv(e, key) && StoreOk(s, key)
    ensures Inv(WithStore(e, s), key)
  {
  }

  /** `ensureDatabase` / `_ensure_database` / `ensure_database`: an empty store only for a new name. */
  function EnsureDatabase<K>(dbs: map<string, Store<K>>, name: string): (r: map<string, Store<K>>)
    ensures r.Keys == dbs.Keys + {name}
    ensures forall d :: d in dbs ==> r[d] == dbs[d]
    ensures name !in dbs ==> r[name] == map[]
  {
    if name in dbs then dbs else dbs[name := map[]]
  }

  /** CREATE DATABASE and ALTER DATABASE: ensure the database, then make it active. */
  function Activate<K>(e: Executor<K>, name: string): (r: Executor<K>)
    ensures r.active == name && r.log == e.log && r.dbs == EnsureDatabase(e.dbs, name)
  {
    e.(dbs := EnsureDatabase(e.dbs, name), active := name)
  }

  lemma ActivateKeepsInv<K(!new)>(e: Executor<K>, name: string, key: KeyFn<K>)
    requires Inv(e, key)
    ensures Inv(Activate(e, name), key)
  {
  }

  /** Activating twice is activating once. */
  lemma ActivateIdempotent<K>(e: Executor<K>, name: string)
    ensures Activate(Activate(e, name), name) == Activate(e, name)
  {
  }

  /** A table freshly created with the given column names: no rows, no indexes. */
  function NewTable<K>(columns: seq<string>): (t: Table<K>)
    ensures t.columns == columns && t.rows == [] && t.indexes == map[]
  {
    Table(columns, [], map[])
  }

  lemma NewTableConsistent<K(!new)>(columns: seq<string>, key: KeyFn<K>)
    ensures Consistent(NewTable<K>(columns), key)
  {
  }

  /** The column names of a CREATE TABLE payload, in order (`extractColumns`). */
  function ColumnNames(defs: seq<ColumnDef>): (r: seq<string>)
    ensures |r| == |defs|
    ensures forall i :: 0 <= i < |defs| ==> r[i] == defs[i].name
  {
    seq(|defs|, i requires 0 <= i < |defs| => defs[i].name)
  }

  // ---------------------------------------------------------------------------
  // The fields of a payload as the untyped executors read them
  // ---------------------------------------------------------------------------

  /**
   * `details["table"]` (Go) and `details.get("table")` (Python): the named table,
   * or the empty name when the payload is missing or has no table.
   */
  function TableOf(cmd: Command): string {
    match cmd
    case CreateTable(spec) => if spec.Some? then spec.value.table else ""
    case AlterTable(spec) => if spec.Some? then spec.value.table else ""
    case DropTable(t) => t
    case CreateIndex(t, _) => t
    case DropIndex(t, _) => t
    case Insert(spec) => if spec.Some? then spec.value.table else ""
    case Update(spec) => if spec.Some? then spec.value.table else ""
    case Delete(spec) => if spec.Some? then spec.value.table else ""
    case Select(spec) => if spec.Some? then spec.value.table else ""
    case _ => ""
  }

  /** The WHERE clause of a payload; a missing payload has none. */
  function WhereOf(cmd: Command): Where {
    match cmd
    case Update(spec) => if spec.Some? then spec.value.where else NoWhere
    case Delete(spec) => if spec.Some? then spec.value.where else NoWhere
    case Select(spec) => if spec.Some? then spec.value.where else NoWhere
    case _ => NoWhere
  }

  /**
   * The condition a Python or Rust storage call receives: Python's `if not where`
   * treats an empty condition map like no condition, and Rust never builds one.
   */
  function ConditionOf(w: Where): (r: Option<Condition>)
    ensures r.Some? <==> w.Cond?
    ensures r.Some? ==> r.value == w.cond
  {
    if w.Cond? then Some(w.cond) else None
  }

  /** The guard `table != ""` / `if table and`: an unnamed table skips the existence check. */
  predicate Found<K>(s: Store<K>, t: string) {
    t == "" || t in s
  }

  /** A SELECT whose join table is missing: it stops at the join check. */
  predicate JoinMissing<K>(s: Store<K>, cmd: Command) {
    cmd.Select? && cmd.select.Some? && cmd.select.value.join.Some? && cmd.select.value.join.value.table !in s
  }

  /** The commands whose branch reads the table's metadata. */
  predicate UsesTable(cmd: Command) {
    cmd.AlterTable? || cmd.CreateIndex? || cmd.Insert? || cmd.Update? || cmd.Delete? || cmd.Select?
  }

  /** The payload-bearing commands whose branch reads a field that a missing payload lacks. */
  predicate PayloadMissing(cmd: Command) {
    (cmd.AlterTable? && cmd.alter.None?) || (cmd.Insert? && cmd.insert.None?)
    || (cmd.Update? && cmd.update.None?) || (cmd.Select? && cmd.select.None?)
  }

  /** ALTER TABLE, DROP TABLE, CREATE INDEX and DROP INDEX: the commands that change a table's schema. */
  predicate IsSchema(cmd: Command) {
    cmd.AlterTable? || cmd.DropTable? || cmd.CreateIndex? || cmd.DropIndex?
  }

  /** INSERT, UPDATE and DELETE: the commands that write a log entry. */
  predicate IsDml(cmd: Command) {
    cmd.Insert? || cmd.Update? || cmd.Delete?
  }

  /** The verb a log entry records. */
  function Verb(cmd: Command): string {
    if cmd.Insert? then "INSERT" else if cmd.Update? then "UPDATE" else "DELETE"
  }

  /** Appends `Entry(active, verb, detail)` to the log; nothing else changes. */
  function Logged<K>(e: Executor<K>, verb: string, detail: Detail): (r: Executor<K>)
    ensures r.dbs == e.dbs && r.active == e.active
    ensures r.log == Append(e.log, Entry(e.active, verb, detail))
  {
    e.(log := Append(e.log, Entry(e.active, verb, detail)))
  }

  // ---------------------------------------------------------------------------
  // Status lines
  // ---------------------------------------------------------------------------

  function Ready(name: string): string { "Database '" + name + "' ready." }
  function Using(name: string): string { "Using database '" + name + "'." }
  function DatabaseNotFound(name: string): string { "Database '" + name + "' not found." }
  function AlreadyExists(t: string): string { "Table '" + t + "' already exists." }
  function Created(t: string): string { "Table '" + t + "' created." }
  function TableNotFound(t: string): string { "Table '" + t + "' not found." }
  function ColumnAdded(c: string, t: string): string { "Column '" + c + "' added to '" + t + "'." }
  function Dropped(t: string): string { "Table '" + t + "' dropped." }
  function IndexBuilt(t: string, c: string): string { "Index on " + t + "." + c + " built." }
  function IndexRemoved(t: string, c: string): string { "Index on " + t + "." + c + " removed." }
  const INSERTED: string := "1 row inserted."
  function Updated(n: nat): string { NatToString(n) + " row(s) updated." }
  function Deleted(n: nat): string { NatToString(n) + " row(s) deleted." }
  function NotUnderstood(raw: string): string { "Command '" + raw + "' not understood." }

  /** The plural `entries` unless exactly one entry was flushed. */
  function EntryWord(n: nat): string { if n == 1 then "entry" else "entries" }

  function Committed(n: nat): string { "Committed " + NatToString(n) + " " + EntryWord(n) + "." }

  /** The singular form appears exactly when one entry was committed. */
  lemma CommittedSingular(n: nat)
    ensures Committed(n) == "Committed 1 entry." <==> n == 1
  {
    if n != 1 {
      var s := Committed(n);
      assert |s| == 19 + |NatToString(n)|;
    } else {
      assert NatToString(1) == "1";
    }
  }

  /** COMMIT: flushes the log and reports how many entries it held. */
  function CommitStep<K>(e: Executor<K>): (r: (Executor<K>, seq<string>))
    ensures r.0.dbs == e.dbs && r.0.active == e.active
    ensures Pending(r.0.log) == 0
    ensures r.1 == [Committed(Pending(e.log))]
  {
    var (l, entries) := CommitLog.Commit(e.log);
    (e.(log := l), [Committed(|entries|)])
  }

  // ---------------------------------------------------------------------------
  // formatRows / _format_rows / format_rows
  // ---------------------------------------------------------------------------

  /**
   * The header list: the requested names, or for `*` the first row's keys in the
   * order `star` enumerates them (map order in Go, insertion order in Python,
   * sorted in Rust).
   */
  function Headers(rows: seq<Row>, requested: seq<string>, star: Row -> seq<string>): seq<string>
    requires rows != []
  {
    if IsStar(requested) then star(rows[0]) else requested
  }

  /** The rendered cells of one row under the headers; `show` receives `None` for an absent key. */
  function Cells(row: Row, headers: seq<string>, show: Option<Value> -> string): (r: seq<string>)
    ensures |r| == |headers|
    ensures forall k :: 0 <= k < |headers| ==> r[k] == show(Get(row, headers[k]))
  {
    seq(|headers|, k requires 0 <= k < |headers| => show(Get(row, headers[k])))
  }

  const SEPARATOR: string := " | "
  const NO_ROWS: string := "(no rows)"

  /** One line of headers, then one line of cells per row, all joined with ` | `. */
  function FormatRows(rows: seq<Row>, requested: seq<string>, star: Row -> seq<string>, show: Option<Value> -> string): (r: seq<string>)
    ensures rows == [] <==> r == [NO_ROWS]
    ensures rows != [] ==> |r| == |rows| + 1 && r[0] == Strings.Join(Headers(rows, requested, star), SEPARATOR)
    ensures rows != [] ==> forall i :: 0 <= i < |rows| ==> r[i + 1] == Strings.Join(Cells(rows[i], Headers(rows, requested, star), show), SEPARATOR)
  {
    if rows == [] then [NO_ROWS]
    else
      var headers := Headers(rows, requested, star);
      [Strings.Join(headers, SEPARATOR)] + seq(|rows|, i requires 0 <= i < |rows| => Strings.Join(Cells(rows[i], headers, show), SEPARATOR))
  }

  /**
   * Two renderings that agree on every cell the headers reach give the same lines;
   * this is how the Go, Python and Rust renderings are compared.
   */
  lemma FormatRowsAgree(rows: seq<Row>, requested: seq<string>, star1: Row -> seq<string>, star2: Row -> seq<string>, show1: Option<Value> -> string, show2: Option<Value> -> string)
    requires rows != [] ==> Headers(rows, requested, star1) == Headers(rows, requested, star2)
    requires rows != [] ==> forall i, c :: 0 <= i < |rows| && c in Headers(rows, requested, star1) ==> show1(Get(rows[i], c)) == show2(Get(rows[i], c))
    ensures FormatRows(rows, requested, star1, show1) == FormatRows(rows, requested, star2, show2)
  {
    if rows != [] {
      var h := Headers(rows, requested, star1);
      forall i | 0 <= i < |rows| ensures Cells(rows[i], h, show1) == Cells(rows[i], h, show2) {
        forall k | 0 <= k < |h| ensures show1(Get(rows[i], h[k])) == show2(Get(rows[i], h[k])) {
          assert h[k] in h;
        }
      }
    }
  }

  /** The `*` enumeration Rust uses: the first row's keys, sorted. */
  function SortedKeys(row: Row): (r: seq<string>)
    ensures StrictlySorted(r) && (forall c :: c in r <==> c in row) && |r| == |row.Keys|
  {
    SortedList(row.Keys)
  }

  /** Any strictly sorted enumeration of a row's keys is the Rust one. */
  lemma SortedStarIsRust(row: Row, star: Row -> seq<string>)
    requires StrictlySorted(star(row)) && forall c :: c in star(row) <==> c in row
    ensures star(row) == SortedKeys(row)
  {
    SortIgnoresEnumerationOrder(star(row), row.Keys);
  }

  // ---------------------------------------------------------------------------
  // Databases()
  // ---------------------------------------------------------------------------

  /** `Databases` / `databases`: every database name once, in ascending byte order. */
  function Databases<K>(e: Executor<K>): (r: seq<string>)
    ensures StrictlySorted(r)
    ensures forall d :: d in r <==> d in e.dbs
  {
    SortedList(e.dbs.Keys)
  }

  /** The listing does not depend on how the catalog happens to be enumerated. */
  lemma DatabasesCanonical<K>(e: Executor<K>, names: seq<string>)
    requires StrictlySorted(names) && forall d :: d in names <==> d in e.dbs
    ensures names == Databases(e)
  {
    SortIgnoresEnumerationOrder(names, e.dbs.Keys);
  }

  /** `Describe` / `describe`: the summary of every database's tables, by database name. */
  function DescribeAll<K>(e: Executor<K>): (r: map<string, map<string, Summary>>)
    ensures r.Keys == e.dbs.Keys
    ensures forall d :: d in e.dbs ==> r[d].Keys == e.dbs[d].Keys
  {
    map d | d in e.dbs :: Describe(e.dbs[d])
  }

  /** Replacing the active store changes the description of the active database alone. */
  lemma DescribeAllOnlyActive<K>(e: Executor<K>, s: Store<K>)
    requires e.active in e.dbs
    ensures DescribeAll(WithStore(e, s)) == DescribeAll(e)[e.active := Describe(s)]
  {
  }

  /** Activating a database adds an empty description for a new name and keeps the rest. */
  lemma DescribeAllAfterActivate<K>(e: Executor<K>, name: string)
    ensures name !in e.dbs ==> DescribeAll(Activate(e, name)) == DescribeAll(e)[name := map[]]
    ensures name in e.dbs ==> DescribeAll(Activate(e, name)) == DescribeAll(e)
  {
  }
}
