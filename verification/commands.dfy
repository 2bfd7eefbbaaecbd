/**
 * The typed command produced by the parsers and consumed by the executors.
 *
 * The Go and Python parsers return an untyped payload map; a sub-parser that gives
 * up returns an empty map while keeping the command kind. That empty payload is the
 * `None` of the `Option` carried by the payload-bearing variants. The Rust parser
 * never builds one: it answers `Unknown` instead.
 */
module Commands {
  import opened Base
  import opened Values

  datatype Condition = Condition(column: string, value: Value)

  /**
   * A WHERE clause. `Malformed` is Go's empty condition map, produced when the text
   * after ` WHERE ` has no `=`.
   */
  datatype Where = NoWhere | Malformed | Cond(cond: Condition)

  datatype Join = Join(table: string, leftTable: string, leftColumn: string, rightTable: string, rightColumn: string)

  datatype ColumnDef = ColumnDef(name: string, colType: string)

  datatype CreateTableSpec = CreateTableSpec(table: string, columns: seq<ColumnDef>)
  datatype AlterTableSpec = AlterTableSpec(table: string, column: ColumnDef)
  datatype InsertSpec = InsertSpec(table: string, values: seq<Value>)
  datatype UpdateSpec = UpdateSpec(table: string, assignments: map<string, Value>, where: Where)
  datatype DeleteSpec = DeleteSpec(table: string, where: Where)
  datatype SelectSpec = SelectSpec(table: string, columns: seq<string>, where: Where, join: Option<Join>)

  datatype Command =
    | Empty
    | CreateDatabase(name: string)
    | AlterDatabase(name: string)
    | UseDatabase(name: string)
    | CreateTable(create: Option<CreateTableSpec>)
    | AlterTable(alter: Option<AlterTableSpec>)
    | DropTable(table: string)
    | CreateIndex(table: string, column: string)
    | DropIndex(table: string, column: string)
    | Insert(insert: Option<InsertSpec>)
    | Update(update: Option<UpdateSpec>)
    | Delete(delete: Option<DeleteSpec>)
    | Select(select: Option<SelectSpec>)
    | Commit
    | Unknown

  /** A command together with the trimmed statement text it came from. */
  datatype Parsed = Parsed(cmd: Command, raw: string)

  /** The groups captured by the INSERT pattern: table name and the text inside `VALUES (...)`. */
  datatype InsertCaptures = InsertCaptures(table: string, values: string)

  /** The optional `INNER JOIN <t> ON <a>.<b> = <c>.<d>` groups of the SELECT pattern. */
  datatype JoinCaptures = JoinCaptures(table: string, leftTable: string, leftCol: string, rightTable: string, rightCol: string)

  /** The groups captured by the SELECT pattern. */
  datatype SelectCaptures = SelectCaptures(cols: string, table: string, join: Option<JoinCaptures>, whereCol: string, whereVal: string)

  /**
   * The regular-expression engines of the INSERT and SELECT sub-parsers, left
   * abstract: each maps the statement text to its captured groups, or `None` when
   * the pattern does not match.
   */
  datatype Matchers = Matchers(insert: string -> Option<InsertCaptures>, select: string -> Option<SelectCaptures>)
}
