/**
 * Where the three executors part ways on the same statement: how a cell is
 * rendered, whether an unnamed table is checked, and what a condition without
 * `=` does from the parser through to the storage.
 */
module Divergences {
  import opened Base
  import opened Values
  import opened Commands
  import opened Tables
  import opened CommitLog
  import opened Executors
  import Strings
  import KeyFunctions
  import GoParser
  import RustParser
  import PyParser
  import GoExecutor
  import PyExecutor
  import RustExecutor

  /** A null renders as `<nil>`, `None` and `NULL`; an absent key as `<nil>` in Go and as nothing elsewhere. */
  lemma NullAndAbsentRendering()
    ensures GoExecutor.GoShow(Some(Null)) == "<nil>" && PyExecutor.PyShow(Some(Null)) == "None" && RustExecutor.RustShow(Some(Null)) == "NULL"
    ensures GoExecutor.GoShow(None) == "<nil>" && PyExecutor.PyShow(None) == "" && RustExecutor.RustShow(None) == ""
  {
  }

  /**
   * Every header of every row holds a value that is neither null nor a float: Go's
   * `%v`, Rust's `{}` and Python's `str` spell floats differently (`1`, `1` and `1.0`
   * for one; `1e+20` and `100000000000000000000` for 1e20).
   */
  predicate Dense(rows: seq<Row>, headers: seq<string>) {
    forall i, c :: 0 <= i < |rows| && c in headers ==> c in rows[i] && rows[i][c] != Null && !rows[i][c].Float?
  }

  /**
   * On rows whose shown cells are all present, non-null and not floats, the three renderings
   * coincide once the `*` headers come out in the same order; Rust's are sorted.
   */
  lemma RenderingsAgree(rows: seq<Row>, requested: seq<string>, goStar: Row -> seq<string>, pyStar: Row -> seq<string>)
    requires rows != [] ==> goStar(rows[0]) == SortedKeys(rows[0]) && pyStar(rows[0]) == SortedKeys(rows[0])
    requires rows != [] ==> Dense(rows, Headers(rows, requested, SortedKeys))
    ensures FormatRows(rows, requested, goStar, GoExecutor.GoShow) == FormatRows(rows, requested, SortedKeys, RustExecutor.RustShow)
    ensures FormatRows(rows, requested, pyStar, PyExecutor.PyShow) == FormatRows(rows, requested, SortedKeys, RustExecutor.RustShow)
  {
    if rows != [] {
      var h := Headers(rows, requested, SortedKeys);
      forall i, c | 0 <= i < |rows| && c in h
        ensures GoExecutor.GoShow(Get(rows[i], c)) == RustExecutor.RustShow(Get(rows[i], c))
        ensures PyExecutor.PyShow(Get(rows[i], c)) == RustExecutor.RustShow(Get(rows[i], c))
      {
        assert Get(rows[i], c) == Some(rows[i][c]);
      }
      FormatRowsAgree(rows, requested, goStar, SortedKeys, GoExecutor.GoShow, RustExecutor.RustShow);
      FormatRowsAgree(rows, requested, pyStar, SortedKeys, PyExecutor.PyShow, RustExecutor.RustShow);
    }
  }

  /** One row shown under one requested column: the header line, then that cell alone. */
  lemma OneCell(row: Row, c: string, star: Row -> seq<string>, show: Option<Value> -> string)
    requires c != "*"
    ensures FormatRows([row], [c], star, show) == [c, show(Get(row, c))]
  {
    var r := FormatRows([row], [c], star, show);
    assert Headers([row], [c], star) == [c];
    assert Cells(row, [c], show) == [show(Get(row, c))];
    assert r[0] == c && r[1] == show(Get(row, c));
  }

  /** A null cell is where they differ even with equal headers. */
  lemma NullCellDiverges(row: Row, c: string)
    requires c in row && row[c] == Null && c != "*"
    ensures FormatRows([row], [c], SortedKeys, GoExecutor.GoShow) == [c, "<nil>"]
    ensures FormatRows([row], [c], SortedKeys, PyExecutor.PyShow) == [c, "None"]
    ensures FormatRows([row], [c], SortedKeys, RustExecutor.RustShow) == [c, "NULL"]
  {
    assert Get(row, c) == Some(Null);
    OneCell(row, c, SortedKeys, GoExecutor.GoShow);
    OneCell(row, c, SortedKeys, PyExecutor.PyShow);
    OneCell(row, c, SortedKeys, RustExecutor.RustShow);
  }

  /**
   * DROP TABLE of the unnamed table "" when none exists: the `table != ""` guard of
   * Go skips the check and reports it dropped; Rust checks and refuses. No parser
   * produces `DropTable("")` (each reads the name from a third token that `Fields`
   * never leaves empty), so this compares the two executors on a state no statement
   * text reaches.
   */
  lemma UnnamedDropDiverges(g: GoExecutor.GoState, r: RustExecutor.RustState, raw: string, star: Row -> seq<string>)
    requires Inv(g, KeyFunctions.GoKey) && Inv(r, KeyFunctions.RustKey) && "" !in Active(g) && "" !in Active(r)
    ensures GoExecutor.GoExecute(g, Parsed(DropTable(""), raw), star) == Done((g, [Dropped("")]))
    ensures RustExecutor.RustExecute(r, Parsed(DropTable(""), raw)) == (r, [TableNotFound("")])
  {
    assert Active(g) - {""} == Active(g);
    assert WithStore(g, Active(g)) == g;
  }

  /**
   * `DELETE FROM t WHERE w` with no `=` in `w`, from parser to storage: Go builds an
   * empty condition map and panics, Python raises while parsing, and Rust drops the
   * condition and deletes every row.
   */
  lemma ConditionWithoutEqualsEndToEnd(w: string, ev: PyParser.Evaluator, t: string, g: GoExecutor.GoState, r: RustExecutor.RustState, raw: string, star: Row -> seq<string>)
    requires w != "" && '=' !in w
    requires Inv(g, KeyFunctions.GoKey) && t in Active(g) && Inv(r, KeyFunctions.RustKey) && t in Active(r)
    ensures GoExecutor.GoExecute(g, Parsed(Delete(Some(DeleteSpec(t, GoParser.GoWhere(Some(w))))), raw), star).Fault?
    ensures PyParser.PyWhere(Some(w), ev).Fault?
    ensures var out := RustExecutor.RustExecute(r, Parsed(Delete(Some(DeleteSpec(t, RustParser.RustCondition(Some(w))))), raw));
      out.1 == [Deleted(|Active(r)[t].rows|)] && Active(out.0)[t].rows == []
  {
    PyParser.ConditionWithoutEquals(w, ev);
    GoExecutor.GoMalformedConditionPanics(g, t, raw, star);
    RustExecutor.RustConditionlessDeleteClearsAll(r, t, raw);
  }

  /**
   * `SELECT c FROM t WHERE b` with no `=` in `b`, from parser to storage: Go's
   * `$`-anchored pattern does not match, and the executor panics on the empty
   * payload; Rust's pattern matches without the WHERE group, and Rust shows column
   * `c` of every row of `t`.
   */
  lemma UnanchoredSelectEndToEnd(c: string, t: string, b: string, gm: Matchers, rm: Matchers,
                                 g: GoExecutor.GoState, r: RustExecutor.RustState, star: Row -> seq<string>)
    requires GoParser.Word(c) && GoParser.Word(t) && GoParser.Word(b) && b[|b| - 1] != ';'
    requires var q := Strings.Join(RustParser.SelectWhereWords(c, t, b), " ");
      gm.select(q) == None && rm.select(q) == Some(SelectCaptures(c, t, None, "", ""))
    requires Inv(g, KeyFunctions.GoKey) && Inv(r, KeyFunctions.RustKey) && Strings.Lower(t) in Active(r)
    ensures var q := Strings.Join(RustParser.SelectWhereWords(c, t, b), " ");
      GoParser.Parse(q, gm).cmd == Select(None)
      && GoExecutor.GoExecute(g, Parsed(Select(None), q), star) == Fault(GoExecutor.NIL_CONVERSION)
    ensures var q := Strings.Join(RustParser.SelectWhereWords(c, t, b), " ");
      var spec := SelectSpec(Strings.Lower(t), GoParser.SelectColumns(c), NoWhere, None);
      RustParser.RustParse(q, rm).cmd == Select(Some(spec))
      && RustExecutor.RustExecute(r, Parsed(Select(Some(spec)), q))
         == (r, FormatRows(Shape(Active(r)[spec.table].rows, spec.columns, AfterLastDot), spec.columns, SortedKeys, RustExecutor.RustShow))
  {
    var q := Strings.Join(RustParser.SelectWhereWords(c, t, b), " ");
    RustParser.UnanchoredSelect(c, t, b, gm, rm);
    GoEmptySelectPanics(g, q, star);
    RustShowsEveryRow(r, SelectSpec(Strings.Lower(t), GoParser.SelectColumns(c), NoWhere, None), q);
  }

  /** A SELECT with neither condition nor join shows every row of its table, shaped. */
  lemma RustShowsEveryRow(r: RustExecutor.RustState, spec: SelectSpec, raw: string)
    requires Inv(r, KeyFunctions.RustKey) && spec.table in Active(r) && spec.where == NoWhere && spec.join == None
    ensures RustExecutor.RustExecute(r, Parsed(Select(Some(spec)), raw))
      == (r, FormatRows(Shape(Active(r)[spec.table].rows, spec.columns, AfterLastDot), spec.columns, SortedKeys, RustExecutor.RustShow))
  {
    RustExecutor.RustSelectRenders(r, spec.table, spec.columns, NoWhere, raw);
    assert spec == SelectSpec(spec.table, spec.columns, NoWhere, None);
  }

  /** The empty SELECT payload reaches a type assertion on the missing column list. */
  lemma GoEmptySelectPanics(g: GoExecutor.GoState, raw: string, star: Row -> seq<string>)
    requires Inv(g, KeyFunctions.GoKey)
    ensures GoExecutor.GoExecute(g, Parsed(Select(None), raw), star) == Fault(GoExecutor.NIL_CONVERSION)
  {
    var p := Parsed(Select(None), raw);
    assert GoExecutor.GoExecute(g, p, star) == GoExecutor.GoTableCommand(g, p, star);
    assert GoExecutor.GoTableCommand(g, p, star) == GoExecutor.GoStoreCommand(g, p, star);
    assert GoExecutor.GoStoreCommand(g, p, star) == GoExecutor.GoOtherCommand(g, p, star);
  }
}
