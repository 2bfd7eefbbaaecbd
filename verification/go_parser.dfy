/**
 * The Go statement parser (parser.go): trimming, dispatch on the first token or the
 * first two tokens, and the CREATE TABLE, ALTER TABLE, UPDATE and DELETE
 * sub-parsers, plus what `parseInsert` and `parseSelect` do with their captured
 * groups. The parser is modelled twice over one definition: `AsWritten`, which
 * reaches the code's panics on a statement with too few tokens, its seven-token
 * ALTER TABLE test and its backwards CREATE TABLE slice, and `Repaired`, which
 * answers `Unknown` or an empty payload there and accepts a six-token ALTER TABLE.
 * Both modes read every literal with the repaired `ParseLiteral`, so the lone-quote
 * panic of `parseLiteral` is stated on its own (`Literals.LoneQuotePanics`) and is
 * not reached through the parser. The rest of the model uses the repaired parser.
 */
module GoParser {
  import opened Base
  import opened Strings
  import opened Decimal
  import opened Values
  import opened Literals
  import opened Commands

  datatype Mode = AsWritten | Repaired

  /** Go's runtime message for reading `tok[i]` from a slice of length `n`. */
  function OutOfRange(i: nat, n: nat): string {
    "index out of range [" + NatToString(i) + "] with length " + NatToString(n)
  }

  /** Go's runtime message for the slice `text[lo:hi]` with `lo > hi`. */
  function SliceBounds(lo: nat, hi: nat): string {
    "slice bounds out of range [" + NatToString(lo) + ":" + NatToString(hi) + "]"
  }

  // ---------------------------------------------------------------------------
  // WHERE and SET clauses.

  /**
   * Cuts the statement around the first ` WHERE `, found without regard to case:
   * the text before it and, if there is one, the text after it.
   */
  function SplitWhere(text: string): (r: (string, Option<string>))
    ensures r.1.None? <==> IndexOf(Upper(text), " WHERE ").None?
    ensures r.1.None? ==> r.0 == text
    ensures r.1.Some? ==> OccursAt(Upper(text), " WHERE ", |r.0|)
    ensures r.1.Some? ==> text == r.0 + text[|r.0|..|r.0| + 7] + r.1.value
    ensures r.1.Some? ==> forall j :: 0 <= j < |r.0| ==> !OccursAt(Upper(text), " WHERE ", j)
  {
    match IndexOf(Upper(text), " WHERE ")
    case None => (text, None)
    case Some(i) => (text[..i], Some(text[i + 7..]))
  }

  /**
   * `parseCondition`: the column before the first `=`, lowercased, and the literal
   * after it; a clause without `=` gives the empty condition map (`Malformed`).
   */
  function GoCondition(clause: string): (r: Where)
    ensures r != NoWhere
    ensures r.Malformed? <==> '=' !in clause
    ensures r.Cond? ==> !r.cond.value.Null?
  {
    match SplitOnce(clause, '=')
    case None => Malformed
    case Some((col, lit)) =>
      Cond(Condition(Lower(Trim(col)), ParseLiteral(Trim(lit))))
  }

  /** The WHERE part of `parseUpdate`/`parseDelete`: a condition only after a non-empty ` WHERE ` tail. */
  function GoWhere(part: Option<string>): (r: Where)
    ensures (part.None? || part.value == "") <==> r.NoWhere?
  {
    if part.None? || part.value == "" then NoWhere else GoCondition(part.value)
  }

  /** One SET chunk: the column before its first `=`, lowercased, and the literal after it. */
  function Assignment(chunk: string): Option<(string, Value)> {
    match SplitOnce(chunk, '=')
    case None => None
    case Some((col, lit)) => Some((Lower(Trim(col)), ParseLiteral(Trim(lit))))
  }

  /** `ps[i]` assigns column `c` and no later pair assigns it again. */
  predicate LastAssigns(ps: seq<Option<(string, Value)>>, i: int, c: string) {
    0 <= i < |ps| && ps[i].Some? && ps[i].value.0 == c
    && forall j :: i < j < |ps| && ps[j].Some? ==> ps[j].value.0 != c
  }

  /** Some pair among `ps` assigns column `c`. */
  predicate Assigns(ps: seq<Option<(string, Value)>>, c: string) {
    exists i :: 0 <= i < |ps| && ps[i].Some? && ps[i].value.0 == c
  }

  /**
   * The map the assignment loop builds, pair by pair in order: a `None` pair is
   * skipped and a later assignment to a column replaces an earlier one.
   */
  function Collect(ps: seq<Option<(string, Value)>>): (r: map<string, Value>)
    ensures forall c :: c in r <==> Assigns(ps, c)
    ensures forall i, c :: LastAssigns(ps, i, c) ==> c in r && r[c] == ps[i].value.1
    decreases |ps|
  {
    if ps == [] then map[]
    else
      var n := |ps| - 1;
      var front := Collect(ps[..n]);
      var r := if ps[n].None? then front else front[ps[n].value.0 := ps[n].value.1];
      CollectKeys(ps, front, r);
      CollectValues(ps, front, r);
      r
  }

  lemma CollectKeys(ps: seq<Option<(string, Value)>>, front: map<string, Value>, r: map<string, Value>)
    requires ps != []
    requires forall c :: c in front <==> Assigns(ps[..|ps| - 1], c)
    requires r == if ps[|ps| - 1].None? then front else front[ps[|ps| - 1].value.0 := ps[|ps| - 1].value.1]
    ensures forall c :: c in r <==> Assigns(ps, c)
  {
    var n := |ps| - 1;
    var p := ps[..n];
    forall c ensures c in r <==> Assigns(ps, c) {
      if c in front {
        var i :| 0 <= i < |p| && p[i].Some? && p[i].value.0 == c;
        assert ps[i] == p[i];
      }
      if Assigns(ps, c) {
        var i :| 0 <= i < |ps| && ps[i].Some? && ps[i].value.0 == c;
        if i < n {
          assert p[i] == ps[i];
        }
      }
    }
  }

  lemma CollectValues(ps: seq<Option<(string, Value)>>, front: map<string, Value>, r: map<string, Value>)
    requires ps != []
    requires forall i, c :: LastAssigns(ps[..|ps| - 1], i, c) ==> c in front && front[c] == ps[i].value.1
    requires r == if ps[|ps| - 1].None? then front else front[ps[|ps| - 1].value.0 := ps[|ps| - 1].value.1]
    ensures forall i, c :: LastAssigns(ps, i, c) ==> c in r && r[c] == ps[i].value.1
  {
    var n := |ps| - 1;
    var p := ps[..n];
    forall i, c | LastAssigns(ps, i, c) ensures c in r && r[c] == ps[i].value.1 {
      if i < n {
        assert p[i] == ps[i];
        forall j | i < j < |p| && p[j].Some? ensures p[j].value.0 != c {
          assert p[j] == ps[j];
        }
        assert LastAssigns(p, i, c);
      }
    }
  }

  /** The SET chunks as parsed pairs, `None` for a chunk without `=`. */
  function AssignmentPairs(chunks: seq<string>): (r: seq<Option<(string, Value)>>)
    ensures |r| == |chunks| && forall i :: 0 <= i < |chunks| ==> r[i] == Assignment(chunks[i])
  {
    seq(|chunks|, i requires 0 <= i < |chunks| => Assignment(chunks[i]))
  }

  /** The assignment loop of `parseUpdate`. */
  function Assignments(chunks: seq<string>): map<string, Value> {
    Collect(AssignmentPairs(chunks))
  }

  // ---------------------------------------------------------------------------
  // Sub-parsers. `None` is the empty payload map.

  /** One column definition of CREATE TABLE: a lowercased name and an uppercased type, TEXT by default. */
  function ColumnDefOf(chunk: string): (r: Option<ColumnDef>)
    ensures r.None? <==> IsBlank(chunk)
    ensures r.Some? ==> r.value.name != [] && NoSpace(r.value.name) && r.value.colType != []
  {
    var parts := Fields(Trim(chunk));
    if parts == [] then
      assert IsBlank(Trim(chunk));
      None
    else
      LowerKeepsNoSpace(parts[0]);
      Some(ColumnDef(Lower(parts[0]), if |parts| > 1 then Upper(parts[1]) else "TEXT"))
  }

  /** The present elements of `xs`, in order. */
  function Somes<T>(xs: seq<Option<T>>): (r: seq<T>)
    ensures |r| <= |xs|
    ensures r == [] <==> forall i :: 0 <= i < |xs| ==> xs[i].None?
    ensures forall i :: 0 <= i < |r| ==> Some(r[i]) in xs
    decreases |xs|
  {
    if xs == [] then []
    else
      var rest := Somes(xs[1..]);
      assert forall i :: 1 <= i < |xs| ==> xs[i] == xs[1..][i - 1];
      if xs[0].None? then rest else [xs[0].value] + rest
  }

  /** Every chunk read as a column definition, `None` for a blank one. */
  function ParsedColumns(chunks: seq<string>): (r: seq<Option<ColumnDef>>)
    ensures |r| == |chunks| && forall i :: 0 <= i < |chunks| ==> r[i] == ColumnDefOf(chunks[i])
  {
    seq(|chunks|, i requires 0 <= i < |chunks| => ColumnDefOf(chunks[i]))
  }

  /** The column loop of `parseCreateTable`: one definition per non-blank chunk, in order. */
  function ColumnDefs(chunks: seq<string>): (r: seq<ColumnDef>)
    ensures |r| <= |chunks|
    ensures r == [] <==> forall i :: 0 <= i < |chunks| ==> IsBlank(chunks[i])
    ensures forall i :: 0 <= i < |r| ==> r[i].name != [] && NoSpace(r[i].name)
  {
    var defs := ParsedColumns(chunks);
    var r := Somes(defs);
    assert forall i :: 0 <= i < |chunks| ==> (defs[i].None? <==> IsBlank(chunks[i]));
    assert forall i :: 0 <= i < |r| ==> r[i].name != [] && NoSpace(r[i].name) by {
      forall i | 0 <= i < |r| ensures r[i].name != [] && NoSpace(r[i].name) {
        assert Some(r[i]) in defs;
      }
    }
    r
  }

  /**
   * `parseCreateTable`: the table is the third header token before the first `(`,
   * the definitions lie between that `(` and the last `)`. A missing parenthesis or
   * a short header gives the empty payload. When the last `)` comes before the
   * first `(` the code slices backwards and panics; repaired, that is an empty payload.
   */
  function ParseCreateTable(text: string, mode: Mode): (r: Outcome<Option<CreateTableSpec>>)
    ensures mode.Repaired? ==> r.Done?
    ensures ('(' !in text || ')' !in text) ==> r == Done(None)
    ensures r.Fault? ==> mode.AsWritten? && LastIndexOfChar(text, ')').value < IndexOfChar(text, '(').value
    ensures r.Done? && r.value.Some? ==> '(' in text && ')' in text && IndexOfChar(text, '(').value < LastIndexOfChar(text, ')').value
    ensures r.Done? && r.value.Some? ==> |Fields(text[..IndexOfChar(text, '(').value])| >= 3
  {
    match IndexOfChar(text, '(')
    case None => Done(None)
    case Some(open) =>
      var header := Fields(text[..open]);
      if |header| < 3 then Done(None)
      else
        match LastIndexOfChar(text, ')')
        case None => Done(None)
        case Some(close) =>
          if close < open then
            if mode.AsWritten? then Fault(SliceBounds(open + 1, close)) else Done(None)
          else
            Done(Some(CreateTableSpec(Lower(header[2]), ColumnDefs(Split(text[open + 1..close], ',')))))
  }

  /** The fewest tokens `parseAlterTable` accepts: seven as written, six once repaired. */
  function MinAlterTokens(mode: Mode): nat {
    if mode.AsWritten? then 7 else 6
  }

  /**
   * `parseAlterTable`: `ALTER TABLE <t> ADD COLUMN <c> [<type>]`, anything else the
   * empty payload. As written it demands a seventh token, so the TEXT default can
   * never apply.
   */
  function ParseAlterTable(tokens: seq<string>, mode: Mode): (r: Option<AlterTableSpec>)
    ensures r.Some? <==> |tokens| >= MinAlterTokens(mode) && Upper(tokens[3]) == "ADD" && Upper(tokens[4]) == "COLUMN"
    ensures r.Some? ==> r.value.table == Lower(tokens[2]) && r.value.column.name == Lower(tokens[5])
    ensures r.Some? && |tokens| == 6 ==> r.value.column.colType == "TEXT"
    ensures r.Some? && |tokens| > 6 ==> r.value.column.colType == Upper(tokens[6])
  {
    if |tokens| >= MinAlterTokens(mode) && Upper(tokens[3]) == "ADD" && Upper(tokens[4]) == "COLUMN" then
      Some(AlterTableSpec(Lower(tokens[2]), ColumnDef(Lower(tokens[5]), if |tokens| > 6 then Upper(tokens[6]) else "TEXT")))
    else None
  }

  /**
   * `parseUpdate`: the table is the second token before ` WHERE `; the assignments
   * follow the first ` SET ` (any case). Fewer than two tokens or no ` SET ` gives
   * the empty payload.
   */
  function ParseUpdate(text: string): (r: Option<UpdateSpec>)
    ensures var prefix := SplitWhere(text).0;
      r.None? <==> |Fields(prefix)| < 2 || IndexOf(Upper(prefix), " SET ").None?
    ensures r.Some? ==> r.value.table == Lower(Fields(SplitWhere(text).0)[1])
    ensures r.Some? ==> r.value.where == GoWhere(SplitWhere(text).1)
  {
    var (prefix, wherePart) := SplitWhere(text);
    var tokens := Fields(prefix);
    if |tokens| < 2 then None
    else
      match SetAssignments(prefix)
      case None => None
      case Some(a) => Some(UpdateSpec(Lower(tokens[1]), a, GoWhere(wherePart)))
  }

  /** The assignments after the first ` SET ` of `prefix`, in any case; none without one. */
  function SetAssignments(prefix: string): (r: Option<map<string, Value>>)
    ensures r.None? <==> IndexOf(Upper(prefix), " SET ").None?
  {
    match IndexOf(Upper(prefix), " SET ")
    case None => None
    case Some(i) => Some(Assignments(Split(prefix[i + 5..], ',')))
  }

  /** `parseDelete`: the table is the third token before ` WHERE `; fewer tokens give the empty payload. */
  function ParseDelete(text: string): (r: Option<DeleteSpec>)
    ensures r.None? <==> |Fields(SplitWhere(text).0)| < 3
    ensures r.Some? ==> r.value.table == Lower(Fields(SplitWhere(text).0)[2])
    ensures r.Some? ==> r.value.where == GoWhere(SplitWhere(text).1)
  {
    var (prefix, wherePart) := SplitWhere(text);
    var tokens := Fields(prefix);
    if |tokens| < 3 then None else Some(DeleteSpec(Lower(tokens[2]), GoWhere(wherePart)))
  }

  /** What `parseInsert` does with its captures: the table lowercased, the values split. */
  function ParseInsert(text: string, m: Matchers): (r: Option<InsertSpec>)
    ensures r.None? <==> m.insert(text).None?
    ensures r.Some? ==> r.value.values == ParseValueList(m.insert(text).value.values)
  {
    match m.insert(text)
    case None => None
    case Some(c) => Some(InsertSpec(Lower(c.table), ParseValueList(c.values)))
  }

  /** The projected names of a SELECT: the column list split on `,`, each piece trimmed. */
  function SelectColumns(cols: string): (r: seq<string>)
    ensures |r| == |Split(cols, ',')| >= 1
    ensures forall i :: 0 <= i < |r| ==> r[i] == Trim(Split(cols, ',')[i])
  {
    var pieces := Split(cols, ',');
    seq(|pieces|, i requires 0 <= i < |pieces| => Trim(pieces[i]))
  }

  /** What `parseSelect` does with its captures; a condition only when a WHERE column was captured. */
  function ParseSelect(text: string, m: Matchers): (r: Option<SelectSpec>)
    ensures r.None? <==> m.select(text).None?
    ensures r.Some? ==> (r.value.where.Cond? <==> m.select(text).value.whereCol != "")
    ensures r.Some? ==> !r.value.where.Malformed?
    ensures r.Some? ==> r.value.columns == SelectColumns(m.select(text).value.cols)
  {
    match m.select(text)
    case None => None
    case Some(c) =>
      var where := if c.whereCol != "" then Cond(Condition(Lower(c.whereCol), ParseLiteral(c.whereVal))) else NoWhere;
      var join := match c.join
        case Some(j) => if j.table != "" then Some(Join(Lower(j.table), Lower(j.leftTable), Lower(j.leftCol), Lower(j.rightTable), Lower(j.rightCol))) else None
        case None => None;
      Some(SelectSpec(Lower(c.table), SelectColumns(c.cols), where, join))
  }

  // ---------------------------------------------------------------------------
  // Dispatch.

  /** A missing `tok[i]`: the panic as written, no command once repaired. */
  function Short(tokens: seq<string>, mode: Mode): (r: Outcome<Command>)
    ensures mode.AsWritten? <==> r.Fault?
  {
    if mode.AsWritten? then Fault(OutOfRange(|tokens|, |tokens|)) else Done(Unknown)
  }

  const COMPOUND_KEYS: set<string> :=
    {"CREATE DATABASE", "ALTER DATABASE", "CREATE TABLE", "ALTER TABLE", "DROP TABLE", "CREATE INDEX", "DROP INDEX"}

  /** The handler table of `Parse` under the key `FIRST SECOND`; an unlisted key is UNKNOWN. */
  function Compound(key: string, text: string, tokens: seq<string>, mode: Mode): (r: Outcome<Command>)
    requires |tokens| >= 2
    ensures key !in COMPOUND_KEYS ==> r == Done(Unknown)
    ensures r.Fault? ==> mode.AsWritten?
    ensures r.Done? ==> r.value != Empty
    ensures |tokens| >= 3 && key == "CREATE DATABASE" ==> r == Done(CreateDatabase(Lower(tokens[2])))
    ensures |tokens| >= 3 && key == "ALTER DATABASE" ==> r == Done(AlterDatabase(Lower(tokens[2])))
    ensures |tokens| >= 3 && key == "DROP TABLE" ==> r == Done(DropTable(Lower(tokens[2])))
    ensures |tokens| >= 4 && key == "CREATE INDEX" ==> r == Done(CreateIndex(Lower(tokens[2]), Lower(tokens[3])))
    ensures |tokens| >= 4 && key == "DROP INDEX" ==> r == Done(DropIndex(Lower(tokens[2]), Lower(tokens[3])))
    ensures |tokens| < 3 && key in {"CREATE DATABASE", "ALTER DATABASE", "DROP TABLE"} ==> r == Short(tokens, mode)
    ensures |tokens| < 4 && key in {"CREATE INDEX", "DROP INDEX"} ==> r == Short(tokens, mode)
  {
    if key == "CREATE DATABASE" || key == "ALTER DATABASE" || key == "DROP TABLE" then
      if |tokens| < 3 then Short(tokens, mode)
      else
        var a := Lower(tokens[2]);
        Done(if key == "CREATE DATABASE" then CreateDatabase(a) else if key == "ALTER DATABASE" then AlterDatabase(a) else DropTable(a))
    else if key == "CREATE INDEX" || key == "DROP INDEX" then
      if |tokens| < 4 then Short(tokens, mode)
      else
        var (t, c) := (Lower(tokens[2]), Lower(tokens[3]));
        Done(if key == "CREATE INDEX" then CreateIndex(t, c) else DropIndex(t, c))
    else if key == "CREATE TABLE" then
      match ParseCreateTable(text, mode)
      case Done(spec) => Done(CreateTable(spec))
      case Fault(e) => Fault(e)
    else if key == "ALTER TABLE" then Done(AlterTable(ParseAlterTable(tokens, mode)))
    else Done(Unknown)
  }

  const DML_VERBS: set<string> := {"INSERT", "UPDATE", "DELETE", "SELECT"}

  /** The first words of the handler-table keys. */
  const KEYWORD_STARTS: set<string> := {"CREATE", "ALTER", "DROP"}

  /** The verb chain of `Parse` on a statement with at least one token. */
  function Dispatch(text: string, tokens: seq<string>, m: Matchers, mode: Mode): (r: Outcome<Command>)
    requires tokens != []
    ensures Upper(tokens[0]) == "COMMIT" ==> r == Done(Commit)
    ensures Upper(tokens[0]) == "USE" && |tokens| > 1 ==> r == Done(UseDatabase(Lower(tokens[1])))
    ensures |tokens| == 1 && Upper(tokens[0]) !in DML_VERBS && Upper(tokens[0]) != "COMMIT" ==> r == Done(Unknown)
    ensures |tokens| > 1 && Upper(tokens[0]) !in DML_VERBS && Upper(tokens[0]) != "COMMIT" && Upper(tokens[0]) != "USE" ==>
      r == Compound(Upper(tokens[0]) + " " + Upper(tokens[1]), text, tokens, mode)
    ensures r.Fault? ==> mode.AsWritten?
    ensures r.Done? ==> r.value != Empty
  {
    var command := Upper(tokens[0]);
    if command == "COMMIT" then Done(Commit)
    else if command == "INSERT" then Done(Insert(ParseInsert(text, m)))
    else if command == "UPDATE" then Done(Update(ParseUpdate(text)))
    else if command == "DELETE" then Done(Delete(ParseDelete(text)))
    else if command == "SELECT" then Done(Select(ParseSelect(text, m)))
    else if command == "USE" && |tokens| > 1 then Done(UseDatabase(Lower(tokens[1])))
    else if |tokens| > 1 then Compound(command + " " + Upper(tokens[1]), text, tokens, mode)
    else Done(Unknown)
  }

  /** The statement text the dispatch sees: trimmed, with one trailing `;` removed. */
  function Text(query: string): string {
    TrimOneSuffix(Trim(query), ';')
  }

  /**
   * `Parse`. A blank statement is EMPTY with an empty raw text; any other keeps its
   * trimmed text as raw. As written, a statement that is only `;` panics on
   * `tokens[0]`; repaired, it is UNKNOWN.
   */
  function ParseWith(query: string, m: Matchers, mode: Mode): (r: Outcome<Parsed>)
    ensures Trim(query) == "" ==> r == Done(Parsed(Empty, ""))
    ensures r.Done? ==> r.value.raw == Trim(query)
    ensures r.Done? && Trim(query) != "" ==> r.value.cmd != Empty
    ensures mode.Repaired? ==> r.Done?
    ensures Trim(query) != "" && Fields(Text(query)) == [] ==> (r.Fault? <==> mode.AsWritten?)
  {
    var raw := Trim(query);
    if raw == "" then Done(Parsed(Empty, ""))
    else
      var text := TrimOneSuffix(raw, ';');
      var tokens := Fields(text);
      if tokens == [] then
        if mode.AsWritten? then Fault(OutOfRange(0, 0)) else Done(Parsed(Unknown, raw))
      else
        match Dispatch(text, tokens, m, mode)
        case Done(cmd) => Done(Parsed(cmd, raw))
        case Fault(e) => Fault(e)
  }

  /** `Parse` exactly as written. */
  function ParseAsWritten(query: string, m: Matchers): Outcome<Parsed> {
    ParseWith(query, m, AsWritten)
  }

  /** The repaired parser, which never panics; the executor model reads its output. */
  function Parse(query: string, m: Matchers): Parsed {
    ParseWith(query, m, Repaired).value
  }

  // ---------------------------------------------------------------------------
  // Properties of the dispatch.

  /** The outcome of dispatching `Dispatch`'s command under the raw text `raw`. */
  function Lift(o: Outcome<Command>, raw: string): Outcome<Parsed> {
    match o
    case Done(c) => Done(Parsed(c, raw))
    case Fault(e) => Fault(e)
  }

  /** A statement with no token after its `;` is removed. */
  lemma ParseWithNoTokens(q: string, m: Matchers, mode: Mode)
    requires Trim(q) != "" && Fields(Text(q)) == []
    ensures ParseWith(q, m, mode) == if mode.AsWritten? then Fault(OutOfRange(0, 0)) else Done(Parsed(Unknown, Trim(q)))
  {
  }

  /** A statement with tokens is dispatched on them. */
  lemma ParseWithTokens(q: string, m: Matchers, mode: Mode)
    requires Trim(q) != "" && Fields(Text(q)) != []
    ensures ParseWith(q, m, mode) == Lift(Dispatch(Text(q), Fields(Text(q)), m, mode), Trim(q))
  {
  }

  /** Words without blanks, the last not ending in `;`. */
  predicate Words(ws: seq<string>) {
    |ws| >= 1 && (forall i :: 0 <= i < |ws| ==> ws[i] != [] && NoSpace(ws[i]))
    && ws[|ws| - 1][|ws[|ws| - 1]| - 1] != ';'
  }

  /** A statement written as words joined by single blanks is its own raw text and splits into those words. */
  lemma WordsStatement(ws: seq<string>)
    requires Words(ws)
    ensures Trim(Strings.Join(ws, " ")) == Strings.Join(ws, " ")
    ensures Text(Strings.Join(ws, " ")) == Strings.Join(ws, " ")
    ensures Fields(Strings.Join(ws, " ")) == ws
  {
    var q := Strings.Join(ws, " ");
    JoinEnds(ws, " ");
    TrimOfEnds(q);
    FieldsOfJoin(ws);
  }

  /** The dispatched text of a trimmed statement with one `;` appended is the statement itself. */
  lemma TextOfTerminated(s: string)
    requires s != [] && Trim(s) == s && s[|s| - 1] != ';'
    ensures Trim(s + ";") == s + ";" && Text(s + ";") == s && Text(s) == s
  {
    assert !IsSpace(s[0]);
    TrimOfEnds(s + ";");
    assert (s + ";")[..|s|] == s;
  }

  /** The same outcome under another raw text. */
  function Reraw(o: Outcome<Parsed>, raw: string): Outcome<Parsed> {
    match o
    case Done(p) => Done(p.(raw := raw))
    case Fault(e) => Fault(e)
  }

  /** Renaming the raw text of a lifted outcome is lifting with the new raw text. */
  lemma LiftReraw(o: Outcome<Command>, raw1: string, raw2: string)
    ensures Lift(o, raw1) == Reraw(Lift(o, raw2), raw1)
  {
  }

  /** Two statements with the same dispatched text parse alike, up to their raw text. */
  lemma SameTextSameCommand(q1: string, q2: string, m: Matchers, mode: Mode)
    requires Trim(q1) != "" && Trim(q2) != "" && Text(q1) == Text(q2)
    ensures ParseWith(q1, m, mode) == Reraw(ParseWith(q2, m, mode), Trim(q1))
  {
    if Fields(Text(q1)) == [] {
      ParseWithNoTokens(q1, m, mode);
      ParseWithNoTokens(q2, m, mode);
    } else {
      ParseWithTokens(q1, m, mode);
      ParseWithTokens(q2, m, mode);
      LiftReraw(Dispatch(Text(q1), Fields(Text(q1)), m, mode), Trim(q1), Trim(q2));
    }
  }

  /**
   * Exactly one trailing `;` is removed: with it or without it a statement parses to
   * the same command.
   */
  lemma OneSemicolonRemoved(s: string, m: Matchers, mode: Mode)
    requires s != [] && Trim(s) == s && s[|s| - 1] != ';'
    ensures ParseWith(s + ";", m, mode) == Reraw(ParseWith(s, m, mode), s + ";")
  {
    TextOfTerminated(s);
    SameTextSameCommand(s + ";", s, m, mode);
  }

  /** A second `;` survives into the dispatched text, where it sticks to the last token. */
  lemma SecondSemicolonKept(s: string)
    requires s != [] && Trim(s) == s && s[|s| - 1] != ';'
    ensures Text(s + ";;") == s + ";"
  {
    assert !IsSpace(s[0]);
    TrimOfEnds(s + ";;");
    assert (s + ";;")[..|s| + 1] == s + ";";
  }

  /** `USE <name>` selects the database named by the second token, lowercased. */
  lemma UseLowercasesName(use: string, name: string, m: Matchers, mode: Mode)
    requires Upper(use) == "USE" && Words([use, name])
    ensures ParseWith(use + " " + name, m, mode) == Done(Parsed(UseDatabase(Lower(name)), use + " " + name))
  {
    var q := Strings.Join([use, name], " ");
    SpelledTwo(use, name);
    WordsStatement([use, name]);
    ParseWithTokens(q, m, mode);
    UseDispatch(q, [use, name], m, mode);
  }

  /** `USE` with a second token selects that database. */
  lemma UseDispatch(text: string, tokens: seq<string>, m: Matchers, mode: Mode)
    requires |tokens| >= 2 && Upper(tokens[0]) == "USE"
    ensures Dispatch(text, tokens, m, mode) == Done(UseDatabase(Lower(tokens[1])))
  {
  }

  /** A single word that is neither COMMIT nor a data verb is UNKNOWN. */
  lemma LoneWordIsUnknown(w: string, m: Matchers, mode: Mode)
    requires Words([w]) && Upper(w) !in DML_VERBS && Upper(w) != "COMMIT"
    ensures ParseWith(w, m, mode) == Done(Parsed(Unknown, w))
  {
    WordsStatement([w]);
    assert Strings.Join([w], " ") == w;
    ParseWithTokens(w, m, mode);
  }

  /** Two or more words whose first-two-word key names no handler (and is no verb) are UNKNOWN. */
  lemma UnmatchedKeyIsUnknown(ws: seq<string>, m: Matchers, mode: Mode)
    requires Words(ws) && |ws| >= 2
    requires Upper(ws[0]) !in DML_VERBS && Upper(ws[0]) != "COMMIT" && Upper(ws[0]) != "USE"
    requires Upper(ws[0]) + " " + Upper(ws[1]) !in COMPOUND_KEYS
    ensures ParseWith(Strings.Join(ws, " "), m, mode) == Done(Parsed(Unknown, Strings.Join(ws, " ")))
  {
    WordsStatement(ws);
    ParseWithTokens(Strings.Join(ws, " "), m, mode);
  }

  /**
   * The handlers read `tok[2]` (and `tok[3]`) without a length check: a short
   * keyword statement panics as written and is UNKNOWN once repaired.
   */
  lemma ShortKeywordStatement(ws: seq<string>, m: Matchers)
    requires Words(ws) && 2 <= |ws| && Upper(ws[0]) in KEYWORD_STARTS
    requires var key := Upper(ws[0]) + " " + Upper(ws[1]);
      ((key == "CREATE DATABASE" || key == "ALTER DATABASE" || key == "DROP TABLE") && |ws| == 2)
      || ((key == "CREATE INDEX" || key == "DROP INDEX") && |ws| <= 3)
    ensures ParseAsWritten(Strings.Join(ws, " "), m) == Fault(OutOfRange(|ws|, |ws|))
    ensures Parse(Strings.Join(ws, " "), m) == Parsed(Unknown, Strings.Join(ws, " "))
  {
    KeywordStatement(ws, m, AsWritten);
    KeywordStatement(ws, m, Repaired);
  }

  /** A statement that is only `;` panics on `tokens[0]` as written and is UNKNOWN once repaired. */
  lemma LoneSemicolon(m: Matchers)
    ensures ParseAsWritten(";", m) == Fault(OutOfRange(0, 0))
    ensures Parse(";", m) == Parsed(Unknown, ";")
  {
    TrimOfEnds(";");
    assert Text(";") == "";
    ParseWithNoTokens(";", m, AsWritten);
    ParseWithNoTokens(";", m, Repaired);
  }

  /** No handler-table keyword is COMMIT, USE or a data verb. */
  lemma KeywordStartsAreNoVerbs(k: string)
    requires k in KEYWORD_STARTS
    ensures k !in DML_VERBS && k != "COMMIT" && k != "USE"
  {
    if k == "CREATE" || k == "DROP" {
      assert k[1] == 'R';
    } else {
      assert k[1] == 'L';
    }
  }

  /** A handler-table key names its two words, and only those. */
  lemma KeyWords(a: string, b: string)
    requires NoSpace(a) && NoSpace(b)
    ensures a + " " + b == "CREATE DATABASE" <==> a == "CREATE" && b == "DATABASE"
    ensures a + " " + b == "ALTER DATABASE" <==> a == "ALTER" && b == "DATABASE"
    ensures a + " " + b == "CREATE TABLE" <==> a == "CREATE" && b == "TABLE"
    ensures a + " " + b == "ALTER TABLE" <==> a == "ALTER" && b == "TABLE"
    ensures a + " " + b == "DROP TABLE" <==> a == "DROP" && b == "TABLE"
    ensures a + " " + b == "CREATE INDEX" <==> a == "CREATE" && b == "INDEX"
    ensures a + " " + b == "DROP INDEX" <==> a == "DROP" && b == "INDEX"
  {
    KeyWordsOf(a, b, "CREATE", "DATABASE", "CREATE DATABASE");
    KeyWordsOf(a, b, "ALTER", "DATABASE", "ALTER DATABASE");
    KeyWordsOf(a, b, "CREATE", "TABLE", "CREATE TABLE");
    KeyWordsOf(a, b, "ALTER", "TABLE", "ALTER TABLE");
    KeyWordsOf(a, b, "DROP", "TABLE", "DROP TABLE");
    KeyWordsOf(a, b, "CREATE", "INDEX", "CREATE INDEX");
    KeyWordsOf(a, b, "DROP", "INDEX", "DROP INDEX");
  }

  lemma KeyWordsOf(a: string, b: string, x: string, y: string, key: string)
    requires NoSpace(a) && NoSpace(x) && key == x + " " + y
    ensures a + " " + b == key <==> a == x && b == y
  {
    SpaceJoinInjective(a, b, x, y);
  }

  /** A statement opening with a handler-table keyword goes to the handler table. */
  lemma KeywordDispatch(text: string, tokens: seq<string>, m: Matchers, mode: Mode)
    requires |tokens| >= 2 && Upper(tokens[0]) in KEYWORD_STARTS
    ensures Dispatch(text, tokens, m, mode) == Compound(Upper(tokens[0]) + " " + Upper(tokens[1]), text, tokens, mode)
  {
    KeywordStartsAreNoVerbs(Upper(tokens[0]));
  }

  /** A keyword statement of words parses through the handler table under its first two words. */
  lemma KeywordStatement(ws: seq<string>, m: Matchers, mode: Mode)
    requires Words(ws) && |ws| >= 2 && Upper(ws[0]) in KEYWORD_STARTS
    ensures ParseWith(Strings.Join(ws, " "), m, mode) == Lift(Compound(Upper(ws[0]) + " " + Upper(ws[1]), Strings.Join(ws, " "), ws, mode), Strings.Join(ws, " "))
  {
    var q := Strings.Join(ws, " ");
    WordsStatement(ws);
    ParseWithTokens(q, m, mode);
    KeywordDispatch(q, ws, m, mode);
  }

  lemma SpelledTwo(k: string, a: string)
    ensures Strings.Join([k, a], " ") == k + " " + a
  {
    assert [k, a][1..] == [a];
    assert Strings.Join([a], " ") == a;
  }

  lemma SpelledThree(k1: string, k2: string, a: string)
    ensures Strings.Join([k1, k2, a], " ") == k1 + " " + k2 + " " + a
  {
    assert [k1, k2, a][1..] == [k2, a];
    assert [k2, a][1..] == [a];
    assert Strings.Join([a], " ") == a;
    assert Strings.Join([k2, a], " ") == k2 + " " + a;
  }

  lemma SpelledFour(k1: string, k2: string, a: string, b: string)
    ensures Strings.Join([k1, k2, a, b], " ") == k1 + " " + k2 + " " + a + " " + b
  {
    assert [k1, k2, a, b][1..] == [k2, a, b];
    SpelledThree(k2, a, b);
  }

  /**
   * `CREATE DATABASE a`, `ALTER DATABASE a` and `DROP TABLE a`, their keywords in any
   * case, read back the name they were written with.
   */
  lemma OneNameStatementRoundTrip(k1: string, k2: string, a: string, m: Matchers, mode: Mode)
    requires Words([k1, k2, a]) && Lower(a) == a && Upper(k1) in KEYWORD_STARTS
    ensures var q := k1 + " " + k2 + " " + a;
      Upper(k1) + " " + Upper(k2) == "CREATE DATABASE" ==> ParseWith(q, m, mode) == Done(Parsed(CreateDatabase(a), q))
    ensures var q := k1 + " " + k2 + " " + a;
      Upper(k1) + " " + Upper(k2) == "ALTER DATABASE" ==> ParseWith(q, m, mode) == Done(Parsed(AlterDatabase(a), q))
    ensures var q := k1 + " " + k2 + " " + a;
      Upper(k1) + " " + Upper(k2) == "DROP TABLE" ==> ParseWith(q, m, mode) == Done(Parsed(DropTable(a), q))
  {
    var ws := [k1, k2, a];
    var q := Strings.Join(ws, " ");
    SpelledThree(k1, k2, a);
    KeywordStatement(ws, m, mode);
    var key := Upper(ws[0]) + " " + Upper(ws[1]);
    if key == "CREATE DATABASE" {
      assert Compound(key, q, ws, mode) == Done(CreateDatabase(a));
    } else if key == "ALTER DATABASE" {
      assert Compound(key, q, ws, mode) == Done(AlterDatabase(a));
    } else if key == "DROP TABLE" {
      assert Compound(key, q, ws, mode) == Done(DropTable(a));
    }
  }

  /** `CREATE INDEX t c` and `DROP INDEX t c`, their keywords in any case, read back their table and column. */
  lemma IndexStatementRoundTrip(k1: string, k2: string, t: string, c: string, m: Matchers, mode: Mode)
    requires Words([k1, k2, t, c]) && Lower(t) == t && Lower(c) == c && Upper(k1) in KEYWORD_STARTS
    ensures var q := k1 + " " + k2 + " " + t + " " + c;
      Upper(k1) + " " + Upper(k2) == "CREATE INDEX" ==> ParseWith(q, m, mode) == Done(Parsed(CreateIndex(t, c), q))
    ensures var q := k1 + " " + k2 + " " + t + " " + c;
      Upper(k1) + " " + Upper(k2) == "DROP INDEX" ==> ParseWith(q, m, mode) == Done(Parsed(DropIndex(t, c), q))
  {
    var ws := [k1, k2, t, c];
    var q := Strings.Join(ws, " ");
    SpelledFour(k1, k2, t, c);
    KeywordStatement(ws, m, mode);
    var key := Upper(ws[0]) + " " + Upper(ws[1]);
    if key == "CREATE INDEX" {
      assert Compound(key, q, ws, mode) == Done(CreateIndex(t, c));
    } else if key == "DROP INDEX" {
      assert Compound(key, q, ws, mode) == Done(DropIndex(t, c));
    }
  }

  // ---------------------------------------------------------------------------
  // Sub-parser properties.

  /**
   * As written, a six-token `ALTER TABLE t ADD COLUMN c` is the empty payload, so the
   * TEXT default the code spells out is unreachable; repaired, it adds a TEXT column.
   */
  lemma SixTokenAlterTable(tokens: seq<string>)
    requires |tokens| == 6 && Upper(tokens[3]) == "ADD" && Upper(tokens[4]) == "COLUMN"
    ensures ParseAlterTable(tokens, AsWritten) == None
    ensures ParseAlterTable(tokens, Repaired) == Some(AlterTableSpec(Lower(tokens[2]), ColumnDef(Lower(tokens[5]), "TEXT")))
  {
  }

  /**
   * A CREATE TABLE statement whose last `)` comes before its first `(`: as written
   * the column slice runs backwards and panics, repaired it is the empty payload.
   */
  lemma CloseBeforeOpen(h: string, c: string)
    requires '(' !in h && ')' !in c && |Fields(h + ")")| >= 3
    ensures ParseCreateTable(h + ")(" + c, AsWritten) == Fault(SliceBounds(|h| + 2, |h|))
    ensures ParseCreateTable(h + ")(" + c, Repaired) == Done(None)
  {
    ParenthesesReversed(h, c);
  }

  /** Where the parentheses of `h + ")(" + c` are found. */
  lemma ParenthesesReversed(h: string, c: string)
    requires '(' !in h && ')' !in c
    ensures IndexOfChar(h + ")(" + c, '(') == Some(|h| + 1)
    ensures LastIndexOfChar(h + ")(" + c, ')') == Some(|h|)
    ensures (h + ")(" + c)[..|h| + 1] == h + ")"
  {
    FirstOpenAfterClose(h, c);
    LastCloseBeforeOpen(h, c);
  }

  lemma FirstOpenAfterClose(h: string, c: string)
    requires '(' !in h
    ensures IndexOfChar(h + ")(" + c, '(') == Some(|h| + 1)
    ensures (h + ")(" + c)[..|h| + 1] == h + ")"
  {
    assert h + ")(" + c == (h + ")") + ['('] + c;
    IndexOfCharAt(h + ")", '(', c);
  }

  lemma LastCloseBeforeOpen(h: string, c: string)
    requires ')' !in c
    ensures LastIndexOfChar(h + ")(" + c, ')') == Some(|h|)
  {
    assert ')' !in "(" + c;
    LastIndexOfCharAt(h, ')', "(" + c);
    ReversedSpelling(h, c);
  }

  lemma ReversedSpelling(h: string, c: string)
    ensures h + ")(" + c == h + [')'] + ("(" + c)
  {
  }

  /** A column definition as a CREATE TABLE statement spells it: name, blank, type. */
  function ColumnText(d: ColumnDef): string {
    d.name + " " + d.colType
  }

  /**
   * A definition the parser reads back unchanged: a lowercase name and an uppercase
   * type, both blank-free words free of `,`, `(` and `)`.
   */
  predicate Writable(d: ColumnDef) {
    d.name != [] && d.colType != [] && NoSpace(d.name) && NoSpace(d.colType)
    && Lower(d.name) == d.name && Upper(d.colType) == d.colType
    && ',' !in d.name && ',' !in d.colType && ')' !in d.name && ')' !in d.colType
  }

  lemma ColumnDefRoundTrip(d: ColumnDef)
    requires Writable(d)
    ensures ColumnDefOf(ColumnText(d)) == Some(d)
  {
    ColumnTextWords(d);
  }

  lemma ColumnTextAvoids(d: ColumnDef)
    requires Writable(d)
    ensures ',' !in ColumnText(d) && ')' !in ColumnText(d)
  {
  }

  /** A spelled-out definition is already trimmed and splits into its name and type. */
  lemma ColumnTextWords(d: ColumnDef)
    requires d.name != [] && d.colType != [] && NoSpace(d.name) && NoSpace(d.colType)
    ensures Trim(ColumnText(d)) == ColumnText(d)
    ensures Fields(ColumnText(d)) == [d.name, d.colType]
  {
    SpelledTwo(d.name, d.colType);
    WordsStatementTwo(d.name, d.colType);
  }

  lemma WordsStatementTwo(a: string, b: string)
    requires a != [] && b != [] && NoSpace(a) && NoSpace(b)
    ensures Trim(Strings.Join([a, b], " ")) == Strings.Join([a, b], " ")
    ensures Fields(Strings.Join([a, b], " ")) == [a, b]
  {
    var q := Strings.Join([a, b], " ");
    JoinEnds([a, b], " ");
    TrimOfEnds(q);
    FieldsOfJoin([a, b]);
  }

  /** Each definition spelled out. */
  function ColumnTexts(defs: seq<ColumnDef>): (r: seq<string>)
    ensures |r| == |defs| && forall i :: 0 <= i < |defs| ==> r[i] == ColumnText(defs[i])
  {
    seq(|defs|, i requires 0 <= i < |defs| => ColumnText(defs[i]))
  }

  /** The column list of a CREATE TABLE statement: the definitions joined by `,`. */
  function ColumnList(defs: seq<ColumnDef>): string {
    Strings.Join(ColumnTexts(defs), ",")
  }

  /** A written column list holds no `)`, so the statement's last `)` closes it. */
  lemma ColumnListUnclosed(defs: seq<ColumnDef>)
    requires forall i :: 0 <= i < |defs| ==> Writable(defs[i])
    ensures ')' !in ColumnList(defs)
  {
    var texts := ColumnTexts(defs);
    forall i | 0 <= i < |texts| ensures ')' !in texts[i] {
      ColumnTextAvoids(defs[i]);
    }
    JoinAvoids(texts, ",", ')');
  }

  /** A character in no piece and not in the separator is not in the join. */
  lemma {:induction false} JoinAvoids(xs: seq<string>, sep: string, c: char)
    requires c !in sep && forall i :: 0 <= i < |xs| ==> c !in xs[i]
    ensures c !in Strings.Join(xs, sep)
    decreases |xs|
  {
    if |xs| > 1 {
      JoinAvoids(xs[1..], sep, c);
    }
  }

  /** Present values throughout: `Somes` keeps every one, in order. */
  lemma {:induction false} SomesOfPresent<T>(xs: seq<Option<T>>, ys: seq<T>)
    requires |xs| == |ys| && forall i :: 0 <= i < |xs| ==> xs[i] == Some(ys[i])
    ensures Somes(xs) == ys
    decreases |xs|
  {
    if xs != [] {
      SomesOfPresent(xs[1..], ys[1..]);
      assert ys == [ys[0]] + ys[1..];
    }
  }

  /** The column loop reads a written column list back to its definitions. */
  lemma ColumnDefsRoundTrip(defs: seq<ColumnDef>)
    requires |defs| >= 1 && forall i :: 0 <= i < |defs| ==> Writable(defs[i])
    ensures ColumnDefs(Split(ColumnList(defs), ',')) == defs
  {
    var texts := ColumnTexts(defs);
    forall i | 0 <= i < |texts| ensures ',' !in texts[i] && ColumnDefOf(texts[i]) == Some(defs[i]) {
      ColumnTextAvoids(defs[i]);
      ColumnDefRoundTrip(defs[i]);
    }
    SplitOfJoin(texts, ',');
    SomesOfPresent(ParsedColumns(texts), defs);
  }

  /** A non-empty blank-free word. */
  predicate Word(w: string) {
    w != [] && NoSpace(w)
  }

  /** The header `k1 k2 t ` of a CREATE TABLE statement, up to its `(`. */
  function Header(k1: string, k2: string, t: string): string {
    k1 + " " + k2 + " " + t + " "
  }

  /** A CREATE TABLE statement spelled from its keywords, table name and definitions. */
  function CreateTableText(k1: string, k2: string, t: string, defs: seq<ColumnDef>): string {
    Header(k1, k2, t) + "(" + ColumnList(defs) + ")"
  }

  lemma HeaderFields(k1: string, k2: string, t: string)
    requires Word(k1) && Word(k2) && Word(t)
    ensures Fields(Header(k1, k2, t)) == [k1, k2, t]
  {
    assert Header(k1, k2, t) == k1 + " " + (k2 + " " + (t + " " + ""));
    FieldsCons(t, "");
    FieldsCons(k2, t + " " + "");
    FieldsCons(k1, k2 + " " + (t + " " + ""));
  }

  lemma CreateTableOpen(h: string, l: string)
    requires '(' !in h
    ensures IndexOfChar(h + "(" + l + ")", '(') == Some(|h|)
    ensures (h + "(" + l + ")")[..|h|] == h
  {
    IndexOfCharAt(h, '(', l + ")");
    OpenSpelling(h, l);
  }

  lemma OpenSpelling(h: string, l: string)
    ensures h + "(" + l + ")" == h + ['('] + (l + ")")
    ensures (h + "(" + l + ")")[..|h|] == h
  {
  }

  lemma CreateTableClose(h: string, l: string)
    ensures LastIndexOfChar(h + "(" + l + ")", ')').Some?
    ensures LastIndexOfChar(h + "(" + l + ")", ')').value == |h| + |l| + 1
  {
    ClosingParenthesis(h + "(" + l);
  }

  lemma ClosingParenthesis(s: string)
    ensures LastIndexOfChar(s + ")", ')') == Some(|s|)
  {
    LastIndexOfCharAtEnd(s, ')');
  }

  lemma ColumnsSlice(h: string, l: string)
    ensures (h + "(" + l + ")")[|h| + 1..|h| + |l| + 1] == l
  {
  }

  /** A statement `h(l)` whose header has three tokens and whose column list has no `)`. */
  lemma ParseCreateTableOf(h: string, l: string, mode: Mode)
    requires '(' !in h && ')' !in l && |Fields(h)| >= 3
    ensures ParseCreateTable(h + "(" + l + ")", mode) == Done(Some(CreateTableSpec(Lower(Fields(h)[2]), ColumnDefs(Split(l, ',')))))
  {
    CreateTableOpen(h, l);
    CreateTableClose(h, l);
    ColumnsSlice(h, l);
  }

  /**
   * `parseCreateTable` reads back a statement spelled from a lowercase table name and
   * writable column definitions, whatever its first two words.
   */
  lemma CreateTableRoundTrip(k1: string, k2: string, t: string, defs: seq<ColumnDef>, mode: Mode)
    requires Word(k1) && Word(k2) && Word(t) && '(' !in k1 + k2 + t && Lower(t) == t
    requires |defs| >= 1 && forall i :: 0 <= i < |defs| ==> Writable(defs[i])
    ensures ParseCreateTable(CreateTableText(k1, k2, t, defs), mode) == Done(Some(CreateTableSpec(t, defs)))
  {
    HeaderFields(k1, k2, t);
    HeaderUnopened(k1, k2, t);
    ColumnListUnclosed(defs);
    ParseCreateTableOf(Header(k1, k2, t), ColumnList(defs), mode);
    ColumnDefsRoundTrip(defs);
  }

  lemma HeaderUnopened(k1: string, k2: string, t: string)
    requires '(' !in k1 + k2 + t
    ensures '(' !in Header(k1, k2, t)
  {
  }

  /** A column name the parser reads back unchanged: a lowercase word without `=` or `,`. */
  predicate ColumnName(c: string) {
    Word(c) && Lower(c) == c && '=' !in c && ',' !in c
  }

  /** `c=v` as a WHERE clause or a SET chunk spells it. */
  function Equation(c: string, v: Value): string
    requires Spellable(v)
  {
    c + "=" + LiteralOf(v)
  }

  lemma EquationSplits(c: string, v: Value)
    requires ColumnName(c) && Spellable(v)
    ensures SplitOnce(Equation(c, v), '=') == Some((c, LiteralOf(v)))
  {
    SplitOnceAt(c, '=', LiteralOf(v));
    EquationSpelling(c, LiteralOf(v));
  }

  lemma EquationSpelling(c: string, l: string)
    ensures c + "=" + l == c + ['='] + l
  {
  }

  /** `parseCondition` reads back the column and the value of a spelled-out equation. */
  lemma ConditionRoundTrip(c: string, v: Value)
    requires ColumnName(c) && Spellable(v)
    ensures GoCondition(Equation(c, v)) == Cond(Condition(c, v))
    ensures GoWhere(Some(Equation(c, v))) == Cond(Condition(c, v))
  {
    EquationSplits(c, v);
    TrimOfNoSpace(c);
    LiteralRoundTrip(v);
  }

  /** One SET chunk reads back its column and value. */
  lemma AssignmentRoundTrip(c: string, v: Value)
    requires ColumnName(c) && Spellable(v)
    ensures Assignment(Equation(c, v)) == Some((c, v))
  {
    EquationSplits(c, v);
    TrimOfNoSpace(c);
    LiteralRoundTrip(v);
  }

  /** Each assignment spelled out. */
  function Equations(cols: seq<string>, vals: seq<Value>): (r: seq<string>)
    requires |cols| == |vals| && forall i :: 0 <= i < |vals| ==> Spellable(vals[i])
    ensures |r| == |cols| && forall i :: 0 <= i < |cols| ==> r[i] == Equation(cols[i], vals[i])
  {
    seq(|cols|, i requires 0 <= i < |cols| => Equation(cols[i], vals[i]))
  }

  /** The SET list `c1=v1,c2=v2,...`. */
  function SetList(cols: seq<string>, vals: seq<Value>): string
    requires |cols| == |vals| && forall i :: 0 <= i < |vals| ==> Spellable(vals[i])
  {
    Strings.Join(Equations(cols, vals), ",")
  }

  /** A value list that spells without `,`, with names the parser reads back. */
  predicate Listable(cols: seq<string>, vals: seq<Value>) {
    |cols| == |vals| >= 1
    && forall i :: 0 <= i < |cols| ==> ColumnName(cols[i]) && Spellable(vals[i]) && ',' !in LiteralOf(vals[i])
  }

  lemma SetListPieces(cols: seq<string>, vals: seq<Value>)
    requires Listable(cols, vals)
    ensures Split(SetList(cols, vals), ',') == Equations(cols, vals)
  {
    var texts := Equations(cols, vals);
    forall i | 0 <= i < |texts| ensures ',' !in texts[i] {
      EquationAvoids(cols[i], vals[i]);
    }
    SplitOfJoin(texts, ',');
  }

  lemma EquationPairs(cols: seq<string>, vals: seq<Value>)
    requires Listable(cols, vals)
    ensures var ps := AssignmentPairs(Equations(cols, vals));
      |ps| == |cols| && forall i :: 0 <= i < |cols| ==> ps[i] == Some((cols[i], vals[i]))
  {
    var texts := Equations(cols, vals);
    forall i | 0 <= i < |cols| ensures Assignment(texts[i]) == Some((cols[i], vals[i])) {
      AssignmentRoundTrip(cols[i], vals[i]);
    }
  }

  /** Collecting present pairs assigns exactly their columns, each to its last value. */
  lemma CollectPresent(ps: seq<Option<(string, Value)>>, cols: seq<string>, vals: seq<Value>)
    requires |ps| == |cols| == |vals| && forall i :: 0 <= i < |cols| ==> ps[i] == Some((cols[i], vals[i]))
    ensures forall c :: c in Collect(ps) <==> c in cols
    ensures forall i :: 0 <= i < |cols| && (forall j :: i < j < |cols| ==> cols[j] != cols[i]) ==> Collect(ps)[cols[i]] == vals[i]
  {
    forall c ensures Assigns(ps, c) <==> c in cols {
      if c in cols {
        var i :| 0 <= i < |cols| && cols[i] == c;
        assert ps[i].Some? && ps[i].value.0 == c;
      }
    }
    forall i | 0 <= i < |cols| && (forall j :: i < j < |cols| ==> cols[j] != cols[i]) ensures LastAssigns(ps, i, cols[i]) {
    }
  }

  /**
   * The assignment loop reads a spelled SET list back: it assigns exactly the listed
   * columns, and a column listed more than once takes its last value.
   */
  lemma AssignmentsRoundTrip(cols: seq<string>, vals: seq<Value>)
    requires Listable(cols, vals)
    ensures forall c :: c in Assignments(Split(SetList(cols, vals), ',')) <==> c in cols
    ensures forall i :: 0 <= i < |cols| && (forall j :: i < j < |cols| ==> cols[j] != cols[i]) ==>
      Assignments(Split(SetList(cols, vals), ','))[cols[i]] == vals[i]
  {
    SetListPieces(cols, vals);
    EquationPairs(cols, vals);
    CollectPresent(AssignmentPairs(Equations(cols, vals)), cols, vals);
  }

  lemma EquationAvoids(c: string, v: Value)
    requires ColumnName(c) && Spellable(v) && ',' !in LiteralOf(v)
    ensures ',' !in Equation(c, v)
  {
  }
}
