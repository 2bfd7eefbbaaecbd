/**
 * The Python statement parser (parser.py). It trims like the Rust parser (every
 * trailing `;` goes) but indexes tokens and unpacks splits without guards, so the
 * short or malformed statements that Go panics on, and a few more, raise here. A
 * raised exception is a `Fault` carrying the Python error text.
 *
 * `ast.literal_eval` is the `Evaluator` parameter. The INSERT and SELECT patterns
 * are a `Matchers` value of Python's own: unlike Go's, they are matched from the
 * start of the text (`re.match`) and read `\w` as any Unicode word character. Their
 * captures are handled as Go handles its captures.
 */
module PyParser {
  import opened Base
  import opened Strings
  import opened Values
  import opened Literals
  import opened Commands
  import opened GoParser
  import opened RustParser

  /**
   * `ast.literal_eval`: `literal` evaluates one literal, `tuple` evaluates
   * `"(" + segment + ")"` and wraps a non-tuple result; `None` when it raises.
   */
  datatype Evaluator = Evaluator(literal: string -> Option<Value>, tuple: string -> Option<seq<Value>>)

  const INDEX_ERROR: string := "IndexError: list index out of range"
  const UNPACK_ERROR: string := "ValueError: not enough values to unpack (expected 2, got 1)"
  const EVAL_ERROR: string := "SyntaxError or ValueError raised by ast.literal_eval"

  /** `_parse_literal`: the evaluated literal, or the text with its single quotes stripped off both ends. */
  function PyLiteral(text: string, ev: Evaluator): (v: Value)
    ensures ev.literal(text).Some? ==> v == ev.literal(text).value
    ensures ev.literal(text).None? ==> v.Text? && (v.s == [] || (v.s[0] != '\'' && v.s[|v.s| - 1] != '\''))
  {
    match ev.literal(text)
    case Some(v) => v
    case None => Text(StripAll(text, '\''))
  }

  // ---------------------------------------------------------------------------
  // WHERE and SET clauses.

  /** Python's `\w` on ASCII text. */
  predicate WordChar(c: char) {
    'a' <= c <= 'z' || 'A' <= c <= 'Z' || '0' <= c <= '9' || c == '_'
  }

  /** The text from `i` on upper-cases to `kw`, character by character. */
  predicate UpperMatchAt(text: string, kw: string, i: nat)
    requires i + |kw| <= |text|
  {
    forall k :: 0 <= k < |kw| ==> ToUpperChar(text[i + k]) == kw[k]
  }

  /** `\b<kw>\b` matches at `i`, ignoring case, for an upper-case keyword of word characters. */
  predicate WholeWordAt(text: string, kw: string, i: nat) {
    i + |kw| <= |text| && UpperMatchAt(text, kw, i)
    && (i == 0 || !WordChar(text[i - 1]))
    && (i + |kw| == |text| || !WordChar(text[i + |kw|]))
  }

  /** `re.search(rf"\b{kw}\b", text, re.IGNORECASE)` from position `from`. */
  function FindWholeWord(text: string, kw: string, from: nat): (r: Option<nat>)
    ensures r.Some? ==> from <= r.value && WholeWordAt(text, kw, r.value)
    ensures r.Some? ==> forall j :: from <= j < r.value ==> !WholeWordAt(text, kw, j)
    ensures r.None? ==> forall j :: from <= j ==> !WholeWordAt(text, kw, j)
    decreases |text| - from
  {
    if from + |kw| > |text| then None
    else if WholeWordAt(text, kw, from) then Some(from)
    else FindWholeWord(text, kw, from + 1)
  }

  /**
   * `_split_keyword`: the trimmed text before and after the first whole-word match
   * of the keyword, or the text alone when there is none.
   */
  function SplitKeyword(text: string, kw: string): (r: seq<string>)
    ensures |r| == 1 || |r| == 2
    ensures |r| == 1 <==> FindWholeWord(text, kw, 0).None?
    ensures |r| == 1 ==> r[0] == text
    ensures |r| == 2 ==> (FindWholeWord(text, kw, 0).value + |kw| <= |text|
      && r == SplitAround(text, FindWholeWord(text, kw, 0).value, |kw|))
  {
    var found := FindWholeWord(text, kw, 0);
    if found.None? then [text]
    else SplitAround(text, found.value, |kw|)
  }

  /** The trimmed text before position `i` and after the `n` characters from `i`. */
  function SplitAround(text: string, i: nat, n: nat): (r: seq<string>)
    requires i + n <= |text|
    ensures |r| == 2
  {
    [Trim(text[..i]), Trim(text[i + n..])]
  }

  /** A ` WHERE ` found by the case-blind substring test is a whole-word match one place on. */
  lemma SpacedWhereIsWholeWord(text: string, j: nat)
    requires OccursAt(Upper(text), " WHERE ", j)
    ensures WholeWordAt(text, "WHERE", j + 1)
  {
    WhereWordAt(text, j);
    BlanksAroundWhere(text, j);
  }

  /** The five letters after the leading blank upper-case to `WHERE`. */
  lemma WhereWordAt(text: string, j: nat)
    requires OccursAt(Upper(text), " WHERE ", j)
    ensures j + 7 <= |text| && UpperMatchAt(text, "WHERE", j + 1)
  {
    MatchIn(Upper(text), text, " WHERE ", j, 1, 6);
    assert " WHERE "[1..6] == "WHERE";
  }

  /** The blanks around a spaced ` WHERE ` are blanks of the text, so not word characters. */
  lemma BlanksAroundWhere(text: string, j: nat)
    requires OccursAt(Upper(text), " WHERE ", j)
    ensures j + 7 <= |text| && !WordChar(text[j]) && !WordChar(text[j + 6])
  {
    BlankIn(Upper(text), text, " WHERE ", j, 0);
    BlankIn(Upper(text), text, " WHERE ", j, 6);
  }

  /** Where a pattern occurs in the upper-cased text, the text upper-cases to each piece of it. */
  lemma MatchIn(u: string, text: string, pat: string, j: nat, a: nat, b: nat)
    requires |u| == |text| && (forall i :: 0 <= i < |text| ==> u[i] == ToUpperChar(text[i]))
    requires OccursAt(u, pat, j) && a <= b <= |pat|
    ensures j + |pat| <= |text| && UpperMatchAt(text, pat[a..b], j + a)
  {
    forall k | 0 <= k < b - a ensures ToUpperChar(text[j + a + k]) == pat[a..b][k] {
      assert u[j + a + k] == u[j..j + |pat|][a + k];
    }
  }

  /** A blank of a pattern found in the upper-cased text is a blank of the text. */
  lemma BlankIn(u: string, text: string, pat: string, j: nat, k: nat)
    requires |u| == |text| && (forall i :: 0 <= i < |text| ==> u[i] == ToUpperChar(text[i]))
    requires OccursAt(u, pat, j) && k < |pat| && pat[k] == ' '
    ensures j + |pat| <= |text| && text[j + k] == ' '
  {
    OccursBlank(u, pat, j, k);
    assert u[j + k] == ToUpperChar(text[j + k]);
  }

  /** A blank of a pattern found at `j` is a blank of the text. */
  lemma OccursBlank(s: string, pat: string, j: nat, k: nat)
    requires OccursAt(s, pat, j) && k < |pat| && pat[k] == ' '
    ensures j + k < |s| && s[j + k] == ' '
  {
    assert s[j + k] == s[j..j + |pat|][k];
  }

  /** Only a blank upper-cases to a blank. */
  lemma UpperKeepsBlank(text: string, j: nat)
    requires j < |text| && Upper(text)[j] == ' '
    ensures text[j] == ' ' && !WordChar(text[j])
  {
  }

  /**
   * The WHERE split of `_parse_update` and `_parse_delete`: when the upper-cased
   * text holds ` WHERE `, the two pieces `_split_keyword` returns; otherwise the
   * text and no clause. The unpacking of the pieces never fails, because a spaced
   * ` WHERE ` is always a whole word.
   */
  function PySplitWhere(text: string): (r: Outcome<(string, Option<string>)>)
    ensures r.Done?
    ensures r.value.1.None? <==> IndexOf(Upper(text), " WHERE ").None?
    ensures r.value.1.None? ==> r.value.0 == text
    ensures r.value.1.Some? ==> SplitKeyword(text, "WHERE") == [r.value.0, r.value.1.value]
  {
    match IndexOf(Upper(text), " WHERE ")
    case None => Done((text, None))
    case Some(j) =>
      SpacedWhereIsWholeWord(text, j);
      var parts := SplitKeyword(text, "WHERE");
      if |parts| == 2 then Done((parts[0], Some(parts[1]))) else Fault(UNPACK_ERROR)
  }

  /** `_parse_condition` on a non-empty clause: raises without `=`. */
  function PyCondition(clause: string, ev: Evaluator): (r: Outcome<Condition>)
    ensures r.Fault? <==> '=' !in clause
    ensures r.Fault? ==> r.reason == UNPACK_ERROR
    ensures r.Done? ==> GoCondition(clause).Cond? && r.value.column == GoCondition(clause).cond.column
  {
    match SplitOnce(clause, '=')
    case None => Fault(UNPACK_ERROR)
    case Some((col, lit)) => Done(Condition(Lower(Trim(col)), PyLiteral(Trim(lit), ev)))
  }

  /**
   * The `where` entry: none for a missing or empty clause, else the parsed
   * condition. Python raises exactly where Go builds its empty condition map.
   */
  function PyWhere(part: Option<string>, ev: Evaluator): (r: Outcome<Where>)
    ensures r.Fault? <==> GoWhere(part).Malformed?
    ensures r.Done? ==> !r.value.Malformed? && (r.value.NoWhere? <==> GoWhere(part).NoWhere?)
    ensures r.Done? && r.value.Cond? ==> r.value.cond.column == GoWhere(part).cond.column
  {
    if part.None? || part.value == "" then Done(NoWhere)
    else
      match PyCondition(part.value, ev)
      case Fault(e) => Fault(e)
      case Done(c) => Done(Cond(c))
  }

  /** One SET chunk; `None` when it has no `=`, where the unpacking raises. */
  function PyAssignment(chunk: string, ev: Evaluator): (r: Option<(string, Value)>)
    ensures r.None? <==> '=' !in chunk
    ensures r.Some? ==> Assignment(chunk).Some? && r.value.0 == Assignment(chunk).value.0
  {
    match SplitOnce(chunk, '=')
    case None => None
    case Some((col, lit)) => Some((Lower(Trim(col)), PyLiteral(Trim(lit), ev)))
  }

  function PyPairs(chunks: seq<string>, ev: Evaluator): (r: seq<Option<(string, Value)>>)
    ensures |r| == |chunks| && forall i :: 0 <= i < |chunks| ==> r[i] == PyAssignment(chunks[i], ev)
  {
    seq(|chunks|, i requires 0 <= i < |chunks| => PyAssignment(chunks[i], ev))
  }

  /**
   * The assignment loop of `_parse_update`: every chunk must hold `=`; later
   * assignments to a column replace earlier ones. The columns assigned are the
   * ones the Go loop assigns.
   */
  function PyAssignments(chunks: seq<string>, ev: Evaluator): (r: Outcome<map<string, Value>>)
    ensures r.Fault? <==> exists i :: 0 <= i < |chunks| && '=' !in chunks[i]
    ensures r.Done? ==> r.value.Keys == Assignments(chunks).Keys
    ensures r.Done? ==> forall i, c :: LastAssigns(PyPairs(chunks, ev), i, c) ==> c in r.value && r.value[c] == PyPairs(chunks, ev)[i].value.1
  {
    if exists i :: 0 <= i < |chunks| && '=' !in chunks[i] then Fault(UNPACK_ERROR)
    else
      var ps := PyPairs(chunks, ev);
      SameColumnsAssigned(chunks, ev);
      Done(Collect(ps))
  }

  lemma PairColumn(chunk: string, ev: Evaluator)
    ensures PyAssignment(chunk, ev).Some? <==> Assignment(chunk).Some?
    ensures PyAssignment(chunk, ev).Some? ==> PyAssignment(chunk, ev).value.0 == Assignment(chunk).value.0
  {
  }

  /** The Python and Go pairs assign the same columns. */
  lemma SameColumnsAssigned(chunks: seq<string>, ev: Evaluator)
    ensures forall c :: Assigns(PyPairs(chunks, ev), c) ==> Assigns(AssignmentPairs(chunks), c)
    ensures (forall i :: 0 <= i < |chunks| ==> '=' in chunks[i]) ==>
      forall c :: Assigns(AssignmentPairs(chunks), c) ==> Assigns(PyPairs(chunks, ev), c)
  {
    var py, go := PyPairs(chunks, ev), AssignmentPairs(chunks);
    forall c | Assigns(py, c) ensures Assigns(go, c) {
      var i :| 0 <= i < |py| && py[i].Some? && py[i].value.0 == c;
      PairColumn(chunks[i], ev);
      assert go[i] == Assignment(chunks[i]);
    }
    if forall i :: 0 <= i < |chunks| ==> '=' in chunks[i] {
      forall c | Assigns(go, c) ensures Assigns(py, c) {
        var i :| 0 <= i < |go| && go[i].Some? && go[i].value.0 == c;
        PairColumn(chunks[i], ev);
        assert py[i] == PyAssignment(chunks[i], ev);
      }
    }
  }

  // ---------------------------------------------------------------------------
  // Sub-parsers.

  /**
   * `_parse_create_table`: raises without `(` and with fewer than three header
   * tokens; otherwise the table and the definitions between the first `(` and the
   * last `)` after it, or to the end when there is none.
   */
  function PyCreateTable(text: string): (r: Outcome<CreateTableSpec>)
    ensures '(' !in text ==> r == Fault(UNPACK_ERROR)
    ensures '(' in text ==> (r.Fault? <==> |Fields(text[..IndexOfChar(text, '(').value])| < 3)
    ensures r.Fault? && '(' in text ==> r.reason == INDEX_ERROR
    ensures r.Done? ==> r.value.table == Lower(Fields(text[..IndexOfChar(text, '(').value])[2])
  {
    match SplitOnce(text, '(')
    case None => Fault(UNPACK_ERROR)
    case Some((header, cols)) =>
      IndexOfCharAt(header, '(', cols);
      var hs := Fields(header);
      if |hs| < 3 then Fault(INDEX_ERROR)
      else
        var inner := match LastIndexOfChar(cols, ')') case None => cols case Some(k) => cols[..k];
        Done(CreateTableSpec(Lower(hs[2]), ColumnDefs(Split(inner, ','))))
  }

  /** `_parse_alter_table`: raises on `tokens[2]`, then Go's seven-token test. */
  function PyAlterTable(tokens: seq<string>): (r: Outcome<Option<AlterTableSpec>>)
    ensures r.Fault? <==> |tokens| < 3
    ensures r.Done? ==> r.value == ParseAlterTable(tokens, AsWritten)
    ensures r.Done? ==> (r.value.Some? <==> |tokens| >= 7 && Upper(tokens[3]) == "ADD" && Upper(tokens[4]) == "COLUMN")
  {
    if |tokens| < 3 then Fault(INDEX_ERROR) else Done(ParseAlterTable(tokens, AsWritten))
  }

  /**
   * `_parse_insert` on the captures of Python's own pattern `m`: the empty payload
   * without a match; the value list raises when it does not evaluate.
   */
  function PyInsert(text: string, m: Matchers, ev: Evaluator): (r: Outcome<Option<InsertSpec>>)
    ensures m.insert(text).None? ==> r == Done(None)
    ensures r.Fault? <==> m.insert(text).Some? && ev.tuple(m.insert(text).value.values).None?
    ensures r.Done? && r.value.Some? ==> (r.value.value.table == Lower(m.insert(text).value.table)
      && r.value.value.values == ev.tuple(m.insert(text).value.values).value)
  {
    match m.insert(text)
    case None => Done(None)
    case Some(c) =>
      match ev.tuple(c.values)
      case None => Fault(EVAL_ERROR)
      case Some(vs) => Done(Some(InsertSpec(Lower(c.table), vs)))
  }

  /**
   * `_parse_update`: raises on fewer than two tokens before WHERE, on a missing
   * ` SET ` (matched with its case), on a chunk without `=` and on a condition
   * without `=`.
   */
  function PyUpdate(text: string, ev: Evaluator): (r: Outcome<UpdateSpec>)
    ensures var prefix := PySplitWhere(text).value.0;
      (|Fields(prefix)| < 2 || IndexOf(prefix, " SET ").None?) ==> r == Fault(INDEX_ERROR)
    ensures r.Done? ==> r.value.table == Lower(Fields(PySplitWhere(text).value.0)[1])
    ensures r.Done? ==> PyWhere(PySplitWhere(text).value.1, ev) == Done(r.value.where)
  {
    var (prefix, wherePart) := PySplitWhere(text).value;
    var tokens := Fields(prefix);
    if |tokens| < 2 then Fault(INDEX_ERROR)
    else
      match IndexOf(prefix, " SET ")
      case None => Fault(INDEX_ERROR)
      case Some(i) =>
        match PyAssignments(Split(prefix[i + 5..], ','), ev)
        case Fault(e) => Fault(e)
        case Done(a) =>
          match PyWhere(wherePart, ev)
          case Fault(e) => Fault(e)
          case Done(w) => Done(UpdateSpec(Lower(tokens[1]), a, w))
  }

  /** `_parse_delete`: raises on fewer than three tokens before WHERE and on a condition without `=`. */
  function PyDelete(text: string, ev: Evaluator): (r: Outcome<DeleteSpec>)
    ensures |Fields(PySplitWhere(text).value.0)| < 3 ==> r == Fault(INDEX_ERROR)
    ensures |Fields(PySplitWhere(text).value.0)| >= 3 ==> (r.Fault? <==> PyWhere(PySplitWhere(text).value.1, ev).Fault?)
    ensures r.Done? ==> r.value.table == Lower(Fields(PySplitWhere(text).value.0)[2])
    ensures r.Done? ==> PyWhere(PySplitWhere(text).value.1, ev) == Done(r.value.where)
  {
    var (prefix, wherePart) := PySplitWhere(text).value;
    var tokens := Fields(prefix);
    if |tokens| < 3 then Fault(INDEX_ERROR)
    else
      match PyWhere(wherePart, ev)
      case Fault(e) => Fault(e)
      case Done(w) => Done(DeleteSpec(Lower(tokens[2]), w))
  }

  /**
   * `_parse_select` on the captures of Python's own pattern `m`, handled as Go's
   * `parseSelect` handles its captures. It never raises; it differs
   * from Go only in reading the WHERE literal.
   */
  function PySelect(text: string, m: Matchers, ev: Evaluator): (r: Option<SelectSpec>)
    ensures r.None? <==> ParseSelect(text, m).None?
    ensures r.Some? ==> (r.value.table == ParseSelect(text, m).value.table
      && r.value.columns == ParseSelect(text, m).value.columns
      && r.value.join == ParseSelect(text, m).value.join
      && (r.value.where.Cond? <==> ParseSelect(text, m).value.where.Cond?)
      && !r.value.where.Malformed?)
    ensures r.Some? && r.value.where.Cond? ==> (r.value.where.cond.column == ParseSelect(text, m).value.where.cond.column
      && r.value.where.cond.value == PyLiteral(m.select(text).value.whereVal, ev))
  {
    match m.select(text)
    case None => None
    case Some(c) =>
      var where := if c.whereCol != "" then Cond(Condition(Lower(c.whereCol), PyLiteral(c.whereVal, ev))) else NoWhere;
      var join := match c.join
        case Some(j) => if j.table != "" then Some(Join(Lower(j.table), Lower(j.leftTable), Lower(j.leftCol), Lower(j.rightTable), Lower(j.rightCol))) else None
        case None => None;
      Some(SelectSpec(Lower(c.table), SelectColumns(c.cols), where, join))
  }

  // ---------------------------------------------------------------------------
  // Dispatch.

  /** The handler table, keyed by the pair of the first two words, upper-cased. */
  function PyCompound(first: string, second: string, text: string, tokens: seq<string>): (r: Outcome<Command>)
    requires |tokens| >= 2
    ensures r.Fault? ==> (first, second) in PY_KEYS
    ensures (first, second) !in PY_KEYS ==> r == Done(Unknown)
    ensures r.Done? ==> r.value != Empty && (r.value.CreateTable? ==> r.value.create.Some?)
  {
    if first == "CREATE" && second == "DATABASE" then
      if |tokens| < 3 then Fault(INDEX_ERROR) else Done(CreateDatabase(Lower(tokens[2])))
    else if first == "ALTER" && second == "DATABASE" then
      if |tokens| < 3 then Fault(INDEX_ERROR) else Done(AlterDatabase(Lower(tokens[2])))
    else if first == "CREATE" && second == "TABLE" then
      match PyCreateTable(text)
      case Fault(e) => Fault(e)
      case Done(s) => Done(CreateTable(Some(s)))
    else if first == "ALTER" && second == "TABLE" then
      match PyAlterTable(tokens)
      case Fault(e) => Fault(e)
      case Done(a) => Done(AlterTable(a))
    else if first == "DROP" && second == "TABLE" then
      if |tokens| < 3 then Fault(INDEX_ERROR) else Done(DropTable(Lower(tokens[2])))
    else if first == "CREATE" && second == "INDEX" then
      if |tokens| < 4 then Fault(INDEX_ERROR) else Done(CreateIndex(Lower(tokens[2]), Lower(tokens[3])))
    else if first == "DROP" && second == "INDEX" then
      if |tokens| < 4 then Fault(INDEX_ERROR) else Done(DropIndex(Lower(tokens[2]), Lower(tokens[3])))
    else Done(Unknown)
  }

  const PY_KEYS: set<(string, string)> := {
    ("CREATE", "DATABASE"), ("ALTER", "DATABASE"), ("CREATE", "TABLE"), ("ALTER", "TABLE"),
    ("DROP", "TABLE"), ("CREATE", "INDEX"), ("DROP", "INDEX")
  }

  /** The verb chain of `parse` on a statement with at least one token: COMMIT, USE, the data verbs, the handler table. */
  function PyDispatch(text: string, tokens: seq<string>, m: Matchers, ev: Evaluator): (r: Outcome<Command>)
    requires tokens != []
    ensures Upper(tokens[0]) == "COMMIT" ==> r == Done(Commit)
    ensures Upper(tokens[0]) == "USE" ==> r == Done(if |tokens| > 1 then UseDatabase(Lower(tokens[1])) else Unknown)
    ensures |tokens| == 1 && Upper(tokens[0]) !in DML_VERBS && Upper(tokens[0]) != "COMMIT" ==> r == Done(Unknown)
    ensures |tokens| > 1 && Upper(tokens[0]) !in DML_VERBS && Upper(tokens[0]) != "COMMIT" && Upper(tokens[0]) != "USE" ==>
      r == PyCompound(Upper(tokens[0]), Upper(tokens[1]), text, tokens)
    ensures r.Done? ==> r.value != Empty
  {
    var command := Upper(tokens[0]);
    if command == "COMMIT" then Done(Commit)
    else if command == "USE" then Done(if |tokens| > 1 then UseDatabase(Lower(tokens[1])) else Unknown)
    else if command == "INSERT" then
      match PyInsert(text, m, ev)
      case Fault(e) => Fault(e)
      case Done(i) => Done(Insert(i))
    else if command == "UPDATE" then
      match PyUpdate(text, ev)
      case Fault(e) => Fault(e)
      case Done(u) => Done(Update(Some(u)))
    else if command == "DELETE" then
      match PyDelete(text, ev)
      case Fault(e) => Fault(e)
      case Done(d) => Done(Delete(Some(d)))
    else if command == "SELECT" then Done(Select(PySelect(text, m, ev)))
    else if |tokens| > 1 then PyCompound(command, Upper(tokens[1]), text, tokens)
    else Done(Unknown)
  }

  /**
   * `parse`. A blank statement is EMPTY with an empty raw text; one with no token
   * left after its `;`s raises on `tokens[0]`; any other keeps its trimmed text as raw.
   */
  function PyParseWith(query: string, m: Matchers, ev: Evaluator): (r: Outcome<Parsed>)
    ensures r.Done? ==> r.value.raw == Trim(query)
    ensures r.Done? && Trim(query) != "" ==> r.value.cmd != Empty
  {
    var raw := Trim(query);
    if raw == "" then Done(Parsed(Empty, ""))
    else
      var text := RustText(query);
      var tokens := Fields(text);
      if tokens == [] then Fault(INDEX_ERROR)
      else Lift(PyDispatch(text, tokens, m, ev), raw)
  }

  /** The parser the rest of the model uses: an exception reaches the caller as a `Fault`. */
  function PyParse(query: string, m: Matchers, ev: Evaluator): Outcome<Parsed> {
    PyParseWith(query, m, ev)
  }

  // ---------------------------------------------------------------------------
  // Statement text.

  /** A blank statement is EMPTY; one whose `;`s leave no token raises on `tokens[0]`. */
  lemma PyParseWithEdges(q: string, m: Matchers, ev: Evaluator)
    ensures Trim(q) == "" ==> PyParseWith(q, m, ev) == Done(Parsed(Empty, ""))
    ensures Trim(q) != "" && Fields(RustText(q)) == [] ==> PyParseWith(q, m, ev) == Fault(INDEX_ERROR)
  {
  }

  /** A statement with tokens is dispatched on them. */
  lemma PyParseWithTokens(q: string, m: Matchers, ev: Evaluator)
    requires Trim(q) != "" && Fields(RustText(q)) != []
    ensures PyParseWith(q, m, ev) == Lift(PyDispatch(RustText(q), Fields(RustText(q)), m, ev), Trim(q))
  {
  }

  /** Two statements with the same dispatched text parse alike, up to their raw text. */
  lemma PySameTextSameCommand(q1: string, q2: string, m: Matchers, ev: Evaluator)
    requires Trim(q1) != "" && Trim(q2) != "" && RustText(q1) == RustText(q2)
    ensures PyParseWith(q1, m, ev) == Reraw(PyParseWith(q2, m, ev), Trim(q1))
  {
    if Fields(RustText(q1)) != [] {
      PyParseWithTokens(q1, m, ev);
      PyParseWithTokens(q2, m, ev);
      LiftReraw(PyDispatch(RustText(q1), Fields(RustText(q1)), m, ev), Trim(q1), Trim(q2));
    }
  }

  /** As in Rust, any number of `;` after a trimmed statement is ignored. */
  lemma PySemicolonsRemoved(s: string, n: nat, m: Matchers, ev: Evaluator)
    requires s != [] && Trim(s) == s
    ensures PyParseWith(s + Run(';', n), m, ev) == Reraw(PyParseWith(s, m, ev), s + Run(';', n))
  {
    SemicolonTail(s, n);
    PySameTextSameCommand(s + Run(';', n), s, m, ev);
  }

  /** A statement of `;`s alone raises on `tokens[0]`; Rust answers UNKNOWN. */
  lemma PyLoneSemicolons(n: nat, m: Matchers, ev: Evaluator)
    requires n >= 1
    ensures PyParseWith(Run(';', n), m, ev) == Fault(INDEX_ERROR)
    ensures RustParseWith(Run(';', n), m, AsWritten) == Done(Parsed(Unknown, Run(';', n)))
  {
    SemicolonsOnly(n);
    RustLoneSemicolons(n, m, AsWritten);
  }

  lemma SemicolonsOnly(n: nat)
    requires n >= 1
    ensures Trim(Run(';', n)) == Run(';', n) != ""
    ensures Fields(RustText(Run(';', n))) == []
  {
    var q := Run(';', n);
    TrimOfEnds(q);
    assert TrimAllSuffix(q, ';') == [];
  }

  /** `COMMIT;;` commits, as in Rust and unlike Go. */
  lemma PyCommitDoubleSemicolon(w: string, m: Matchers, ev: Evaluator)
    requires CommitWord(w)
    ensures PyParseWith(w + ";;", m, ev) == Done(Parsed(Commit, w + ";;"))
  {
    CommitWordShape(w);
    CommitTail(w);
    PyParseWithTokens(w + ";;", m, ev);
  }

  /** `w;;` for a word `w` is dispatched as `w` alone. */
  lemma CommitTail(w: string)
    requires w != [] && NoSpace(w) && Trim(w) == w && w[|w| - 1] != ';'
    ensures Trim(w + ";;") == w + ";;" && Fields(RustText(w + ";;")) == [w]
  {
    OneField(w);
    SemicolonTail(w, 2);
    RunOfTwo(';');
    assert RustText(w) == w;
  }

  /** `USE` with no name is UNKNOWN in Python and in Go. */
  lemma UseWithoutName(w: string, gm: Matchers, pm: Matchers, ev: Evaluator)
    requires Upper(w) == "USE" && NoSpace(w)
    ensures PyParseWith(w, pm, ev) == Done(Parsed(Unknown, w))
    ensures Parse(w, gm) == Parsed(Unknown, w)
  {
    assert |w| == 3 && w[2] != ';' by {
      assert Upper(w)[2] == 'E';
    }
    TrimOfNoSpace(w);
    OneField(w);
    assert RustText(w) == w;
    assert GoParser.Text(w) == w;
    PyParseWithTokens(w, pm, ev);
    ParseWithTokens(w, gm, Repaired);
  }

  /**
   * `SELECT c FROM t` where `t` holds a letter outside ASCII, such as `tablé`. Go's
   * `\w` is ASCII, so the table group stops short of it and the closing `$` fails:
   * the empty payload. Python's `\w` is Unicode, and Python selects from `t`.
   */
  lemma PyUnicodeTableName(c: string, t: string, gm: Matchers, pm: Matchers, ev: Evaluator)
    requires Word(c) && Word(t) && t[|t| - 1] != ';'
    requires gm.select(Strings.Join(["SELECT", c, "FROM", t], " ")) == None
    requires pm.select(Strings.Join(["SELECT", c, "FROM", t], " ")) == Some(SelectCaptures(c, t, None, "", ""))
    ensures var q := Strings.Join(["SELECT", c, "FROM", t], " ");
      Parse(q, gm) == Parsed(Select(None), q)
      && PyParseWith(q, pm, ev) == Done(Parsed(Select(Some(SelectSpec(Lower(t), SelectColumns(c), NoWhere, None))), q))
  {
    var ws := ["SELECT", c, "FROM", t];
    var q := Strings.Join(ws, " ");
    VerbWords(ws, "SELECT");
    GoVerbParse(q, ws, gm);
    PySelectParse(q, ws, pm, ev);
  }

  /** A SELECT statement of words: Python reads the captures of its own pattern. */
  lemma PySelectParse(q: string, ws: seq<string>, m: Matchers, ev: Evaluator)
    requires Words(ws) && q == Strings.Join(ws, " ") && Upper(ws[0]) == "SELECT"
    ensures PyParseWith(q, m, ev) == Done(Parsed(Select(PySelect(q, m, ev)), q))
  {
    VerbStatement(ws);
    KeywordStartsAreNoVerbsBack(Upper(ws[0]));
    assert PyDispatch(q, ws, m, ev) == Done(Select(PySelect(q, m, ev)));
    PyParseWithTokens(q, m, ev);
  }

  // ---------------------------------------------------------------------------
  // Agreement with the Go parser as written.

  /** A statement opening with CREATE, ALTER or DROP goes to the handler table. */
  lemma PyKeywordFacts(text: string, tokens: seq<string>, m: Matchers, ev: Evaluator)
    requires KeywordTokens(tokens)
    ensures PyDispatch(text, tokens, m, ev) == PyCompound(Upper(tokens[0]), Upper(tokens[1]), text, tokens)
  {
    KeywordStartsAreNoVerbs(Upper(tokens[0]));
  }

  /**
   * On the handler-table statements that do not read the statement text (the
   * database and index statements and DROP TABLE), Python raises exactly where Go
   * panics as written and otherwise builds the same command.
   */
  lemma PyKeywordAgrees(text: string, tokens: seq<string>, gm: Matchers, pm: Matchers, ev: Evaluator)
    requires KeywordTokens(tokens) && (Upper(tokens[1]) != "TABLE" || Upper(tokens[0]) == "DROP")
    ensures PyDispatch(text, tokens, pm, ev).Fault? <==> Dispatch(text, tokens, gm, AsWritten).Fault?
    ensures PyDispatch(text, tokens, pm, ev).Done? ==> PyDispatch(text, tokens, pm, ev) == Dispatch(text, tokens, gm, AsWritten)
  {
    KeywordFacts(text, tokens, gm, AsWritten);
    PyKeywordFacts(text, tokens, pm, ev);
  }

  /**
   * A keyword statement one name short raises on the missing token, as the Go
   * code panics; Rust answers UNKNOWN.
   */
  lemma PyShortKeywordStatement(ws: seq<string>, m: Matchers, ev: Evaluator)
    requires Words(ws) && 2 <= |ws| && Upper(ws[0]) in KEYWORD_STARTS
    requires var key := Upper(ws[0]) + " " + Upper(ws[1]);
      ((key == "CREATE DATABASE" || key == "ALTER DATABASE" || key == "DROP TABLE") && |ws| == 2)
      || ((key == "CREATE INDEX" || key == "DROP INDEX") && |ws| <= 3)
    ensures PyParseWith(Strings.Join(ws, " "), m, ev) == Fault(INDEX_ERROR)
  {
    var q := Strings.Join(ws, " ");
    WordsStatement(ws);
    JoinEnds(ws, " ");
    assert RustText(q) == q;
    PyParseWithTokens(q, m, ev);
    PyShortDispatch(q, ws, m, ev);
  }

  lemma PyShortDispatch(text: string, tokens: seq<string>, m: Matchers, ev: Evaluator)
    requires KeywordTokens(tokens)
    requires var key := Upper(tokens[0]) + " " + Upper(tokens[1]);
      ((key == "CREATE DATABASE" || key == "ALTER DATABASE" || key == "DROP TABLE") && |tokens| == 2)
      || ((key == "CREATE INDEX" || key == "DROP INDEX") && |tokens| <= 3)
    ensures PyDispatch(text, tokens, m, ev) == Fault(INDEX_ERROR)
  {
    KeywordFacts(text, tokens, m, AsWritten);
    PyKeywordFacts(text, tokens, m, ev);
  }

  // ---------------------------------------------------------------------------
  // CREATE TABLE.

  /** Wherever Go finds a CREATE TABLE payload, Python finds the same one. */
  lemma PyCreateTableExtendsGo(text: string, mode: Mode)
    requires ParseCreateTable(text, mode).Done? && ParseCreateTable(text, mode).value.Some?
    ensures PyCreateTable(text) == Done(ParseCreateTable(text, mode).value.value)
  {
    var open := IndexOfChar(text, '(').value;
    var close := LastIndexOfChar(text, ')').value;
    GoCreateTablePayload(text, mode, open, close);
    ColumnsAfterOpen(text, open, close);
    var header, cols, k := text[..open], text[open + 1..], close - open - 1;
    PyCreateTableAt(text, header, cols, k);
    assert cols[..k] == text[open + 1..close];
  }

  /** With the first `(` before the last `)` and a long enough header, Go reads the columns between them. */
  lemma GoCreateTablePayload(text: string, mode: Mode, open: nat, close: nat)
    requires IndexOfChar(text, '(') == Some(open) && LastIndexOfChar(text, ')') == Some(close)
    requires open < close && |Fields(text[..open])| >= 3
    ensures ParseCreateTable(text, mode) == Done(Some(CreateTableSpec(Lower(Fields(text[..open])[2]), ColumnDefs(Split(text[open + 1..close], ',')))))
  {
  }

  /** Python cuts at the first `(` and then at the last `)` of what follows. */
  lemma PyCreateTableAt(text: string, header: string, cols: string, k: nat)
    requires SplitOnce(text, '(') == Some((header, cols))
    requires |Fields(header)| >= 3 && LastIndexOfChar(cols, ')') == Some(k)
    ensures PyCreateTable(text) == Done(CreateTableSpec(Lower(Fields(header)[2]), ColumnDefs(Split(cols[..k], ','))))
  {
  }

  lemma ColumnsAfterOpen(text: string, open: nat, close: nat)
    requires IndexOfChar(text, '(') == Some(open) && LastIndexOfChar(text, ')') == Some(close) && open < close
    ensures SplitOnce(text, '(') == Some((text[..open], text[open + 1..]))
    ensures LastIndexOfChar(text[open + 1..], ')') == Some(close - open - 1)
    ensures text[open + 1..][..close - open - 1] == text[open + 1..close]
  {
    LastIndexOfCharInSuffix(text, ')', open + 1, close);
    SuffixPrefix(text, open + 1, close);
  }

  /** The last `c` of a text is the last `c` of every suffix that still holds it. */
  lemma LastIndexOfCharInSuffix(s: string, c: char, from: nat, last: nat)
    requires from <= last < |s| && s[last] == c && c !in s[last + 1..]
    ensures LastIndexOfChar(s[from..], c) == Some(last - from)
  {
    SliceAround(s, from, last);
    LastIndexOfCharAt(s[from..last], c, s[last + 1..]);
  }

  lemma SliceAround(s: string, from: nat, at: nat)
    requires from <= at < |s|
    ensures s[from..] == s[from..at] + [s[at]] + s[at + 1..]
  {
  }

  lemma SuffixPrefix(s: string, from: nat, to: nat)
    requires from <= to <= |s|
    ensures s[from..][..to - from] == s[from..to]
  {
  }

  /** A CREATE TABLE statement spelled from its parts parses back to them in Python too. */
  lemma PyCreateTableRoundTrip(k1: string, k2: string, t: string, defs: seq<ColumnDef>)
    requires Word(k1) && Word(k2) && Word(t) && '(' !in k1 + k2 + t && Lower(t) == t
    requires |defs| >= 1 && forall i :: 0 <= i < |defs| ==> Writable(defs[i])
    ensures PyCreateTable(CreateTableText(k1, k2, t, defs)) == Done(CreateTableSpec(t, defs))
  {
    CreateTableRoundTrip(k1, k2, t, defs, Repaired);
    PyCreateTableExtendsGo(CreateTableText(k1, k2, t, defs), Repaired);
  }

  /**
   * `)` before the first `(`: Go slices backwards and panics as written; Python
   * looks for `)` only after the `(` and reads the columns to the end.
   */
  lemma PyReversedParentheses(h: string, c: string)
    requires '(' !in h && ')' !in c && |Fields(h + ")")| >= 3
    ensures PyCreateTable(h + ")(" + c) == Done(CreateTableSpec(Lower(Fields(h + ")")[2]), ColumnDefs(Split(c, ','))))
    ensures ParseCreateTable(h + ")(" + c, AsWritten).Fault?
  {
    assert h + ")(" + c == (h + ")") + ['('] + c;
    SplitOnceAt(h + ")", '(', c);
    CloseBeforeOpen(h, c);
  }

  /** No `)` at all: Go gives the empty payload, Python reads the columns to the end. */
  lemma PyUnclosedColumns(h: string, c: string)
    requires '(' !in h && ')' !in h && ')' !in c && |Fields(h)| >= 3
    ensures PyCreateTable(h + "(" + c) == Done(CreateTableSpec(Lower(Fields(h)[2]), ColumnDefs(Split(c, ','))))
    ensures ParseCreateTable(h + "(" + c, Repaired) == Done(None)
  {
    assert h + "(" + c == h + ['('] + c;
    SplitOnceAt(h, '(', c);
  }

  // ---------------------------------------------------------------------------
  // Where the WHERE split, the SET clause and the literals part from Go.

  /**
   * When the first whole word `where` is the one inside the first spaced ` WHERE `,
   * Python's pieces are Go's: the same tokens before it, and the condition text
   * trimmed.
   */
  lemma PySplitWhereAgrees(text: string, j: nat)
    requires IndexOf(Upper(text), " WHERE ") == Some(j)
    requires FindWholeWord(text, "WHERE", 0) == Some(j + 1)
    ensures Fields(PySplitWhere(text).value.0) == Fields(SplitWhere(text).0)
    ensures PySplitWhere(text).value.1 == Some(Trim(SplitWhere(text).1.value))
  {
    SpacedWhereIsWholeWord(text, j);
    var u := Upper(text);
    assert |u| == |text|;
    OccursBlank(u, " WHERE ", j, 0);
    assert u[j] == ' ';
    UpperKeepsBlank(text, j);
    OccursBlank(u, " WHERE ", j, 6);
    assert u[j + 6] == ' ';
    UpperKeepsBlank(text, j + 6);
    assert SplitWhere(text) == (text[..j], Some(text[j + 7..]));
    assert PySplitWhere(text).value == (Trim(text[..j + 1]), Some(Trim(text[j + 6..])));
    FieldsBeforeBlank(text, j);
    TrimAfterBlank(text, j + 6);
  }

  lemma FieldsBeforeBlank(text: string, j: nat)
    requires j < |text| && text[j] == ' '
    ensures Fields(Trim(text[..j + 1])) == Fields(text[..j])
  {
    assert text[..j + 1] == text[..j] + " ";
    FieldsOfTrim(text[..j + 1]);
    FieldsOfBlankSuffix(text[..j], " ");
  }

  lemma TrimAfterBlank(text: string, j: nat)
    requires j < |text| && text[j] == ' '
    ensures Trim(text[j..]) == Trim(text[j + 1..])
  {
    assert text[j..] == " " + text[j + 1..];
    TrimOfBlankFirst(text[j + 1..]);
  }

  /**
   * A whole word `where` at or before Go's ` WHERE ` (inside a quoted SET value,
   * say `'x-where'`) is where Python cuts instead.
   */
  lemma PyCutsAtEarlierWord(text: string, i: nat, j: nat)
    requires IndexOf(Upper(text), " WHERE ") == Some(j)
    requires WholeWordAt(text, "WHERE", i) && i <= j
    ensures FindWholeWord(text, "WHERE", 0).Some? && FindWholeWord(text, "WHERE", 0).value <= i < j + 1
    ensures PySplitWhere(text).value.0 == Trim(text[..FindWholeWord(text, "WHERE", 0).value])
    ensures SplitWhere(text).0 == text[..j]
  {
  }

  /** With the first ` WHERE ` split alike, Python deletes from Go's table, and raises exactly where Go has no payload or its empty condition map. */
  lemma PyDeleteAgrees(text: string, j: nat, ev: Evaluator)
    requires IndexOf(Upper(text), " WHERE ") == Some(j)
    requires FindWholeWord(text, "WHERE", 0) == Some(j + 1)
    ensures ParseDelete(text).None? ==> PyDelete(text, ev) == Fault(INDEX_ERROR)
    ensures PyDelete(text, ev).Done? ==> ParseDelete(text).Some? && PyDelete(text, ev).value.table == ParseDelete(text).value.table
  {
    PySplitWhereAgrees(text, j);
  }

  /** Without ` WHERE `, Python's DELETE raises exactly where Go's payload is empty, and is Go's otherwise. */
  lemma PyDeleteWithoutWhere(text: string, ev: Evaluator)
    requires IndexOf(Upper(text), " WHERE ").None?
    ensures PyDelete(text, ev).Fault? <==> ParseDelete(text).None?
    ensures PyDelete(text, ev).Done? ==> ParseDelete(text) == Some(PyDelete(text, ev).value)
  {
  }

  /**
   * Python looks for ` SET ` with its case, Go upper-cases first: a lowercase
   * ` set ` is an UPDATE for Go and raises in Python.
   */
  lemma PyLowercaseSet(text: string, ev: Evaluator)
    requires IndexOf(Upper(text), " WHERE ").None? && |Fields(text)| >= 2
    requires IndexOf(text, " SET ").None? && IndexOf(Upper(text), " SET ").Some?
    ensures PyUpdate(text, ev) == Fault(INDEX_ERROR)
    ensures ParseUpdate(text).Some? && ParseUpdate(text).value.table == Lower(Fields(text)[1])
  {
  }

  /**
   * A condition without `=`: Go builds its empty condition map, Rust reads no
   * condition, Python raises on the unpacking.
   */
  lemma ConditionWithoutEquals(w: string, ev: Evaluator)
    requires w != "" && '=' !in w
    ensures GoWhere(Some(w)) == Malformed
    ensures RustCondition(Some(w)) == NoWhere
    ensures PyWhere(Some(w), ev) == Fault(UNPACK_ERROR)
  {
  }

  /** `ALTER TABLE t ADD COLUMN c` has six tokens: Python's payload is empty, like Go as written, not the repaired TEXT column. */
  lemma PySixTokenAlter(tokens: seq<string>)
    requires |tokens| == 6 && Upper(tokens[3]) == "ADD" && Upper(tokens[4]) == "COLUMN"
    ensures PyAlterTable(tokens) == Done(None)
    ensures ParseAlterTable(tokens, Repaired) == Some(AlterTableSpec(Lower(tokens[2]), ColumnDef(Lower(tokens[5]), "TEXT")))
  {
  }

  /**
   * A single-quoted text that `literal_eval` rejects loses its quotes as in Go:
   * stripping every `'` from both ends keeps the inner text when that text neither
   * starts nor ends with a quote.
   */
  lemma PyQuotedFallback(s: string, ev: Evaluator)
    requires s == [] || (s[0] != '\'' && s[|s| - 1] != '\'')
    requires ev.literal("'" + s + "'").None?
    ensures PyLiteral("'" + s + "'", ev) == Text(s)
    ensures ParseLiteral("'" + s + "'") == Text(s)
  {
    var w := "'" + s + "'";
    assert w == ['\''] + s + ['\''];
    StripAllOfWrapped(s, '\'');
    TrimOfEnds(w);
    assert w[1..|w| - 1] == s;
  }
}
