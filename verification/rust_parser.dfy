/**
 * The Rust statement parser (parser.rs). It trims every trailing `;`, answers
 * UNKNOWN for a statement with no tokens, guards each keyword arm by the token
 * count, and answers UNKNOWN wherever the Go parser gives an empty payload. A
 * WHERE clause without `=` gives no condition at all. The panic modelled here is the
 * backwards slice of CREATE TABLE, under the same `AsWritten`/`Repaired` switch as
 * the Go parser; literals are read with the repaired `ParseLiteral` in both modes,
 * so the lone-quote panic of `parse_literal` is not reached through this parser.
 * ALTER TABLE keeps the seven-token test in both modes: Rust has no panic there.
 *
 * The INSERT and SELECT patterns of parser.rs are Go's without the closing `$`, so
 * they are a `Matchers` value of their own; their captures are then handled as Go
 * handles its captures. Agreement with Go is stated for statements on which the two
 * pattern pairs capture alike.
 */
module RustParser {
  import opened Base
  import opened Strings
  import opened Decimal
  import opened Literals
  import opened Commands
  import opened GoParser

  /** Rust's panic message for the string slice `s[lo..hi]` with `lo > hi`. */
  function StrSliceOrder(lo: nat, hi: nat, s: string): string {
    "begin <= end (" + NatToString(lo) + " <= " + NatToString(hi) + ") when slicing `" + s + "`"
  }

  /**
   * `parse_condition`: the column before the first `=`, lowercased, and the literal
   * after it; no condition without `=`.
   */
  function RustCondition(part: Option<string>): (r: Where)
    ensures !r.Malformed?
    ensures r.Cond? <==> part.Some? && '=' in part.value
  {
    match part
    case None => NoWhere
    case Some(w) =>
      match SplitOnce(w, '=')
      case None => NoWhere
      case Some((col, lit)) => Cond(Condition(Lower(Trim(col)), ParseLiteral(Trim(lit))))
  }

  /** The Rust condition is the Go one with the empty condition map read as no condition. */
  lemma RustConditionIsGoWhere(part: Option<string>)
    ensures RustCondition(part) == Demoted(GoWhere(part))
  {
  }

  /** A Go condition as Rust has it: the empty condition map becomes no condition. */
  function Demoted(w: Where): (r: Where)
    ensures !r.Malformed?
    ensures w.Malformed? <==> (r.NoWhere? && !w.NoWhere?)
    ensures !w.Malformed? ==> r == w
  {
    if w.Malformed? then NoWhere else w
  }

  /**
   * `parse_create_table`: UNKNOWN without a `(`, without a `)` or with fewer than
   * three header tokens; otherwise the table and the column definitions between the
   * first `(` and the last `)`. When that `)` comes before the `(` the slice panics as
   * written and is UNKNOWN once repaired.
   */
  function RustCreateTable(text: string, mode: Mode): (r: Outcome<Command>)
    ensures mode.Repaired? ==> r.Done?
    ensures ('(' !in text || ')' !in text) ==> r == Done(Unknown)
    ensures r.Done? ==> r.value == Unknown || (r.value.CreateTable? && r.value.create.Some?)
  {
    match IndexOfChar(text, '(')
    case None => Done(Unknown)
    case Some(open) =>
      match LastIndexOfChar(text, ')')
      case None => Done(Unknown)
      case Some(close) =>
        var header := Fields(text[..open]);
        if |header| < 3 then Done(Unknown)
        else if close < open + 1 then
          if mode.AsWritten? then Fault(StrSliceOrder(open + 1, close, text)) else Done(Unknown)
        else
          Done(CreateTable(Some(CreateTableSpec(Lower(header[2]), ColumnDefs(Split(text[open + 1..close], ','))))))
  }

  /** The Rust and Go CREATE TABLE parsers fail on the same statements and agree on the rest. */
  lemma RustCreateTableIsGo(text: string, mode: Mode)
    ensures RustCreateTable(text, mode).Fault? <==> ParseCreateTable(text, mode).Fault?
    ensures ParseCreateTable(text, mode) == Done(None) <==> RustCreateTable(text, mode) == Done(Unknown)
    ensures ParseCreateTable(text, mode).Done? && ParseCreateTable(text, mode).value.Some? ==>
      RustCreateTable(text, mode) == Done(CreateTable(ParseCreateTable(text, mode).value))
  {
  }

  /**
   * `parse_alter_table`: the seven-token test of Go as written, UNKNOWN instead of
   * the empty payload. There is no panic to repair, so no mode.
   */
  function RustAlterTable(tokens: seq<string>): (r: Command)
    ensures r.AlterTable? <==> |tokens| >= 7 && Upper(tokens[3]) == "ADD" && Upper(tokens[4]) == "COLUMN"
    ensures r.Unknown? <==> ParseAlterTable(tokens, AsWritten).None?
    ensures !r.Unknown? ==> r == AlterTable(ParseAlterTable(tokens, AsWritten))
  {
    match ParseAlterTable(tokens, AsWritten)
    case None => Unknown
    case Some(spec) => AlterTable(Some(spec))
  }

  /**
   * `parse_update`: the table is the second token before ` WHERE `, the assignments
   * follow the first ` SET `; UNKNOWN with fewer than two tokens or without ` SET `.
   */
  function RustUpdate(text: string): (r: Command)
    ensures r.Unknown? <==> ParseUpdate(text).None?
    ensures !r.Unknown? ==> (r.Update? && r.update.Some?
      && r.update.value == ParseUpdate(text).value.(where := Demoted(ParseUpdate(text).value.where)))
  {
    var (prefix, wherePart) := SplitWhere(text);
    var tokens := Fields(prefix);
    if |tokens| < 2 then assert ParseUpdate(text) == None; Unknown
    else
      match SetAssignments(prefix)
      case None => assert ParseUpdate(text) == None; Unknown
      case Some(assignments) =>
        RustConditionIsGoWhere(wherePart);
        assert ParseUpdate(text) == Some(UpdateSpec(Lower(tokens[1]), assignments, GoWhere(wherePart)));
        Update(Some(UpdateSpec(Lower(tokens[1]), assignments, RustCondition(wherePart))))
  }

  /** `parse_delete`: the table is the third token before ` WHERE `; UNKNOWN with fewer tokens. */
  function RustDelete(text: string): (r: Command)
    ensures r.Unknown? <==> ParseDelete(text).None?
    ensures !r.Unknown? ==> (r.Delete? && r.delete.Some?
      && r.delete.value == ParseDelete(text).value.(where := Demoted(ParseDelete(text).value.where)))
  {
    var (prefix, wherePart) := SplitWhere(text);
    var tokens := Fields(prefix);
    if |tokens| < 3 then assert ParseDelete(text) == None; Unknown
    else
      RustConditionIsGoWhere(wherePart);
      assert ParseDelete(text) == Some(DeleteSpec(Lower(tokens[2]), GoWhere(wherePart)));
      Delete(Some(DeleteSpec(Lower(tokens[2]), RustCondition(wherePart))))
  }

  /**
   * `parse_insert` and `parse_select` on the captures of Rust's own patterns `m`:
   * handled as Go handles its captures, UNKNOWN without a match.
   */
  function RustInsert(text: string, m: Matchers): (r: Command)
    ensures r.Unknown? <==> m.insert(text).None?
    ensures !r.Unknown? ==> r == Insert(ParseInsert(text, m))
  {
    match ParseInsert(text, m)
    case None => Unknown
    case Some(spec) => Insert(Some(spec))
  }

  function RustSelect(text: string, m: Matchers): (r: Command)
    ensures r.Unknown? <==> m.select(text).None?
    ensures !r.Unknown? ==> r == Select(ParseSelect(text, m))
  {
    match ParseSelect(text, m)
    case None => Unknown
    case Some(spec) => Select(Some(spec))
  }

  /**
   * The match of `parse` on the upper-cased first token, arm by arm in source order:
   * each keyword arm is guarded by the second token and the token count, and a
   * statement no arm takes is UNKNOWN.
   */
  function RustDispatch(text: string, tokens: seq<string>, m: Matchers, mode: Mode): (r: Outcome<Command>)
    requires tokens != []
    ensures Upper(tokens[0]) == "COMMIT" ==> r == Done(Commit)
    ensures Upper(tokens[0]) == "USE" && |tokens| > 1 ==> r == Done(UseDatabase(Lower(tokens[1])))
    ensures r.Fault? ==> mode.AsWritten? && |tokens| > 1 && Upper(tokens[0]) == "CREATE" && Upper(tokens[1]) == "TABLE"
    ensures r.Done? ==> r.value != Empty
  {
    var command := Upper(tokens[0]);
    var second := if |tokens| > 1 then Upper(tokens[1]) else "";
    if command == "COMMIT" then Done(Commit)
    else if command == "CREATE" && |tokens| > 1 && second == "DATABASE" then
      Done(if |tokens| > 2 then CreateDatabase(Lower(tokens[2])) else Unknown)
    else if command == "ALTER" && |tokens| > 1 && second == "DATABASE" then
      Done(if |tokens| > 2 then AlterDatabase(Lower(tokens[2])) else Unknown)
    else if command == "USE" && |tokens| > 1 then Done(UseDatabase(Lower(tokens[1])))
    else if command == "CREATE" && |tokens| > 1 && second == "TABLE" then RustCreateTable(text, mode)
    else if command == "ALTER" && |tokens| > 1 && second == "TABLE" then Done(RustAlterTable(tokens))
    else if command == "DROP" && |tokens| > 2 && second == "TABLE" then Done(DropTable(Lower(tokens[2])))
    else if command == "CREATE" && |tokens| > 3 && second == "INDEX" then Done(CreateIndex(Lower(tokens[2]), Lower(tokens[3])))
    else if command == "DROP" && |tokens| > 3 && second == "INDEX" then Done(DropIndex(Lower(tokens[2]), Lower(tokens[3])))
    else if command == "INSERT" then Done(RustInsert(text, m))
    else if command == "UPDATE" then Done(RustUpdate(text))
    else if command == "DELETE" then Done(RustDelete(text))
    else if command == "SELECT" then Done(RustSelect(text, m))
    else Done(Unknown)
  }

  /** The statement text the Rust dispatch sees: trimmed, with every trailing `;` removed. */
  function RustText(query: string): string {
    TrimAllSuffix(Trim(query), ';')
  }

  /**
   * `parse`. A blank statement is EMPTY with an empty raw text, one with no tokens
   * after its `;`s is UNKNOWN; any other keeps its trimmed text as raw.
   */
  function RustParseWith(query: string, m: Matchers, mode: Mode): (r: Outcome<Parsed>)
    ensures Trim(query) == "" ==> r == Done(Parsed(Empty, ""))
    ensures Trim(query) != "" && Fields(RustText(query)) == [] ==> r == Done(Parsed(Unknown, Trim(query)))
    ensures r.Done? ==> r.value.raw == Trim(query)
    ensures r.Done? && Trim(query) != "" ==> r.value.cmd != Empty
    ensures mode.Repaired? ==> r.Done?
  {
    var raw := Trim(query);
    if raw == "" then Done(Parsed(Empty, ""))
    else
      var text := RustText(query);
      var tokens := Fields(text);
      if tokens == [] then Done(Parsed(Unknown, raw))
      else Lift(RustDispatch(text, tokens, m, mode), raw)
  }

  /** The parser the rest of the model uses; `m` are Rust's own patterns. */
  function RustParse(query: string, m: Matchers): Parsed {
    RustParseWith(query, m, Repaired).value
  }

  // ---------------------------------------------------------------------------
  // Agreement with the Go parser.

  /**
   * What the Rust parser makes of a Go command: an empty payload is UNKNOWN and an
   * empty condition map is no condition.
   */
  function Demote(c: Command): (r: Command)
    ensures r != Empty <==> c != Empty
  {
    match c
    case CreateTable(None) => Unknown
    case AlterTable(None) => Unknown
    case Insert(None) => Unknown
    case Update(None) => Unknown
    case Update(Some(u)) => Update(Some(u.(where := Demoted(u.where))))
    case Delete(None) => Unknown
    case Delete(Some(d)) => Delete(Some(d.(where := Demoted(d.where))))
    case Select(None) => Unknown
    case _ => c
  }

  /** A Go outcome as the Rust dispatch has it. */
  function DemoteOutcome(o: Outcome<Command>): Outcome<Command> {
    match o
    case Done(c) => Done(Demote(c))
    case Fault(e) => o
  }

  /**
   * The Rust and Go patterns capture alike from `text` for the data verb `verb`.
   * The patterns differ (Rust's lack the closing `$`), so this holds of some
   * statements and not of others; it says nothing for UPDATE and DELETE, which
   * have no pattern.
   */
  predicate SameCaptures(verb: string, text: string, gm: Matchers, rm: Matchers) {
    (verb == "INSERT" ==> rm.insert(text) == gm.insert(text))
    && (verb == "SELECT" ==> rm.select(text) == gm.select(text))
  }

  lemma DataVerbAgrees(text: string, tokens: seq<string>, gm: Matchers, rm: Matchers)
    requires tokens != [] && Upper(tokens[0]) in DML_VERBS
    ensures SameCaptures(Upper(tokens[0]), text, gm, rm) ==>
      RustDispatch(text, tokens, rm, Repaired) == DemoteOutcome(Dispatch(text, tokens, gm, Repaired))
  {
    var v := Upper(tokens[0]);
    if v == "INSERT" {
      InsertAgrees(text, tokens, gm, rm);
    } else if v == "UPDATE" {
      UpdateAgrees(text, tokens, gm, rm);
    } else if v == "DELETE" {
      DeleteAgrees(text, tokens, gm, rm);
    } else {
      SelectAgrees(text, tokens, gm, rm);
    }
  }

  /**
   * INSERT: each parser has a payload exactly when its own pattern matches, and the
   * two agree when the patterns capture alike.
   */
  lemma InsertAgrees(text: string, tokens: seq<string>, gm: Matchers, rm: Matchers)
    requires tokens != [] && Upper(tokens[0]) == "INSERT"
    ensures RustDispatch(text, tokens, rm, Repaired) == Done(Unknown) <==> rm.insert(text).None?
    ensures Dispatch(text, tokens, gm, Repaired) == Done(Insert(None)) <==> gm.insert(text).None?
    ensures rm.insert(text) == gm.insert(text) ==>
      RustDispatch(text, tokens, rm, Repaired) == DemoteOutcome(Dispatch(text, tokens, gm, Repaired))
  {
    GoVerbDispatch(text, tokens, gm);
    RustVerbDispatch(text, tokens, rm);
    if rm.insert(text) == gm.insert(text) {
      assert ParseInsert(text, rm) == ParseInsert(text, gm);
    }
  }

  lemma UpdateAgrees(text: string, tokens: seq<string>, gm: Matchers, rm: Matchers)
    requires tokens != [] && Upper(tokens[0]) == "UPDATE"
    ensures RustDispatch(text, tokens, rm, Repaired) == DemoteOutcome(Dispatch(text, tokens, gm, Repaired))
  {
    KeywordStartsAreNoVerbsBack(Upper(tokens[0]));
    assert RustDispatch(text, tokens, rm, Repaired) == Done(RustUpdate(text));
    assert Dispatch(text, tokens, gm, Repaired) == Done(Update(ParseUpdate(text)));
  }

  lemma DeleteAgrees(text: string, tokens: seq<string>, gm: Matchers, rm: Matchers)
    requires tokens != [] && Upper(tokens[0]) == "DELETE"
    ensures RustDispatch(text, tokens, rm, Repaired) == DemoteOutcome(Dispatch(text, tokens, gm, Repaired))
  {
    KeywordStartsAreNoVerbsBack(Upper(tokens[0]));
    assert RustDispatch(text, tokens, rm, Repaired) == Done(RustDelete(text));
    assert Dispatch(text, tokens, gm, Repaired) == Done(Delete(ParseDelete(text)));
  }

  /**
   * SELECT: each parser has a payload exactly when its own pattern matches, and the
   * two agree when the patterns capture alike.
   */
  lemma SelectAgrees(text: string, tokens: seq<string>, gm: Matchers, rm: Matchers)
    requires tokens != [] && Upper(tokens[0]) == "SELECT"
    ensures RustDispatch(text, tokens, rm, Repaired) == Done(Unknown) <==> rm.select(text).None?
    ensures Dispatch(text, tokens, gm, Repaired) == Done(Select(None)) <==> gm.select(text).None?
    ensures rm.select(text) == gm.select(text) ==>
      RustDispatch(text, tokens, rm, Repaired) == DemoteOutcome(Dispatch(text, tokens, gm, Repaired))
  {
    GoVerbDispatch(text, tokens, gm);
    RustVerbDispatch(text, tokens, rm);
    if rm.select(text) == gm.select(text) {
      assert ParseSelect(text, rm) == ParseSelect(text, gm);
    }
  }

  /** Go hands a SELECT or INSERT statement to its pattern, in either mode. */
  lemma GoVerbDispatch(text: string, tokens: seq<string>, m: Matchers)
    requires tokens != [] && Upper(tokens[0]) in DML_VERBS
    ensures Upper(tokens[0]) == "SELECT" ==> Dispatch(text, tokens, m, Repaired) == Done(Select(ParseSelect(text, m)))
    ensures Upper(tokens[0]) == "INSERT" ==> Dispatch(text, tokens, m, Repaired) == Done(Insert(ParseInsert(text, m)))
  {
    KeywordStartsAreNoVerbsBack(Upper(tokens[0]));
  }

  /** Rust hands a SELECT or INSERT statement to its own pattern. */
  lemma RustVerbDispatch(text: string, tokens: seq<string>, m: Matchers)
    requires tokens != [] && Upper(tokens[0]) in DML_VERBS
    ensures Upper(tokens[0]) == "SELECT" ==> RustDispatch(text, tokens, m, Repaired) == Done(RustSelect(text, m))
    ensures Upper(tokens[0]) == "INSERT" ==> RustDispatch(text, tokens, m, Repaired) == Done(RustInsert(text, m))
  {
    KeywordStartsAreNoVerbsBack(Upper(tokens[0]));
  }

  /** No data verb opens a handler-table key, nor is it COMMIT or USE. */
  lemma KeywordStartsAreNoVerbsBack(k: string)
    requires k in DML_VERBS
    ensures k != "COMMIT" && k != "USE" && k != "CREATE" && k != "ALTER" && k != "DROP"
  {
    assert k[1] == 'N' || k[1] == 'E' || k[1] == 'P';
  }

  /** What both dispatches know about a keyword statement. */
  predicate KeywordTokens(tokens: seq<string>) {
    |tokens| >= 2 && Upper(tokens[0]) in KEYWORD_STARTS && NoSpace(tokens[0]) && NoSpace(tokens[1])
  }

  lemma KeywordFacts(text: string, tokens: seq<string>, m: Matchers, mode: Mode)
    requires KeywordTokens(tokens)
    ensures Dispatch(text, tokens, m, mode) == Compound(Upper(tokens[0]) + " " + Upper(tokens[1]), text, tokens, mode)
    ensures Upper(tokens[0]) !in DML_VERBS && Upper(tokens[0]) != "COMMIT" && Upper(tokens[0]) != "USE"
    ensures var (a, b) := (Upper(tokens[0]), Upper(tokens[1]));
      (a + " " + b == "CREATE DATABASE" <==> a == "CREATE" && b == "DATABASE")
      && (a + " " + b == "ALTER DATABASE" <==> a == "ALTER" && b == "DATABASE")
      && (a + " " + b == "CREATE TABLE" <==> a == "CREATE" && b == "TABLE")
      && (a + " " + b == "ALTER TABLE" <==> a == "ALTER" && b == "TABLE")
      && (a + " " + b == "DROP TABLE" <==> a == "DROP" && b == "TABLE")
      && (a + " " + b == "CREATE INDEX" <==> a == "CREATE" && b == "INDEX")
      && (a + " " + b == "DROP INDEX" <==> a == "DROP" && b == "INDEX")
  {
    KeywordDispatch(text, tokens, m, mode);
    KeywordStartsAreNoVerbs(Upper(tokens[0]));
    UpperKeepsNoSpace(tokens[0]);
    UpperKeepsNoSpace(tokens[1]);
    KeyWords(Upper(tokens[0]), Upper(tokens[1]));
  }

  lemma DatabaseAgrees(text: string, tokens: seq<string>, gm: Matchers, rm: Matchers)
    requires KeywordTokens(tokens) && Upper(tokens[1]) == "DATABASE" && Upper(tokens[0]) != "DROP"
    ensures RustDispatch(text, tokens, rm, Repaired) == DemoteOutcome(Dispatch(text, tokens, gm, Repaired))
  {
    KeywordFacts(text, tokens, gm, Repaired);
  }

  lemma CreateTableAgrees(text: string, tokens: seq<string>, gm: Matchers, rm: Matchers)
    requires KeywordTokens(tokens) && Upper(tokens[1]) == "TABLE" && Upper(tokens[0]) == "CREATE"
    ensures RustDispatch(text, tokens, rm, Repaired) == DemoteOutcome(Dispatch(text, tokens, gm, Repaired))
  {
    KeywordFacts(text, tokens, gm, Repaired);
    RustCreateTableIsGo(text, Repaired);
  }

  /**
   * `ALTER TABLE <t> ADD COLUMN <c>` with no type: the one statement on which the
   * seven-token test of parser.rs and the repaired Go test tell apart.
   */
  predicate SixTokenAlter(tokens: seq<string>) {
    |tokens| == 6 && Upper(tokens[0]) == "ALTER" && Upper(tokens[1]) == "TABLE"
    && Upper(tokens[3]) == "ADD" && Upper(tokens[4]) == "COLUMN"
  }

  /** Off the six-token form, the two ALTER TABLE token tests agree. */
  lemma AlterModesAgree(tokens: seq<string>)
    requires !(|tokens| == 6 && Upper(tokens[3]) == "ADD" && Upper(tokens[4]) == "COLUMN")
    ensures ParseAlterTable(tokens, Repaired) == ParseAlterTable(tokens, AsWritten)
  {
  }

  lemma OtherTableAgrees(text: string, tokens: seq<string>, gm: Matchers, rm: Matchers)
    requires KeywordTokens(tokens) && Upper(tokens[1]) == "TABLE" && Upper(tokens[0]) != "CREATE"
    ensures !SixTokenAlter(tokens) ==>
      RustDispatch(text, tokens, rm, Repaired) == DemoteOutcome(Dispatch(text, tokens, gm, Repaired))
  {
    KeywordFacts(text, tokens, gm, Repaired);
    if !SixTokenAlter(tokens) && Upper(tokens[0]) == "ALTER" {
      AlterModesAgree(tokens);
      assert RustDispatch(text, tokens, rm, Repaired) == Done(RustAlterTable(tokens));
    }
  }

  /**
   * `ALTER TABLE t ADD COLUMN c`: UNKNOWN to Rust in either mode, a TEXT column to
   * the repaired Go parser, the empty payload to Go as written.
   */
  lemma RustSixTokenAlter(text: string, tokens: seq<string>, gm: Matchers, rm: Matchers, mode: Mode)
    requires SixTokenAlter(tokens) && NoSpace(tokens[0]) && NoSpace(tokens[1])
    ensures RustDispatch(text, tokens, rm, mode) == Done(Unknown)
    ensures Dispatch(text, tokens, gm, Repaired)
      == Done(AlterTable(Some(AlterTableSpec(Lower(tokens[2]), ColumnDef(Lower(tokens[5]), "TEXT")))))
    ensures Dispatch(text, tokens, gm, AsWritten) == Done(AlterTable(None))
  {
    assert KeywordTokens(tokens);
    KeywordFacts(text, tokens, gm, Repaired);
    KeywordFacts(text, tokens, gm, AsWritten);
    assert RustDispatch(text, tokens, rm, mode) == Done(RustAlterTable(tokens));
  }

  lemma IndexAgrees(text: string, tokens: seq<string>, gm: Matchers, rm: Matchers)
    requires KeywordTokens(tokens) && Upper(tokens[1]) == "INDEX" && Upper(tokens[0]) != "ALTER"
    ensures RustDispatch(text, tokens, rm, Repaired) == DemoteOutcome(Dispatch(text, tokens, gm, Repaired))
  {
    KeywordFacts(text, tokens, gm, Repaired);
  }

  /** A keyword pair that names no statement is UNKNOWN to both. */
  lemma UnmatchedAgrees(text: string, tokens: seq<string>, gm: Matchers, rm: Matchers)
    requires KeywordTokens(tokens)
    requires !(Upper(tokens[1]) == "DATABASE" && Upper(tokens[0]) != "DROP")
    requires Upper(tokens[1]) != "TABLE"
    requires !(Upper(tokens[1]) == "INDEX" && Upper(tokens[0]) != "ALTER")
    ensures RustDispatch(text, tokens, rm, Repaired) == Done(Unknown)
    ensures Dispatch(text, tokens, gm, Repaired) == Done(Unknown)
  {
    KeywordFacts(text, tokens, gm, Repaired);
  }

  /**
   * On a statement opening with CREATE, ALTER or DROP, Rust parses as repaired Go,
   * demoted, except for the six-token ALTER TABLE.
   */
  lemma KeywordAgrees(text: string, tokens: seq<string>, gm: Matchers, rm: Matchers)
    requires KeywordTokens(tokens)
    ensures !SixTokenAlter(tokens) ==>
      RustDispatch(text, tokens, rm, Repaired) == DemoteOutcome(Dispatch(text, tokens, gm, Repaired))
  {
    var (a, b) := (Upper(tokens[0]), Upper(tokens[1]));
    if b == "DATABASE" && a != "DROP" {
      DatabaseAgrees(text, tokens, gm, rm);
    } else if b == "TABLE" && a == "CREATE" {
      CreateTableAgrees(text, tokens, gm, rm);
    } else if b == "TABLE" {
      OtherTableAgrees(text, tokens, gm, rm);
    } else if b == "INDEX" && a != "ALTER" {
      IndexAgrees(text, tokens, gm, rm);
    } else {
      UnmatchedAgrees(text, tokens, gm, rm);
    }
  }

  /** A first word no arm recognises (or a lone USE or keyword) is UNKNOWN to both. */
  lemma OtherWordAgrees(text: string, tokens: seq<string>, gm: Matchers, rm: Matchers)
    requires tokens != [] && NoSpace(tokens[0]) && (|tokens| > 1 ==> NoSpace(tokens[1]))
    requires Upper(tokens[0]) !in DML_VERBS && Upper(tokens[0]) != "COMMIT"
    requires |tokens| > 1 ==> Upper(tokens[0]) !in KEYWORD_STARTS && Upper(tokens[0]) != "USE"
    ensures RustDispatch(text, tokens, rm, Repaired) == Done(Unknown)
    ensures Dispatch(text, tokens, gm, Repaired) == Done(Unknown)
  {
    if |tokens| > 1 {
      UpperKeepsNoSpace(tokens[0]);
      UpperKeepsNoSpace(tokens[1]);
      KeyWords(Upper(tokens[0]), Upper(tokens[1]));
    }
  }

  /**
   * The Rust dispatch is the repaired Go dispatch with absent payloads and malformed
   * conditions demoted, on every token list except the six-token ALTER TABLE, once
   * the INSERT or SELECT patterns of the two capture alike on the text.
   */
  lemma RustAgreesWithRepairedGo(text: string, tokens: seq<string>, gm: Matchers, rm: Matchers)
    requires tokens != [] && forall i :: 0 <= i < |tokens| ==> NoSpace(tokens[i])
    ensures SameCaptures(Upper(tokens[0]), text, gm, rm) && !SixTokenAlter(tokens) ==>
      RustDispatch(text, tokens, rm, Repaired) == DemoteOutcome(Dispatch(text, tokens, gm, Repaired))
  {
    var a := Upper(tokens[0]);
    if a == "COMMIT" || (a == "USE" && |tokens| > 1) {
    } else if a in DML_VERBS {
      DataVerbAgrees(text, tokens, gm, rm);
    } else if a in KEYWORD_STARTS && |tokens| > 1 {
      KeywordAgrees(text, tokens, gm, rm);
    } else {
      OtherWordAgrees(text, tokens, gm, rm);
    }
  }

  /** `SELECT c FROM t WHERE b`, as its words. */
  function SelectWhereWords(c: string, t: string, b: string): seq<string> {
    ["SELECT", c, "FROM", t, "WHERE", b]
  }

  /** `INSERT INTO t VALUES (v) x`, as its words. */
  function InsertTrailerWords(t: string, v: string, x: string): seq<string> {
    ["INSERT", "INTO", t, "VALUES", "(" + v + ")", x]
  }

  /**
   * `SELECT c FROM t WHERE b` with no `=` in `b`. Go's pattern ends in `$` and its
   * WHERE group needs an `=`, so it does not match and Go has the empty SELECT
   * payload. Rust's pattern has no `$` and matches `SELECT c FROM t` without the
   * WHERE group: Rust selects from `t` with no condition.
   */
  lemma UnanchoredSelect(c: string, t: string, b: string, gm: Matchers, rm: Matchers)
    requires Word(c) && Word(t) && Word(b) && b[|b| - 1] != ';'
    requires gm.select(Strings.Join(SelectWhereWords(c, t, b), " ")) == None
    requires rm.select(Strings.Join(SelectWhereWords(c, t, b), " ")) == Some(SelectCaptures(c, t, None, "", ""))
    ensures var q := Strings.Join(SelectWhereWords(c, t, b), " ");
      Parse(q, gm) == Parsed(Select(None), q)
      && RustParse(q, rm) == Parsed(Select(Some(SelectSpec(Lower(t), SelectColumns(c), NoWhere, None))), q)
  {
    var ws := SelectWhereWords(c, t, b);
    VerbWords(ws, "SELECT");
    GoVerbParse(Strings.Join(ws, " "), ws, gm);
    RustVerbParse(Strings.Join(ws, " "), ws, rm);
  }

  /**
   * `INSERT INTO t VALUES (v) x`. Go's pattern demands that the `)` end the
   * statement, so Go has the empty INSERT payload; Rust's pattern stops at the last
   * `)` and Rust inserts the values `v` into `t`.
   */
  lemma UnanchoredInsert(t: string, v: string, x: string, gm: Matchers, rm: Matchers)
    requires Word(t) && NoSpace(v) && Word(x) && x[|x| - 1] != ';'
    requires gm.insert(Strings.Join(InsertTrailerWords(t, v, x), " ")) == None
    requires rm.insert(Strings.Join(InsertTrailerWords(t, v, x), " ")) == Some(InsertCaptures(t, v))
    ensures var q := Strings.Join(InsertTrailerWords(t, v, x), " ");
      Parse(q, gm) == Parsed(Insert(None), q)
      && RustParse(q, rm) == Parsed(Insert(Some(InsertSpec(Lower(t), ParseValueList(v)))), q)
  {
    var ws := InsertTrailerWords(t, v, x);
    VerbWords(ws, "INSERT");
    GoVerbParse(Strings.Join(ws, " "), ws, gm);
    RustVerbParse(Strings.Join(ws, " "), ws, rm);
  }

  /** The verb `verb` followed by blank-free words is a statement of words opening with that verb. */
  lemma VerbWords(ws: seq<string>, verb: string)
    requires verb == "SELECT" || verb == "INSERT"
    requires |ws| >= 2 && ws[0] == verb && forall i :: 1 <= i < |ws| ==> ws[i] != [] && NoSpace(ws[i])
    requires ws[|ws| - 1][|ws[|ws| - 1]| - 1] != ';'
    ensures Words(ws) && Upper(ws[0]) == verb
  {
    forall j | 0 <= j < |verb| ensures !IsSpace(verb[j]) {
      assert verb[j] in "SELCTINR";
    }
    assert Upper(verb)[0] == verb[0];
  }

  /** A data statement of words: Go reads the captures of its own pattern. */
  lemma GoVerbParse(q: string, ws: seq<string>, m: Matchers)
    requires Words(ws) && q == Strings.Join(ws, " ") && Upper(ws[0]) in DML_VERBS
    ensures Upper(ws[0]) == "SELECT" ==> Parse(q, m) == Parsed(Select(ParseSelect(q, m)), q)
    ensures Upper(ws[0]) == "INSERT" ==> Parse(q, m) == Parsed(Insert(ParseInsert(q, m)), q)
  {
    VerbStatement(ws);
    ParseWithTokens(q, m, Repaired);
    KeywordStartsAreNoVerbsBack(Upper(ws[0]));
  }

  /** A data statement of words: Rust reads the captures of its own pattern. */
  lemma RustVerbParse(q: string, ws: seq<string>, m: Matchers)
    requires Words(ws) && q == Strings.Join(ws, " ") && Upper(ws[0]) in DML_VERBS
    ensures Upper(ws[0]) == "SELECT" ==> RustParse(q, m) == Parsed(RustSelect(q, m), q)
    ensures Upper(ws[0]) == "INSERT" ==> RustParse(q, m) == Parsed(RustInsert(q, m), q)
  {
    VerbStatement(ws);
    RustParseWithTokens(q, m, Repaired);
    KeywordStartsAreNoVerbsBack(Upper(ws[0]));
  }

  /** A statement of blank-free words is its own text to both parsers and splits into those words. */
  lemma VerbStatement(ws: seq<string>)
    requires Words(ws)
    ensures var q := Strings.Join(ws, " ");
      Trim(q) == q && q != [] && Text(q) == q && RustText(q) == q && Fields(q) == ws
  {
    var q := Strings.Join(ws, " ");
    WordsStatement(ws);
    JoinEnds(ws, " ");
  }

  // ---------------------------------------------------------------------------
  // Statement text.

  /** A statement with nothing to dispatch after its `;`s is UNKNOWN. */
  lemma RustParseWithNoTokens(q: string, m: Matchers, mode: Mode)
    requires Trim(q) != "" && Fields(RustText(q)) == []
    ensures RustParseWith(q, m, mode) == Done(Parsed(Unknown, Trim(q)))
  {
  }

  /** A statement with tokens is dispatched on them. */
  lemma RustParseWithTokens(q: string, m: Matchers, mode: Mode)
    requires Trim(q) != "" && Fields(RustText(q)) != []
    ensures RustParseWith(q, m, mode) == Lift(RustDispatch(RustText(q), Fields(RustText(q)), m, mode), Trim(q))
  {
  }

  /** Two statements with the same dispatched text parse alike, up to their raw text. */
  lemma RustSameTextSameCommand(q1: string, q2: string, m: Matchers, mode: Mode)
    requires Trim(q1) != "" && Trim(q2) != "" && RustText(q1) == RustText(q2)
    ensures RustParseWith(q1, m, mode) == Reraw(RustParseWith(q2, m, mode), Trim(q1))
  {
    if Fields(RustText(q1)) == [] {
      RustParseWithNoTokens(q1, m, mode);
      RustParseWithNoTokens(q2, m, mode);
    } else {
      RustParseWithTokens(q1, m, mode);
      RustParseWithTokens(q2, m, mode);
      LiftReraw(RustDispatch(RustText(q1), Fields(RustText(q1)), m, mode), Trim(q1), Trim(q2));
    }
  }

  /** Trailing `;`s after a trimmed statement stay in its raw text but not in its dispatched text. */
  lemma SemicolonTail(s: string, n: nat)
    requires s != [] && Trim(s) == s
    ensures Trim(s + Run(';', n)) == s + Run(';', n)
    ensures RustText(s + Run(';', n)) == RustText(s)
  {
    var q := s + Run(';', n);
    assert !IsSpace(s[0]) && !IsSpace(s[|s| - 1]);
    assert q[0] == s[0];
    assert !IsSpace(q[|q| - 1]);
    TrimOfEnds(q);
    TrimAllSuffixOfRun(s, ';', n);
  }

  /** A trimmed statement followed by any number of `;` is dispatched as the bare statement. */
  lemma SemicolonsRemoved(s: string, n: nat, m: Matchers, mode: Mode)
    requires s != [] && Trim(s) == s
    ensures RustParseWith(s + Run(';', n), m, mode) == Reraw(RustParseWith(s, m, mode), s + Run(';', n))
  {
    SemicolonTail(s, n);
    RustSameTextSameCommand(s + Run(';', n), s, m, mode);
  }

  /** A statement of `;`s alone has no tokens: UNKNOWN, where Go panics as written. */
  lemma RustLoneSemicolons(n: nat, m: Matchers, mode: Mode)
    requires n >= 1
    ensures RustParseWith(Run(';', n), m, mode) == Done(Parsed(Unknown, Run(';', n)))
  {
    var q := Run(';', n);
    TrimOfEnds(q);
    assert TrimAllSuffix(q, ';') == [];
  }

  /** The word COMMIT followed by two `;`. */
  predicate CommitWord(w: string) {
    Upper(w) == "COMMIT" && NoSpace(w)
  }

  lemma CommitWordShape(w: string)
    requires CommitWord(w)
    ensures w != [] && Trim(w) == w && w[|w| - 1] != ';'
  {
    assert Upper(w)[5] == 'T';
    TrimOfNoSpace(w);
  }

  /** A blank-free word is its own only field. */
  lemma OneField(w: string)
    requires w != [] && NoSpace(w)
    ensures Fields(w) == [w]
  {
    FieldsOfJoin([w]);
  }

  /**
   * `COMMIT;;`: Go removes one `;` and sees the token `COMMIT;`, which names no
   * statement; Rust removes both and commits.
   */
  lemma CommitDoubleSemicolon(w: string, gm: Matchers, rm: Matchers)
    requires CommitWord(w)
    ensures Parse(w + ";;", gm) == Parsed(Unknown, w + ";;")
    ensures RustParse(w + ";;", rm) == Parsed(Commit, w + ";;")
  {
    CommitWordShape(w);
    GoCommitDoubleSemicolon(w, gm);
    RustCommitDoubleSemicolon(w, rm);
  }

  lemma GoCommitDoubleSemicolon(w: string, m: Matchers)
    requires CommitWord(w) && w != [] && Trim(w) == w && w[|w| - 1] != ';'
    ensures Parse(w + ";;", m) == Parsed(Unknown, w + ";;")
  {
    SecondSemicolonKept(w);
    OneField(w + ";");
    assert |Upper(w + ";")| == 7;
    SemicolonTail(w, 2);
    RunOfTwo(';');
    ParseWithTokens(w + ";;", m, Repaired);
  }

  lemma RustCommitDoubleSemicolon(w: string, m: Matchers)
    requires CommitWord(w) && w != [] && Trim(w) == w && w[|w| - 1] != ';'
    ensures RustParse(w + ";;", m) == Parsed(Commit, w + ";;")
  {
    OneField(w);
    SemicolonTail(w, 2);
    RunOfTwo(';');
    assert RustText(w) == w;
    RustParseWithTokens(w + ";;", m, Repaired);
  }

  /** `h + ")(" + c` with a long enough header: the Rust column slice runs backwards too. */
  lemma RustCloseBeforeOpen(h: string, c: string)
    requires '(' !in h && ')' !in c && |Fields(h + ")")| >= 3
    ensures RustCreateTable(h + ")(" + c, AsWritten) == Fault(StrSliceOrder(|h| + 2, |h|, h + ")(" + c))
    ensures RustCreateTable(h + ")(" + c, Repaired) == Done(Unknown)
  {
    ParenthesesReversed(h, c);
  }

  /** The mode matters to the Rust dispatch only for CREATE TABLE. */
  lemma RustModeOnlyForTables(text: string, tokens: seq<string>, m: Matchers)
    requires tokens != []
    requires |tokens| < 2 || Upper(tokens[1]) != "TABLE" || Upper(tokens[0]) != "CREATE"
    ensures RustDispatch(text, tokens, m, AsWritten) == RustDispatch(text, tokens, m, Repaired)
  {
  }

  /**
   * A keyword statement one name short: Go panics on the missing token as written,
   * Rust's length guards make it UNKNOWN in either mode.
   */
  lemma RustShortKeywordStatement(ws: seq<string>, m: Matchers, mode: Mode)
    requires Words(ws) && 2 <= |ws| && Upper(ws[0]) in KEYWORD_STARTS
    requires var key := Upper(ws[0]) + " " + Upper(ws[1]);
      ((key == "CREATE DATABASE" || key == "ALTER DATABASE" || key == "DROP TABLE") && |ws| == 2)
      || ((key == "CREATE INDEX" || key == "DROP INDEX") && |ws| <= 3)
    ensures RustParseWith(Strings.Join(ws, " "), m, mode) == Done(Parsed(Unknown, Strings.Join(ws, " ")))
  {
    var q := Strings.Join(ws, " ");
    WordsStatement(ws);
    JoinEnds(ws, " ");
    assert RustText(q) == q;
    RustParseWithTokens(q, m, mode);
    RustShortDispatch(q, ws, m, mode);
  }

  lemma RustShortDispatch(text: string, tokens: seq<string>, m: Matchers, mode: Mode)
    requires KeywordTokens(tokens)
    requires var key := Upper(tokens[0]) + " " + Upper(tokens[1]);
      ((key == "CREATE DATABASE" || key == "ALTER DATABASE" || key == "DROP TABLE") && |tokens| == 2)
      || ((key == "CREATE INDEX" || key == "DROP INDEX") && |tokens| <= 3)
    ensures RustDispatch(text, tokens, m, mode) == Done(Unknown)
  {
    KeywordFacts(text, tokens, m, Repaired);
    RustModeOnlyForTables(text, tokens, m);
    KeywordAgrees(text, tokens, m, m);
  }
}
