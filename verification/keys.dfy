/**
 * The three key functions that instantiate the generic table store, and what a
 * match means under each of them.
 */
module KeyFunctions {
  import opened Base
  import opened Values
  import opened Commands
  import opened Tables

  /** Go: `makeKey(row[column])`; an absent cell reads as nil, so every row is indexed. */
  function GoKey(o: Option<Value>): Option<string> {
    Some(MakeKey(o.GetOr(Null)))
  }

  /** Rust: the cell itself when present (its `Debug` text, taken as injective); absent cells are not indexed. */
  function RustKey(o: Option<Value>): Option<Value> {
    o
  }

  /** Python dictionary keys: integers and integral floats share a hash slot, like `1 == 1.0`. */
  datatype PyHash = PyNumber(n: int) | PyReal(repr: string) | PyText(s: string) | PyNone

  /**
   * Normalises a value to its Python equality class. `integral` says which integer a
   * float payload equals, if any; float parsing is not modelled.
   */
  function PyNorm(v: Value, integral: string -> Option<int>): PyHash {
    match v
    case Integer(n) => PyNumber(n)
    case Float(r) => if integral(r).Some? then PyNumber(integral(r).value) else PyReal(r)
    case Text(s) => PyText(s)
    case Null => PyNone
  }

  /** Python: `row.get(column)` as the key; absent and `None` coincide. */
  function PyKey(integral: string -> Option<int>): KeyFn<PyHash> {
    (o: Option<Value>) => Some(PyNorm(o.GetOr(Null), integral))
  }

  /** Python `==` on the modelled values, case by case. */
  predicate PyEq(a: Value, b: Value, integral: string -> Option<int>) {
    match (a, b)
    case (Integer(x), Integer(y)) => x == y
    case (Integer(x), Float(r)) => integral(r) == Some(x)
    case (Float(r), Integer(x)) => integral(r) == Some(x)
    case (Float(r1), Float(r2)) => r1 == r2 || (integral(r1).Some? && integral(r1) == integral(r2))
    case (Text(x), Text(y)) => x == y
    case (Null, Null) => true
    case _ => false
  }

  /** A Go match is `valuesEqual(row[column], value)`. */
  lemma GoMatchesIsValuesEqual(row: Row, cond: Condition)
    ensures Matches(row, cond, GoKey) <==> ValuesEqual(Cell(row, cond.column), cond.value)
  {
  }

  /** A Rust match needs the cell to be present and `values_equal` to the condition's value. */
  lemma RustMatchesIsPresentAndEqual(row: Row, cond: Condition)
    ensures Matches(row, cond, RustKey) <==> cond.column in row && RustValuesEqual(row[cond.column], cond.value)
  {
    if cond.column in row {
      RustAndGoEqualityAgree(row[cond.column], cond.value);
      ValuesEqualIsEquality(row[cond.column], cond.value);
    }
  }

  /** A Python match is `row.get(column) == value`. */
  lemma PyMatchesIsPyEq(row: Row, cond: Condition, integral: string -> Option<int>)
    ensures Matches(row, cond, PyKey(integral)) <==> PyEq(Cell(row, cond.column), cond.value, integral)
  {
  }

  /** Where Go separates an integer from an integral float, Python matches them. */
  lemma IntegerAndFloatDiverge(integral: string -> Option<int>)
    requires integral("1.0") == Some(1)
    ensures !Matches(map["n" := Integer(1)], Condition("n", Float("1.0")), GoKey)
    ensures Matches(map["n" := Integer(1)], Condition("n", Float("1.0")), PyKey(integral))
  {
  }

  /** A row lacking the column matches a null condition in Go and Python, never in Rust. */
  lemma AbsentCellMatchesNull(integral: string -> Option<int>)
    ensures Matches(map[], Condition("n", Null), GoKey)
    ensures Matches(map[], Condition("n", Null), PyKey(integral))
    ensures !Matches(map[], Condition("n", Null), RustKey)
  {
  }

  /**
   * Go and Python join a left row lacking the join column with right rows lacking it
   * too (both key as nil); Rust skips both.
   */
  lemma AbsentJoinKeysDiverge(j: Join, integral: string -> Option<int>)
    ensures |NestedLoopJoin([map[]], [map[]], j, [], [], ["*"], GoKey)| == 1
    ensures |NestedLoopJoin([map[]], [map[]], j, [], [], ["*"], PyKey(integral))| == 1
    ensures NestedLoopJoin([map[]], [map[]], j, [], [], ["*"], RustKey) == []
  {
    AbsentKeyedJoin(j, GoKey, MakeKey(Null));
    AbsentKeyedJoin(j, PyKey(integral), PyNone);
    AbsentUnkeyedJoin(j, RustKey);
  }

  /** Two rows lacking the join column pair up when an absent cell has a key. */
  lemma AbsentKeyedJoin<K(!new)>(j: Join, key: KeyFn<K>, k: K)
    requires key(None) == Some(k)
    ensures |NestedLoopJoin([map[]], [map[]], j, [], [], ["*"], key)| == 1
  {
    var e: seq<Row> := [map[]];
    assert e[..0] == [];
    assert Get(e[0], j.leftColumn) == None && Get(e[0], j.rightColumn) == None;
    assert WithKey(e, j.rightColumn, key, k) == [map[]];
    assert NestedLoopJoin(e, e, j, [], [], ["*"], key) == PairsFor(e[0], e, j, [], [], ["*"], key);
  }

  /** A row lacking the join column pairs with nothing when an absent cell has no key. */
  lemma AbsentUnkeyedJoin<K(!new)>(j: Join, key: KeyFn<K>)
    requires key(None) == None
    ensures NestedLoopJoin([map[]], [map[]], j, [], [], ["*"], key) == []
  {
    var e: seq<Row> := [map[]];
    assert e[..0] == [];
    assert Get(e[0], j.leftColumn) == None;
    assert NestedLoopJoin(e, e, j, [], [], ["*"], key) == PairsFor(e[0], e, j, [], [], ["*"], key);
  }
}
