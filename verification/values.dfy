/**
 * The scalar value model shared by the three implementations, rows as maps from
 * column name to value, and the per-variant key derivation that decides equality.
 *
 * A float is kept as an opaque payload: its canonical text. Float arithmetic,
 * `%g` formatting and Rust's epsilon comparison are not modelled.
 */
module Values {
  import opened Base
  import opened Decimal

  datatype Value = Integer(i: int64) | Float(repr: string) | Text(s: string) | Null

  /** A row maps column names to values; a declared column may be absent. */
  type Row = map<string, Value>

  /** The stored cell, if any (Rust `row.get(col)`). */
  function Get(row: Row, col: string): Option<Value> {
    if col in row then Some(row[col]) else None
  }

  /** Go `row[col]` on a map of interfaces and Python `row.get(col)`: an absent cell reads as null. */
  function Cell(row: Row, col: string): (v: Value)
    ensures col in row ==> v == row[col]
    ensures col !in row ==> v == Null
  {
    Get(row, col).GetOr(Null)
  }

  /**
   * Go `makeKey`: each variant gets its own tag, so values of different variants
   * never share a key (btree.go:365-384).
   */
  function MakeKey(v: Value): (k: string)
    ensures |k| >= 2 && k[1] == ':'
    ensures k[0] == (match v case Integer(_) => 'i' case Float(_) => 'f' case Text(_) => 's' case Null => 'n')
  {
    match v
    case Integer(n) => "i:" + IntToString(n)
    case Float(r) => "f:" + r
    case Text(s) => "s:" + s
    case Null => "n:null"
  }

  /** Go `valuesEqual`: equality of derived keys (btree.go:353-355). */
  predicate ValuesEqual(a: Value, b: Value) {
    MakeKey(a) == MakeKey(b)
  }

  /** The derived key identifies the value: equal keys exactly when equal values. */
  lemma MakeKeyInjective(a: Value, b: Value)
    ensures MakeKey(a) == MakeKey(b) <==> a == b
  {
    if MakeKey(a) == MakeKey(b) {
      match a
      case Integer(n) =>
        var m := b.i;
        assert IntToString(n) == MakeKey(a)[2..] == MakeKey(b)[2..] == IntToString(m);
        IntToStringInjective(n, m);
      case Float(r) => assert r == MakeKey(a)[2..] == MakeKey(b)[2..] == b.repr;
      case Text(s) => assert s == MakeKey(a)[2..] == MakeKey(b)[2..] == b.s;
      case Null =>
    }
  }

  /** Go `valuesEqual` coincides with equality of the modelled values. */
  lemma ValuesEqualIsEquality(a: Value, b: Value)
    ensures ValuesEqual(a, b) <==> a == b
  {
    MakeKeyInjective(a, b);
  }

  /** An integer and a float never compare equal, whatever their magnitudes. */
  lemma IntegerNeverEqualsFloat(n: int64, r: string)
    ensures !ValuesEqual(Integer(n), Float(r))
  {
  }

  /**
   * Rust `values_equal` (btree.rs:397-405): false across variants, exact on integers,
   * text and null. The float case compares payloads (the epsilon test is not modelled).
   */
  function RustValuesEqual(a: Value, b: Value): (r: bool)
    ensures a.Integer? != b.Integer? ==> !r
    ensures a.Text? != b.Text? ==> !r
    ensures a.Null? && b.Null? ==> r
  {
    match (a, b)
    case (Integer(x), Integer(y)) => x == y
    case (Float(x), Float(y)) => x == y
    case (Text(x), Text(y)) => x == y
    case (Null, Null) => true
    case _ => false
  }

  /** With floats as payloads, Rust's `values_equal` and Go's key equality agree. */
  lemma RustAndGoEqualityAgree(a: Value, b: Value)
    ensures RustValuesEqual(a, b) == ValuesEqual(a, b)
  {
    MakeKeyInjective(a, b);
  }

  /** Go `fmt.Sprintf("%v", v)`: nil renders as `<nil>`. */
  function GoDisplay(v: Value): string {
    match v
    case Integer(n) => IntToString(n)
    case Float(r) => r
    case Text(s) => s
    case Null => "<nil>"
  }

  /** Rust `Display for Value` (parser.rs:14-23): null renders as `NULL`. */
  function RustDisplay(v: Value): string {
    match v
    case Integer(n) => IntToString(n)
    case Float(r) => r
    case Text(s) => s
    case Null => "NULL"
  }

  /** Python `str(v)`: `None` renders as `None`. */
  function PyStr(v: Value): string {
    match v
    case Integer(n) => IntToString(n)
    case Float(r) => r
    case Text(s) => s
    case Null => "None"
  }
}
