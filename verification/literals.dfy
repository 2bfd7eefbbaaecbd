/**
 * Literal typing and the quote-aware VALUES splitter of the Go and Rust parsers
 * (parser.go:254-319, parser.rs:359-429).
 */
module Literals {
  import opened Base
  import opened Strings
  import opened Decimal
  import opened Values

  predicate IsQuote(c: char) { c == '\'' || c == '"' }

  /** Text that both starts and ends with the same quote character, at least two characters long. */
  predicate IsQuoted(t: string) {
    |t| >= 2 && ((t[0] == '\'' && t[|t| - 1] == '\'') || (t[0] == '"' && t[|t| - 1] == '"'))
  }

  predicate IsSignedDigits(s: string) {
    var d := if s != [] && (s[0] == '+' || s[0] == '-') then s[1..] else s;
    d != [] && AllDigits(d)
  }

  /** A decimal mantissa: digits with at most one `.`, and at least one digit. */
  predicate IsMantissa(m: string) {
    match IndexOfChar(m, '.')
    case None => m != [] && AllDigits(m)
    case Some(i) => AllDigits(m[..i]) && AllDigits(m[i + 1..]) && (i > 0 || i + 1 < |m|)
  }

  /**
   * The decimal floating-point forms accepted by Go `strconv.ParseFloat` and Rust
   * `str::parse::<f64>`: an optional sign, a mantissa, an optional `e`/`E` exponent.
   */
  predicate IsFloatSyntax(s: string) {
    var b := if s != [] && (s[0] == '+' || s[0] == '-') then s[1..] else s;
    match IndexOfChar(Lower(b), 'e')
    case None => IsMantissa(b)
    case Some(e) => IsMantissa(b[..e]) && IsSignedDigits(b[e + 1..])
  }

  /** The unquoted branch: a 64-bit integer if it reads as one, else a float, else the text itself. */
  function NumberOrText(t: string): (v: Value)
    ensures v.Integer? ==> ParseInt64(t) == Some(v.i)
    ensures v.Float? ==> ParseInt64(t).None? && IsFloatSyntax(t) && v.repr == t
    ensures v.Text? ==> ParseInt64(t).None? && !IsFloatSyntax(t) && v.s == t
    ensures !v.Null?
  {
    match ParseInt64(t)
    case Some(n) => Integer(n)
    case None => if IsFloatSyntax(t) then Float(t) else Text(t)
  }

  /**
   * `parseLiteral` / `parse_literal` exactly as written: a trimmed text that starts
   * and ends with the same quote is sliced `[1 : len-1]`, which panics when the text is
   * that single quote character.
   */
  function ParseLiteralAsWritten(text: string): (r: Outcome<Value>)
    ensures r.Fault? <==> (Trim(text) == "'" || Trim(text) == "\"")
  {
    var t := Trim(text);
    if t != [] && ((t[0] == '\'' && t[|t| - 1] == '\'') || (t[0] == '"' && t[|t| - 1] == '"')) then
      if |t| == 1 then Fault("slice bounds out of range [1:0]") else Done(Text(t[1..|t| - 1]))
    else
      Done(NumberOrText(t))
  }

  /**
   * Literal typing with the lone-quote case repaired: a text counts as quoted only
   * when it has at least two characters, so a lone quote falls through to plain text.
   * The rest of the model uses this definition.
   */
  function ParseLiteral(text: string): (v: Value)
    ensures var t := Trim(text); IsQuoted(t) ==> v == Text(t[1..|t| - 1])
    ensures var t := Trim(text); !IsQuoted(t) ==> v == NumberOrText(t)
    ensures !v.Null?
  {
    var t := Trim(text);
    if IsQuoted(t) then Text(t[1..|t| - 1]) else NumberOrText(t)
  }

  /** Wherever the code as written does not panic, it agrees with the repaired definition. */
  lemma ParseLiteralAgrees(text: string)
    requires Trim(text) != "'" && Trim(text) != "\""
    ensures ParseLiteralAsWritten(text) == Done(ParseLiteral(text))
  {
    var t := Trim(text);
    assert |t| == 1 ==> t == [t[0]];
  }

  /** The lone quote reaches the out-of-range slice in the code as written. */
  lemma LoneQuotePanics()
    ensures ParseLiteralAsWritten("'").Fault?
    ensures ParseLiteral("'") == Text("'")
  {
    TrimOfNoSpace("'");
    LoneQuoteIsText();
  }

  /** A lone quote reads neither as an integer nor as a float. */
  lemma LoneQuoteIsText()
    ensures NumberOrText("'") == Text("'")
  {
    assert !AllDigits("'");
    assert ParseInt64("'") == None;
    assert !IsFloatSyntax("'") by {
      assert Lower("'") == "'";
      assert IndexOfChar("'", 'e') == None;
      assert IndexOfChar("'", '.') == None;
    }
  }

  /** Every 64-bit integer literal is typed as that integer. */
  lemma ParseLiteralOfInteger(n: int64)
    ensures ParseLiteral(IntToString(n)) == Integer(n)
  {
    var s := IntToString(n);
    IntToStringShape(n);
    TrimOfNoSpace(s);
    assert !IsQuoted(s);
    ParseInt64OfIntToString(n);
  }

  /** A rendered integer is a sign or digit followed by digits: no space, no quote. */
  lemma IntToStringShape(n: int)
    ensures NoSpace(IntToString(n))
    ensures !IsQuote(IntToString(n)[0])
  {
    var s := IntToString(n);
    IntToStringSign(n);
    if n < 0 {
      var d := NatToString(0 - n);
      assert s == "-" + d;
      forall i | 0 <= i < |s| ensures !IsSpace(s[i]) {
        if i > 0 { assert s[i] == d[i - 1]; assert IsDigit(d[i - 1]); }
      }
    } else {
      assert IsDigit(s[0]);
      forall i | 0 <= i < |s| ensures !IsSpace(s[i]) { assert IsDigit(s[i]); }
    }
  }

  /** Quoting any text, with either quote character, gives back exactly that text. */
  lemma ParseLiteralOfQuoted(s: string, q: char)
    requires q == '\'' || q == '"'
    ensures ParseLiteral([q] + s + [q]) == Text(s)
  {
    var t := [q] + s + [q];
    TrimOfEnds(t);
    assert t[1..|t| - 1] == s;
  }

  /** Values a statement can spell: integers and texts (no literal types as `Null`, and floats are opaque). */
  predicate Spellable(v: Value) { v.Integer? || v.Text? }

  /** The literal that spells `v`: decimal digits, or the text in single quotes. */
  function LiteralOf(v: Value): string
    requires Spellable(v)
  {
    if v.Integer? then IntToString(v.i) else "'" + v.s + "'"
  }

  /** Every spelled literal reads back as its value, and carries no surrounding blanks. */
  lemma LiteralRoundTrip(v: Value)
    requires Spellable(v)
    ensures ParseLiteral(LiteralOf(v)) == v
    ensures Trim(LiteralOf(v)) == LiteralOf(v)
  {
    if v.Integer? {
      ParseLiteralOfInteger(v.i);
      IntToStringShape(v.i);
      TrimOfNoSpace(LiteralOf(v));
    } else {
      ParseLiteralOfQuoted(v.s, '\'');
      var t := LiteralOf(v);
      assert t == ['\''] + v.s + ['\''];
      TrimOfEnds(t);
    }
  }

  // ---------------------------------------------------------------------------
  // The VALUES splitter.

  /** The splitter's loop state: emitted values, whether inside single quotes, the pending text. */
  datatype ScanState = ScanState(values: seq<Value>, inString: bool, current: string)

  const Start := ScanState([], false, "")

  /** One iteration of the Go loop (parser.go:259-279). */
  function GoStep(st: ScanState, ch: char): ScanState {
    if ch == '\'' then
      if st.inString then ScanState(st.values + [Text(st.current)], false, "")
      else st.(inString := true)
    else if ch == ',' then
      if !st.inString && Trim(st.current) != "" then
        ScanState(st.values + [ParseLiteral(Trim(st.current))], st.inString, "")
      else if st.inString then st.(current := st.current + [ch])
      else st
    else st.(current := st.current + [ch])
  }

  /** One iteration of the Rust loop (parser.rs:364-385): a guarded comma arm, then a catch-all. */
  function RustStep(st: ScanState, ch: char): ScanState {
    if ch == '\'' then
      if st.inString then ScanState(st.values + [Text(st.current)], false, "")
      else st.(inString := true)
    else if ch == ',' && !st.inString then
      if Trim(st.current) != "" then ScanState(st.values + [ParseLiteral(Trim(st.current))], st.inString, "")
      else st
    else st.(current := st.current + [ch])
  }

  /** The two loop bodies are the same transition. */
  lemma RustStepIsGoStep(st: ScanState, ch: char)
    ensures RustStep(st, ch) == GoStep(st, ch)
  {
  }

  function ScanFrom(st: ScanState, s: string): ScanState
    decreases |s|
  {
    if s == [] then st else ScanFrom(GoStep(st, s[0]), s[1..])
  }

  /** What happens after the loop: a non-blank pending text becomes one last value. */
  function Finish(st: ScanState): seq<Value> {
    if Trim(st.current) != "" then
      if st.inString then st.values + [Text(st.current)] else st.values + [ParseLiteral(Trim(st.current))]
    else st.values
  }

  /** `parseValueList` / `parse_value_list`. */
  function ParseValueList(segment: string): seq<Value> {
    Finish(ScanFrom(Start, segment))
  }

  lemma {:induction false} ScanFromAppend(st: ScanState, a: string, b: string)
    ensures ScanFrom(st, a + b) == ScanFrom(ScanFrom(st, a), b)
    decreases |a|
  {
    if a == [] {
      assert a + b == b;
    } else {
      assert a + b != [];
      assert (a + b)[0] == a[0];
      assert (a + b)[1..] == a[1..] + b;
      ScanFromAppend(GoStep(st, a[0]), a[1..], b);
    }
  }

  /** Inside quotes every character but the quote, commas included, is kept verbatim. */
  lemma {:induction false} ScanInsideQuotes(vs: seq<Value>, cur: string, s: string)
    requires '\'' !in s
    ensures ScanFrom(ScanState(vs, true, cur), s) == ScanState(vs, true, cur + s)
    decreases |s|
  {
    if s != [] {
      assert s[0] in s;
      assert '\'' !in s[1..] by { forall i | 0 <= i < |s[1..]| ensures s[1..][i] != '\'' { assert s[1..][i] == s[i + 1]; } }
      ScanInsideQuotes(vs, cur + [s[0]], s[1..]);
      assert cur + [s[0]] + s[1..] == cur + s;
    }
  }

  /** Outside quotes, blank text before an opening quote joins the quoted value. */
  lemma {:induction false} ScanBlank(vs: seq<Value>, cur: string, p: string)
    requires IsBlank(p)
    ensures ScanFrom(ScanState(vs, false, cur), p) == ScanState(vs, false, cur + p)
    decreases |p|
  {
    if p != [] {
      assert IsSpace(p[0]);
      assert IsBlank(p[1..]) by { forall i | 0 <= i < |p[1..]| ensures IsSpace(p[1..][i]) { assert p[1..][i] == p[i + 1]; } }
      ScanBlank(vs, cur + [p[0]], p[1..]);
      assert cur + [p[0]] + p[1..] == cur + p;
    }
  }

  function Quote(x: string): string { "'" + x + "'" }

  /** Scanning one quoted field from a clean state appends it as text. */
  lemma ScanQuoted(vs: seq<Value>, x: string)
    requires '\'' !in x
    ensures ScanFrom(ScanState(vs, false, ""), Quote(x)) == ScanState(vs + [Text(x)], false, "")
  {
    ScanQuotedAfter(vs, "", x);
    assert "" + x == x;
  }

  /** A quoted field scanned after pending unquoted text appends that text and the field as one value. */
  lemma ScanQuotedAfter(vs: seq<Value>, cur: string, x: string)
    requires '\'' !in x
    ensures ScanFrom(ScanState(vs, false, cur), Quote(x)) == ScanState(vs + [Text(cur + x)], false, "")
  {
    ScanFromAppend(ScanState(vs, false, cur), "'", x + "'");
    ScanFromAppend(ScanState(vs, true, cur), x, "'");
    ScanInsideQuotes(vs, cur, x);
    assert Quote(x) == "'" + (x + "'");
  }

  function Texts(xs: seq<string>): seq<Value> {
    seq(|xs|, i requires 0 <= i < |xs| => Text(xs[i]))
  }

  function QuotedList(xs: seq<string>): seq<string> {
    seq(|xs|, i requires 0 <= i < |xs| => Quote(xs[i]))
  }

  lemma {:induction false} ScanQuotedList(vs: seq<Value>, xs: seq<string>)
    requires |xs| >= 1
    requires forall i :: 0 <= i < |xs| ==> '\'' !in xs[i]
    ensures ScanFrom(ScanState(vs, false, ""), Join(QuotedList(xs), ",")) == ScanState(vs + Texts(xs), false, "")
    decreases |xs|
  {
    var q := QuotedList(xs);
    if |xs| == 1 {
      ScanQuoted(vs, xs[0]);
      assert Texts(xs) == [Text(xs[0])];
    } else {
      assert q[1..] == QuotedList(xs[1..]);
      var rest := Join(q[1..], ",");
      assert Join(q, ",") == Quote(xs[0]) + ("," + rest);
      ScanFromAppend(ScanState(vs, false, ""), Quote(xs[0]), "," + rest);
      ScanQuoted(vs, xs[0]);
      assert Trim("") == "";
      assert ScanFrom(ScanState(vs + [Text(xs[0])], false, ""), "," + rest)
          == ScanFrom(ScanState(vs + [Text(xs[0])], false, ""), rest);
      ScanQuotedList(vs + [Text(xs[0])], xs[1..]);
      assert vs + [Text(xs[0])] + Texts(xs[1..]) == vs + Texts(xs);
    }
  }

  /**
   * Round trip: texts without single quotes, each quoted and joined with commas,
   * split back into exactly those texts, commas inside the texts included.
   */
  lemma ParseValueListOfQuoted(xs: seq<string>)
    requires forall i :: 0 <= i < |xs| ==> '\'' !in xs[i]
    ensures ParseValueList(Join(QuotedList(xs), ",")) == Texts(xs)
  {
    var s := Join(QuotedList(xs), ",");
    if |xs| == 0 {
      assert s == "";
      assert ScanFrom(Start, s) == Start;
    } else {
      ScanQuotedList([], xs);
      assert [] + Texts(xs) == Texts(xs);
      var st := ScanFrom(Start, s);
      assert st == ScanState(Texts(xs), false, "");
      assert Trim(st.current) == "";
    }
  }

  /**
   * A quoted field is emitted unparsed and keeps the blank text that precedes its
   * opening quote: `" 'a'"` gives the text `" a"`, not `"a"`.
   */
  lemma QuotedFieldKeepsLeadingBlank(p: string, x: string)
    requires IsBlank(p)
    requires '\'' !in x
    ensures ParseValueList(p + Quote(x)) == [Text(p + x)]
  {
    ScanFromAppend(Start, p, Quote(x));
    ScanBlank([], "", p);
    assert "" + p == p;
    ScanQuotedAfter([], p, x);
    assert Trim("") == "";
  }
}
