/**
 * Text primitives the three implementations lean on: whitespace trimming and
 * splitting (Go `strings.TrimSpace`/`strings.Fields`, Rust `trim`/`split_whitespace`,
 * Python `strip`/`split`), ASCII case mapping, single-character splitting and
 * substring search. Whitespace is the Unicode White_Space set; case mapping covers
 * ASCII letters only.
 */
module Strings {
  import opened Base

  /**
   * The Unicode White_Space characters, which Go's `unicode.IsSpace` and Rust's
   * `char::is_whitespace` both test for.
   */
  predicate IsSpace(c: char) {
    c == ' ' || c == '\t' || c == '\n' || c == '\r' || c == '\U{0B}' || c == '\U{0C}'
    || c == '\U{85}' || c == '\U{A0}' || c == '\U{1680}' || '\U{2000}' <= c <= '\U{200A}'
    || c == '\U{2028}' || c == '\U{2029}' || c == '\U{202F}' || c == '\U{205F}' || c == '\U{3000}'
  }

  predicate IsBlank(s: string) {
    forall i :: 0 <= i < |s| ==> IsSpace(s[i])
  }

  predicate NoSpace(s: string) {
    forall i :: 0 <= i < |s| ==> !IsSpace(s[i])
  }

  predicate HasSuffix(s: string, suffix: string) {
    |suffix| <= |s| && s[|s| - |suffix|..] == suffix
  }

  /** Index of the first non-space character at or after `i`, or `|s|`. */
  function LeadingEnd(s: string, i: nat): (n: nat)
    requires i <= |s|
    ensures i <= n <= |s|
    ensures forall k :: i <= k < n ==> IsSpace(s[k])
    ensures n < |s| ==> !IsSpace(s[n])
    decreases |s| - i
  {
    if i < |s| && IsSpace(s[i]) then LeadingEnd(s, i + 1) else i
  }

  /** One past the last non-space character before `j`, or `0`. */
  function TrailingStart(s: string, j: nat): (n: nat)
    requires j <= |s|
    ensures n <= j
    ensures forall k :: n <= k < j ==> IsSpace(s[k])
    ensures n > 0 ==> !IsSpace(s[n - 1])
  {
    if j > 0 && IsSpace(s[j - 1]) then TrailingStart(s, j - 1) else j
  }

  lemma BlankConcat(a: string, b: string)
    requires IsBlank(a) && IsBlank(b)
    ensures IsBlank(a + b)
  {
    forall k | 0 <= k < |a + b| ensures IsSpace((a + b)[k]) {
      if k < |a| { assert (a + b)[k] == a[k]; } else { assert (a + b)[k] == b[k - |a|]; }
    }
  }

  /**
   * `r` is `s` with its whitespace dropped at both ends, the leading blanks ending at
   * `i`: it is the run of `s` from `i` on, between a blank prefix and a blank suffix,
   * starts and ends with a non-space character, and is empty exactly when `s` is blank.
   */
  predicate TrimmedAt(s: string, i: nat, r: string) {
    i + |r| <= |s|
    && (forall k :: 0 <= k < |r| ==> r[k] == s[i + k])
    && (forall k :: 0 <= k < i ==> IsSpace(s[k]))
    && (forall k :: i + |r| <= k < |s| ==> IsSpace(s[k]))
    && (r == [] || (!IsSpace(r[0]) && !IsSpace(r[|r| - 1])))
    && (r == [] <==> IsBlank(s))
  }

  /** Drops whitespace at both ends; `TrimIsTrimmed` states which run of `s` it keeps. */
  function Trim(s: string): (r: string)
    ensures |r| <= |s|
    ensures r == [] <==> IsBlank(s)
    ensures r != [] ==> !IsSpace(r[0]) && !IsSpace(r[|r| - 1])
  {
    var a := LeadingEnd(s, 0);
    var b := TrailingStart(s, |s|);
    TrimBounds(s, a, b);
    if a == |s| then [] else Between(s, a, b)
  }

  /** The characters of `s` from `a` up to `b`. */
  function Between(s: string, a: nat, b: nat): (r: string)
    requires a <= b <= |s|
    ensures |r| == b - a
    decreases b - a
  {
    if a == b then [] else [s[a]] + Between(s, a + 1, b)
  }

  lemma {:induction false} BetweenAt(s: string, a: nat, b: nat)
    requires a <= b <= |s|
    ensures forall k :: 0 <= k < b - a ==> Between(s, a, b)[k] == s[a + k]
    decreases b - a
  {
    if a < b {
      BetweenAt(s, a + 1, b);
      forall k | 0 <= k < b - a ensures Between(s, a, b)[k] == s[a + k] {
        if k > 0 { assert Between(s, a, b)[k] == Between(s, a + 1, b)[k - 1]; }
      }
    }
  }

  /** `Trim(s)` is the run of `s` between its leading and its trailing blanks. */
  lemma TrimIsTrimmed(s: string)
    ensures TrimmedAt(s, LeadingEnd(s, 0), Trim(s))
  {
    TrimBounds(s, LeadingEnd(s, 0), TrailingStart(s, |s|));
  }

  /** The first non-space character and the end of the last one delimit the trimmed text. */
  lemma TrimBounds(s: string, a: nat, b: nat)
    requires a == LeadingEnd(s, 0) && b == TrailingStart(s, |s|)
    ensures a == |s| ==> TrimmedAt(s, a, [])
    ensures a < |s| ==> a < b && TrimmedAt(s, a, Between(s, a, b))
  {
    if a < |s| {
      assert a < b;
      BetweenAt(s, a, b);
      var r := Between(s, a, b);
      assert r[0] == s[a] && r[|r| - 1] == s[b - 1];
      assert !IsBlank(s) by { NotBlank(s, a); }
    }
  }

  lemma NotBlank(s: string, a: nat)
    requires a < |s| && !IsSpace(s[a])
    ensures !IsBlank(s)
  {
  }

  /** Trimming has one answer: two trims of the same text are equal. */
  lemma TrimmedAtUnique(s: string, i: nat, r: string, j: nat, q: string)
    requires TrimmedAt(s, i, r) && TrimmedAt(s, j, q)
    ensures r == q
  {
    if r != [] && q != [] {
      assert r[0] == s[i] && r[|r| - 1] == s[i + |r| - 1];
      assert q[0] == s[j] && q[|q| - 1] == s[j + |q| - 1];
      assert i == j && |r| == |q|;
      forall k | 0 <= k < |r| ensures r[k] == q[k] {
        assert r[k] == s[i + k] && q[k] == s[j + k];
      }
    }
  }

  /** The trim as a slice of the text, between a blank prefix and a blank suffix. */
  lemma TrimAsSlice(s: string)
    ensures var i := LeadingEnd(s, 0); var r := Trim(s);
      i + |r| <= |s| && r == s[i..i + |r|] && IsBlank(s[..i]) && IsBlank(s[i + |r|..])
  {
    var i := LeadingEnd(s, 0);
    var r := Trim(s);
    TrimIsTrimmed(s);
    RunIsSlice(s, i, r);
    BlankBefore(s, i);
    BlankAfter(s, i + |r|);
  }

  lemma RunIsSlice(s: string, i: nat, r: string)
    requires i + |r| <= |s| && forall k :: 0 <= k < |r| ==> r[k] == s[i + k]
    ensures r == s[i..i + |r|]
  {
    forall k | 0 <= k < |r| ensures s[i..i + |r|][k] == r[k] { }
  }

  lemma BlankBefore(s: string, i: nat)
    requires i <= |s| && forall k :: 0 <= k < i ==> IsSpace(s[k])
    ensures IsBlank(s[..i])
  {
    forall k | 0 <= k < i ensures IsSpace(s[..i][k]) { assert s[..i][k] == s[k]; }
  }

  lemma BlankAfter(s: string, e: nat)
    requires e <= |s| && forall k :: e <= k < |s| ==> IsSpace(s[k])
    ensures IsBlank(s[e..])
  {
    forall k | 0 <= k < |s| - e ensures IsSpace(s[e..][k]) { assert s[e..][k] == s[e + k]; }
  }

  lemma TrimOfNoSpace(s: string)
    requires NoSpace(s)
    ensures Trim(s) == s
  {
    if s != [] {
      TrimOfEnds(s);
    }
  }

  /** Length of the leading run of non-space characters. */
  function TokenLen(s: string): (n: nat)
    ensures n <= |s| && NoSpace(s[..n])
    ensures n < |s| ==> IsSpace(s[n])
  {
    if s == [] || IsSpace(s[0]) then 0 else 1 + TokenLen(s[1..])
  }

  /** The maximal runs of non-space characters, in order (Go `strings.Fields`). */
  function Fields(s: string): (r: seq<string>)
    ensures forall i :: 0 <= i < |r| ==> r[i] != [] && NoSpace(r[i])
    ensures r == [] <==> IsBlank(s)
    decreases |s|
  {
    if s == [] then []
    else if IsSpace(s[0]) then Fields(s[1..])
    else
      var n := TokenLen(s);
      [s[..n]] + Fields(s[n..])
  }

  /** Joins `xs` with `sep` between consecutive elements. */
  function Join(xs: seq<string>, sep: string): string {
    if |xs| == 0 then []
    else if |xs| == 1 then xs[0]
    else xs[0] + sep + Join(xs[1..], sep)
  }

  lemma TokenLenOfWord(w: string, rest: string)
    requires NoSpace(w)
    requires rest == [] || IsSpace(rest[0])
    ensures TokenLen(w + rest) == |w|
  {
    if w != [] {
      assert (w + rest)[1..] == w[1..] + rest;
      TokenLenOfWord(w[1..], rest);
    }
  }

  /** Splitting a single-space join of words gives the words back. */
  lemma {:induction false} FieldsOfJoin(ws: seq<string>)
    requires forall i :: 0 <= i < |ws| ==> ws[i] != [] && NoSpace(ws[i])
    ensures Fields(Join(ws, " ")) == ws
  {
    if |ws| == 1 {
      FieldsOfWord(ws[0]);
    } else if |ws| > 1 {
      var rest := Join(ws[1..], " ");
      FieldsOfJoin(ws[1..]);
      FieldsOfWordThen(ws[0], rest);
      assert [ws[0]] + ws[1..] == ws;
    }
  }

  lemma FieldsOfWord(w: string)
    requires w != [] && NoSpace(w)
    ensures Fields(w) == [w]
  {
    TokenLenOfWord(w, []);
    assert w[|w|..] == [] && w[..|w|] == w && w + [] == w;
  }

  /** A word, one blank and a rest: the word, then the fields of the rest. */
  lemma FieldsOfWordThen(w: string, rest: string)
    requires w != [] && NoSpace(w)
    ensures Fields(w + " " + rest) == [w] + Fields(rest)
  {
    var tail := " " + rest;
    var s := w + tail;
    assert w + " " + rest == s;
    TokenLenOfWord(w, tail);
    assert s[..|w|] == w;
    assert s[|w|..] == tail;
    assert tail[1..] == rest;
  }

  /** Leading whitespace does not change the fields. */
  lemma {:induction false} FieldsOfBlankPrefix(b: string, s: string)
    requires IsBlank(b)
    ensures Fields(b + s) == Fields(s)
    decreases |b|
  {
    if b != [] {
      assert (b + s)[0] == b[0] && IsSpace(b[0]);
      assert (b + s)[1..] == b[1..] + s;
      assert Fields(b + s) == Fields((b + s)[1..]);
      assert IsBlank(b[1..]) by {
        forall k | 0 <= k < |b[1..]| ensures IsSpace(b[1..][k]) {
          assert b[1..][k] == b[k + 1];
        }
      }
      FieldsOfBlankPrefix(b[1..], s);
    } else {
      assert b + s == s;
    }
  }

  /** Trailing whitespace does not change the fields. */
  lemma {:induction false} FieldsOfBlankSuffix(s: string, b: string)
    requires IsBlank(b)
    ensures Fields(s + b) == Fields(s)
    decreases |s|
  {
    if s == [] {
      assert s + b == b;
    } else if IsSpace(s[0]) {
      assert (s + b)[1..] == s[1..] + b;
      FieldsOfBlankSuffix(s[1..], b);
    } else {
      var n := TokenLen(s);
      assert s == s[..n] + s[n..];
      assert s + b == s[..n] + (s[n..] + b);
      TokenLenOfWord(s[..n], s[n..] + b);
      assert (s + b)[..n] == s[..n];
      assert (s + b)[n..] == s[n..] + b;
      FieldsOfBlankSuffix(s[n..], b);
    }
  }

  /** Trimming does not change the fields. */
  lemma FieldsOfTrim(s: string)
    ensures Fields(Trim(s)) == Fields(s)
  {
    var i := LeadingEnd(s, 0);
    var r := Trim(s);
    TrimAsSlice(s);
    SliceInThree(s, i, i + |r|);
    FieldsOfPadded(s[..i], r, s[i + |r|..]);
  }

  lemma SliceInThree(s: string, i: nat, e: nat)
    requires i <= e <= |s|
    ensures s == s[..i] + s[i..e] + s[e..]
  {
  }

  lemma FieldsOfPadded(p: string, r: string, q: string)
    requires IsBlank(p) && IsBlank(q)
    ensures Fields(p + r + q) == Fields(r)
  {
    assert p + r + q == p + (r + q);
    FieldsOfBlankPrefix(p, r + q);
    FieldsOfBlankSuffix(r, q);
  }

  /** A leading blank is trimmed away. */
  lemma TrimOfBlankFirst(s: string)
    ensures Trim(" " + s) == Trim(s)
  {
    var t := " " + s;
    TrimIsTrimmed(s);
    TrimIsTrimmed(t);
    TrimmedAtShift(s, LeadingEnd(s, 0), Trim(s), " ");
    TrimmedAtUnique(t, 1 + LeadingEnd(s, 0), Trim(s), LeadingEnd(t, 0), Trim(t));
  }

  /** Blanks put in front of a text move its trim along without changing it. */
  lemma TrimmedAtShift(s: string, i: nat, r: string, p: string)
    requires TrimmedAt(s, i, r) && IsBlank(p)
    ensures TrimmedAt(p + s, |p| + i, r)
  {
    var t := p + s;
    forall k | 0 <= k < |s| ensures t[|p| + k] == s[k] { }
    forall k | 0 <= k < |p| ensures t[k] == p[k] { }
    forall k | 0 <= k < |r| ensures r[k] == t[|p| + i + k] { assert r[k] == s[i + k]; }
    forall k | 0 <= k < |p| + i ensures IsSpace(t[k]) {
      if k >= |p| { assert t[k] == s[k - |p|]; }
    }
    forall k | |p| + i + |r| <= k < |t| ensures IsSpace(t[k]) { assert t[k] == s[k - |p|]; }
    BlankShift(p, s);
  }

  lemma BlankShift(p: string, s: string)
    requires IsBlank(p)
    ensures IsBlank(p + s) <==> IsBlank(s)
  {
    if IsBlank(s) {
      BlankConcat(p, s);
    }
    forall k | 0 <= k < |s| ensures (p + s)[|p| + k] == s[k] { }
  }

  /** A text without leading or trailing whitespace is its own trim. */
  lemma TrimOfEnds(s: string)
    requires s != [] && !IsSpace(s[0]) && !IsSpace(s[|s| - 1])
    ensures Trim(s) == s
  {
    assert !IsBlank(s) by { NotBlank(s, 0); }
    assert TrimmedAt(s, 0, s);
    TrimIsTrimmed(s);
    TrimmedAtUnique(s, 0, s, LeadingEnd(s, 0), Trim(s));
  }

  /** Splitting a word followed by a blank and more text yields the word, then the fields of the rest. */
  lemma FieldsCons(w: string, rest: string)
    requires w != [] && NoSpace(w)
    ensures Fields(w + " " + rest) == [w] + Fields(rest)
  {
    var s := w + " " + rest;
    TokenLenOfWord(w, " " + rest);
    assert s == w + (" " + rest);
    assert s[..|w|] == w;
    assert s[|w|..] == " " + rest;
    assert (" " + rest)[1..] == rest;
  }

  /** Splitting a join on its one-character separator gives the pieces back. */
  lemma {:induction false} SplitOfJoin(xs: seq<string>, c: char)
    requires |xs| >= 1
    requires forall i :: 0 <= i < |xs| ==> c !in xs[i]
    ensures Split(Join(xs, [c]), c) == xs
    decreases |xs|
  {
    if |xs| == 1 {
      assert Join(xs, [c]) == xs[0];
    } else {
      var rest := Join(xs[1..], [c]);
      var s := xs[0] + [c] + rest;
      assert Join(xs, [c]) == s;
      IndexOfCharAt(xs[0], c, rest);
      assert s[..|xs[0]|] == xs[0];
      assert s[|xs[0]| + 1..] == rest;
      SplitOfJoin(xs[1..], c);
      assert [xs[0]] + xs[1..] == xs;
    }
  }

  /** The first `c` of `a + [c] + b` is the one after `a` when `a` has none. */
  lemma IndexOfCharAt(a: string, c: char, b: string)
    requires c !in a
    ensures IndexOfChar(a + [c] + b, c) == Some(|a|)
  {
    var s := a + [c] + b;
    assert s[|a|] == c;
    assert s[..|a|] == a;
  }

  /** The last `c` of `a + [c] + b` is the one after `a` when `b` has none. */
  lemma LastIndexOfCharAt(a: string, c: char, b: string)
    requires c !in b
    ensures LastIndexOfChar(a + [c] + b, c) == Some(|a|)
  {
    var s := a + [c] + b;
    assert s[|a|] == c;
    assert s[|a| + 1..] == b;
  }

  /** A blank-separated pair whose first word is shorter differs where the other's first word goes on. */
  lemma ShorterFirstWord(a: string, b: string, x: string, y: string)
    requires NoSpace(x) && |a| < |x|
    ensures a + " " + b != x + " " + y
  {
    assert (a + " " + b)[|a|] == ' ';
    assert (x + " " + y)[|a|] == x[|a|];
  }

  /** Two blank-separated pairs of words are equal exactly when their words are. */
  lemma SpaceJoinInjective(a: string, b: string, x: string, y: string)
    requires NoSpace(a) && NoSpace(x)
    ensures (a + " " + b == x + " " + y) <==> (a == x && b == y)
  {
    if a + " " + b == x + " " + y {
      var s := a + " " + b;
      if |a| < |x| {
        ShorterFirstWord(a, b, x, y);
      } else if |x| < |a| {
        ShorterFirstWord(x, y, a, b);
      }
      assert a == s[..|a|] && x == (x + " " + y)[..|x|];
      assert b == s[|a| + 1..] && y == (x + " " + y)[|x| + 1..];
    }
  }

  /** The last `c` of `s + [c]` is its final character. */
  lemma LastIndexOfCharAtEnd(s: string, c: char)
    ensures LastIndexOfChar(s + [c], c) == Some(|s|)
  {
  }

  /** A join of non-empty pieces starts with the first piece's first character and ends with the last piece's last. */
  lemma {:induction false} JoinEnds(xs: seq<string>, sep: string)
    requires |xs| >= 1
    requires forall i :: 0 <= i < |xs| ==> xs[i] != []
    ensures Join(xs, sep) != [] && Join(xs, sep)[0] == xs[0][0]
    ensures Join(xs, sep)[|Join(xs, sep)| - 1] == xs[|xs| - 1][|xs[|xs| - 1]| - 1]
    decreases |xs|
  {
    if |xs| > 1 {
      JoinEnds(xs[1..], sep);
    }
  }

  function ToUpperChar(c: char): char {
    if 'a' <= c <= 'z' then (c as int - 32) as char else c
  }

  function ToLowerChar(c: char): char {
    if 'A' <= c <= 'Z' then (c as int + 32) as char else c
  }

  function Upper(s: string): (r: string)
    ensures |r| == |s|
    ensures forall i :: 0 <= i < |s| ==> r[i] == ToUpperChar(s[i])
  {
    seq(|s|, i requires 0 <= i < |s| => ToUpperChar(s[i]))
  }

  function Lower(s: string): (r: string)
    ensures |r| == |s|
    ensures forall i :: 0 <= i < |s| ==> r[i] == ToLowerChar(s[i])
  {
    seq(|s|, i requires 0 <= i < |s| => ToLowerChar(s[i]))
  }

  lemma UpperKeepsNoSpace(s: string)
    requires NoSpace(s)
    ensures NoSpace(Upper(s))
  {
  }

  lemma LowerKeepsNoSpace(s: string)
    requires NoSpace(s)
    ensures NoSpace(Lower(s))
  {
  }

  /** Position of the first `c` in `s`. */
  function IndexOfChar(s: string, c: char): (r: Option<nat>)
    ensures r.None? <==> c !in s
    ensures r.Some? ==> r.value < |s| && s[r.value] == c && c !in s[..r.value]
  {
    if s == [] then None
    else if s[0] == c then Some(0)
    else
      match IndexOfChar(s[1..], c)
      case None => None
      case Some(i) => assert s[..i + 1] == [s[0]] + s[1..][..i]; Some(i + 1)
  }

  /** Position of the last `c` in `s`. */
  function LastIndexOfChar(s: string, c: char): (r: Option<nat>)
    ensures r.None? <==> c !in s
    ensures r.Some? ==> r.value < |s| && s[r.value] == c && c !in s[r.value + 1..]
  {
    if s == [] then None
    else if s[|s| - 1] == c then Some(|s| - 1)
    else
      match LastIndexOfChar(s[..|s| - 1], c)
      case None => None
      case Some(i) => assert s[i + 1..] == s[..|s| - 1][i + 1..] + [s[|s| - 1]]; Some(i)
  }

  predicate OccursAt(s: string, pat: string, i: nat) {
    i + |pat| <= |s| && s[i..i + |pat|] == pat
  }

  /** Position of the first occurrence of `pat` in `s`, searching from `from`. */
  function FindFrom(s: string, pat: string, from: nat): (r: Option<nat>)
    ensures r.Some? ==> from <= r.value && OccursAt(s, pat, r.value)
    ensures r.Some? ==> forall j :: from <= j < r.value ==> !OccursAt(s, pat, j)
    ensures r.None? ==> forall j :: from <= j ==> !OccursAt(s, pat, j)
    decreases |s| - from
  {
    if from + |pat| > |s| then None
    else if s[from..from + |pat|] == pat then Some(from)
    else FindFrom(s, pat, from + 1)
  }

  /** Position of the first occurrence of `pat` in `s` (Go `strings.Index`). */
  function IndexOf(s: string, pat: string): (r: Option<nat>)
    ensures r.Some? ==> OccursAt(s, pat, r.value) && forall j :: 0 <= j < r.value ==> !OccursAt(s, pat, j)
    ensures r.None? ==> forall j :: 0 <= j ==> !OccursAt(s, pat, j)
  {
    FindFrom(s, pat, 0)
  }

  /** Go `strings.Split(s, sep)` for a one-character separator: every piece, empty ones included. */
  function Split(s: string, c: char): (r: seq<string>)
    ensures |r| >= 1
    ensures forall i :: 0 <= i < |r| ==> c !in r[i]
    ensures Join(r, [c]) == s
    decreases |s|
  {
    match IndexOfChar(s, c)
    case None => [s]
    case Some(i) =>
      var rest := Split(s[i + 1..], c);
      assert s == s[..i] + [c] + s[i + 1..];
      [s[..i]] + rest
  }

  /** The pieces `s[..i]` and `s[i+1..]` around the first `c`, if any (Go `strings.SplitN(s, c, 2)`). */
  function SplitOnce(s: string, c: char): (r: Option<(string, string)>)
    ensures r.None? <==> c !in s
    ensures r.Some? ==> s == r.value.0 + [c] + r.value.1 && c !in r.value.0
  {
    match IndexOfChar(s, c)
    case None => None
    case Some(i) => assert s == s[..i] + [c] + s[i + 1..]; Some((s[..i], s[i + 1..]))
  }

  /** `a + [c] + b` splits at the `c` after `a` when `a` has none. */
  lemma SplitOnceAt(a: string, c: char, b: string)
    requires c !in a
    ensures SplitOnce(a + [c] + b, c) == Some((a, b))
  {
    var s := a + [c] + b;
    IndexOfCharAt(a, c, b);
    assert s[..|a|] == a;
    assert s[|a| + 1..] == b;
  }

  /** Go `strings.TrimSuffix(s, ";")` shape: removes exactly one trailing `c`. */
  function TrimOneSuffix(s: string, c: char): (r: string)
    ensures s != [] && s[|s| - 1] == c ==> r + [c] == s
    ensures (s == [] || s[|s| - 1] != c) ==> r == s
  {
    if s != [] && s[|s| - 1] == c then s[..|s| - 1] else s
  }

  /** Rust `trim_end_matches(';')` / Python `rstrip(";")`: removes every trailing `c`. */
  function TrimAllSuffix(s: string, c: char): (r: string)
    ensures |r| <= |s| && r == s[..|r|]
    ensures forall i :: |r| <= i < |s| ==> s[i] == c
    ensures r == [] || r[|r| - 1] != c
  {
    if s != [] && s[|s| - 1] == c then TrimAllSuffix(s[..|s| - 1], c) else s
  }

  /** `n` copies of `c`. */
  function Run(c: char, n: nat): (r: string)
    ensures |r| == n && forall i :: 0 <= i < n ==> r[i] == c
  {
    if n == 0 then [] else Run(c, n - 1) + [c]
  }

  /** Removing every trailing `c` does not see how many there were. */
  lemma {:induction false} TrimAllSuffixOfRun(s: string, c: char, n: nat)
    ensures TrimAllSuffix(s + Run(c, n), c) == TrimAllSuffix(s, c)
  {
    if n == 0 {
      assert s + Run(c, 0) == s;
    } else {
      var t := s + Run(c, n - 1);
      assert s + Run(c, n) == t + [c];
      assert (t + [c])[..|t|] == t;
      TrimAllSuffixOfRun(s, c, n - 1);
    }
  }

  lemma RunOfTwo(c: char)
    ensures Run(c, 2) == [c, c]
  {
    assert Run(c, 1) == Run(c, 0) + [c] == [c];
  }

  /** Removes every leading `c`. */
  function TrimAllPrefix(s: string, c: char): (r: string)
    ensures |r| <= |s| && r == s[|s| - |r|..]
    ensures forall i :: 0 <= i < |s| - |r| ==> s[i] == c
    ensures r == [] || r[0] != c
  {
    if s != [] && s[0] == c then TrimAllPrefix(s[1..], c) else s
  }

  /** Python `s.strip(c)`: removes every leading and every trailing `c`. */
  function StripAll(s: string, c: char): (r: string)
    ensures r == [] || (r[0] != c && r[|r| - 1] != c)
    ensures |r| <= |s|
  {
    TrimAllSuffix(TrimAllPrefix(s, c), c)
  }

  /** Text with no `c` at either end is left alone. */
  lemma StripAllUnchanged(s: string, c: char)
    requires s == [] || (s[0] != c && s[|s| - 1] != c)
    ensures StripAll(s, c) == s
  {
  }

  lemma SuffixOfUnwrapped(s: string, c: char)
    requires s != [] && s[0] != c && s[|s| - 1] != c
    ensures TrimAllSuffix(TrimAllPrefix(s + [c], c), c) == s
  {
    assert TrimAllPrefix(s + [c], c) == s + [c];
    assert (s + [c])[..|s|] == s;
  }

  /** One `c` on each side of a text with no `c` at either end is stripped back off. */
  lemma StripAllOfWrapped(s: string, c: char)
    requires s == [] || (s[0] != c && s[|s| - 1] != c)
    ensures StripAll([c] + s + [c], c) == s
  {
    var w := [c] + s + [c];
    assert w[1..] == s + [c];
    assert TrimAllPrefix(w, c) == TrimAllPrefix(s + [c], c);
    if s == [] {
      assert [c][1..] == [];
    } else {
      SuffixOfUnwrapped(s, c);
    }
   }
}
