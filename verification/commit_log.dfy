/**
 * The in-memory commit log (`LSMTreeStorage`): mutations are appended as entries,
 * `Commit` hands back everything pending and empties the buffer, and `compact`
 * keeps at most the ten most recent entries. The three implementations agree;
 * the entry type is left generic.
 */
module CommitLog {
  /** Most entries `compact` retains. */
  const WINDOW: nat := 10

  datatype Log<E> = Log(segments: seq<E>)

  function Empty<E>(): Log<E> { Log([]) }

  /** `Log` / `log`: the entry goes at the end and nothing before it moves. */
  function Append<E>(l: Log<E>, e: E): (r: Log<E>)
    ensures |r.segments| == |l.segments| + 1
    ensures r.segments[|l.segments|] == e
    ensures r.segments[..|l.segments|] == l.segments
  {
    Log(l.segments + [e])
  }

  /** `Pending` / `pending`: how many entries wait for a commit. */
  function Pending<E>(l: Log<E>): nat {
    |l.segments|
  }

  /** `Snapshot` / `snapshot`: an order-preserving copy; the log is left as it is. */
  function Snapshot<E>(l: Log<E>): (r: seq<E>)
    ensures |r| == Pending(l)
    ensures forall i :: 0 <= i < |r| ==> r[i] == l.segments[i]
  {
    l.segments
  }

  /** `compact`: keeps the last `WINDOW` entries, and only trims when there are more. */
  function Compact<E>(l: Log<E>): (r: Log<E>)
    ensures |l.segments| <= WINDOW ==> r == l
    ensures |l.segments| > WINDOW ==> |r.segments| == WINDOW
    ensures forall i :: 0 <= i < |r.segments| ==> r.segments[i] == l.segments[|l.segments| - |r.segments| + i]
  {
    if |l.segments| > WINDOW then Log(l.segments[|l.segments| - WINDOW..]) else l
  }

  /** Python's `self._segments[-10:]`: a slice from ten before the end, clamped at the start. */
  function CompactPy<E>(l: Log<E>): Log<E> {
    var from := if |l.segments| >= WINDOW then |l.segments| - WINDOW else 0;
    Log(l.segments[from..])
  }

  /** The unconditional Python slice and the guarded Go and Rust trim keep the same entries. */
  lemma CompactPyIsCompact<E>(l: Log<E>)
    ensures CompactPy(l) == Compact(l)
  {
    if |l.segments| <= WINDOW {
      assert l.segments[0..] == l.segments;
    }
  }

  /** `Commit` / `commit`: every pending entry, in append order, and an emptied log. */
  function Commit<E>(l: Log<E>): (r: (Log<E>, seq<E>))
    ensures r.1 == Snapshot(l)
    ensures Pending(r.0) == 0
  {
    (Compact(Empty()), l.segments)
  }

  /** `compact` runs on the already-cleared buffer, so on the commit path it changes nothing. */
  lemma CompactInertAfterCommit<E>(l: Log<E>)
    ensures Compact(Commit(l).0) == Commit(l).0
    ensures Commit(l).0 == Empty()
  {
  }

  /** Appending then committing returns exactly the old entries followed by the new one. */
  lemma CommitAfterAppend<E>(l: Log<E>, e: E)
    ensures Commit(Append(l, e)).1 == Snapshot(l) + [e]
    ensures Pending(Commit(Append(l, e)).0) == 0
  {
  }

  /** Appending `n` entries to any log adds exactly those `n` to the pending ones, in order. */
  lemma {:induction false} AppendAll<E>(l: Log<E>, es: seq<E>)
    ensures Snapshot(AppendSeq(l, es)) == Snapshot(l) + es
    ensures Pending(AppendSeq(l, es)) == Pending(l) + |es|
    decreases |es|
  {
    if es != [] {
      AppendAll(Append(l, es[0]), es[1..]);
      assert l.segments + [es[0]] + es[1..] == l.segments + es;
    }
  }

  function AppendSeq<E>(l: Log<E>, es: seq<E>): Log<E>
    decreases |es|
  {
    if es == [] then l else AppendSeq(Append(l, es[0]), es[1..])
  }
}
