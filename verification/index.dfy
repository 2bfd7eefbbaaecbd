/**
 * Hash indexes as buckets of row positions. A row's key in a column is given by a
 * key function; a row whose key is `None` is left out of every bucket (Rust skips
 * rows lacking the column). A bucket lists positions in ascending order, which is
 * the order the rows appear in the table.
 */
module Indexes {
  import opened Base

  type Index<K> = map<K, seq<nat>>

  /** Strictly ascending positions. */
  predicate Ascending(ps: seq<nat>) {
    forall i, j :: 0 <= i < j < |ps| ==> ps[i] < ps[j]
  }

  /** The bucket for `k`, empty when the key was never seen. */
  function Lookup<K(==,!new)>(ix: Index<K>, k: K): seq<nat> {
    if k in ix then ix[k] else []
  }

  /** Appends position `pos` to the bucket of key `k`; a `None` key leaves the index as it is. */
  function AddToBucket<K(==,!new)>(ix: Index<K>, k: Option<K>, pos: nat): (r: Index<K>)
    ensures k.None? ==> r == ix
    ensures k.Some? ==> Lookup(r, k.value) == Lookup(ix, k.value) + [pos]
    ensures forall other :: k != Some(other) ==> Lookup(r, other) == Lookup(ix, other)
  {
    match k
    case None => ix
    case Some(kk) => ix[kk := Lookup(ix, kk) + [pos]]
  }

  /** The index a full rebuild produces from the rows' keys, row by row in table order. */
  function BuildIndex<K(==,!new)>(keys: seq<Option<K>>): Index<K>
    decreases |keys|
  {
    if keys == [] then map[] else AddToBucket(BuildIndex(keys[..|keys| - 1]), keys[|keys| - 1], |keys| - 1)
  }

  /** The positions holding key `k`, found by a linear scan in row order. */
  function Scan<K(==,!new)>(keys: seq<Option<K>>, k: K): (r: seq<nat>)
    ensures forall i :: 0 <= i < |r| ==> r[i] < |keys| && keys[r[i]] == Some(k)
    ensures forall i :: 0 <= i < |keys| && keys[i] == Some(k) ==> i in r
    ensures Ascending(r)
    decreases |keys|
  {
    if keys == [] then []
    else
      var n := |keys| - 1;
      var front := Scan(keys[..n], k);
      assert forall i :: 0 <= i < n && keys[i] == Some(k) ==> i in front by {
        forall i | 0 <= i < n && keys[i] == Some(k) ensures i in front { assert keys[..n][i] == keys[i]; }
      }
      front + (if keys[n] == Some(k) then [n] else [])
  }

  /** A rebuilt index and a scan agree on every key: the bucket is exactly the scan. */
  lemma {:induction false} BucketIsScan<K(!new)>(keys: seq<Option<K>>, k: K)
    ensures Lookup(BuildIndex(keys), k) == Scan(keys, k)
    decreases |keys|
  {
    if keys != [] {
      BucketIsScan(keys[..|keys| - 1], k);
    }
  }

  /** Appending one row extends the rebuilt index exactly the way an insert does. */
  lemma BuildIndexAppend<K(!new)>(keys: seq<Option<K>>, k: Option<K>)
    ensures BuildIndex(keys + [k]) == AddToBucket(BuildIndex(keys), k, |keys|)
  {
    assert (keys + [k])[..|keys|] == keys;
  }

  /** Every position stored in a rebuilt index is a row position. */
  lemma BuildIndexInRange<K(!new)>(keys: seq<Option<K>>, k: K)
    ensures forall i :: 0 <= i < |Lookup(BuildIndex(keys), k)| ==> Lookup(BuildIndex(keys), k)[i] < |keys|
  {
    BucketIsScan(keys, k);
  }
}
