/**
 Keyset pagination: rows in strictly increasing key order, read in pages that start after a cursor.

 A key is the pair a query sorts and seeks by, such as (handle, page id) or (creation time, id).
 Its two parts are given as their positions in the database's own column order.
 */
module Keyset {
  import opened Common

  datatype Key = Key(major: int, minor: int)

  predicate Less(a: Key, b: Key) {
    a.major < b.major || (a.major == b.major && a.minor < b.minor)
  }

  predicate Sorted(keys: seq<Key>) {
    forall i, j :: 0 <= i < j < |keys| ==> Less(keys[i], keys[j])
  }

  predicate IsAfter(key: Key, cursor: Option<Key>) {
    cursor.None? || Less(cursor.value, key)
  }

  /** The number of leading keys that are not after the cursor. */
  function Skipped(keys: seq<Key>, cursor: Option<Key>): (n: nat)
    ensures n <= |keys|
  {
    if keys == [] || IsAfter(keys[0], cursor) then 0 else 1 + Skipped(keys[1..], cursor)
  }

  /** In a sorted table the rows after a cursor are a suffix. */
  lemma {:induction false} SkippedSplits(keys: seq<Key>, cursor: Option<Key>)
    requires Sorted(keys)
    ensures var n := Skipped(keys, cursor);
            && (forall i :: 0 <= i < n ==> !IsAfter(keys[i], cursor))
            && (forall i :: n <= i < |keys| ==> IsAfter(keys[i], cursor))
  {
    if keys != [] && !IsAfter(keys[0], cursor) {
      SkippedSplits(keys[1..], cursor);
    }
  }

  /** Seeking after the k-th key skips exactly k rows. */
  lemma SeekAfterRow(keys: seq<Key>, k: nat)
    requires Sorted(keys) && 0 < k <= |keys|
    ensures Skipped(keys, Some(keys[k - 1])) == k
  {
    SkippedSplits(keys, Some(keys[k - 1]));
    assert !IsAfter(keys[k - 1], Some(keys[k - 1]));
    assert k < |keys| ==> IsAfter(keys[k], Some(keys[k - 1]));
  }
}
