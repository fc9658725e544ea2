/**
 The cursors of the maintenance sweep. Each run reads one page of candidates after the cursor it
 was given; a full page moves the cursor to its last row, a short page sends it back to the start.
 */
module SweepCursor {
  import opened Common
  import opened Keyset

  /** The page a run reads: the first rows after the cursor, at most `size`. */
  function PageAfter(candidates: seq<Key>, cursor: Option<Key>, size: nat): (page: seq<Key>)
    ensures |page| <= size
  {
    var skipped := Skipped(candidates, cursor);
    candidates[skipped..Min(skipped + size, |candidates|)]
  }

  function NextCursor(page: seq<Key>, size: nat): Option<Key> {
    if |page| == size && size > 0 then Some(page[size - 1]) else None
  }

  // ----- one run

  /** What became of one candidate: the store refused, the mark matched no row, or it is purged. */
  datatype Visit = StorageFailed | NotMarked | Marked

  function CountOf(visits: seq<Visit>, v: Visit): nat {
    if visits == [] then 0 else CountOf(visits[..|visits| - 1], v) + (if visits[|visits| - 1] == v then 1 else 0)
  }

  /** The purge loop: failures are counted and never stop the page or change where it ends. */
  method PurgePage(page: seq<Key>, visits: seq<Visit>, size: nat)
    returns (purged: nat, failures: nat, next: Option<Key>)
    requires |page| == |visits| && |page| <= size
    ensures purged == CountOf(visits, Marked) && failures == CountOf(visits, StorageFailed)
    ensures purged + failures <= |page|
    ensures next == NextCursor(page, size)
  {
    purged, failures := 0, 0;
    for i := 0 to |page|
      invariant purged == CountOf(visits[..i], Marked) && failures == CountOf(visits[..i], StorageFailed)
      invariant purged + failures <= i
    {
      assert visits[..i + 1][..i] == visits[..i];
      match visits[i]
      case StorageFailed => failures := failures + 1;
      case NotMarked =>
      case Marked => purged := purged + 1;
    }
    assert visits[..|page|] == visits;
    next := if |page| == size && size > 0 then Some(page[|page| - 1]) else None;
  }

  // ----- many runs

  /** A row is read by one of the runs, each of which sees the candidates of its own time. */
  predicate Visited(runs: seq<seq<Key>>, size: nat, cursor: Option<Key>, row: Key) {
    runs != []
    && var page := PageAfter(runs[0], cursor, size);
    (row in page || Visited(runs[1..], size, NextCursor(page, size), row))
  }

  /** Rows of the universe at or before the cursor. */
  function Passed(universe: set<Key>, cursor: Option<Key>): set<Key> {
    set k | k in universe && !IsAfter(k, cursor)
  }

  predicate Candidates(universe: set<Key>, candidates: seq<Key>) {
    Sorted(candidates) && forall k :: k in candidates ==> k in universe
  }

  /** A candidate after the cursor is on the page, or the page is full of rows before it. */
  lemma {:induction false} PageIsFirst(candidates: seq<Key>, cursor: Option<Key>, size: nat, row: Key)
    requires Sorted(candidates) && row in candidates && IsAfter(row, cursor)
    ensures var page := PageAfter(candidates, cursor, size);
            row in page || (|page| == size && forall k :: k in page ==> Less(k, row))
  {
    SkippedSplits(candidates, cursor);
    var skipped := Skipped(candidates, cursor);
    var at :| 0 <= at < |candidates| && candidates[at] == row;
    var page := PageAfter(candidates, cursor, size);
    if at < skipped + size {
      assert page[at - skipped] == row;
    }
  }

  /** A full page passes at least `size` rows of the universe. */
  lemma {:induction false} FullPagePasses(universe: set<Key>, candidates: seq<Key>, cursor: Option<Key>, size: nat)
    requires Candidates(universe, candidates) && size > 0
    requires |PageAfter(candidates, cursor, size)| == size
    ensures var next := NextCursor(PageAfter(candidates, cursor, size), size);
            |Passed(universe, next)| >= |Passed(universe, cursor)| + size
  {
    var page := PageAfter(candidates, cursor, size);
    var next := NextCursor(page, size);
    var keys := set i | 0 <= i < |page| :: page[i];
    PageAdvances(universe, candidates, cursor, size);
    DistinctKeys(page);
    assert Passed(universe, cursor) !! keys;
    assert Passed(universe, cursor) + keys <= Passed(universe, next);
    SubsetIsNoLarger(Passed(universe, cursor) + keys, Passed(universe, next));
  }

  /** The rows of a full page lie after the old cursor and not after the new one. */
  lemma {:induction false} PageAdvances(universe: set<Key>, candidates: seq<Key>, cursor: Option<Key>, size: nat)
    requires Candidates(universe, candidates) && size > 0
    requires |PageAfter(candidates, cursor, size)| == size
    ensures var page := PageAfter(candidates, cursor, size);
            var next := NextCursor(page, size);
            && Sorted(page)
            && (forall i :: 0 <= i < |page| ==>
               page[i] in Passed(universe, next) && page[i] !in Passed(universe, cursor))
            && Passed(universe, cursor) <= Passed(universe, next)
  {
    SkippedSplits(candidates, cursor);
    var skipped := Skipped(candidates, cursor);
    var page := PageAfter(candidates, cursor, size);
    assert forall i :: 0 <= i < size ==> page[i] == candidates[skipped + i];
  }

  lemma {:induction false} DistinctKeys(page: seq<Key>)
    requires Sorted(page)
    ensures |set i | 0 <= i < |page| :: page[i]| == |page|
  {
    if page != [] {
      var n := |page| - 1;
      DistinctKeys(page[..n]);
      var before := set i | 0 <= i < n :: page[..n][i];
      assert (set i | 0 <= i < |page| :: page[i]) == before + {page[n]};
      assert page[n] !in before;
    }
  }

  /** How many rows the runs can read in all. */
  function Capacity(runs: seq<seq<Key>>, size: nat): nat {
    if runs == [] then 0 else size + Capacity(runs[1..], size)
  }

  lemma {:induction false} CapacityIsProduct(runs: seq<seq<Key>>, size: nat)
    ensures Capacity(runs, size) == size * |runs|
  {
    if runs != [] {
      CapacityIsProduct(runs[1..], size);
    }
  }

  /** The row is a candidate of every run. */
  predicate Stays(universe: set<Key>, runs: seq<seq<Key>>, row: Key) {
    forall i :: 0 <= i < |runs| ==> Candidates(universe, runs[i]) && row in runs[i]
  }

  /** A run that misses a row after its cursor is full, and passes only rows before it. */
  lemma {:induction false} MissedRowIsLater(
    universe: set<Key>, candidates: seq<Key>, size: nat, cursor: Option<Key>, row: Key)
    requires size > 0 && Candidates(universe, candidates) && row in candidates && IsAfter(row, cursor)
    requires row !in PageAfter(candidates, cursor, size)
    ensures var next := NextCursor(PageAfter(candidates, cursor, size), size);
            IsAfter(row, next) && |Passed(universe, next)| >= |Passed(universe, cursor)| + size
  {
    PageIsFirst(candidates, cursor, size, row);
    FullPagePasses(universe, candidates, cursor, size);
    var page := PageAfter(candidates, cursor, size);
    assert page[size - 1] in page;
  }

  lemma PassedIsLess(universe: set<Key>, cursor: Option<Key>, row: Key)
    requires row in universe && IsAfter(row, cursor)
    ensures |Passed(universe, cursor)| < |universe|
  {
    assert row !in Passed(universe, cursor);
    SubsetIsNoLarger(Passed(universe, cursor) + {row}, universe);
  }

  /**
   A row after the cursor is read before the cursor wraps: every run either reads it or passes
   `size` more rows that come before it.
   */
  lemma {:induction false} ReachedFromBefore(
    universe: set<Key>, runs: seq<seq<Key>>, size: nat, cursor: Option<Key>, row: Key)
    requires size > 0 && row in universe && IsAfter(row, cursor) && Stays(universe, runs, row)
    requires Capacity(runs, size) >= |universe| - |Passed(universe, cursor)|
    ensures Visited(runs, size, cursor, row)
    decreases |runs|
  {
    PassedIsLess(universe, cursor, row);
    assert runs != [];
    var page := PageAfter(runs[0], cursor, size);
    if row !in page {
      MissedRowIsLater(universe, runs[0], size, cursor, row);
      ReachedFromBefore(universe, runs[1..], size, NextCursor(page, size), row);
    }
  }

  lemma {:induction false} VisitedInTime(
    universe: set<Key>, runs: seq<seq<Key>>, size: nat, cursor: Option<Key>, row: Key)
    requires size > 0 && row in universe && Stays(universe, runs, row)
    requires Capacity(runs, size) >= 2 * |universe| + size - |Passed(universe, cursor)|
    ensures Visited(runs, size, cursor, row)
    decreases |runs|
  {
    SubsetIsNoLarger(Passed(universe, cursor), universe);
    if IsAfter(row, cursor) {
      ReachedFromBefore(universe, runs, size, cursor, row);
    } else {
      assert runs != [];
      var page := PageAfter(runs[0], cursor, size);
      if |page| == size {
        FullPagePasses(universe, runs[0], cursor, size);
        VisitedInTime(universe, runs[1..], size, NextCursor(page, size), row);
      } else {
        ReachedFromBefore(universe, runs[1..], size, None, row);
      }
    }
  }

  /**
   Fairness: whatever happens to other rows, and whichever of them come and go within the same
   finite table, a row that stays a candidate is read once the runs cover the table twice and
   one page more; the cursor may start anywhere.
   */
  lemma {:induction false} EveryCandidateIsVisited(
    universe: set<Key>, runs: seq<seq<Key>>, size: nat, cursor: Option<Key>, row: Key)
    requires size > 0 && row in universe && Stays(universe, runs, row)
    requires size * |runs| >= 2 * |universe| + size - |Passed(universe, cursor)|
    ensures Visited(runs, size, cursor, row)
  {
    CapacityIsProduct(runs, size);
    VisitedInTime(universe, runs, size, cursor, row);
  }

  // ----- times as the database holds them

  /** A row with its time in microseconds; cursors carry milliseconds. */
  datatype Stamp = Stamp(micros: int, id: int)

  /** The cursor of a page ending in this row, and the key the purge query sorts and seeks by. */
  function TruncatedKey(s: Stamp): Key {
    Key(s.micros / 1000, s.id)
  }

  function KeysOf(rows: seq<Stamp>): (keys: seq<Key>)
    ensures |keys| == |rows| && forall i :: 0 <= i < |rows| ==> keys[i] == TruncatedKey(rows[i])
  {
    seq(|rows|, i requires 0 <= i < |rows| => TruncatedKey(rows[i]))
  }

  predicate DistinctIds(table: set<Stamp>) {
    forall a, b :: a in table && b in table && a.id == b.id ==> a == b
  }

  /** A page of rows sorted and sought by their truncated keys. */
  function StampPage(rows: seq<Stamp>, cursor: Option<Key>, size: nat): seq<Stamp> {
    var skipped := Skipped(KeysOf(rows), cursor);
    rows[skipped..Min(skipped + size, |rows|)]
  }

  function StampCursor(page: seq<Stamp>, size: nat): Option<Key> {
    if |page| == size && size > 0 then Some(TruncatedKey(page[size - 1])) else None
  }

  /** The row is read by one of the purge runs. */
  predicate PurgeReads(runs: seq<seq<Stamp>>, size: nat, cursor: Option<Key>, row: Stamp) {
    runs != []
    && var page := StampPage(runs[0], cursor, size);
    (row in page || PurgeReads(runs[1..], size, StampCursor(page, size), row))
  }

  /** The rows of every run, in key order, are rows of the table, and the row is one of them. */
  predicate StampStays(table: set<Stamp>, runs: seq<seq<Stamp>>, row: Stamp) {
    forall i :: 0 <= i < |runs| ==>
      Sorted(KeysOf(runs[i])) && (forall s :: s in runs[i] ==> s in table) && row in runs[i]
  }

  function AllKeys(runs: seq<seq<Stamp>>): (r: seq<seq<Key>>)
    ensures |r| == |runs| && forall i :: 0 <= i < |runs| ==> r[i] == KeysOf(runs[i])
  {
    seq(|runs|, i requires 0 <= i < |runs| => KeysOf(runs[i]))
  }

  lemma PageKeys(rows: seq<Stamp>, cursor: Option<Key>, size: nat)
    ensures KeysOf(StampPage(rows, cursor, size)) == PageAfter(KeysOf(rows), cursor, size)
  {
  }

  /** Within a table of distinct ids a key stands for one row. */
  lemma KeyNamesRow(table: set<Stamp>, rows: seq<Stamp>, row: Stamp)
    requires DistinctIds(table) && row in table && (forall s :: s in rows ==> s in table)
             && TruncatedKey(row) in KeysOf(rows)
    ensures row in rows
  {
    var i :| 0 <= i < |rows| && KeysOf(rows)[i] == TruncatedKey(row);
    assert rows[i] in rows;
  }

  lemma {:induction false} KeysVisited(
    table: set<Stamp>, runs: seq<seq<Stamp>>, size: nat, cursor: Option<Key>, row: Stamp)
    requires DistinctIds(table) && row in table && StampStays(table, runs, row)
    requires Visited(AllKeys(runs), size, cursor, TruncatedKey(row))
    ensures PurgeReads(runs, size, cursor, row)
    decreases |runs|
  {
    var page := StampPage(runs[0], cursor, size);
    PageKeys(runs[0], cursor, size);
    assert forall s :: s in page ==> s in runs[0];
    assert AllKeys(runs)[1..] == AllKeys(runs[1..]);
    if TruncatedKey(row) in KeysOf(page) {
      KeyNamesRow(table, page, row);
    } else {
      assert StampCursor(page, size) == NextCursor(KeysOf(page), size);
      KeysVisited(table, runs[1..], size, StampCursor(page, size), row);
    }
  }

  lemma {:induction false} KeySetIsNoLarger(table: set<Stamp>)
    ensures |set s | s in table :: TruncatedKey(s)| <= |table|
    decreases |table|
  {
    if s :| s in table {
      var rest := table - {s};
      KeySetIsNoLarger(rest);
      assert (set x | x in table :: TruncatedKey(x)) == (set x | x in rest :: TruncatedKey(x)) + {TruncatedKey(s)};
    }
  }

  /**
   Purge fairness: with times of any precision and distinct ids, sorting and seeking by truncated
   times reads every row that stays a candidate once the runs cover the table twice and a page.
   */
  lemma {:induction false} PurgeIsFair(
    table: set<Stamp>, runs: seq<seq<Stamp>>, size: nat, cursor: Option<Key>, row: Stamp)
    requires size > 0 && DistinctIds(table) && row in table && StampStays(table, runs, row)
    requires size * |runs| >= 2 * |table| + size
    ensures PurgeReads(runs, size, cursor, row)
  {
    var universe := set s | s in table :: TruncatedKey(s);
    KeySetIsNoLarger(table);
    forall i | 0 <= i < |runs| ensures Candidates(universe, AllKeys(runs)[i]) && TruncatedKey(row) in AllKeys(runs)[i] {
      KeysAreCandidates(table, runs[i], row);
    }
    EveryCandidateIsVisited(universe, AllKeys(runs), size, cursor, TruncatedKey(row));
    KeysVisited(table, runs, size, cursor, row);
  }

  lemma KeysAreCandidates(table: set<Stamp>, rows: seq<Stamp>, row: Stamp)
    requires Sorted(KeysOf(rows)) && (forall s :: s in rows ==> s in table) && row in rows
    ensures Candidates(set s | s in table :: TruncatedKey(s), KeysOf(rows)) && TruncatedKey(row) in KeysOf(rows)
  {
    forall k | k in KeysOf(rows) ensures k in set s | s in table :: TruncatedKey(s) {
      var i :| 0 <= i < |rows| && KeysOf(rows)[i] == k;
      assert rows[i] in rows;
    }
    var j :| 0 <= j < |rows| && rows[j] == row;
    assert KeysOf(rows)[j] == TruncatedKey(row);
  }

  // ----- a seek on the raw column

  predicate RawLess(a: Stamp, b: Stamp) {
    a.micros < b.micros || (a.micros == b.micros && a.id < b.id)
  }

  predicate RawSorted(rows: seq<Stamp>) {
    forall i, j :: 0 <= i < j < |rows| ==> RawLess(rows[i], rows[j])
  }

  /** The retention query compares the raw column with the cursor's milliseconds. */
  predicate RawAfter(s: Stamp, cursor: Option<Key>) {
    cursor.None? || s.micros > cursor.value.major * 1000
        || (s.micros == cursor.value.major * 1000 && s.id > cursor.value.minor)
  }

  function RawSkipped(rows: seq<Stamp>, cursor: Option<Key>): (n: nat)
    ensures n <= |rows|
  {
    if rows == [] || RawAfter(rows[0], cursor) then 0 else 1 + RawSkipped(rows[1..], cursor)
  }

  lemma {:induction false} RawSkippedSplits(rows: seq<Stamp>, cursor: Option<Key>)
    requires RawSorted(rows)
    ensures var n := RawSkipped(rows, cursor);
            && (forall i :: 0 <= i < n ==> !RawAfter(rows[i], cursor))
            && (forall i :: n <= i < |rows| ==> RawAfter(rows[i], cursor))
  {
    if rows != [] && !RawAfter(rows[0], cursor) {
      RawSkippedSplits(rows[1..], cursor);
    }
  }

  function RawPage(rows: seq<Stamp>, cursor: Option<Key>, size: nat): seq<Stamp> {
    var skipped := RawSkipped(rows, cursor);
    rows[skipped..Min(skipped + size, |rows|)]
  }

  /** The row is read by one of the runs that sort and seek on the raw column. */
  predicate RawReads(runs: seq<seq<Stamp>>, size: nat, cursor: Option<Key>, row: Stamp) {
    runs != []
    && var page := RawPage(runs[0], cursor, size);
    (row in page || RawReads(runs[1..], size, StampCursor(page, size), row))
  }

  /** A raw seek continues right behind a page if and only if the time of the page's last row is a whole millisecond. */
  lemma {:induction false} RawContinuesExactly(rows: seq<Stamp>, k: nat)
    requires RawSorted(rows) && 0 < k <= |rows|
    ensures RawSkipped(rows, Some(TruncatedKey(rows[k - 1]))) == k <==> rows[k - 1].micros % 1000 == 0
  {
    var cursor := Some(TruncatedKey(rows[k - 1]));
    RawSkippedSplits(rows, cursor);
    assert RawAfter(rows[k - 1], cursor) <==> rows[k - 1].micros % 1000 != 0;
    if rows[k - 1].micros % 1000 == 0 {
      assert k < |rows| ==> RawAfter(rows[k], cursor);
    }
  }

  function Repeat(rows: seq<Stamp>, n: nat): (runs: seq<seq<Stamp>>)
    ensures |runs| == n && forall i :: 0 <= i < n ==> runs[i] == rows
  {
    seq(n, i => rows)
  }

  /** A page whose cursor brings the same page again is read for ever, and nothing else. */
  lemma {:induction false} SamePageForEver(rows: seq<Stamp>, size: nat, cursor: Option<Key>, row: Stamp, n: nat)
    requires var page := RawPage(rows, cursor, size);
             row !in page && RawPage(rows, StampCursor(page, size), size) == page
    ensures !RawReads(Repeat(rows, n), size, cursor, row)
    decreases n
  {
    if n > 0 {
      var page := RawPage(rows, cursor, size);
      assert Repeat(rows, n)[1..] == Repeat(rows, n - 1);
      SamePageForEver(rows, size, StampCursor(page, size), row, n - 1);
    }
  }

  /**
   With a fraction of a millisecond a raw seek starves what lies behind: no number of runs reads
   the second of these two rows.
   */
  lemma {:induction false} RawSeekStarves(n: nat)
    ensures !RawReads(Repeat([Stamp(1500, 1), Stamp(2000, 2)], n), 1, None, Stamp(2000, 2))
  {
    var rows := [Stamp(1500, 1), Stamp(2000, 2)];
    assert RawPage(rows, None, 1) == [rows[0]];
    assert RawAfter(rows[0], Some(TruncatedKey(rows[0])));
    assert RawPage(rows, Some(TruncatedKey(rows[0])), 1) == [rows[0]];
    SamePageForEver(rows, 1, None, rows[1], n);
  }

  // ----- retention, whose times come from millisecond clocks

  predicate WholeMillis(rows: seq<Stamp>) {
    forall i :: 0 <= i < |rows| ==> rows[i].micros % 1000 == 0
  }

  lemma {:induction false} RawSkipsLikeKeys(rows: seq<Stamp>, cursor: Option<Key>)
    requires WholeMillis(rows)
    ensures RawSkipped(rows, cursor) == Skipped(KeysOf(rows), cursor)
  {
    if rows != [] {
      assert KeysOf(rows)[1..] == KeysOf(rows[1..]);
      RawSkipsLikeKeys(rows[1..], cursor);
    }
  }

  lemma RawOrderIsKeyOrder(rows: seq<Stamp>)
    requires WholeMillis(rows) && RawSorted(rows)
    ensures Sorted(KeysOf(rows))
  {
    forall i, j | 0 <= i < j < |rows| ensures Less(KeysOf(rows)[i], KeysOf(rows)[j]) {
      assert RawLess(rows[i], rows[j]);
    }
  }

  /** On whole milliseconds the raw seek is the key seek, run by run. */
  lemma {:induction false} RawReadsLikeKeys(runs: seq<seq<Stamp>>, size: nat, cursor: Option<Key>, row: Stamp)
    requires forall i :: 0 <= i < |runs| ==> WholeMillis(runs[i])
    ensures RawReads(runs, size, cursor, row) <==> PurgeReads(runs, size, cursor, row)
    decreases |runs|
  {
    if runs != [] {
      RawSkipsLikeKeys(runs[0], cursor);
      RawReadsLikeKeys(runs[1..], size, StampCursor(RawPage(runs[0], cursor, size), size), row);
    }
  }

  /**
   Retention fairness: attachment times are whole milliseconds, so the raw seek reads every row
   that stays attached once the runs cover the table twice and a page.
   */
  lemma {:induction false} RetentionIsFair(
    table: set<Stamp>, runs: seq<seq<Stamp>>, size: nat, cursor: Option<Key>, row: Stamp)
    requires size > 0 && DistinctIds(table) && row in table
    requires forall i :: 0 <= i < |runs| ==>
               RawSorted(runs[i]) && WholeMillis(runs[i]) && (forall s :: s in runs[i] ==> s in table) && row in runs[i]
    requires size * |runs| >= 2 * |table| + size
    ensures RawReads(runs, size, cursor, row)
  {
    forall i | 0 <= i < |runs| ensures Sorted(KeysOf(runs[i])) {
      RawOrderIsKeyOrder(runs[i]);
    }
    PurgeIsFair(table, runs, size, cursor, row);
    RawReadsLikeKeys(runs, size, cursor, row);
  }
}
