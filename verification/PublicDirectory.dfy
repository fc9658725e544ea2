/**
 The public creator directory: a filtered scan over the discovery projection in (handle, page id)
 order, 24 creators per page, at most 96 candidates per request, continued by a cursor.
 */
module PublicDirectory {
  import opened Common
  import opened Keyset

  const PAGE_SIZE: nat := 24
  const BATCH_SIZE: nat := 48
  const SCAN_BUDGET: nat := 96

  type Discipline = string

  /**
   A projection row joined with what the visibility checks say of its page. `visible` means the
   page passes every check; `faulty` means its media contradicts the published revision, on
   which the batch it is loaded with is answered empty.
   */
  datatype Entry = Entry(key: Key, handle: string, disciplines: seq<Discipline>, enabled: bool, visible: bool,
      faulty: bool)

  datatype Query = Query(discipline: Option<Discipline>, handlePrefix: string)

  function Keys(rows: seq<Entry>): (keys: seq<Key>)
    ensures |keys| == |rows| && forall i :: 0 <= i < |rows| ==> keys[i] == rows[i].key
  {
    seq(|rows|, i requires 0 <= i < |rows| => rows[i].key)
  }

  predicate Matches(q: Query, e: Entry) {
    e.enabled && q.handlePrefix <= e.handle && (q.discipline.Some? ==> q.discipline.value in e.disciplines)
  }

  /** The rows of the table a query can ever return, in key order. */
  function Matching(q: Query, rows: seq<Entry>): (r: seq<Entry>)
    ensures |r| <= |rows|
    ensures forall e :: e in r <==> e in rows && Matches(q, e)
  {
    if rows == [] then []
    else if Matches(q, rows[0]) then [rows[0]] + Matching(q, rows[1..])
    else Matching(q, rows[1..])
  }

  lemma {:induction false} MatchingIsSorted(q: Query, rows: seq<Entry>)
    requires Sorted(Keys(rows))
    ensures Sorted(Keys(Matching(q, rows)))
  {
    if rows != [] {
      var rest := Matching(q, rows[1..]);
      assert Sorted(Keys(rows[1..])) by {
        assert forall i :: 0 <= i < |rows| - 1 ==> Keys(rows[1..])[i] == Keys(rows)[i + 1];
      }
      MatchingIsSorted(q, rows[1..]);
      forall j | 0 <= j < |rest| ensures Less(rows[0].key, rest[j].key) {
        assert rest[j] in rows[1..];
        var k :| 0 <= k < |rows[1..]| && rows[1..][k] == rest[j];
        assert Less(Keys(rows)[0], Keys(rows)[k + 1]);
      }
      PrependSorted(rows[0], rest);
    }
  }

  lemma PrependSorted(e: Entry, rest: seq<Entry>)
    requires Sorted(Keys(rest)) && forall j :: 0 <= j < |rest| ==> Less(e.key, rest[j].key)
    ensures Sorted(Keys([e] + rest))
  {
    var r := [e] + rest;
    forall i, j | 0 <= i < j < |r| ensures Less(Keys(r)[i], Keys(r)[j]) {
      assert i > 0 ==> Less(Keys(rest)[i - 1], Keys(rest)[j - 1]);
    }
  }

  /** The matching rows after a cursor. */
  function After(matching: seq<Entry>, cursor: Option<Key>): seq<Entry> {
    matching[Skipped(Keys(matching), cursor)..]
  }

  /** One candidate query: the next rows after the cursor, at most 48. */
  function Candidates(matching: seq<Entry>, cursor: Option<Key>): (batch: seq<Entry>)
    ensures |batch| <= BATCH_SIZE
  {
    var rest := After(matching, cursor);
    rest[..Min(BATCH_SIZE, |rest|)]
  }

  function Visible(rows: seq<Entry>): (r: seq<Entry>)
    ensures |r| <= |rows|
  {
    if rows == [] then []
    else Visible(rows[..|rows| - 1]) + (if rows[|rows| - 1].visible then [rows[|rows| - 1]] else [])
  }

  lemma VisibleStep(rows: seq<Entry>, i: nat)
    requires i < |rows|
    ensures Visible(rows[..i + 1]) == Visible(rows[..i]) + (if rows[i].visible then [rows[i]] else [])
  {
    assert rows[..i + 1][..i] == rows[..i];
  }

  lemma {:induction false} VisibleOfConcat(a: seq<Entry>, b: seq<Entry>)
    ensures Visible(a + b) == Visible(a) + Visible(b)
  {
    if b == [] {
      assert a + b == a;
    } else {
      assert (a + b)[..|a + b| - 1] == a + b[..|b| - 1];
      VisibleOfConcat(a, b[..|b| - 1]);
    }
  }

  predicate Faulty(batch: seq<Entry>) {
    exists e :: e in batch && e.faulty
  }

  /** A batch as the scan sees it: nothing in a faulty batch is visible. */
  function Evaluated(batch: seq<Entry>): (r: seq<Entry>)
    ensures |r| == |batch|
    ensures forall i :: 0 <= i < |batch| ==> r[i] == if Faulty(batch) then batch[i].(visible := false) else batch[i]
  {
    if Faulty(batch) then seq(|batch|, i requires 0 <= i < |batch| => batch[i].(visible := false)) else batch
  }

  /** What one request can look at: its two batches, evaluated. */
  function Window(rest: seq<Entry>): (r: seq<Entry>)
    ensures |r| == Min(SCAN_BUDGET, |rest|)
  {
    var n := Min(BATCH_SIZE, |rest|);
    var m := Min(SCAN_BUDGET, |rest|);
    Evaluated(rest[..n]) + Evaluated(rest[n..m])
  }

  // ----- the specification of a page

  /** The number of leading rows up to and including the n-th visible one. */
  function Reach(rows: seq<Entry>, n: nat): (k: nat)
    requires 0 < n <= |Visible(rows)|
    ensures 0 < k <= |rows|
  {
    var last := |rows| - 1;
    if |Visible(rows[..last])| < n then |rows| else Reach(rows[..last], n)
  }

  lemma {:induction false} ReachHasFirst(rows: seq<Entry>, n: nat)
    requires 0 < n <= |Visible(rows)|
    ensures var k := Reach(rows, n); rows[k - 1].visible && Visible(rows[..k]) == Visible(rows)[..n]
  {
    var last := |rows| - 1;
    var shorter := rows[..last];
    if |Visible(shorter)| < n {
      assert rows[..|rows|] == rows;
      assert Visible(rows)[..n] == Visible(rows);
    } else {
      ReachHasFirst(shorter, n);
      var k := Reach(shorter, n);
      assert shorter[..k] == rows[..k] && shorter[k - 1] == rows[k - 1];
      assert Visible(rows)[..n] == Visible(shorter)[..n];
    }
  }

  datatype Page = Page(items: seq<Entry>, next: Option<Key>)

  /** How many rows of its window a page disposes of. */
  function PageEnd(window: seq<Entry>): (k: nat)
    ensures k <= |window|
  {
    if |Visible(window)| > PAGE_SIZE then Reach(window, PAGE_SIZE) else |window|
  }

  /** The page made from a window, with `remaining` rows left in the table when it was read. */
  function PageOfWindow(window: seq<Entry>, remaining: nat): Page {
    var k := PageEnd(window);
    var more := |Visible(window)| > PAGE_SIZE || remaining >= SCAN_BUDGET;
    Page(Visible(window[..k]), if more && k > 0 then Some(window[k - 1].key) else None)
  }

  function PageOf(rest: seq<Entry>): Page {
    PageOfWindow(Window(rest), |rest|)
  }

  // ----- the request

  function FirstVisible(rows: seq<Entry>, n: nat): (r: seq<Entry>)
    ensures |r| == Min(n, |Visible(rows)|)
  {
    Visible(rows)[..Min(n, |Visible(rows)|)]
  }

  /** The candidate query continues where the previous batch ended. */
  lemma {:induction false} CandidatesContinue(matching: seq<Entry>, cursor: Option<Key>, scanned: nat)
    requires Sorted(Keys(matching)) && scanned <= |After(matching, cursor)|
    ensures var rest := After(matching, cursor);
            var scan := if scanned == 0 then cursor else Some(rest[scanned - 1].key);
            Candidates(matching, scan) == rest[scanned..Min(scanned + BATCH_SIZE, |rest|)]
  {
    if scanned > 0 {
      AfterRow(matching, cursor, scanned);
    }
    SliceOfSuffix(After(matching, cursor), scanned, BATCH_SIZE);
  }

  /** Seeking after the n-th remaining row leaves the rows behind it. */
  lemma {:induction false} AfterRow(matching: seq<Entry>, cursor: Option<Key>, n: nat)
    requires Sorted(Keys(matching)) && 0 < n <= |After(matching, cursor)|
    ensures var rest := After(matching, cursor); After(matching, Some(rest[n - 1].key)) == rest[n..]
  {
    var rest := After(matching, cursor);
    var skipped := Skipped(Keys(matching), cursor);
    SeekAfterRow(Keys(matching), skipped + n);
    assert Keys(matching)[skipped + n - 1] == rest[n - 1].key;
  }

  lemma SliceOfSuffix(rest: seq<Entry>, from: nat, size: nat)
    requires from <= |rest|
    ensures rest[from..][..Min(size, |rest[from..]|)] == rest[from..Min(from + size, |rest|)]
    ensures rest[0..] == rest
  {
  }

  /** Adds the visible creators of a batch until the lookahead is full. */
  method Collect(q: Query, visible: seq<Entry>, batch: seq<Entry>, ghost before: seq<Entry>) returns (r: seq<Entry>)
    requires visible == FirstVisible(before, PAGE_SIZE + 1) && |visible| < PAGE_SIZE + 1
    requires forall i :: 0 <= i < |batch| ==> Matches(q, batch[i])
    ensures r == FirstVisible(before + batch, PAGE_SIZE + 1)
  {
    r := visible;
    assert batch[..0] == [] && Visible([]) == [];
    for i := 0 to |batch|
      invariant Collected(before, batch, i, r) && |r| < PAGE_SIZE + 1
    {
      var e := batch[i];
      CollectedStep(before, batch, i, r);
      if e.visible && (q.discipline.None? || q.discipline.value in e.disciplines) {
        r := r + [e];
        if |r| == PAGE_SIZE + 1 {
          EnoughIsFirst(before, batch, i + 1, r);
          return;
        }
      }
    }
    CollectedAll(before, batch, r);
  }

  /** `r` lists the visible rows before the batch and of its first `i` rows. */
  ghost predicate Collected(before: seq<Entry>, batch: seq<Entry>, i: nat, r: seq<Entry>)
    requires i <= |batch|
  {
    r == Visible(before) + Visible(batch[..i])
  }

  lemma {:induction false} CollectedStep(before: seq<Entry>, batch: seq<Entry>, i: nat, r: seq<Entry>)
    requires i < |batch| && Collected(before, batch, i, r)
    ensures Collected(before, batch, i + 1, if batch[i].visible then r + [batch[i]] else r)
  {
    VisibleStep(batch, i);
  }

  lemma {:induction false} CollectedAll(before: seq<Entry>, batch: seq<Entry>, r: seq<Entry>)
    requires Collected(before, batch, |batch|, r) && |r| <= PAGE_SIZE + 1
    ensures r == FirstVisible(before + batch, PAGE_SIZE + 1)
  {
    assert batch[..|batch|] == batch;
    VisibleOfConcat(before, batch);
  }

  /** Once the lookahead is full, the rest of the batch does not matter. */
  lemma {:induction false} EnoughIsFirst(before: seq<Entry>, batch: seq<Entry>, n: nat, r: seq<Entry>)
    requires n <= |batch| && Collected(before, batch, n, r) && |r| == PAGE_SIZE + 1
    ensures FirstVisible(before + batch, PAGE_SIZE + 1) == r
  {
    assert batch == batch[..n] + batch[n..];
    VisibleOfConcat(batch[..n], batch[n..]);
    VisibleOfConcat(before, batch);
  }

  /** The window read so far, extended by one batch. */
  lemma WindowBatch(rest: seq<Entry>, scanned: nat)
    requires scanned == 0 || scanned == BATCH_SIZE
    requires scanned <= |rest|
    ensures var m := Min(scanned + BATCH_SIZE, |rest|);
            Window(rest)[..m] == Window(rest)[..scanned] + Evaluated(rest[scanned..m])
  {
  }

  lemma VisibleOfPrefix(rows: seq<Entry>, k: nat)
    requires k <= |rows|
    ensures Visible(rows[..k]) <= Visible(rows)
  {
    assert rows == rows[..k] + rows[k..];
    VisibleOfConcat(rows[..k], rows[k..]);
  }

  lemma WindowKeepsKeys(rest: seq<Entry>, i: nat)
    requires i < |Window(rest)|
    ensures Window(rest)[i].key == rest[i].key && (Window(rest)[i].visible ==> Window(rest)[i] == rest[i])
  {
  }

  /** The page and its continuation, from where the scan stopped. */
  lemma PageFromScan(window: seq<Entry>, remaining: nat, scanned: nat, exhausted: bool)
    requires |window| == Min(SCAN_BUDGET, remaining) && scanned <= |window|
    requires exhausted ==> scanned == remaining < SCAN_BUDGET
    requires |Visible(window[..scanned])| <= PAGE_SIZE ==> exhausted || scanned == SCAN_BUDGET
    ensures var visible := FirstVisible(window[..scanned], PAGE_SIZE + 1);
            var page := PageOfWindow(window, remaining);
            && page.items == visible[..Min(PAGE_SIZE, |visible|)]
            && page.next == if |visible| > PAGE_SIZE then Some(visible[PAGE_SIZE - 1].key)
                            else if !exhausted && scanned >= SCAN_BUDGET then Some(window[scanned - 1].key)
                            else None
  {
    VisibleOfPrefix(window, scanned);
    if |Visible(window[..scanned])| > PAGE_SIZE {
      ReachHasFirst(window, PAGE_SIZE);
      VisibleStep(window, Reach(window, PAGE_SIZE) - 1);
    } else {
      assert window[..scanned] == window;
    }
  }

  /** The two batches a request loads make up its window. */
  ghost predicate IsWindow(window: seq<Entry>, rest: seq<Entry>) {
    && |window| == Min(SCAN_BUDGET, |rest|)
    && (forall i :: 0 <= i < |window| ==> window[i].key == rest[i].key)
    && (forall scanned :: scanned in {0, BATCH_SIZE} && scanned <= |rest| ==>
          var m := Min(scanned + BATCH_SIZE, |rest|); window[..m] == window[..scanned] + Evaluated(rest[scanned..m]))
  }

  lemma {:induction false} WindowIsWindow(rest: seq<Entry>)
    ensures IsWindow(Window(rest), rest)
  {
    forall i | 0 <= i < |Window(rest)| ensures Window(rest)[i].key == rest[i].key {
      WindowKeepsKeys(rest, i);
    }
    forall scanned | scanned in {0, BATCH_SIZE} && scanned <= |rest|
      ensures var m := Min(scanned + BATCH_SIZE, |rest|);
              Window(rest)[..m] == Window(rest)[..scanned] + Evaluated(rest[scanned..m])
    {
      WindowBatch(rest, scanned);
    }
  }

  /** Reads the next batch of candidates. */
  method ReadBatch(
    matching: seq<Entry>, cursor: Option<Key>, scan: Option<Key>, ghost rest: seq<Entry>, ghost scanned: nat)
    returns (batch: seq<Entry>)
    requires Sorted(Keys(matching)) && rest == After(matching, cursor) && scanned <= |rest|
    requires scan == if scanned == 0 then cursor else Some(rest[scanned - 1].key)
    ensures batch == rest[scanned..Min(scanned + BATCH_SIZE, |rest|)]
    ensures forall i :: 0 <= i < |batch| ==> batch[i] in matching
  {
    CandidatesContinue(matching, cursor, scanned);
    batch := Candidates(matching, scan);
  }

  /** Where the scan stands: `scanned` rows of the remaining ones are behind it. */
  predicate ScanAt(rest: seq<Entry>, cursor: Option<Key>, scanned: nat, scan: Option<Key>) {
    scanned <= |rest| && scan == if scanned == 0 then cursor else Some(rest[scanned - 1].key)
  }

  /** What the scan has collected of the window. */
  predicate ShownUpTo(window: seq<Entry>, scanned: nat, visible: seq<Entry>) {
    scanned <= |window| && visible == FirstVisible(window[..scanned], PAGE_SIZE + 1)
  }

  /** One turn of the scan loop; `ended` when the batch shows the end of the table. */
  method ScanBatch(q: Query, matching: seq<Entry>, cursor: Option<Key>, scan: Option<Key>, scanned: nat,
      visible: seq<Entry>,
                   ghost rest: seq<Entry>, ghost window: seq<Entry>)
    returns (scan': Option<Key>, scanned': nat, visible': seq<Entry>, ended: bool)
    requires Sorted(Keys(matching)) && rest == After(matching, cursor) && IsWindow(window, rest)
    requires forall e :: e in matching ==> Matches(q, e)
    requires scanned in {0, BATCH_SIZE} && ScanAt(rest, cursor, scanned, scan)
    requires ShownUpTo(window, scanned, visible) && |visible| < PAGE_SIZE + 1
    ensures scanned' == Min(scanned + BATCH_SIZE, |rest|)
    ensures ScanAt(rest, cursor, scanned', scan') && ShownUpTo(window, scanned', visible')
    ensures ended <==> |rest| < scanned + BATCH_SIZE
  {
    var batch, evaluated := LoadBatch(q, matching, cursor, scan, rest, scanned);
    BatchMoves(rest, cursor, scanned, batch);
    if batch == [] {
      return scan, scanned, visible, true;
    }
    visible' := Collect(q, visible, evaluated, window[..scanned]);
    BatchIsShown(window, rest, scanned, batch, visible');
    scanned' := scanned + |batch|;
    scan' := Some(batch[|batch| - 1].key);
    ended := |batch| < BATCH_SIZE;
  }

  /** Reads a batch and evaluates its pages. */
  method LoadBatch(
    q: Query, matching: seq<Entry>, cursor: Option<Key>, scan: Option<Key>, ghost rest: seq<Entry>,
    ghost scanned: nat)
    returns (batch: seq<Entry>, evaluated: seq<Entry>)
    requires Sorted(Keys(matching)) && rest == After(matching, cursor) && ScanAt(rest, cursor, scanned, scan)
    requires forall e :: e in matching ==> Matches(q, e)
    ensures batch == rest[scanned..Min(scanned + BATCH_SIZE, |rest|)] && evaluated == Evaluated(batch)
    ensures forall i :: 0 <= i < |evaluated| ==> Matches(q, evaluated[i])
  {
    batch := ReadBatch(matching, cursor, scan, rest, scanned);
    BatchMatches(q, matching, batch);
    evaluated := Evaluated(batch);
  }

  lemma {:induction false} BatchMoves(rest: seq<Entry>, cursor: Option<Key>, scanned: nat, batch: seq<Entry>)
    requires scanned <= |rest| && batch == rest[scanned..Min(scanned + BATCH_SIZE, |rest|)]
    ensures scanned + |batch| == Min(scanned + BATCH_SIZE, |rest|)
    ensures |batch| < BATCH_SIZE <==> |rest| < scanned + BATCH_SIZE
    ensures batch != [] ==> ScanAt(rest, cursor, scanned + |batch|, Some(batch[|batch| - 1].key))
  {
  }

  lemma {:induction false} BatchIsShown(
    window: seq<Entry>, rest: seq<Entry>, scanned: nat, batch: seq<Entry>, visible: seq<Entry>)
    requires IsWindow(window, rest) && scanned in {0, BATCH_SIZE} && scanned <= |rest|
    requires batch == rest[scanned..Min(scanned + BATCH_SIZE, |rest|)]
    requires scanned <= |window| && visible == FirstVisible(window[..scanned] + Evaluated(batch), PAGE_SIZE + 1)
    ensures ShownUpTo(window, scanned + |batch|, visible)
  {
    var m := Min(scanned + BATCH_SIZE, |rest|);
    assert window[..m] == window[..scanned] + Evaluated(rest[scanned..m]);
  }

  /** A batch as evaluated still matches the query: only visibility is taken away. */
  lemma {:induction false} BatchMatches(q: Query, matching: seq<Entry>, batch: seq<Entry>)
    requires forall e :: e in matching ==> Matches(q, e)
    requires forall i :: 0 <= i < |batch| ==> batch[i] in matching
    ensures forall i :: 0 <= i < |Evaluated(batch)| ==> Matches(q, Evaluated(batch)[i])
  {
    forall i | 0 <= i < |Evaluated(batch)| ensures Matches(q, Evaluated(batch)[i]) {
      assert Matches(q, batch[i]);
    }
  }

  /**
   The scan loop. It stops at the 25th visible creator, at the budget, or when a short batch
   shows the end; a creator's own discipline is checked again, as the page carries it.
   */
  method Scan(
    q: Query, matching: seq<Entry>, cursor: Option<Key>, ghost rest: seq<Entry>, ghost window: seq<Entry>)
    returns (page: Page)
    requires Sorted(Keys(matching)) && rest == After(matching, cursor) && IsWindow(window, rest)
    requires forall e :: e in matching ==> Matches(q, e)
    ensures page == PageOfWindow(window, |rest|)
  {
    var scan := cursor;
    var visible: seq<Entry> := [];
    var scanned := 0;
    var exhausted := false;
    while |visible| < PAGE_SIZE + 1 && scanned < SCAN_BUDGET
      invariant scanned <= |rest| && scanned in {0, BATCH_SIZE, SCAN_BUDGET}
      invariant !exhausted
      invariant ScanAt(rest, cursor, scanned, scan) && ShownUpTo(window, scanned, visible)
      decreases SCAN_BUDGET - scanned
    {
      scan, scanned, visible, exhausted := ScanBatch(q, matching, cursor, scan, scanned, visible, rest, window);
      if exhausted { break; }
    }
    PageFromScan(window, |rest|, scanned, exhausted);
    var items := visible[..Min(PAGE_SIZE, |visible|)];
    var continuation := if |visible| > PAGE_SIZE then Some(items[|items| - 1].key)
                        else if !exhausted && scanned >= SCAN_BUDGET then scan
                        else None;
    page := Page(items, continuation);
  }

  method ListCreators(rows: seq<Entry>, q: Query, cursor: Option<Key>) returns (page: Page)
    requires Sorted(Keys(rows))
    ensures page == PageOf(After(Matching(q, rows), cursor))
  {
    MatchingIsSorted(q, rows);
    WindowIsWindow(After(Matching(q, rows), cursor));
    page := Scan(q, Matching(q, rows), cursor, After(Matching(q, rows), cursor),
        Window(After(Matching(q, rows), cursor)));
  }

  // ----- following the cursor

  /** Each cursor is after the one before it, and the next request starts where this page ended. */
  lemma {:induction false} NextCursorAdvances(matching: seq<Entry>, cursor: Option<Key>)
    requires Sorted(Keys(matching))
    requires PageOf(After(matching, cursor)).next.Some?
    ensures var rest := After(matching, cursor);
            var next := PageOf(rest).next;
            && IsAfter(next.value, cursor)
            && After(matching, next) == rest[PageEnd(Window(rest))..]
            && |After(matching, next)| < |rest|
  {
    var rest := After(matching, cursor);
    var k := PageEnd(Window(rest));
    WindowKeepsKeys(rest, k - 1);
    assert PageOf(rest).next == Some(rest[k - 1].key);
    AfterIsSorted(matching, cursor);
    AfterRow(matching, cursor, k);
  }

  /** Everything listed by following nextCursor from `cursor` until it is null. */
  function Walk(matching: seq<Entry>, cursor: Option<Key>): seq<Entry>
    requires Sorted(Keys(matching))
    decreases |After(matching, cursor)|
  {
    var page := PageOf(After(matching, cursor));
    if page.next.None? then page.items
    else
      NextCursorAdvances(matching, cursor);
      page.items + Walk(matching, page.next)
  }

  /** A page lists at most 24 creators. */
  lemma {:induction false} PageIsBounded(rest: seq<Entry>)
    ensures |PageOf(rest).items| <= PAGE_SIZE
  {
    var w := Window(rest);
    if |Visible(w)| > PAGE_SIZE {
      ReachHasFirst(w, PAGE_SIZE);
    } else {
      assert w[..|w|] == w;
    }
  }

  /** A list in key order of visible rows of `rows` after the cursor. */
  ghost predicate Lists(items: seq<Entry>, rows: seq<Entry>, cursor: Option<Key>) {
    && Sorted(Keys(items))
    && forall i :: 0 <= i < |items| ==> items[i] in rows && items[i].visible && IsAfter(items[i].key, cursor)
  }

  lemma {:induction false} VisibleLists(rows: seq<Entry>, cursor: Option<Key>)
    requires Sorted(Keys(rows)) && forall i :: 0 <= i < |rows| ==> IsAfter(rows[i].key, cursor)
    ensures Lists(Visible(rows), rows, cursor)
  {
    if rows != [] {
      var last := |rows| - 1;
      var shorter := rows[..last];
      assert forall i :: 0 <= i < last ==> Keys(shorter)[i] == Keys(rows)[i];
      VisibleLists(shorter, cursor);
      var r := Visible(rows);
      forall i | 0 <= i < |Visible(shorter)| ensures r[i] in rows && Less(r[i].key, rows[last].key) {
        var j :| 0 <= j < last && shorter[j] == r[i];
        assert Less(Keys(rows)[j], Keys(rows)[last]);
      }
    }
  }

  lemma {:induction false} WindowLists(rest: seq<Entry>, w: seq<Entry>, k: nat, cursor: Option<Key>)
    requires Sorted(Keys(rest)) && forall i :: 0 <= i < |rest| ==> IsAfter(rest[i].key, cursor)
    requires k <= |w| <= |rest|
    requires forall i :: 0 <= i < |w| ==> w[i].key == rest[i].key && (w[i].visible ==> w[i] == rest[i])
    ensures Lists(Visible(w[..k]), rest, cursor)
    ensures k > 0 ==> forall i :: 0 <= i < |Visible(w[..k])| ==> !IsAfter(Visible(w[..k])[i].key, Some(w[k - 1].key))
  {
    var part := w[..k];
    assert forall i :: 0 <= i < k ==> Keys(part)[i] == Keys(rest)[i];
    VisibleLists(part, cursor);
    var items := Visible(part);
    forall i | 0 <= i < |items|
      ensures items[i] in rest && (k > 0 ==> !IsAfter(items[i].key, Some(w[k - 1].key)))
    {
      var j :| 0 <= j < k && part[j] == items[i];
      assert items[i] == rest[j];
      if j < k - 1 {
        assert Less(Keys(rest)[j], Keys(rest)[k - 1]);
      }
    }
  }

  lemma SuffixIsSorted(rows: seq<Entry>, n: nat)
    requires Sorted(Keys(rows)) && n <= |rows|
    ensures Sorted(Keys(rows[n..]))
  {
    assert forall i :: 0 <= i < |rows| - n ==> Keys(rows[n..])[i] == Keys(rows)[n + i];
  }

  lemma {:induction false} AfterIsSorted(matching: seq<Entry>, cursor: Option<Key>)
    requires Sorted(Keys(matching))
    ensures var rest := After(matching, cursor);
            && Sorted(Keys(rest)) && (forall i :: 0 <= i < |rest| ==> IsAfter(rest[i].key, cursor))
            && (forall e :: e in rest ==> e in matching)
  {
    SkippedSplits(Keys(matching), cursor);
    var skipped := Skipped(Keys(matching), cursor);
    var rest := After(matching, cursor);
    SuffixIsSorted(matching, skipped);
    forall i | 0 <= i < |rest| ensures IsAfter(rest[i].key, cursor) {
      assert rest[i].key == Keys(matching)[skipped + i];
    }
  }

  lemma {:induction false} PageLists(matching: seq<Entry>, cursor: Option<Key>)
    requires Sorted(Keys(matching))
    ensures var page := PageOf(After(matching, cursor));
            && Lists(page.items, matching, cursor)
            && (page.next.Some? ==> forall i :: 0 <= i < |page.items| ==> !IsAfter(page.items[i].key, page.next))
  {
    var rest := After(matching, cursor);
    AfterIsSorted(matching, cursor);
    var w := Window(rest);
    forall i | 0 <= i < |w| ensures w[i].key == rest[i].key && (w[i].visible ==> w[i] == rest[i]) {
      WindowKeepsKeys(rest, i);
    }
    WindowLists(rest, w, PageEnd(w), cursor);
  }

  /**
   Soundness over any fixed table, faulty pages included: the walk lists only visible matching
   creators, in strictly increasing key order, so none of them twice.
   */
  lemma {:induction false} WalkIsSound(matching: seq<Entry>, cursor: Option<Key>)
    requires Sorted(Keys(matching))
    ensures Lists(Walk(matching, cursor), matching, cursor)
    decreases |After(matching, cursor)|
  {
    PageLists(matching, cursor);
    var page := PageOf(After(matching, cursor));
    if page.next.Some? {
      NextCursorAdvances(matching, cursor);
      WalkIsSound(matching, page.next);
      JoinLists(page.items, Walk(matching, page.next), matching, cursor, page.next);
    }
  }

  lemma {:induction false} JoinLists(
    a: seq<Entry>, b: seq<Entry>, rows: seq<Entry>, cursor: Option<Key>, next: Option<Key>)
    requires Lists(a, rows, cursor) && Lists(b, rows, next) && next.Some? && IsAfter(next.value, cursor)
    requires forall i :: 0 <= i < |a| ==> !IsAfter(a[i].key, next)
    ensures Lists(a + b, rows, cursor)
  {
    forall i, j | 0 <= i < j < |a + b| ensures Less(Keys(a + b)[i], Keys(a + b)[j]) {
      if j < |a| {
        assert Less(Keys(a)[i], Keys(a)[j]);
      } else if |a| <= i {
        assert Less(Keys(b)[i - |a|], Keys(b)[j - |a|]);
      } else {
        assert !IsAfter(a[i].key, next) && IsAfter(b[j - |a|].key, next);
      }
    }
  }

  predicate NoFaults(rows: seq<Entry>) {
    forall e :: e in rows ==> !e.faulty
  }

  lemma HealthyWindow(rest: seq<Entry>)
    requires NoFaults(rest)
    ensures Window(rest) == rest[..Min(SCAN_BUDGET, |rest|)]
  {
    var n := Min(BATCH_SIZE, |rest|);
    assert !Faulty(rest[..n]);
    assert !Faulty(rest[n..Min(SCAN_BUDGET, |rest|)]);
  }

  lemma {:induction false} PrefixSplit(rest: seq<Entry>, k: nat)
    requires k <= |rest|
    ensures Visible(rest[..k]) + Visible(rest[k..]) == Visible(rest)
  {
    VisibleOfConcat(rest[..k], rest[k..]);
    assert rest[..k] + rest[k..] == rest;
  }

  /** A healthy page and what is left after it make up what was left before it. */
  lemma {:induction false} HealthySplit(rest: seq<Entry>)
    requires NoFaults(rest)
    ensures var k := PageEnd(Window(rest));
            PageOf(rest).items + Visible(rest[k..]) == Visible(rest) && (PageOf(rest).next.None? ==> k == |rest|)
  {
    HealthyWindow(rest);
    var k := PageEnd(Window(rest));
    PrefixSplit(rest, k);
    assert Window(rest)[..k] == rest[..k];
  }

  /**
   Completeness: over a fixed table, following the cursor from null lists every visible matching
   creator exactly once, in key order.
   */
  lemma {:induction false} WalkListsEveryone(matching: seq<Entry>, cursor: Option<Key>)
    requires Sorted(Keys(matching)) && NoFaults(matching)
    ensures Walk(matching, cursor) == Visible(After(matching, cursor))
    decreases |After(matching, cursor)|
  {
    HealthySplit(After(matching, cursor));
    if PageOf(After(matching, cursor)).next.Some? {
      NextCursorAdvances(matching, cursor);
      WalkListsEveryone(matching, PageOf(After(matching, cursor)).next);
    }
  }

  /** What a visitor asked for: an enabled creator whose handle starts with the prefix, in the discipline. */
  predicate AskedFor(q: Query, e: Entry) {
    && e.enabled
    && |q.handlePrefix| <= |e.handle| && e.handle[..|q.handlePrefix|] == q.handlePrefix
    && (q.discipline.None? || exists i :: 0 <= i < |e.disciplines| && e.disciplines[i] == q.discipline.value)
  }

  lemma {:induction false} VisibleHas(rows: seq<Entry>, e: Entry)
    ensures e in Visible(rows) <==> e in rows && e.visible
  {
    if rows != [] {
      VisibleHas(rows[..|rows| - 1], e);
      assert rows == rows[..|rows| - 1] + [rows[|rows| - 1]];
    }
  }

  /**
   The walk in the visitor's terms, over any fixed table: everyone listed is a visible creator of
   the table that was asked for, and without faults everyone who was asked for is listed.
   */
  lemma {:induction false} WalkAnswersTheQuery(rows: seq<Entry>, q: Query, e: Entry)
    requires Sorted(Keys(rows))
    ensures Sorted(Keys(Matching(q, rows)))
    ensures e in Walk(Matching(q, rows), None) ==> e in rows && e.visible && AskedFor(q, e)
    ensures NoFaults(rows) ==> (e in Walk(Matching(q, rows), None) <==> e in rows && e.visible && AskedFor(q, e))
  {
    MatchingIsSorted(q, rows);
    var matching := Matching(q, rows);
    assert Matches(q, e) <==> AskedFor(q, e);
    WalkIsSound(matching, None);
    if NoFaults(rows) {
      WalkListsEveryone(matching, None);
      EverythingIsAfterNone(matching);
      VisibleHas(matching, e);
    }
  }

  /** A page that contradicts its media hides the healthy creators loaded with it. */
  lemma {:induction false} FaultHidesItsBatch()
    ensures var healthy := Entry(Key(1, 1), "anh", [], true, true, false);
            var broken := Entry(Key(2, 2), "binh", [], true, false, true);
            Sorted(Keys([healthy, broken])) && Walk([healthy, broken], None) == []
                && Visible([healthy, broken]) == [healthy]
  {
    var healthy := Entry(Key(1, 1), "anh", [], true, true, false);
    var broken := Entry(Key(2, 2), "binh", [], true, false, true);
    assert Sorted(Keys([healthy, broken]));
    HiddenWalk(healthy, broken);
    VisibleOfTwo(healthy, broken);
  }

  lemma {:induction false} HiddenWalk(a: Entry, b: Entry)
    requires b.faulty && Sorted(Keys([a, b]))
    ensures Walk([a, b], None) == []
  {
    EverythingIsAfterNone([a, b]);
    TwoAreHidden(a, b);
  }

  lemma {:induction false} EverythingIsAfterNone(rows: seq<Entry>)
    ensures After(rows, None) == rows
  {
  }

  lemma {:induction false} VisibleOfTwo(a: Entry, b: Entry)
    ensures Visible([a, b]) == (if a.visible then [a] else []) + (if b.visible then [b] else [])
  {
    assert [a, b][..1] == [a] && [a][..0] == [];
    assert Visible([a]) == if a.visible then [a] else [];
  }

  /** A batch of two with a faulty page shows nothing. */
  lemma {:induction false} TwoAreHidden(a: Entry, b: Entry)
    requires b.faulty
    ensures PageOf([a, b]) == Page([], None)
  {
    var rows := [a, b];
    assert rows[..2] == rows && rows[1] == b;
    assert Faulty(rows[..2]);
    var w := Window(rows);
    assert w == Evaluated(rows[..2]) + Evaluated(rows[2..2]);
    NoneVisible(w);
    assert w[..2] == w;
  }

  // ----- exactly what a fault hides

  predicate SameBatch(i: nat, j: nat) { i / BATCH_SIZE == j / BATCH_SIZE }

  /** The creator at `i` is visible and is read in the same batch of 48 as the faulty page at `j`. */
  predicate HiddenBy(rest: seq<Entry>, i: nat, j: nat) {
    i < |rest| && j < |rest| && SameBatch(i, j) && rest[i].visible && rest[j].faulty
  }

  /** `seen` shows the rows as they are, except that some visible ones are hidden. */
  predicate SeenAs(rows: seq<Entry>, seen: seq<Entry>) {
    |seen| == |rows| && forall i :: 0 <= i < |rows| ==>
        seen[i] == rows[i] || (rows[i].visible && seen[i] == rows[i].(visible := false))
  }

  lemma {:induction false} HidingShortens(rows: seq<Entry>, seen: seq<Entry>)
    requires SeenAs(rows, seen)
    ensures |Visible(seen)| <= |Visible(rows)|
    ensures |Visible(seen)| == |Visible(rows)| <==> seen == rows
  {
    if rows != [] {
      var n := |rows| - 1;
      assert SeenAs(rows[..n], seen[..n]);
      HidingShortens(rows[..n], seen[..n]);
      SameIfParts(rows, seen, n);
    }
  }

  lemma SameIfParts(a: seq<Entry>, b: seq<Entry>, n: nat)
    requires |a| == |b| == n + 1
    ensures a == b <==> a[..n] == b[..n] && a[n] == b[n]
  {
    assert a == a[..n] + [a[n]] && b == b[..n] + [b[n]];
  }

  /** The creator at `i` shares a batch of its request's window with a faulty page. */
  ghost predicate HiddenAt(rest: seq<Entry>, i: nat) {
    exists j :: HiddenBy(rest[..|Window(rest)|], i, j)
  }

  /** What the window does to the row at `i`. */
  lemma {:induction false} WindowHides(rest: seq<Entry>, i: nat)
    requires i < |Window(rest)|
    ensures Window(rest)[i] == rest[i] || Window(rest)[i] == rest[i].(visible := false)
    ensures Window(rest)[i] != rest[i] <==> HiddenAt(rest, i)
    ensures HiddenAt(rest, i) ==> rest[i].visible
  {
    var n, m := Min(BATCH_SIZE, |rest|), |Window(rest)|;
    if i < n {
      assert Window(rest)[i] == Evaluated(rest[..n])[i];
      FaultInBatch(rest[..m], 0, n, i);
      assert rest[..m][0..n] == rest[..n];
    } else {
      assert Window(rest)[i] == Evaluated(rest[n..m])[i - n];
      FaultInBatch(rest[..m], n, m, i);
      assert rest[..m][n..m] == rest[n..m];
    }
  }

  /** A row is hidden exactly when it is visible and its batch is faulty. */
  lemma {:induction false} FaultInBatch(window: seq<Entry>, from: nat, to: nat, i: nat)
    requires from <= i < to <= |window| && from % BATCH_SIZE == 0 && to <= from + BATCH_SIZE
    requires to == |window| || to == from + BATCH_SIZE
    ensures window[i].visible && Faulty(window[from..to]) <==> exists j :: HiddenBy(window, i, j)
  {
    var batch := window[from..to];
    if e :| e in batch && e.faulty {
      var j :| 0 <= j < |batch| && batch[j] == e;
      assert window[i].visible ==> HiddenBy(window, i, from + j);
    }
    if j: nat :| HiddenBy(window, i, j) {
      assert from <= j < to;
      assert batch[j - from] in batch;
    }
  }

  /** The page after `cursor` passes over a visible creator that shares its batch with a faulty page. */
  ghost predicate PageHides(rest: seq<Entry>) {
    exists i: nat :: i < PageEnd(Window(rest)) && HiddenAt(rest, i)
  }

  ghost predicate WalkHides(matching: seq<Entry>, cursor: Option<Key>)
    requires Sorted(Keys(matching))
    decreases |After(matching, cursor)|
  {
    var rest := After(matching, cursor);
    || PageHides(rest)
    || (PageOf(rest).next.Some? && (NextCursorAdvances(matching, cursor); WalkHides(matching, PageOf(rest).next)))
  }

  lemma {:induction false} PageMissesExactly(rest: seq<Entry>)
    ensures var k := PageEnd(Window(rest));
            && k <= |rest| && |PageOf(rest).items| <= |Visible(rest[..k])|
            && (|PageOf(rest).items| == |Visible(rest[..k])| <==> !PageHides(rest))
            && (PageOf(rest).items == Visible(rest[..k]) <==> !PageHides(rest))
            && (PageOf(rest).next.None? ==> k == |rest|)
  {
    var w, k := Window(rest), PageEnd(Window(rest));
    PageIsSeen(rest, k);
    HidingShortens(rest[..k], w[..k]);
  }

  lemma {:induction false} PageIsSeen(rest: seq<Entry>, k: nat)
    requires k <= |Window(rest)|
    ensures SeenAs(rest[..k], Window(rest)[..k])
    ensures Window(rest)[..k] == rest[..k] <==> forall i: nat :: i < k ==> !HiddenAt(rest, i)
  {
    var seen, rows := Window(rest)[..k], rest[..k];
    forall i: nat | i < k
      ensures seen[i] == rows[i] || (rows[i].visible && seen[i] == rows[i].(visible := false))
      ensures seen[i] != rows[i] <==> HiddenAt(rest, i)
    {
      WindowHides(rest, i);
    }
    assert (forall i: nat :: i < k ==> seen[i] == rows[i]) <==> seen == rows;
  }

  /**
   The walk lists every visible matching creator exactly when no page of it passes over one that
   shares a batch with a faulty page; otherwise it lists fewer.
   */
  lemma {:induction false} WalkMissesExactly(matching: seq<Entry>, cursor: Option<Key>)
    requires Sorted(Keys(matching))
    ensures |Walk(matching, cursor)| <= |Visible(After(matching, cursor))|
    ensures |Walk(matching, cursor)| == |Visible(After(matching, cursor))| <==> !WalkHides(matching, cursor)
    ensures Walk(matching, cursor) == Visible(After(matching, cursor)) <==> !WalkHides(matching, cursor)
    decreases |After(matching, cursor)|
  {
    var rest := After(matching, cursor);
    var k := PageEnd(Window(rest));
    PageMissesExactly(rest);
    PrefixSplit(rest, k);
    if PageOf(rest).next.Some? {
      NextCursorAdvances(matching, cursor);
      WalkMissesExactly(matching, PageOf(rest).next);
    } else {
      assert rest[..k] == rest;
    }
  }

  // ----- the sitemap

  /** The sitemap reads the whole table in batches, without a budget. */
  function SitemapOf(rest: seq<Entry>): seq<Entry> {
    if |rest| < BATCH_SIZE then Visible(Evaluated(rest))
    else Visible(Evaluated(rest[..BATCH_SIZE])) + SitemapOf(rest[BATCH_SIZE..])
  }

  /** What has been listed, followed by the sitemap of what is left, is the whole sitemap. */
  ghost predicate Listed(matching: seq<Entry>, scanned: nat, entries: seq<Entry>)
    requires scanned <= |matching|
  {
    SitemapOf(matching) == entries + SitemapOf(matching[scanned..])
  }

  lemma {:induction false} ListedStarts(matching: seq<Entry>)
    ensures Listed(matching, 0, [])
  {
    assert matching[0..] == matching;
  }

  lemma MoveOver(whole: seq<Entry>, entries: seq<Entry>, left: seq<Entry>, a: seq<Entry>, b: seq<Entry>)
    requires whole == entries + left && left == a + b
    ensures whole == entries + a + b
  {
  }

  lemma {:induction false} ListedAdvances(matching: seq<Entry>, scanned: nat, entries: seq<Entry>)
    requires scanned <= |matching| && Listed(matching, scanned, entries)
    ensures var end := Min(scanned + BATCH_SIZE, |matching|);
            var entries' := entries + Visible(Evaluated(matching[scanned..end]));
            && (if end < scanned + BATCH_SIZE then entries' == SitemapOf(matching) else Listed(matching, end, entries'))
            && (scanned == |matching| ==> entries == SitemapOf(matching))
  {
    if scanned == |matching| {
      assert matching[scanned..] == [];
      assert Evaluated([]) == [] && SitemapOf([]) == [];
    }
    var end := Min(scanned + BATCH_SIZE, |matching|);
    var shown := Visible(Evaluated(matching[scanned..end]));
    SitemapBatch(matching, scanned);
    if end < scanned + BATCH_SIZE {
      MoveOver(SitemapOf(matching), entries, SitemapOf(matching[scanned..]), shown, []);
    } else {
      MoveOver(SitemapOf(matching), entries, SitemapOf(matching[scanned..]), shown, SitemapOf(matching[end..]));
    }
  }

  method ReadSitemapBatch(matching: seq<Entry>, scan: Option<Key>, ghost scanned: nat) returns (batch: seq<Entry>)
    requires Sorted(Keys(matching)) && scanned <= |matching|
    requires scan == if scanned == 0 then None else Some(matching[scanned - 1].key)
    ensures batch == matching[scanned..Min(scanned + BATCH_SIZE, |matching|)]
  {
    assert After(matching, None) == matching;
    batch := ReadBatch(matching, None, scan, matching, scanned);
  }

  /** One turn of the sitemap loop; `ended` when the batch shows the end of the table. */
  method SitemapTurn(matching: seq<Entry>, scan: Option<Key>, scanned: nat, entries: seq<Entry>)
    returns (scan': Option<Key>, scanned': nat, entries': seq<Entry>, ended: bool)
    requires Sorted(Keys(matching)) && scanned <= |matching| && Listed(matching, scanned, entries)
    requires scan == if scanned == 0 then None else Some(matching[scanned - 1].key)
    ensures ended ==> entries' == SitemapOf(matching)
    ensures !ended ==> scanned < scanned' <= |matching| && Listed(matching, scanned', entries')
                       && scan' == Some(matching[scanned' - 1].key)
  {
    var batch := ReadSitemapBatch(matching, scan, scanned);
    ListedAdvances(matching, scanned, entries);
    if batch == [] {
      return scan, scanned, entries, true;
    }
    entries' := entries + Visible(Evaluated(batch));
    scanned' := scanned + |batch|;
    scan' := Some(batch[|batch| - 1].key);
    ended := |batch| < BATCH_SIZE;
  }

  method ListSitemap(matching: seq<Entry>) returns (entries: seq<Entry>)
    requires Sorted(Keys(matching))
    ensures entries == SitemapOf(matching)
  {
    entries := [];
    var scan: Option<Key>, scanned, ended := None, 0, false;
    ListedStarts(matching);
    while !ended
      invariant !ended ==> scanned <= |matching| && Listed(matching, scanned, entries)
      invariant !ended ==> scan == if scanned == 0 then None else Some(matching[scanned - 1].key)
      invariant ended ==> entries == SitemapOf(matching)
      decreases !ended, |matching| - scanned
    {
      scan, scanned, entries, ended := SitemapTurn(matching, scan, scanned, entries);
    }
  }

  /** One batch of the sitemap. */
  lemma {:induction false} SitemapBatch(matching: seq<Entry>, scanned: nat)
    requires scanned <= |matching|
    ensures var end := Min(scanned + BATCH_SIZE, |matching|);
            SitemapOf(matching[scanned..])
            == Visible(Evaluated(matching[scanned..end]))
                + (if end == scanned + BATCH_SIZE then SitemapOf(matching[end..]) else [])
  {
    var rest := matching[scanned..];
    if |rest| < BATCH_SIZE {
      assert matching[scanned..|matching|] == rest;
    } else {
      assert rest[..BATCH_SIZE] == matching[scanned..scanned + BATCH_SIZE];
      assert rest[BATCH_SIZE..] == matching[scanned + BATCH_SIZE..];
    }
  }

  ghost predicate Hides(rest: seq<Entry>) {
    exists i, j :: HiddenBy(rest, i, j)
  }

  lemma HiddenInFirst(rest: seq<Entry>, i: nat, j: nat)
    requires |rest| >= BATCH_SIZE && i < BATCH_SIZE
    ensures HiddenBy(rest[..BATCH_SIZE], i, j) <==> HiddenBy(rest, i, j)
  {
  }

  lemma HiddenLater(rest: seq<Entry>, i: nat, j: nat)
    requires |rest| >= BATCH_SIZE
    ensures HiddenBy(rest[BATCH_SIZE..], i, j) <==> HiddenBy(rest, i + BATCH_SIZE, j + BATCH_SIZE)
  {
  }

  lemma HidesSplits(rest: seq<Entry>)
    requires |rest| >= BATCH_SIZE
    ensures Hides(rest) <==> Hides(rest[..BATCH_SIZE]) || Hides(rest[BATCH_SIZE..])
  {
    if i: nat, j: nat :| HiddenBy(rest[..BATCH_SIZE], i, j) {
      HiddenInFirst(rest, i, j);
    }
    if i: nat, j: nat :| HiddenBy(rest[BATCH_SIZE..], i, j) {
      HiddenLater(rest, i, j);
    }
    if i: nat, j: nat :| HiddenBy(rest, i, j) {
      if i < BATCH_SIZE {
        HiddenInFirst(rest, i, j);
      } else {
        HiddenLater(rest, i - BATCH_SIZE, j - BATCH_SIZE);
      }
    }
  }

  lemma {:induction false} NoneVisible(rows: seq<Entry>)
    ensures Visible(rows) == [] <==> forall i :: 0 <= i < |rows| ==> !rows[i].visible
  {
    if rows != [] {
      NoneVisible(rows[..|rows| - 1]);
    }
  }

  lemma {:induction false} BatchIsComplete(batch: seq<Entry>)
    requires |batch| <= BATCH_SIZE
    ensures |Visible(Evaluated(batch))| <= |Visible(batch)|
    ensures Visible(Evaluated(batch)) == Visible(batch) <==> !Hides(batch)
    ensures |Visible(Evaluated(batch))| == |Visible(batch)| <==> !Hides(batch)
  {
    NoneVisible(batch);
    NoneVisible(Evaluated(batch));
    if e :| e in batch && e.faulty {
      var j :| 0 <= j < |batch| && batch[j] == e;
      assert forall i :: 0 <= i < |batch| && batch[i].visible ==> HiddenBy(batch, i, j);
    }
  }

  /**
   The sitemap lists every visible creator exactly when none of them is read in the same batch as
   a faulty page; otherwise it lists fewer.
   */
  lemma {:induction false} SitemapListsEveryone(rest: seq<Entry>)
    ensures SitemapOf(rest) == Visible(rest) <==> !Hides(rest)
    ensures |SitemapOf(rest)| <= |Visible(rest)|
    ensures |SitemapOf(rest)| == |Visible(rest)| <==> !Hides(rest)
  {
    if |rest| < BATCH_SIZE {
      BatchIsComplete(rest);
    } else {
      BatchIsComplete(rest[..BATCH_SIZE]);
      SitemapListsEveryone(rest[BATCH_SIZE..]);
      PrefixSplit(rest, BATCH_SIZE);
      HidesSplits(rest);
    }
  }
}
