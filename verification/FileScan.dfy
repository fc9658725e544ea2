/**
 A scan that nothing disturbs, from the claim to the purge of its quarantine copy: it records exactly what the
 object and the verdict decide. Beside the guarantees over all runs, which say what can never happen, this says
 what does.
 */
module FileScan {
  import opened Common
  import opened FileSignature
  import opened ScanDecision
  import opened FileRows
  import opened FileLifecycle
  import opened FileGuarantees
  import opened FileHistory

  /** The file waits for a scan, nobody holds it, and process `id` is free. */
  ghost predicate Scannable(w: World, id: ProcessId) {
    && Inv(w) && w.row.state == Scanning && id !in w.workers && id !in w.sweeps
    && NullOrDue(w.row.nextScanAt, w.store.now) && NullOrDue(w.row.scanLeaseExpiresAt, w.store.now)
  }

  predicate BeforeDeadline(w: World) {
    w.row.scanDeadlineAt.Some? && w.store.now < w.row.scanDeadlineAt.value
  }

  /** Process `id` stands at `k` and holds the row as it is. */
  predicate Holds(w: World, id: ProcessId, k: Worker) {
    id in w.workers && w.workers[id] == k && (HoldsRow(k) ==> k.row == w.row)
  }

  /** Nothing that a scan is about has changed: the upload, the events and the row apart from its queue columns. */
  predicate SameFile(w: World, w': World) {
    && w'.store.now == w.store.now && w'.store.uploads == w.store.uploads && w'.events == w.events
    && w'.row.state == Scanning && w'.row.context == w.row.context && w'.row.declaredBytes == w.row.declaredBytes
    && w'.row.scanAttempts == w.row.scanAttempts && w'.row.scanDeadlineAt == w.row.scanDeadlineAt
    && w'.row.quarantinePurgedAt == w.row.quarantinePurgedAt
  }

  lemma ClaimTakes(w: World, id: ProcessId)
    requires Scannable(w, id)
    ensures var w' := Apply(w, Claim(id, w.store.now));
            && SameFile(w, w') && w'.store == w.store && Holds(w', id, Claimed(w'.row, w.store.now))
  {
  }

  lemma {:induction false} OneStep(w: World, a: Action)
    ensures Run(w, [a]) == Apply(w, a)
  {
    assert [a][..0] == [];
  }

  lemma {:induction false} NextStep(w: World, steps: seq<Action>, a: Action)
    ensures Run(w, steps + [a]) == Apply(Run(w, steps), a)
  {
    assert (steps + [a])[..|steps|] == steps;
  }

  // ----- what it can come to

  /** The row is rejected as decided, dated now, and the event is out. */
  predicate RejectedNow(w: World, w': World, reason: Rejection, signature: Option<string>) {
    && w'.row.state == FileState.Rejected && w'.row.rejectionReason == Some(reason)
    && w'.row.malwareSignature == signature && w'.row.endedAt == Some(w.store.now)
    && w'.events == w.events + [RejectedOutcome]
  }

  /** The row records the version scanned and its copy, and the event is out. */
  predicate CleanNow(w: World, w': World, head: VersionId, copied: VersionId, t: FileType) {
    && head in w.store.uploads && copied in w'.store.landings
    && w'.row.state == Clean && w'.row.detectedType == Some(t) && w'.row.cleanAt == Some(w.store.now)
    && w'.row.quarantineVersionId == Some(head) && w'.row.cleanVersionId == Some(copied)
    && w'.row.sha256 == Some(Sha256(w.store.uploads[head]))
    && copied in w'.store.clean && w'.store.landings[copied].bytes == w.store.uploads[head]
    && w'.events == w.events + [CleanOutcome]
  }

  // ----- step by step

  lemma ExamineRejects(
    w: World, id: ProcessId, head: Option<VersionId>, delivered: Bytes, verdict: Verdict, reason: Rejection,
    signature: Option<string>)
    requires w.row.state == Scanning && Holds(w, id, Claimed(w.row, w.store.now)) && BeforeDeadline(w)
    requires ScannerVerdict(verdict) && Readable(w.store, head, delivered)
    requires Decide(w.row.context, w.row.declaredBytes,
                    if head.Some? then Some(|w.store.uploads[head.value]|) else None, delivered, verdict)
             == Reject(reason, signature)
    ensures var w' := Apply(w, Examine(id, head, delivered, verdict, w.store.now));
            && w'.row == w.row && w'.store == w.store && w'.events == w.events
            && Holds(w', id, Settling(w.row, RejectWith(reason, signature, w.store.now)))
  {
    var a := Examine(id, head, delivered, verdict, w.store.now);
    assert Apply(w, a) == ApplyWorker(w, a, w.workers[id]);
    assert ApplyWorker(w, a, w.workers[id]) == Examined(w, id, w.row, head, delivered, verdict, w.store.now);
  }

  lemma ExaminePasses(
    w: World, id: ProcessId, head: VersionId, delivered: Bytes, verdict: Verdict, t: FileType, sha256: Digest)
    requires w.row.state == Scanning && Holds(w, id, Claimed(w.row, w.store.now)) && BeforeDeadline(w)
    requires ScannerVerdict(verdict) && Readable(w.store, Some(head), delivered)
    requires Decide(w.row.context, w.row.declaredBytes, Some(|w.store.uploads[head]|), delivered, verdict)
             == Accept(t, sha256)
    ensures var w' := Apply(w, Examine(id, Some(head), delivered, verdict, w.store.now));
            && w'.row == w.row && w'.store == w.store.(scannedClean := w.store.scannedClean + {head})
            && w'.events == w.events && Holds(w', id, Scanned(w.row, Evidence(head, t, sha256)))
  {
    var a := Examine(id, Some(head), delivered, verdict, w.store.now);
    assert Apply(w, a) == ApplyWorker(w, a, w.workers[id]);
    assert ApplyWorker(w, a, w.workers[id]) == Examined(w, id, w.row, Some(head), delivered, verdict, w.store.now);
  }

  lemma SettlesAsHeld(w: World, id: ProcessId, s: Settlement)
    requires RowChecks(w.row) && !s.Retry? && Holds(w, id, Settling(w.row, s))
    ensures var w' := Apply(w, SettleScan(id, w.store.now));
            && w'.store == w.store && w'.events == w.events + SettlementEvents(s)
            && w'.row == SettledValues(w.row, w.row, s).(scanLeaseExpiresAt := None, version := w.row.version + 1,
                  updatedAt := Max(w.row.updatedAt, w.store.now))
            && (s.AcceptCopy? ==> Holds(w', id, Won)) && (!s.AcceptCopy? ==> id !in w'.workers)
  {
    var a := SettleScan(id, w.store.now);
    assert Apply(w, a) == ApplyWorker(w, a, w.workers[id]);
    assert ApplyWorker(w, a, w.workers[id]) == Settled(w, id, w.row, s, w.store.now);
  }

  /** Copying starts with the intent and the request. */
  lemma CopyStarts(w: World, id: ProcessId, e: Evidence, copy: CopyId)
    requires w.row.state == Scanning && Holds(w, id, Scanned(w.row, e)) && copy !in w.store.copies
    ensures var w1 := Apply(w, Intend(id, w.store.now));
            var w' := Apply(w1, RequestCopy(id, copy));
            && w1 == AtWorker(w.(row := w1.row), id, Intending(w1.row, e)) && SameFile(w, w')
            && w'.store == w.store.(copies := w.store.copies[copy := e.source])
            && Holds(w', id, Copying(w'.row, e, copy))
  {
    var w1 := Apply(w, Intend(id, w.store.now));
    assert w1 == ApplyWorker(w, Intend(id, w.store.now), w.workers[id]);
    assert w1 == Intended(w, id, w.row, e, w.store.now);
    assert Apply(w1, RequestCopy(id, copy)) == ApplyWorker(w1, RequestCopy(id, copy), w1.workers[id]);
  }

  /** It ends with the store's answer and the look at the copy. */
  lemma CopyEnds(w: World, id: ProcessId, e: Evidence, copy: CopyId, v: VersionId)
    requires Holds(w, id, Copying(w.row, e, copy)) && v !in w.store.landings
    requires copy in w.store.copies && w.store.copies[copy] == e.source && e.source in w.store.uploads
    requires |w.store.uploads[e.source]| == w.row.declaredBytes
    ensures var w1 := Apply(w, Land(copy, v));
            var w2 := Apply(w1, CopyReturned(id, v));
            var w' := Apply(w2, Verify(id, w.store.now));
            && w'.row == w.row && w'.events == w.events && w'.store.now == w.store.now
            && w'.store.uploads == w.store.uploads && v in w'.store.clean && v in w'.store.landings
            && w'.store.landings[v].bytes == w.store.uploads[e.source]
            && Holds(w', id, Settling(w.row, AcceptCopy(e.source, v, e.sha256, e.fileType, w.store.now)))
  {
    var w1 := Apply(w, Land(copy, v));
    var w2 := Apply(w1, CopyReturned(id, v));
    assert w2 == ApplyWorker(w1, CopyReturned(id, v), w1.workers[id]);
    assert Apply(w2, Verify(id, w.store.now)) == ApplyWorker(w2, Verify(id, w.store.now), w2.workers[id]);
  }

  // ----- whole scans

  /**
   A file that may be claimed, with a verdict and an object that decide against it, is rejected by one
   undisturbed scan, for the reason decided.
   */
  lemma {:induction false} ScanRejects(
    w: World, id: ProcessId, head: Option<VersionId>, delivered: Bytes, verdict: Verdict, reason: Rejection,
    signature: Option<string>)
    requires Scannable(w, id) && BeforeDeadline(w) && ScannerVerdict(verdict) && Readable(w.store, head, delivered)
    requires Decide(w.row.context, w.row.declaredBytes,
                    if head.Some? then Some(|w.store.uploads[head.value]|) else None, delivered, verdict)
             == Reject(reason, signature)
    ensures var now := w.store.now;
            var w' := Run(w, [Claim(id, now), Examine(id, head, delivered, verdict, now)] + [SettleScan(id, now)]);
            RejectedNow(w, w', reason, signature) && w'.store == w.store && id !in w'.workers
  {
    var now := w.store.now;
    var claim, examine := Claim(id, now), Examine(id, head, delivered, verdict, now);
    OneStep(w, claim);
    NextStep(w, [claim], examine);
    assert [claim] + [examine] == [claim, examine];
    NextStep(w, [claim, examine], SettleScan(id, now));
    ClaimTakes(w, id);
    ActionKeepsInv(w, claim);
    ExamineRejects(Apply(w, claim), id, head, delivered, verdict, reason, signature);
    SettlesAsHeld(Apply(Apply(w, claim), examine), id, RejectWith(reason, signature, now));
  }

  function CopyingSteps(
    id: ProcessId, head: VersionId, delivered: Bytes, verdict: Verdict, copy: CopyId, v: VersionId, now: Instant):
    seq<Action>
  {
    [Claim(id, now)] + [Examine(id, Some(head), delivered, verdict, now)] + [Intend(id, now)] + [RequestCopy(id, copy)]
    + [Land(copy, v)] + [CopyReturned(id, v)] + [Verify(id, now)] + [SettleScan(id, now)]
  }

  /** The first half of an accepting scan: up to the copy's request. */
  lemma ReachesCopy(w: World, id: ProcessId, head: VersionId, t: FileType, copy: CopyId)
    requires Scannable(w, id) && BeforeDeadline(w) && head in w.store.quarantine && head in w.store.uploads
    requires |w.store.uploads[head]| == w.row.declaredBytes && Acceptable(w.row.context, w.store.uploads[head], t)
    requires copy !in w.store.copies
    ensures var now, bytes := w.store.now, w.store.uploads[head];
            var w1 := Apply(Apply(w, Claim(id, now)), Examine(id, Some(head), bytes, NothingFound, now));
            var w' := Apply(Apply(w1, Intend(id, now)), RequestCopy(id, copy));
            && SameFile(w, w') && RowChecks(w'.row) && w'.store.landings == w.store.landings
            && copy in w'.store.copies && w'.store.copies[copy] == head
            && Holds(w', id, Copying(w'.row, Evidence(head, t, Sha256(bytes)), copy))
  {
    var now, bytes := w.store.now, w.store.uploads[head];
    var examine := Examine(id, Some(head), bytes, NothingFound, now);
    AcceptedWhole(w.row.context, bytes, t);
    var w1 := Apply(w, Claim(id, now));
    ClaimTakes(w, id);
    ActionKeepsInv(w, Claim(id, now));
    var w2 := Apply(w1, examine);
    ExaminePasses(w1, id, head, bytes, NothingFound, t, Sha256(bytes));
    ActionKeepsInv(w1, examine);
    CopyStarts(w2, id, Evidence(head, t, Sha256(bytes)), copy);
    ActionKeepsInv(w2, Intend(id, now));
    ActionKeepsInv(Apply(w2, Intend(id, now)), RequestCopy(id, copy));
  }

  /** The second half: from the copy's request to the recorded result. */
  lemma RecordsCopy(w: World, id: ProcessId, e: Evidence, copy: CopyId, v: VersionId)
    requires RowChecks(w.row) && Holds(w, id, Copying(w.row, e, copy)) && v !in w.store.landings
    requires copy in w.store.copies && w.store.copies[copy] == e.source && e.source in w.store.uploads
    requires |w.store.uploads[e.source]| == w.row.declaredBytes && e.sha256 == Sha256(w.store.uploads[e.source])
    ensures var now := w.store.now;
            var w1 := Apply(Apply(w, Land(copy, v)), CopyReturned(id, v));
            var w' := Apply(Apply(w1, Verify(id, now)), SettleScan(id, now));
            && CleanNow(w, w', e.source, v, e.fileType) && Holds(w', id, Won) && w'.store.now == now
            && w'.row.quarantinePurgedAt == w.row.quarantinePurgedAt
  {
    var now := w.store.now;
    var w7 := Apply(Apply(Apply(w, Land(copy, v)), CopyReturned(id, v)), Verify(id, now));
    CopyEnds(w, id, e, copy, v);
    SettlesAsHeld(w7, id, AcceptCopy(e.source, v, e.sha256, e.fileType, now));
  }

  /**
   One whose object is read whole, is found clean and has an acceptable type becomes clean by one undisturbed
   scan, recorded with that version, its copy and that type.
   */
  lemma {:induction false} ScanAccepts(
    w: World, id: ProcessId, head: VersionId, t: FileType, copy: CopyId, v: VersionId)
    requires Scannable(w, id) && BeforeDeadline(w) && head in w.store.quarantine && head in w.store.uploads
    requires |w.store.uploads[head]| == w.row.declaredBytes && Acceptable(w.row.context, w.store.uploads[head], t)
    requires copy !in w.store.copies && v !in w.store.landings
    ensures var w' := Run(w, CopyingSteps(id, head, w.store.uploads[head], NothingFound, copy, v, w.store.now));
            && CleanNow(w, w', head, v, t) && Holds(w', id, Won) && w'.store.now == w.store.now
            && w'.row.quarantinePurgedAt == w.row.quarantinePurgedAt
  {
    var now, bytes := w.store.now, w.store.uploads[head];
    var examine := Examine(id, Some(head), bytes, NothingFound, now);
    EightSteps(w, Claim(id, now), examine, Intend(id, now), RequestCopy(id, copy), Land(copy, v), CopyReturned(id, v),
               Verify(id, now), SettleScan(id, now));
    ReachesCopy(w, id, head, t, copy);
    var w4 := Apply(Apply(Apply(Apply(w, Claim(id, now)), examine), Intend(id, now)), RequestCopy(id, copy));
    RecordsCopy(w4, id, Evidence(head, t, Sha256(bytes)), copy, v);
  }

  lemma AcceptedWhole(context: Context, bytes: Bytes, t: FileType)
    requires Acceptable(context, bytes, t)
    ensures Decide(context, |bytes|, Some(|bytes|), bytes, NothingFound) == Accept(t, Sha256(bytes))
  {
    AcceptanceIsAboutTheWholeObject(context, |bytes|, bytes, bytes, NothingFound, t, Sha256(bytes));
  }

  lemma {:induction false} EightSteps(
    w: World, a: Action, b: Action, c: Action, d: Action, e: Action, f: Action, g: Action, h: Action)
    ensures Run(w, [a] + [b] + [c] + [d] + [e] + [f] + [g] + [h])
            == Apply(Apply(Apply(Apply(Apply(Apply(Apply(Apply(w, a), b), c), d), e), f), g), h)
  {
    OneStep(w, a);
    NextStep(w, [a], b);
    NextStep(w, [a] + [b], c);
    NextStep(w, [a] + [b] + [c], d);
    NextStep(w, [a] + [b] + [c] + [d], e);
    NextStep(w, [a] + [b] + [c] + [d] + [e], f);
    NextStep(w, [a] + [b] + [c] + [d] + [e] + [f], g);
    NextStep(w, [a] + [b] + [c] + [d] + [e] + [f] + [g], h);
  }

  // ----- the winner's purge

  /** The store loses what it was told to delete, one version at a time. */
  lemma {:induction false} QuarantineDrains(w: World) returns (steps: seq<Action>)
    requires w.store.quarantinePurging
    ensures forall i :: 0 <= i < |steps| ==> steps[i].LoseQuarantine?
    ensures Run(w, steps) == w.(store := w.store.(quarantine := {}))
    decreases |w.store.quarantine|
  {
    if v :| v in w.store.quarantine {
      var w1 := Apply(w, LoseQuarantine(v));
      assert w1 == w.(store := w.store.(quarantine := w.store.quarantine - {v}));
      var rest := QuarantineDrains(w1);
      steps := [LoseQuarantine(v)] + rest;
      FirstStep(w, LoseQuarantine(v), rest);
    } else {
      steps := [];
    }
  }

  lemma {:induction false} FirstStep(w: World, a: Action, steps: seq<Action>)
    ensures Run(w, [a] + steps) == Run(Apply(w, a), steps)
  {
    if steps == [] {
      OneStep(w, a);
      assert [a] + steps == [a];
    } else {
      var n := |steps| - 1;
      FirstStep(w, a, steps[..n]);
      assert ([a] + steps)[..n + 1] == [a] + steps[..n];
    }
  }

  lemma PurgeStarts(w: World, id: ProcessId)
    requires id in w.workers && w.workers[id] == Won
    ensures Apply(w, BeginWinnerPurge(id))
            == AtWorker(w.(store := w.store.(quarantinePurging := true)), id, Purging(w.store.quarantine))
  {
    assert Apply(w, BeginWinnerPurge(id)) == ApplyWorker(w, BeginWinnerPurge(id), Won);
  }

  lemma PurgeIsMarked(w: World, id: ProcessId)
    requires id in w.workers && w.workers[id].Purging? && w.store.quarantine == {} && w.row.quarantinePurgedAt.None?
    ensures var now := w.store.now;
            var w' := Apply(Apply(w, EndWinnerPurge(id)), MarkWinnerPurge(id, now));
            && w'.store == w.store && id !in w'.workers
            && w'.row == Bumped(w.row, now).(quarantinePurgedAt := Some(now))
  {
    var now := w.store.now;
    var w1 := Apply(w, EndWinnerPurge(id));
    assert w1 == ApplyWorker(w, EndWinnerPurge(id), w.workers[id]) == AtWorker(w, id, Purged);
    assert Apply(w1, MarkWinnerPurge(id, now)) == ApplyWorker(w1, MarkWinnerPurge(id, now), Purged);
  }

  /** A worker that won empties the quarantine bucket and marks it, when the store does what it is told. */
  lemma {:induction false} WinnerPurges(w: World, id: ProcessId) returns (steps: seq<Action>)
    requires id in w.workers && w.workers[id] == Won && w.row.quarantinePurgedAt.None?
    ensures var w' := Run(w, steps);
            && w'.store.quarantine == {} && id !in w'.workers
            && w'.row == Bumped(w.row, w.store.now).(quarantinePurgedAt := Some(w.store.now))
  {
    var end, mark := EndWinnerPurge(id), MarkWinnerPurge(id, w.store.now);
    PurgeStarts(w, id);
    var lost := QuarantineDrains(Apply(w, BeginWinnerPurge(id)));
    FirstStep(w, BeginWinnerPurge(id), lost);
    var begun := [BeginWinnerPurge(id)] + lost;
    PurgeIsMarked(Run(w, begun), id);
    NextStep(w, begun, end);
    NextStep(w, begun + [end], mark);
    steps := begun + [end] + [mark];
  }

  // ----- scans that come too late or to nothing

  /** A claim at or past the deadline ends the file: one undisturbed scan records that it failed. */
  lemma {:induction false} OverdueScanFails(w: World, id: ProcessId)
    requires Scannable(w, id) && w.row.scanDeadlineAt.Some? && w.store.now >= w.row.scanDeadlineAt.value
    ensures var now := w.store.now;
            var w' := Run(w, [Claim(id, now)] + [Overdue(id)] + [SettleScan(id, now)]);
            && w'.row.state == ScanFailed && w'.row.endedAt == Some(now) && id !in w'.workers
            && w'.events == w.events + [ScanFailedOutcome]
  {
    var now := w.store.now;
    OneStep(w, Claim(id, now));
    NextStep(w, [Claim(id, now)], Overdue(id));
    NextStep(w, [Claim(id, now)] + [Overdue(id)], SettleScan(id, now));
    ClaimTakes(w, id);
    ActionKeepsInv(w, Claim(id, now));
    var w1 := Apply(w, Claim(id, now));
    assert Apply(w1, Overdue(id)) == ApplyWorker(w1, Overdue(id), w1.workers[id]);
    SettlesAsHeld(Apply(w1, Overdue(id)), id, FailWith(now));
  }

  lemma RetrySettles(w: World, id: ProcessId)
    requires w.row.state == Scanning && Holds(w, id, Settling(w.row, Retry(w.store.now)))
    requires w.row.scanAttempts < MAX_SCAN_ATTEMPTS
    ensures var now := w.store.now;
            var w' := Apply(w, SettleScan(id, now));
            && w'.row.state == Scanning && w'.row.scanAttempts == w.row.scanAttempts + 1 && id !in w'.workers
            && w'.events == w.events && w'.row.scanLeaseExpiresAt.None?
            && w'.row.nextScanAt == Some(now + RetryDelayMs(w.row.scanAttempts + 1))
  {
    var now := w.store.now;
    assert Apply(w, SettleScan(id, now)) == ApplyWorker(w, SettleScan(id, now), w.workers[id]);
    assert Apply(w, SettleScan(id, now)) == Settled(w, id, w.row, Retry(now), now);
  }

  lemma GivesUp(w: World, id: ProcessId)
    requires BeforeDeadline(w) && Holds(w, id, Claimed(w.row, w.store.now))
    ensures Apply(w, GiveUp(id, w.store.now)) == AtWorker(w, id, Settling(w.row, Retry(w.store.now)))
  {
    var a := GiveUp(id, w.store.now);
    assert Apply(w, a) == ApplyWorker(w, a, w.workers[id]);
  }

  /** One that gives up before it waits for its delay, and can be claimed again exactly from then on. */
  lemma {:induction false} FailedScanRetries(w: World, id: ProcessId, reading: Instant)
    requires Scannable(w, id) && BeforeDeadline(w) && w.row.scanAttempts < MAX_SCAN_ATTEMPTS
    ensures var now := w.store.now;
            var w' := Run(w, [Claim(id, now)] + [GiveUp(id, now)] + [SettleScan(id, now)]);
            && w'.row.state == Scanning && w'.row.scanAttempts == w.row.scanAttempts + 1 && id !in w'.workers
            && w'.events == w.events
            && (ClaimScan(w'.row, reading).Some? <==> reading >= now + RetryDelayMs(w.row.scanAttempts + 1))
  {
    var now := w.store.now;
    OneStep(w, Claim(id, now));
    NextStep(w, [Claim(id, now)], GiveUp(id, now));
    NextStep(w, [Claim(id, now)] + [GiveUp(id, now)], SettleScan(id, now));
    ClaimTakes(w, id);
    var w1 := Apply(w, Claim(id, now));
    GivesUp(w1, id);
    RetrySettles(Apply(w1, GiveUp(id, now)), id);
  }
}
