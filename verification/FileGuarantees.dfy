/** What holds in every run of the commission-file lifecycle. */
module FileGuarantees {
  import opened Common
  import opened FileSignature
  import opened ScanDecision
  import opened FileRows
  import opened FileLifecycle
  import opened FileStatements

  // ----- one step

  lemma {:induction false} EndIsKept(row: Row, st: Statement)
    requires RowOk(row) && Fits(row, st) && Terminal(row.state)
    ensures Executed(row, st).endedAt == row.endedAt
  {
  }

  /**
   Whatever a step stores passed the update trigger and the row checks, raised the version by one,
   and left an ended file's end alone.
   */
  lemma StepIsGuarded(w: World, a: Action)
    requires Inv(w)
    ensures var row := Apply(w, a).row; row == w.row || RowStep(w.row, row)
  {
    StepExecutesItsStatement(w, a);
    if StatementOf(w, a).Some? {
      StatementFits(w, a);
      StatementIsStep(w.row, StatementOf(w, a).value);
    }
  }

  lemma {:induction false} StatementIsStep(row: Row, st: Statement)
    requires RowOk(row) && Fits(row, st)
    ensures Executed(row, st) == row || RowStep(row, Executed(row, st))
  {
    ExecutedIsOk(row, st);
    if Terminal(row.state) {
      EndIsKept(row, st);
    }
  }

  // ----- whole runs

  lemma {:induction false} RunKeepsInv(context: Context, declaredBytes: nat, at: Instant, actions: seq<Action>)
    ensures Inv(Run(Init(context, declaredBytes, at), actions))
  {
    if actions != [] {
      RunKeepsInv(context, declaredBytes, at, actions[..|actions| - 1]);
      ActionKeepsInv(Run(Init(context, declaredBytes, at), actions[..|actions| - 1]), actions[|actions| - 1]);
    }
  }

  ghost predicate Reachable(w: World) {
    exists context, declaredBytes, at, actions :: w == Run(Init(context, declaredBytes, at), actions)
  }

  lemma ReachableInv(w: World)
    requires Reachable(w)
    ensures Inv(w)
  {
    var context, declaredBytes, at, actions :| w == Run(Init(context, declaredBytes, at), actions);
    RunKeepsInv(context, declaredBytes, at, actions);
  }

  /** How a row may differ from an earlier one, however many statements lie between. */
  predicate Follows(earlier: Row, later: Row) {
    && earlier.version <= later.version
    && (earlier.version == later.version ==> earlier == later)
    && Rank(earlier.state) <= Rank(later.state)
    && (Rank(earlier.state) == Rank(later.state) ==> earlier.state == later.state)
    && (earlier.cleanCopyIntent ==> later.cleanCopyIntent)
    && (Terminal(earlier.state) ==>
       later.cleanCopyIntent == earlier.cleanCopyIntent && later.endedAt == earlier.endedAt)
    && WriteOnce(earlier.cleanPurgedAt, later.cleanPurgedAt)
    && WriteOnce(earlier.quarantinePurgedAt, later.quarantinePurgedAt)
    && (earlier.sha256.Some? ==> later.sha256 == earlier.sha256 && later.cleanVersionId == earlier.cleanVersionId
                                 && later.detectedType == earlier.detectedType)
    && later.declaredBytes == earlier.declaredBytes && later.context == earlier.context
  }

  /**
   From any point of a run to any later one: the version only rises and identifies the row, the
   state only rises in rank, terminal states absorb, and evidence and purge marks are write-once.
   */
  lemma {:induction false} RowsFollow(w: World, actions: seq<Action>)
    requires Inv(w)
    ensures Inv(Run(w, actions)) && Follows(w.row, Run(w, actions).row)
  {
    if actions != [] {
      var before := Run(w, actions[..|actions| - 1]);
      var a := actions[|actions| - 1];
      RowsFollow(w, actions[..|actions| - 1]);
      StepIsGuarded(before, a);
      ActionKeepsInv(before, a);
    }
  }

  /** A file emits at most one scan event in its life, and the event tells how the scan ended. */
  lemma AtMostOneScanEvent(w: World)
    requires Reachable(w)
    ensures |w.events| <= 1
    ensures w.row.state in {Clean, Attached, Deleted} ==> w.events == [CleanOutcome]
    ensures w.row.state == Rejected ==> w.events == [RejectedOutcome]
    ensures w.row.state in {AwaitingUpload, Scanning, Expired} ==> w.events == []
  {
    ReachableInv(w);
  }

  // ----- the version fence

  predicate HoldsRow(k: Worker) {
    !k.Won? && !k.Purging? && !k.Purged?
  }

  predicate Superseded(w: World, k: Worker) {
    HoldsRow(k) && k.row.version < w.row.version
  }

  /**
   A superseded worker changes neither the row nor the events; the one thing it may still do is
   start the copy it had committed to.
   */
  lemma SupersededChangesNothing(w: World, a: Action, k: Worker)
    requires Superseded(w, k)
    ensures ApplyWorker(w, a, k).row == w.row && ApplyWorker(w, a, k).events == w.events
    ensures ApplyWorker(w, a, k).store.copies != w.store.copies <==>
            k.Intending? && a.RequestCopy? && a.copy !in w.store.copies
    ensures a.Intend? && k.Scanned? && a.at <= w.store.now ==> a.id !in ApplyWorker(w, a, k).workers
  {
  }

  /**
   The exact condition: a superseded worker can start a copy if and only if its intent was
   committed and its copy not yet asked for.
   */
  lemma SupersededCopiesExactly(w: World, k: Worker)
    requires Superseded(w, k)
    ensures (exists a :: ApplyWorker(w, a, k).store.copies != w.store.copies) <==> k.Intending?
  {
    if k.Intending? {
      var c := UnusedNumber(w.store.copies.Keys);
      SupersededChangesNothing(w, RequestCopy(0, c), k);
    }
    forall a ensures ApplyWorker(w, a, k).store.copies != w.store.copies ==> k.Intending? {
      SupersededChangesNothing(w, a, k);
    }
  }

  /** Different workers hold different versions, so at most one of them passes the fence. */
  predicate DistinctVersions(w: World) {
    && (forall i :: i in w.workers && HoldsRow(w.workers[i]) ==> w.workers[i].row.version <= w.row.version)
    && forall i, j :: i in w.workers && j in w.workers && i != j && HoldsRow(w.workers[i]) && HoldsRow(w.workers[j])
                      ==> w.workers[i].row.version != w.workers[j].row.version
  }

  /** A step of one process leaves the other workers alone; a worker gains a version only with the row. */
  predicate OnlyMoves(w: World, w': World, id: ProcessId) {
    && (forall i :: i in w'.workers && i != id ==> i in w.workers && w'.workers[i] == w.workers[i])
    && (id in w'.workers && HoldsRow(w'.workers[id]) ==>
          || w'.workers[id].row.version == w'.row.version > w.row.version
          || (id in w.workers && HoldsRow(w.workers[id]) && w'.workers[id].row == w.workers[id].row))
  }

  lemma WorkerOnlyMoves(w: World, a: Action)
    requires !StoreAction(a) && !OwnerAction(a) && a.id in w.workers
    ensures OnlyMoves(w, Apply(w, a), a.id)
  {
  }

  lemma OthersOnlyMove(w: World, a: Action)
    requires !StoreAction(a) && !OwnerAction(a) && a.id !in w.workers
    ensures OnlyMoves(w, Apply(w, a), a.id)
  {
  }

  lemma StepKeepsDistinctVersions(w: World, a: Action)
    requires Inv(w) && DistinctVersions(w)
    ensures DistinctVersions(Apply(w, a))
  {
    StepIsGuarded(w, a);
    if !StoreAction(a) && !OwnerAction(a) {
      if a.id in w.workers {
        WorkerOnlyMoves(w, a);
      } else {
        OthersOnlyMove(w, a);
      }
      MovingKeepsDistinctVersions(w, Apply(w, a), a.id);
    }
  }

  lemma MovingKeepsDistinctVersions(w: World, w': World, id: ProcessId)
    requires DistinctVersions(w) && OnlyMoves(w, w', id) && w.row.version <= w'.row.version
    ensures DistinctVersions(w')
  {
  }

  lemma {:induction false} OneCurrentWorker(context: Context, declaredBytes: nat, at: Instant, actions: seq<Action>)
    ensures DistinctVersions(Run(Init(context, declaredBytes, at), actions))
  {
    if actions != [] {
      OneCurrentWorker(context, declaredBytes, at, actions[..|actions| - 1]);
      RunKeepsInv(context, declaredBytes, at, actions[..|actions| - 1]);
      StepKeepsDistinctVersions(Run(Init(context, declaredBytes, at), actions[..|actions| - 1]),
          actions[|actions| - 1]);
    }
  }

  // ----- provenance and safekeeping

  /**
   Any row that was ever accepted records a clean version that is a byte copy of exactly the
   quarantine version the scanner passed, of the declared size, with its digest and a type
   allowed for the context. While the file is live that version is in the clean bucket.
   */
  lemma CleanFilesAreWhatWasScanned(w: World)
    requires Reachable(w)
    ensures w.row.state in {Clean, Attached, Deleted} ==> Provenance(w.store, w.row)
    ensures w.row.state in {Clean, Attached} ==> w.row.cleanVersionId.value in w.store.clean
  {
    ReachableInv(w);
  }

  /** Nothing leaves the quarantine bucket while the file may still be scanned. */
  lemma UnscannedBytesAreKept(w: World)
    requires Reachable(w) && w.row.state in {AwaitingUpload, Scanning}
    ensures w.store.quarantine == w.store.uploads.Keys
  {
    ReachableInv(w);
  }

  /**
   So while the file is being scanned, a worker that finds no object has none to find: nothing was ever
   uploaded. One that finds an object reads it from the start, from a version that was uploaded.
   */
  lemma ScansReadTheUpload(w: World, a: Action)
    requires Reachable(w) && w.row.state == Scanning && a.Examine? && Apply(w, a) != w
    ensures a.head.None? ==> w.store.uploads == map[]
    ensures a.head.Some? ==> a.head.value in w.store.uploads && a.delivered <= w.store.uploads[a.head.value]
  {
    UnscannedBytesAreKept(w);
    assert a.id in w.workers && Apply(w, a) == ApplyWorker(w, a, w.workers[a.id]);
  }

  /** The condition under which downloadGrant signs a link to the recorded version. */
  predicate Downloadable(row: Row) {
    row.state == Attached && row.cleanPurgedAt.None? && row.cleanVersionId.Some? && row.detectedType.Some?
  }

  /** Attached files are always downloadable, and the link serves the bytes the scanner passed. */
  lemma DownloadServesScannedBytes(w: World)
    requires Reachable(w)
    ensures Downloadable(w.row) <==> w.row.state == Attached
    ensures Downloadable(w.row) ==>
              && w.row.cleanVersionId.value in w.store.clean && w.row.cleanVersionId.value in w.store.landings
              && w.row.sha256.Some?
              && w.store.landings[w.row.cleanVersionId.value].bytes == w.row.sha256.value.preimage
              && Acceptable(w.row.context, w.row.sha256.value.preimage, w.row.detectedType.value)
  {
    ReachableInv(w);
  }

  // ----- purge finality

  /** The store's promise: no copy takes effect 24 hours or more after the row ended. */
  predicate CopiesArePunctual(w: World) {
    w.row.endedAt.Some? ==> forall v :: v in w.store.landings ==>
        w.store.landings[v].at < w.row.endedAt.value + COPY_INTENT_CLOSURE_MS
  }

  /**
   Without any promise of the store: once the final mark is set, a version in the clean bucket
   is there only because a committed copy took effect at least 24 hours after the row ended.
   */
  lemma OnlyLateCopiesSurvive(w: World, v: VersionId)
    requires Reachable(w) && w.row.cleanPurgedAt.Some?
    requires v in w.store.clean
    ensures w.row.cleanCopyIntent && w.row.endedAt.Some?
    ensures v in w.store.landings && w.store.landings[v].at >= w.row.endedAt.value + COPY_INTENT_CLOSURE_MS
  {
    ReachableInv(w);
  }

  /** With it: from the mark on, in every later state, the clean bucket holds no version of the key. */
  lemma PurgeIsFinal(w: World, actions: seq<Action>)
    requires Reachable(w) && w.row.cleanPurgedAt.Some?
    requires CopiesArePunctual(Run(w, actions))
    ensures Run(w, actions).row.cleanPurgedAt == w.row.cleanPurgedAt
    ensures Run(w, actions).store.clean == {}
  {
    ReachableInv(w);
    RowsFollow(w, actions);
    NoPunctualSurvivor(Run(w, actions));
  }

  lemma NoPunctualSurvivor(w: World)
    requires Inv(w) && w.row.cleanPurgedAt.Some? && CopiesArePunctual(w)
    ensures w.store.clean == {}
  {
    assert forall v :: v in w.store.clean ==>
        v in w.store.landings && w.store.landings[v].at >= w.row.cleanPurgedAt.value;
  }

  /** Without a committed intent no copy was ever asked for and the clean bucket never held anything. */
  lemma NoIntentNoCopy(w: World)
    requires Reachable(w) && !w.row.cleanCopyIntent
    ensures w.store.copies == map[] && w.store.landings == map[] && w.store.clean == {}
  {
    ReachableInv(w);
  }

  // ----- the promise is needed

  const TINY_JPEG: Bytes := [0xff, 0xd8, 0xff]

  lemma ReachableStep(w: World, a: Action)
    requires Reachable(w)
    ensures Reachable(Apply(w, a))
  {
    var context, declaredBytes, at, actions :| w == Run(Init(context, declaredBytes, at), actions);
    assert (actions + [a])[..|actions|] == actions;
    assert Apply(w, a) == Run(Init(context, declaredBytes, at), actions + [a]);
  }

  lemma ReachableSteps(w: World, a: Action, b: Action, c: Action)
    requires Reachable(w)
    ensures Reachable(Apply(Apply(w, a), b)) && Reachable(Apply(Apply(Apply(w, a), b), c))
  {
    ReachableStep(w, a);
    ReachableStep(Apply(w, a), b);
    ReachableStep(Apply(Apply(w, a), b), c);
  }

  lemma TinyJpegIsAccepted()
    ensures Decide(Brief, 3, Some(3), TINY_JPEG, NothingFound) == Accept(Jpeg, Sha256(TINY_JPEG))
  {
    assert StartsWithAt(TINY_JPEG, [0xff, 0xd8, 0xff], 0);
    ClassificationIsOfContent(Brief, TINY_JPEG, Jpeg);
    assert forall i :: !RecordNearEnd(TINY_JPEG, i);
    assert Acceptable(Brief, TINY_JPEG, Jpeg);
  }

  /** A worker claimed an uploaded three-byte JPEG. */
  predicate ClaimedTiny(w: World) {
    && w.store == Store(0, map["q" := TINY_JPEG], {"q"}, false, map[], {}, false, map[], {})
    && w.row.context == Brief && w.row.declaredBytes == 3 && w.row.state == Scanning
    && w.row.scanDeadlineAt == Some(SCAN_DEADLINE_MS) && Unpurged(w.row)
    && w.workers == map[1 := Claimed(w.row, 0)] && w.sweeps == map[]
  }

  predicate Unpurged(row: Row) {
    row.quarantinePurgedAt.None? && row.cleanPurgedAt.None?
  }

  lemma TinyIsClaimed()
    ensures ClaimedTiny(Apply(Apply(Apply(Init(Brief, 3, 0), FinishUpload(0)), PutObject("q", TINY_JPEG)), Claim(1, 0)))
  {
    TinyIsUploaded();
    var w2 := Apply(Apply(Init(Brief, 3, 0), FinishUpload(0)), PutObject("q", TINY_JPEG));
    assert Apply(w2, Claim(1, 0)) == ApplyStart(w2, Claim(1, 0));
  }

  lemma TinyIsUploaded()
    ensures var w := Apply(Apply(Init(Brief, 3, 0), FinishUpload(0)), PutObject("q", TINY_JPEG));
            && w.store == Store(0, map["q" := TINY_JPEG], {"q"}, false, map[], {}, false, map[], {})
            && w.row == CompleteUpload(NewRow(Brief, 3, 0), 0).value
            && w.workers == map[] && w.sweeps == map[]
  {
    var w1 := Apply(Init(Brief, 3, 0), FinishUpload(0));
    assert w1.store == Init(Brief, 3, 0).store;
  }

  /** The scan accepted it, the intent is committed, and the copy was requested. */
  predicate CopyRequested(w: World) {
    && w.store == Store(0, map["q" := TINY_JPEG], {"q"}, false, map[], {}, false, map[7 := "q"], {"q"})
    && w.row.state == Scanning && w.row.cleanCopyIntent && Unpurged(w.row)
    && w.workers.Keys == {1} && w.sweeps == map[]
  }

  lemma TinyIsExamined(w: World)
    requires ClaimedTiny(w)
    ensures Apply(w, Examine(1, Some("q"), TINY_JPEG, NothingFound, 0))
            == w.(store := w.store.(scannedClean := {"q"}),
                workers := map[1 := Scanned(w.row, Evidence("q", Jpeg, Sha256(TINY_JPEG)))])
  {
    var a := Examine(1, Some("q"), TINY_JPEG, NothingFound, 0);
    assert Readable(w.store, a.head, a.delivered);
    assert Apply(w, a) == ApplyWorker(w, a, w.workers[1]);
    assert ApplyWorker(w, a, w.workers[1]) == Examined(w, 1, w.row, Some("q"), TINY_JPEG, NothingFound, 0);
    TinyPasses(w);
  }

  lemma TinyPasses(w: World)
    requires ClaimedTiny(w)
    ensures Readable(w.store, Some("q"), TINY_JPEG)
    ensures Examined(w, 1, w.row, Some("q"), TINY_JPEG, NothingFound, 0)
            == w.(store := w.store.(scannedClean := {"q"}),
                workers := map[1 := Scanned(w.row, Evidence("q", Jpeg, Sha256(TINY_JPEG)))])
  {
    TinyJpegIsAccepted();
    assert w.store.scannedClean + {"q"} == {"q"};
  }

  lemma TinyCopyIsRequested(w: World)
    requires ClaimedTiny(w)
    ensures CopyRequested(Apply(Apply(Apply(w, Examine(1, Some("q"), TINY_JPEG, NothingFound, 0)), Intend(1, 0)),
            RequestCopy(1, 7)))
  {
    TinyIsExamined(w);
    var w1 := Apply(w, Examine(1, Some("q"), TINY_JPEG, NothingFound, 0));
    var w2 := Apply(w1, Intend(1, 0));
    assert w2 == ApplyWorker(w1, Intend(1, 0), w1.workers[1]);
    assert w2.workers[1].Intending?;
    var w3 := Apply(w2, RequestCopy(1, 7));
    assert w3 == ApplyWorker(w2, RequestCopy(1, 7), w2.workers[1]);
  }

  /** The intent is committed; the copy is about to be asked for. */
  lemma TinyIntends(w: World)
    requires ClaimedTiny(w)
    ensures var w' := Apply(Apply(w, Examine(1, Some("q"), TINY_JPEG, NothingFound, 0)), Intend(1, 0));
            && w'.workers.Keys == {1} && w'.workers[1].Intending? && w'.workers[1].row == w'.row
            && w'.row.state == Scanning
            && w'.store.copies == map[] && w'.store.now == 0
  {
    TinyIsExamined(w);
    var w1 := Apply(w, Examine(1, Some("q"), TINY_JPEG, NothingFound, 0));
    assert Apply(w1, Intend(1, 0)) == ApplyWorker(w1, Intend(1, 0), w1.workers[1]);
  }

  lemma DiscardSupersedes(w: World)
    requires w.workers.Keys == {1} && w.workers[1].Intending? && w.workers[1].row == w.row && w.row.state == Scanning
             && w.store.now == 0
    ensures var w' := Apply(w, OwnerDiscard(0));
            w'.row.state == Discarded && w'.workers == w.workers && w'.store == w.store && Superseded(w', w'.workers[1])
  {
  }

  /**
   It does happen: the owner discards the file after the intent, and the superseded worker's copy
   is asked for all the same.
   */
  lemma DiscardedFileIsCopied() returns (w: World)
    ensures Reachable(w) && w.row.state == Discarded && 1 in w.workers && Superseded(w, w.workers[1])
    ensures w.store.copies == map[] && Apply(w, RequestCopy(1, 7)).store.copies.Keys == {7}
  {
    w := ReachClaimedTiny();
    TinyIntends(w);
    var examine := Examine(1, Some("q"), TINY_JPEG, NothingFound, 0);
    ReachableSteps(w, examine, Intend(1, 0), OwnerDiscard(0));
    w := Apply(Apply(w, examine), Intend(1, 0));
    DiscardSupersedes(w);
    w := Apply(w, OwnerDiscard(0));
    CopyIsAskedFor(w);
  }

  lemma CopyIsAskedFor(w: World)
    requires 1 in w.workers && w.workers[1].Intending? && w.store.copies == map[]
    ensures Apply(w, RequestCopy(1, 7)).store.copies.Keys == {7}
  {
    assert Apply(w, RequestCopy(1, 7)) == ApplyWorker(w, RequestCopy(1, 7), w.workers[1]);
  }

  lemma ReachClaimedTiny() returns (w: World)
    ensures Reachable(w) && ClaimedTiny(w)
  {
    w := Init(Brief, 3, 0);
    assert w == Run(Init(Brief, 3, 0), []);
    TinyIsClaimed();
    ReachableSteps(w, FinishUpload(0), PutObject("q", TINY_JPEG), Claim(1, 0));
    w := Apply(Apply(Apply(w, FinishUpload(0)), PutObject("q", TINY_JPEG)), Claim(1, 0));
  }

  /** The owner discarded the file and a sweep a day later selected it. */
  predicate SweepSelected(w: World, quarantine: Progress, clean: Progress) {
    && w.row.state == Discarded && w.row.cleanCopyIntent && w.row.endedAt == Some(0) && Unpurged(w.row)
    && w.store.now == COPY_INTENT_CLOSURE_MS && w.store.copies == map[7 := "q"] && "q" in w.store.uploads
    && w.store.landings == map[] && w.store.clean == {} && w.store.quarantine <= {"q"}
    && w.workers.Keys == {1} && w.sweeps == map[2 := Sweep(COPY_INTENT_CLOSURE_MS, w.row, quarantine, clean)]
  }

  lemma DiscardedIsSelected(w: World)
    requires CopyRequested(w)
    ensures SweepSelected(Apply(Apply(Apply(w, OwnerDiscard(0)), Tick(COPY_INTENT_CLOSURE_MS)),
            Select(2, COPY_INTENT_CLOSURE_MS)), Pending, Pending)
  {
    var w1 := Apply(w, OwnerDiscard(0));
    assert w1.row.state == Discarded && w1.row.endedAt == Some(0);
    var w2 := Apply(w1, Tick(COPY_INTENT_CLOSURE_MS));
    assert w2 == w1.(store := w1.store.(now := COPY_INTENT_CLOSURE_MS));
    SelectEffect(w2);
  }

  lemma SelectEffect(w: World)
    requires Terminal(w.row.state) && Unpurged(w.row) && 2 !in w.workers && w.sweeps == map[]
             && w.store.now == COPY_INTENT_CLOSURE_MS
    ensures Apply(w, Select(2, COPY_INTENT_CLOSURE_MS))
            == w.(sweeps := map[2 := Sweep(COPY_INTENT_CLOSURE_MS, w.row, Pending, Pending)])
  {
    assert Apply(w, Select(2, COPY_INTENT_CLOSURE_MS)) == ApplyStart(w, Select(2, COPY_INTENT_CLOSURE_MS));
  }

  lemma SweepPurgesQuarantine(w: World)
    requires SweepSelected(w, Pending, Pending)
    ensures SweepSelected(Apply(Apply(Apply(w, BeginPurgeQuarantine(2)), LoseQuarantine("q")),
            EndPurgeQuarantine(2)), Done, Pending)
  {
    var w1 := Apply(w, BeginPurgeQuarantine(2));
    assert w1 == ApplySweep(w, BeginPurgeQuarantine(2), w.sweeps[2]);
    var w2 := Apply(w1, LoseQuarantine("q"));
    assert w2.store.quarantine == {};
    assert Apply(w2, EndPurgeQuarantine(2)) == ApplySweep(w2, EndPurgeQuarantine(2), w2.sweeps[2]);
  }

  lemma SweepPurgesClean(w: World)
    requires SweepSelected(w, Done, Pending)
    ensures var w' := Apply(Apply(w, BeginPurgeClean(2)), EndPurgeClean(2));
            SweepSelected(w', Done, Done) && w'.store == w.store.(cleanPurging := true)
  {
    var w1 := Apply(w, BeginPurgeClean(2));
    assert w1 == ApplySweep(w, BeginPurgeClean(2), w.sweeps[2]);
    assert Apply(w1, EndPurgeClean(2)) == ApplySweep(w1, EndPurgeClean(2), w1.sweeps[2]);
  }

  lemma SweepMarks(w: World)
    requires SweepSelected(w, Done, Done)
    ensures var w' := Apply(w, MarkSweep(2));
            w'.row.cleanPurgedAt.Some? && w'.row.endedAt == Some(0) && w'.store == w.store
  {
    assert Apply(w, MarkSweep(2)) == ApplySweep(w, MarkSweep(2), w.sweeps[2]);
  }

  lemma CopyLands(w: World)
    requires 7 in w.store.copies && w.store.copies[7] in w.store.uploads && "c" !in w.store.landings
    ensures var w' := Apply(w, Land(7, "c"));
            w'.row == w.row && "c" in w'.store.clean && "c" in w'.store.landings
                && w'.store.landings["c"].at == w.store.now
  {
  }

  /**
   The promise cannot be dropped: in some run the final mark is set and, because a copy took
   effect exactly 24 hours after the row ended, its bytes stay in the clean bucket.
   */
  lemma LateCopySurvivesTheFinalMark() returns (w: World)
    ensures Reachable(w) && w.row.cleanPurgedAt.Some? && w.store.clean != {}
    ensures !CopiesArePunctual(w)
  {
    w := ReachClaimedTiny();
    TinyCopyIsRequested(w);
    var examine := Examine(1, Some("q"), TINY_JPEG, NothingFound, 0);
    ReachableSteps(w, examine, Intend(1, 0), RequestCopy(1, 7));
    w := Apply(Apply(Apply(w, examine), Intend(1, 0)), RequestCopy(1, 7));
    w := LateCopyAfterRequest(w);
  }

  lemma LateCopyAfterRequest(w: World) returns (w': World)
    requires Reachable(w) && CopyRequested(w)
    ensures Reachable(w') && w'.row.cleanPurgedAt.Some? && w'.store.clean != {} && !CopiesArePunctual(w')
  {
    DiscardedIsSelected(w);
    ReachableSteps(w, OwnerDiscard(0), Tick(COPY_INTENT_CLOSURE_MS), Select(2, COPY_INTENT_CLOSURE_MS));
    w' := Apply(Apply(Apply(w, OwnerDiscard(0)), Tick(COPY_INTENT_CLOSURE_MS)), Select(2, COPY_INTENT_CLOSURE_MS));
    SweepPurgesQuarantine(w');
    ReachableSteps(w', BeginPurgeQuarantine(2), LoseQuarantine("q"), EndPurgeQuarantine(2));
    w' := Apply(Apply(Apply(w', BeginPurgeQuarantine(2)), LoseQuarantine("q")), EndPurgeQuarantine(2));
    SweepPurgesClean(w');
    SweepMarks(Apply(Apply(w', BeginPurgeClean(2)), EndPurgeClean(2)));
    ReachableSteps(w', BeginPurgeClean(2), EndPurgeClean(2), MarkSweep(2));
    w' := Apply(Apply(Apply(w', BeginPurgeClean(2)), EndPurgeClean(2)), MarkSweep(2));
    CopyLands(w');
    ReachableStep(w', Land(7, "c"));
    w' := Apply(w', Land(7, "c"));
  }
}
