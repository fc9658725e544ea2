/**
 When a file ended. The end is dated by a reading of the clock, and the purge of the clean bucket
 counts its day from that date: how the reading relates to the clock decides how long the store has
 to finish a copy.
 */
module FileEnds {
  import opened Common
  import opened FileSignature
  import opened ScanDecision
  import opened FileRows
  import opened FileLifecycle
  import opened FileStatements
  import opened FileGuarantees
  import opened FileAttempts
  import opened FileProgress
  import opened FileHistory

  const DAY_MS: int := 24 * 3_600_000

  predicate EndsNow(w: World, w': World) { !Terminal(w.row.state) && Terminal(w'.row.state) }

  // ----- the date of an end

  /** Owner, bulk and retention steps date the end with their own reading, from every state of the invariant. */
  lemma {:induction false} OwnerEndIsDated(w: World, a: Action)
    requires Inv(w) && OwnerAction(a) && EndsNow(w, Apply(w, a))
    ensures Apply(w, a).row.endedAt == Some(a.at) && a.at <= w.store.now
    ensures a.OwnerDiscard? || a.RetireFile? || (a.BulkSweep? && !a.bulk.RecoverLeases?)
  {
  }

  /** Any other end is a worker's result. */
  lemma {:induction false} OthersDoNotEnd(w: World, a: Action)
    requires Inv(w) && !OwnerAction(a) && EndsNow(w, Apply(w, a))
    ensures a.SettleScan? && a.id in w.workers && w.workers[a.id].Settling?
    ensures w.workers[a.id].settlement.FailWith? || w.workers[a.id].settlement.RejectWith?
    ensures Apply(w, a).row.endedAt == Some(w.workers[a.id].settlement.endedAt)
    ensures Apply(w, a).row.state == if w.workers[a.id].settlement.FailWith? then ScanFailed else FileState.Rejected
    ensures w.workers[a.id].settlement.RejectWith? ==>
              Apply(w, a).row.rejectionReason == Some(w.workers[a.id].settlement.reason)
              && Apply(w, a).row.malwareSignature == w.workers[a.id].settlement.signature
    ensures w.workers[a.id].row == w.row
  {
    StepExecutesItsStatement(w, a);
    var st := StatementOf(w, a).value;
    StatementFits(w, a);
  }

  /**
   The end of a file over every run: a step of the owner, of retention or of a bulk update dates it
   with its own reading; a worker's result with the reading of the claim that came too late, or of
   the scan that rejected, and then the row names what that very scan found.
   */
  lemma {:induction false} EndIsDated(
    context: Context, declaredBytes: nat, at: Instant, actions: seq<Action>, a: Action)
    requires var w := Run(Init(context, declaredBytes, at), actions); EndsNow(w, Apply(w, a))
    ensures var w0 := Init(context, declaredBytes, at);
            var w := Run(w0, actions);
            var row := Apply(w, a).row;
            if OwnerAction(a) then row.endedAt == Some(a.at)
            else
              && a.SettleScan?
              && var d := Diary(w0, actions, a.id);
              && |d| == 2 && d[0].Claim?
              && (|| (d[1].Overdue? && row.state == ScanFailed && row.endedAt == Some(d[0].at))
                  || (d[1].Examine? && row.state == FileState.Rejected && row.endedAt == Some(d[1].at)
                      && row.rejectionReason.Some?
                      && RejectedFor(w.store.uploads, context, declaredBytes, d[1], row.rejectionReason.value,
                             row.malwareSignature)))
  {
    var w0 := Init(context, declaredBytes, at);
    var w := Run(w0, actions);
    RunKeepsInv(context, declaredBytes, at, actions);
    if OwnerAction(a) {
      OwnerEndIsDated(w, a);
    } else {
      OthersDoNotEnd(w, a);
      DiariesAreKept(context, declaredBytes, at, actions, a.id);
      DeclarationStays(context, declaredBytes, at, actions);
    }
  }

  lemma {:induction false} DeclarationStays(context: Context, declaredBytes: nat, at: Instant, actions: seq<Action>)
    ensures var row := Run(Init(context, declaredBytes, at), actions).row;
            row.context == context && row.declaredBytes == declaredBytes
  {
    var w0 := Init(context, declaredBytes, at);
    RunKeepsInv(context, declaredBytes, at, []);
    assert Run(w0, []) == w0;
    RowsFollow(w0, actions);
  }

  /** The time a pass has to wait for, read off the history: a grant, a scan and an unsent file have theirs. */
  function WaitsFor(bulk: Bulk, created: Instant, writes: seq<Write>): Option<Instant> {
    match bulk
    case ExpireGrants => Some(created + 15 * 60_000)
    case DiscardUnsent => LaterBy(Latest(writes, CleanSet), 24 * 3_600_000)
    case FailOverdue => LaterBy(Latest(writes, UploadSet), 24 * 3_600_000)
    case RecoverLeases => None
  }

  function LaterBy(at: Option<Instant>, ms: int): Option<Instant> { if at.Some? then Some(at.value + ms) else None }

  lemma {:induction false} PassEndsFromThen(w: World, bulk: Bulk, reading: Instant)
    requires Inv(w) && reading <= w.store.now
    ensures EndsNow(w, Apply(w, BulkSweep(bulk, reading))) <==>
              && bulk == EndingPass(w.row.state) && !Terminal(w.row.state) && w.row.state != Attached
              && RowChecks(w.row) && reading >= EndableFrom(w.row)
  {
  }

  lemma CreationStep(w: World, a: Action)
    requires Inv(w)
    ensures Apply(w, a).row.createdAt == w.row.createdAt
  {
    StepExecutesItsStatement(w, a);
  }

  lemma {:induction false} CreationStays(context: Context, declaredBytes: nat, at: Instant, actions: seq<Action>)
    ensures Run(Init(context, declaredBytes, at), actions).row.createdAt == at
  {
    if actions != [] {
      CreationStays(context, declaredBytes, at, actions[..|actions| - 1]);
      RunKeepsInv(context, declaredBytes, at, actions[..|actions| - 1]);
      CreationStep(Run(Init(context, declaredBytes, at), actions[..|actions| - 1]), actions[|actions| - 1]);
    }
  }

  /**
   Maintenance ends no file early and, once it may, always: after every run a pass ends the file if and only if it
   is the pass for its state and reads the clock 15 minutes or more after the grant, 24 hours or more after the
   upload with no lease running, or 24 hours or more after the scan that found it clean.
   */
  lemma {:induction false} PassEndsExactly(
    context: Context, declaredBytes: nat, at: Instant, actions: seq<Action>, bulk: Bulk, reading: Instant)
    requires reading <= Run(Init(context, declaredBytes, at), actions).store.now
    ensures var w0 := Init(context, declaredBytes, at);
            var w := Run(w0, actions);
            var due := WaitsFor(bulk, at, Writes(w0, actions));
            EndsNow(w, Apply(w, BulkSweep(bulk, reading))) <==>
              && bulk == EndingPass(w.row.state) && !Terminal(w.row.state) && w.row.state != Attached
              && due.Some? && reading >= due.value
              && (bulk.FailOverdue? && w.row.scanLeaseExpiresAt.Some? ==> w.row.scanLeaseExpiresAt.value <= reading)
  {
    var w0 := Init(context, declaredBytes, at);
    var w := Run(w0, actions);
    RowIsItsHistory(context, declaredBytes, at, actions);
    assert LifeRecords(w.row, Writes(w0, actions));
    RunKeepsInv(context, declaredBytes, at, actions);
    CreationStays(context, declaredBytes, at, actions);
    PassEndsFromThen(w, bulk, reading);
    assert RowChecks(w.row);
  }

  /** A row rejected for malware names the signature that the ending scan found, and no other row names one. */
  lemma {:induction false} MalwareIsNamed(
    context: Context, declaredBytes: nat, at: Instant, actions: seq<Action>)
    ensures var w0 := Init(context, declaredBytes, at);
            var row := Run(w0, actions).row;
            var scan := Latest(Writes(w0, actions), RejectingScan);
            && (row.malwareSignature.Some? <==> row.rejectionReason == Some(Malware))
            && (row.malwareSignature.Some? ==>
                  && scan.Some? && scan.value.Examine? && scan.value.verdict.Found?
                  && scan.value.verdict.reason == Malware && row.malwareSignature.value == scan.value.verdict.signature)
  {
    RowIsItsHistory(context, declaredBytes, at, actions);
    RunKeepsInv(context, declaredBytes, at, actions);
  }

  // ----- readings are not ahead of the clock

  predicate PastWorker(k: Worker, now: Instant) {
    match k
    case Claimed(_, at) => at <= now
    case Settling(_, FailWith(at)) => at <= now
    case Settling(_, RejectWith(_, _, at)) => at <= now
    case _ => true
  }

  predicate Past(w: World) { forall id :: id in w.workers ==> PastWorker(w.workers[id], w.store.now) }

  lemma {:induction false} WorkerStaysPast(w: World, a: Action, k: Worker)
    requires PastWorker(k, w.store.now) && OfProcess(a) && a.id in w.workers && w.workers[a.id] == k
    ensures var w' := ApplyWorker(w, a, k); a.id in w'.workers ==> PastWorker(w'.workers[a.id], w.store.now)
  {
  }

  lemma {:induction false} StepStaysPast(w: World, a: Action)
    requires Past(w)
    ensures Past(Apply(w, a))
  {
    ClockMovesOn(w, a);
    if OfProcess(a) {
      if a.id in w.workers {
        WorkerStaysPast(w, a, w.workers[a.id]);
        WorkerOnlyMoves(w, a);
      } else if a.id in w.sweeps {
        SweepLeavesUploads(w, a, w.sweeps[a.id]);
      }
    }
  }

  lemma {:induction false} RunsArePast(context: Context, declaredBytes: nat, at: Instant, actions: seq<Action>)
    ensures Past(Run(Init(context, declaredBytes, at), actions))
  {
    if actions != [] {
      RunsArePast(context, declaredBytes, at, actions[..|actions| - 1]);
      StepStaysPast(Run(Init(context, declaredBytes, at), actions[..|actions| - 1]), actions[|actions| - 1]);
    }
  }

  lemma {:induction false} EndIsPast(w: World, a: Action)
    requires Reachable(w) && EndsNow(w, Apply(w, a))
    ensures Inv(w) && Apply(w, a).row.endedAt.Some? && Apply(w, a).row.endedAt.value <= w.store.now
  {
    var context, declaredBytes, at, actions :| w == Run(Init(context, declaredBytes, at), actions);
    ReachableInv(w);
    RunsArePast(context, declaredBytes, at, actions);
    if OwnerAction(a) {
      OwnerEndIsDated(w, a);
    } else {
      OthersDoNotEnd(w, a);
      assert PastWorker(w.workers[a.id], w.store.now);
    }
  }

  // ----- the day between the end and the final mark

  /** However the end was dated, the final mark of a file with an intent is set a day after that date or later. */
  lemma {:induction false} MarkIsADayLater(w: World, later: seq<Action>)
    requires Inv(w) && Terminal(w.row.state)
    ensures var row := Run(w, later).row;
            row.cleanCopyIntent && row.cleanPurgedAt.Some? ==>
              w.row.endedAt.Some? && row.cleanPurgedAt.value >= w.row.endedAt.value + DAY_MS
  {
    RowsFollow(w, later);
  }

  /** The mark is set a day after the clock stood at `now`, or later. */
  predicate FullDay(row: Row, now: Instant) {
    row.cleanPurgedAt.Some? ==> row.cleanPurgedAt.value >= now + DAY_MS
  }

  /**
   The store has a full day after the end exactly when the end is dated with the clock of the step
   that recorded it. A step of the owner, of retention or of a bulk update on a current reading
   always leaves it; a worker that records its result later than the reading it rests on does not.
   */
  lemma {:induction false} DayIsFullExactly(w: World, a: Action)
    requires Reachable(w) && EndsNow(w, Apply(w, a)) && Apply(w, a).row.cleanCopyIntent
    ensures (forall later :: FullDay(Run(Apply(w, a), later).row, w.store.now))
            <==> Apply(w, a).row.endedAt == Some(w.store.now)
  {
    EndIsPast(w, a);
    EndIsUnmarked(w, a);
    ActionKeepsInv(w, a);
    EndedDayIsFull(Apply(w, a), w.store.now);
  }

  lemma {:induction false} EndIsUnmarked(w: World, a: Action)
    requires Inv(w) && EndsNow(w, Apply(w, a))
    ensures Apply(w, a).row.cleanPurgedAt.None? && Apply(w, a).store.now == w.store.now
  {
    if !OwnerAction(a) {
      OthersDoNotEnd(w, a);
      ClockMovesOn(w, a);
    }
  }

  lemma {:induction false} EndedDayIsFull(w: World, now: Instant)
    requires Inv(w) && Terminal(w.row.state) && w.row.cleanCopyIntent && w.row.cleanPurgedAt.None?
    requires w.store.now == now && w.row.endedAt.Some? && w.row.endedAt.value <= now
    ensures (forall later :: FullDay(Run(w, later).row, now)) <==> w.row.endedAt == Some(now)
  {
    if w.row.endedAt == Some(now) {
      forall later ensures FullDay(Run(w, later).row, now) {
        MarkIsADayLater(w, later);
        RowsFollow(w, later);
      }
    } else {
      var later := EarlyMark(w, now);
    }
  }

  /** Maintenance can set the mark as soon as a day has passed since the date of the end. */
  lemma {:induction false} EarlyMark(w: World, now: Instant) returns (later: seq<Action>)
    requires Inv(w) && Terminal(w.row.state) && w.store.now == now && w.row.cleanPurgedAt.None?
    requires w.row.endedAt.Some? && w.row.endedAt.value < now
    ensures !FullDay(Run(w, later).row, now)
  {
    LeadsToItself(None, w);
    var w1 := Later(None, w, w, w.row.endedAt.value + DAY_MS);
    var p := UnusedNumber(w1.workers.Keys + w1.sweeps.Keys);
    var w2 := EndedFileIsPurged(None, w, w1, p);
    later :| (forall i :: 0 <= i < |later| ==> Maintenance(None, later[i])) && Run(w, later) == w2;
  }

  // ----- with current readings

  /** Every reading of the clock is the current one; no other habit is asked for. */
  const CURRENT: Discipline := Discipline(false, false, false, false, true)

  lemma {:induction false} ObeysAt(d: Discipline, w: World, actions: seq<Action>, i: nat)
    requires Obeys(d, w, actions) && i < |actions|
    ensures Orderly(d, Run(w, actions[..i]), actions[i])
  {
    var n := |actions| - 1;
    if i < n {
      ObeysAt(d, w, actions[..n], i);
      assert actions[..n][..i] == actions[..i];
    }
  }

  lemma {:induction false} DiaryHappened(w: World, actions: seq<Action>, id: ProcessId, k: nat) returns (i: nat)
    requires k < |Diary(w, actions, id)|
    ensures i < |actions| && actions[i] == Diary(w, actions, id)[k]
  {
    var n := |actions| - 1;
    if k < |Diary(w, actions[..n], id)| && Diary(w, actions[..n], id)[k] == Diary(w, actions, id)[k] {
      i := DiaryHappened(w, actions[..n], id, k);
    } else {
      i := n;
    }
  }

  /**
   On current readings: the final mark of a file with an intent is set at least a day after the
   store's clock at the step that dated the end. That is the ending step itself for the owner, for
   retention and for a bulk update, and the claim or the scan that the worker's result rests on.
   */
  lemma {:induction false} PurgeWaitsADay(
    context: Context, declaredBytes: nat, at: Instant, actions: seq<Action>, a: Action, later: seq<Action>)
    returns (i: nat)
    requires var w0 := Init(context, declaredBytes, at);
             var w := Run(w0, actions);
             var row := Run(Apply(w, a), later).row;
             && Obeys(CURRENT, w0, actions + [a]) && EndsNow(w, Apply(w, a))
             && row.cleanCopyIntent && row.cleanPurgedAt.Some?
    ensures i <= |actions|
    ensures var w0 := Init(context, declaredBytes, at);
            var all := actions + [a];
            && (OwnerAction(a) ==> i == |actions|)
            && (!OwnerAction(a) ==> (all[i].Claim? || all[i].Examine?) && all[i].id == a.id)
            && Run(Apply(Run(w0, actions), a), later).row.cleanPurgedAt.value
               >= Run(w0, all[..i]).store.now + DAY_MS
  {
    var w0 := Init(context, declaredBytes, at);
    var w := Run(w0, actions);
    var all := actions + [a];
    RunKeepsInv(context, declaredBytes, at, actions);
    ActionKeepsInv(w, a);
    EndIsDated(context, declaredBytes, at, actions, a);
    MarkIsADayLater(Apply(w, a), later);
    if OwnerAction(a) {
      i := |actions|;
    } else {
      i := DiaryHappened(w0, actions, a.id, if Diary(w0, actions, a.id)[1].Overdue? then 0 else 1);
      DiaryIsOfOne(w0, actions, a.id);
    }
    assert all[..i] == actions[..i] && all[..|actions|] == actions;
    ObeysAt(CURRENT, w0, all, i);
  }

  lemma {:induction false} DiaryIsOfOne(w: World, actions: seq<Action>, id: ProcessId)
    ensures forall k :: 0 <= k < |Diary(w, actions, id)| ==>
              OfProcess(Diary(w, actions, id)[k]) && Diary(w, actions, id)[k].id == id
  {
    if actions != [] {
      DiaryIsOfOne(w, actions[..|actions| - 1], id);
    }
  }

  // ----- a result recorded late

  lemma {:induction false} Attain(w: World, a: Action, w': World)
    requires Attainable(CURRENT, w) && w' == Apply(w, a) && (Reading(a).Some? ==> Reading(a).value == w.store.now)
    ensures Attainable(CURRENT, w')
  {
    AttainableStep(CURRENT, w, a);
  }

  lemma TinyIsUploadedAtZero()
    ensures var w1 := Apply(Init(Brief, 3, 0), FinishUpload(0));
            var w2 := Apply(w1, PutObject("q", TINY_JPEG));
            w1.store.now == 0 && w2.store.now == 0 && w2.row.scanAttempts == 0
  {
  }

  lemma ClaimKeepsAttempts(w: World, id: ProcessId, at: Instant)
    requires id !in w.workers && id !in w.sweeps
    ensures Apply(w, Claim(id, at)).row.scanAttempts == w.row.scanAttempts
  {
  }

  lemma {:induction false} AttainClaimedTiny() returns (w: World)
    ensures Attainable(CURRENT, w) && ClaimedTiny(w) && w.row.scanAttempts == 0
  {
    var w0 := Init(Brief, 3, 0);
    assert Obeys(CURRENT, w0, []) && Run(w0, []) == w0;
    TinyIsUploaded();
    TinyIsUploadedAtZero();
    TinyIsClaimed();
    var w1 := Apply(w0, FinishUpload(0));
    Attain(w0, FinishUpload(0), w1);
    var w2 := Apply(w1, PutObject("q", TINY_JPEG));
    Attain(w1, PutObject("q", TINY_JPEG), w2);
    w := Apply(w2, Claim(1, 0));
    Attain(w2, Claim(1, 0), w);
    ClaimKeepsAttempts(w2, 1, 0);
  }

  /** The intent is committed and the worker has given up. */
  predicate GaveUp(w: World) {
    && w.store.now == 0 && w.row.state == Scanning && w.row.cleanCopyIntent && w.row.scanAttempts == 0
    && w.row.scanDeadlineAt == Some(SCAN_DEADLINE_MS)
    && w.workers == map[1 := Settling(w.row, Retry(0))] && w.sweeps == map[]
  }

  lemma {:induction false} TinyGivesUp(w: World)
    requires w.store.now == 0 && w.row.state == Scanning && w.row.scanAttempts == 0
    requires w.row.scanDeadlineAt == Some(SCAN_DEADLINE_MS) && w.sweeps == map[]
    requires w.workers.Keys == {1} && w.workers[1].Scanned? && w.workers[1].row == w.row
    ensures GaveUp(Apply(Apply(w, Intend(1, 0)), GiveUp(1, 0)))
    ensures Apply(w, Intend(1, 0)).store.now == 0
  {
    var w1 := Apply(w, Intend(1, 0));
    assert w1 == Intended(w, 1, w.row, w.workers[1].evidence, 0);
    assert w1.workers == map[1 := Intending(w1.row, w.workers[1].evidence)];
    var w2 := Apply(w1, GiveUp(1, 0));
    assert w2 == AtWorker(w1, 1, Settling(w1.row, Retry(0)));
    assert w2.workers == map[1 := Settling(w1.row, Retry(0))];
  }

  lemma {:induction false} AttainGaveUp() returns (w: World)
    ensures Attainable(CURRENT, w) && GaveUp(w)
  {
    var w0 := AttainClaimedTiny();
    TinyIsExamined(w0);
    var examine := Examine(1, Some("q"), TINY_JPEG, NothingFound, 0);
    var w1 := Apply(w0, examine);
    Attain(w0, examine, w1);
    TinyGivesUp(w1);
    var w2 := Apply(w1, Intend(1, 0));
    Attain(w1, Intend(1, 0), w2);
    w := Apply(w2, GiveUp(1, 0));
    Attain(w2, GiveUp(1, 0), w);
  }

  /** The file waits for its next scan, on the day of its deadline. */
  predicate DueAtDeadline(w: World) {
    && w.store.now == SCAN_DEADLINE_MS && w.row.state == Scanning && w.row.cleanCopyIntent
    && w.row.scanDeadlineAt == Some(SCAN_DEADLINE_MS) && w.row.scanLeaseExpiresAt.None?
    && NullOrDue(w.row.nextScanAt, SCAN_DEADLINE_MS) && w.row.scanAttempts <= MAX_SCAN_ATTEMPTS
    && w.workers == map[] && w.sweeps == map[]
  }

  lemma {:induction false} RetryIsSettled(w: World)
    requires GaveUp(w)
    ensures var w' := Apply(w, SettleScan(1, 0));
            && w'.store == w.store && w'.row.state == Scanning && w'.row.cleanCopyIntent
            && w'.row.scanDeadlineAt == w.row.scanDeadlineAt && w'.row.scanLeaseExpiresAt.None?
            && w'.row.nextScanAt == Some(RetryDelayMs(1)) && w'.row.scanAttempts == 1
            && w'.workers == map[] && w'.sweeps == map[]
  {
    assert Apply(w, SettleScan(1, 0)) == ApplyWorker(w, SettleScan(1, 0), w.workers[1]);
    assert Apply(w, SettleScan(1, 0)) == Settled(w, 1, w.row, Retry(0), 0);
  }

  lemma {:induction false} AttainOverdue() returns (w: World)
    ensures Attainable(CURRENT, w) && DueAtDeadline(w)
  {
    var w0 := AttainGaveUp();
    var w1 := Apply(w0, SettleScan(1, 0));
    Attain(w0, SettleScan(1, 0), w1);
    RetryIsSettled(w0);
    RetryDelayDoubles(1);
    w := Apply(w1, Tick(SCAN_DEADLINE_MS));
    Attain(w1, Tick(SCAN_DEADLINE_MS), w);
    assert w == w1.(store := w1.store.(now := SCAN_DEADLINE_MS));
  }

  /** A worker claimed it then and is about to record that it was too late. */
  predicate Failing(w: World, now: Instant) {
    && w.store.now == now && w.row.state == Scanning && w.row.cleanCopyIntent && w.sweeps == map[]
    && w.row.scanAttempts <= MAX_SCAN_ATTEMPTS
    && w.workers == map[1 := Settling(w.row, FailWith(SCAN_DEADLINE_MS))]
  }

  lemma {:induction false} ClaimFails(w: World)
    requires DueAtDeadline(w)
    ensures var w1 := Apply(w, Claim(1, SCAN_DEADLINE_MS));
            w1.store.now == w.store.now && Failing(Apply(w1, Overdue(1)), SCAN_DEADLINE_MS)
  {
    var w1 := Apply(w, Claim(1, SCAN_DEADLINE_MS));
    assert w1 == ApplyStart(w, Claim(1, SCAN_DEADLINE_MS));
    assert w1.workers == map[1 := Claimed(w1.row, SCAN_DEADLINE_MS)];
    var w2 := Apply(w1, Overdue(1));
    assert w2 == AtWorker(w1, 1, Settling(w1.row, FailWith(SCAN_DEADLINE_MS)));
    assert w2.workers == map[1 := Settling(w1.row, FailWith(SCAN_DEADLINE_MS))];
  }

  lemma {:induction false} FailureIsRecorded(w: World, now: Instant)
    requires Failing(w, now)
    ensures var row := Apply(w, SettleScan(1, now)).row;
            row.state == ScanFailed && row.cleanCopyIntent && row.endedAt == Some(SCAN_DEADLINE_MS)
  {
    assert Apply(w, SettleScan(1, now)) == Settled(w, 1, w.row, FailWith(SCAN_DEADLINE_MS), now);
  }

  /**
   It does happen, on current readings: a worker claims a file with an intent at its deadline, and
   records the failure a millisecond later. The end is dated with the claim, so the final mark can
   come less than a day after the step that ended the file.
   */
  lemma {:induction false} LateResultShortensTheDay() returns (w: World, a: Action, later: seq<Action>)
    ensures Attainable(CURRENT, w) && Orderly(CURRENT, w, a) && EndsNow(w, Apply(w, a))
    ensures Apply(w, a).row.cleanCopyIntent && !FullDay(Run(Apply(w, a), later).row, w.store.now)
  {
    var w0 := AttainOverdue();
    ClaimFails(w0);
    var w1 := Apply(w0, Claim(1, SCAN_DEADLINE_MS));
    Attain(w0, Claim(1, SCAN_DEADLINE_MS), w1);
    var w2 := Apply(w1, Overdue(1));
    Attain(w1, Overdue(1), w2);
    w := Apply(w2, Tick(SCAN_DEADLINE_MS + 1));
    Attain(w2, Tick(SCAN_DEADLINE_MS + 1), w);
    a := SettleScan(1, SCAN_DEADLINE_MS + 1);
    FailureIsRecorded(w, SCAN_DEADLINE_MS + 1);
    later := ShortDay(w, a);
  }

  lemma {:induction false} ShortDay(w: World, a: Action) returns (later: seq<Action>)
    requires Attainable(CURRENT, w) && EndsNow(w, Apply(w, a))
    requires Apply(w, a).row.cleanCopyIntent && Apply(w, a).row.endedAt != Some(w.store.now)
    ensures !FullDay(Run(Apply(w, a), later).row, w.store.now)
  {
    AttainableIsReachable(w);
    DayIsFullExactly(w, a);
    later :| !FullDay(Run(Apply(w, a), later).row, w.store.now);
  }

  lemma {:induction false} AttainableIsReachable(w: World)
    requires Attainable(CURRENT, w)
    ensures Reachable(w)
  {
    var context, declaredBytes, at, actions :| Obeys(CURRENT, Init(context, declaredBytes, at), actions)
        && w == Run(Init(context, declaredBytes, at), actions);
  }
}
