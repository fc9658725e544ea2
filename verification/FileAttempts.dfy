/**
 How often a file is scanned. The attempts column is checked to stay within 1000, and a statement
 that breaks the check fails. Whether that can happen depends on how the clocks are read and on
 the order of the sweep's passes; the exact condition is proved here.
 */
module FileAttempts {
  import opened Common
  import opened FileSignature
  import opened FileRows
  import opened FileLifecycle
  import opened FileStatements

  const MINUTE_MS: int := 60_000

  // ----- what can be asked of clocks and sweeps

  /**
   Five habits, each of which may or may not be kept: a worker's clock does not run backwards
   between its claim and its retry; a claim reads the clock after the upload that queued it; a
   sweep does not recover the lease of a row that is already overdue; an upload is not dated
   before the row's creation; every reading of the clock is the current one.
   */
  datatype Discipline = Discipline(forward: bool, queued: bool, failFirst: bool, dated: bool, current: bool)

  const ORDERLY: Discipline := Discipline(true, true, true, true, false)

  /** The habits that bound attempts in step with the clock. */
  const TIMELY: Discipline := Discipline(true, true, false, false, false)

  /** When the lease in the row was taken. */
  function ClaimedAt(row: Row): Instant
    requires row.scanLeaseExpiresAt.Some?
  {
    row.scanLeaseExpiresAt.value - SCAN_LEASE_MS
  }

  predicate ClockForward(k: Worker, at: Instant) {
    Retriable(k) && k.row.scanLeaseExpiresAt.Some? ==> at >= ClaimedAt(k.row)
  }

  predicate NotBefore(column: Option<Instant>, at: Instant) { column.Some? ==> at >= column.value }

  predicate NotOverdue(row: Row, at: Instant) { row.scanDeadlineAt.Some? ==> at < row.scanDeadlineAt.value }

  /** The step's reading of the clock, if it makes one. */
  function Reading(a: Action): Option<Instant> {
    match a
    case FinishUpload(at) => Some(at)
    case OwnerDiscard(at) => Some(at)
    case Attach(_, at) => Some(at)
    case RetireFile(_, at) => Some(at)
    case BulkSweep(_, at) => Some(at)
    case Claim(_, at) => Some(at)
    case Examine(_, _, _, _, at) => Some(at)
    case GiveUp(_, at) => Some(at)
    case Intend(_, at) => Some(at)
    case Verify(_, at) => Some(at)
    case SettleScan(_, at) => Some(at)
    case MarkWinnerPurge(_, at) => Some(at)
    case Select(_, at) => Some(at)
    case _ => None
  }

  predicate KeepsTime(d: Discipline, w: World, a: Action) {
    match a
    case Claim(_, at) => d.queued ==> NotBefore(w.row.uploadedAt, at)
    case GiveUp(id, at) => d.forward && id in w.workers ==> ClockForward(w.workers[id], at)
    case BulkSweep(bulk, at) => d.failFirst && bulk.RecoverLeases? ==> NotOverdue(w.row, at)
    case FinishUpload(at) => d.dated ==> at >= w.row.createdAt
    case _ => true
  }

  predicate Orderly(d: Discipline, w: World, a: Action) {
    KeepsTime(d, w, a) && (d.current && Reading(a).Some? ==> Reading(a).value == w.store.now)
  }

  ghost predicate Obeys(d: Discipline, w: World, actions: seq<Action>) {
    actions != [] ==>
      var n := |actions| - 1;
      Obeys(d, w, actions[..n]) && Orderly(d, Run(w, actions[..n]), actions[n])
  }

  /** Some file reaches this state in a run that keeps the habits. */
  ghost predicate Attainable(d: Discipline, w: World) {
    exists context, declaredBytes, at, actions ::
      Obeys(d, Init(context, declaredBytes, at), actions) && w == Run(Init(context, declaredBytes, at), actions)
  }

  ghost predicate StepRefused(w: World, a: Action) {
    StatementOf(w, a).Some? && Refused(w.row, StatementOf(w, a).value)
  }

  // ----- the habits bound the attempts

  /** The least time that n attempts take: a retry waits its delay, a recovery waits for the lease. */
  function Gap(n: nat): int {
    if n == 0 then 0 else Gap(n - 1) + Min(RetryDelayMs(n), SCAN_LEASE_MS)
  }

  lemma DelayIsLong(n: nat)
    requires n >= 5
    ensures RetryDelayMs(n) >= SCAN_LEASE_MS
    decreases n
  {
    RetryDelayDoubles(n - 1);
    if n > 5 {
      DelayIsLong(n - 1);
    } else {
      RetryDelayDoubles(1);
      RetryDelayDoubles(2);
      RetryDelayDoubles(3);
    }
  }

  lemma {:induction false} DelayGrows(n: nat, m: nat)
    requires 0 < n <= m
    ensures RetryDelayMs(n) <= RetryDelayMs(m)
    decreases m
  {
    if n < m {
      DelayGrows(n, m - 1);
      RetryDelayDoubles(m - 1);
    }
  }

  lemma FirstGaps()
    ensures Gap(1) == MINUTE_MS && Gap(2) == 3 * MINUTE_MS && Gap(3) == 7 * MINUTE_MS && Gap(4) == 15 * MINUTE_MS
  {
    RetryDelayDoubles(1);
    RetryDelayDoubles(2);
    RetryDelayDoubles(3);
  }

  lemma {:induction false} GapIsLong(n: nat)
    ensures Gap(n) >= (10 * n - 25) * MINUTE_MS
  {
    FirstGaps();
    if n > 4 {
      GapIsLong(n - 1);
      DelayIsLong(n);
    }
  }

  /** A recovery that takes effect on a row that is already overdue. */
  predicate Late(row: Row, st: Statement) {
    && st.BulkUpdate? && st.bulk.RecoverLeases? && Written(row, st).Some? && !Refused(row, st)
    && !NotOverdue(row, st.at)
  }

  /** How many steps of a run recover an overdue row. */
  ghost function LateRecoveries(w: World, actions: seq<Action>): nat {
    if actions == [] then 0
    else
      var n := |actions| - 1;
      LateRecoveries(w, actions[..n]) + (if LateStep(Run(w, actions[..n]), actions[n]) then 1 else 0)
  }

  predicate LateStep(w: World, a: Action) {
    StatementOf(w, a).Some? && Late(w.row, StatementOf(w, a).value)
  }

  /** The row's clock columns account for its attempts since the upload, but for `late` of them. */
  ghost predicate TimedRow(row: Row, late: nat) {
    late <= row.scanAttempts
    && var n := row.scanAttempts - late;
    && (n > 0 ==> Gap(n - 1) < SCAN_DEADLINE_MS)
    && (row.state == AwaitingUpload ==> row.scanAttempts == 0)
    && (row.state == Scanning && row.uploadedAt.Some? ==>
          var due := row.uploadedAt.value + Gap(n);
          && (row.nextScanAt.None? ==> row.scanAttempts == 0)
          && (row.nextScanAt.Some? ==> row.nextScanAt.value >= due)
          && (row.scanLeaseExpiresAt.Some? ==> ClaimedAt(row) >= due))
  }

  predicate ClaimedInTime(row: Row) {
    row.scanLeaseExpiresAt.Some? && row.scanDeadlineAt.Some? && ClaimedAt(row) < row.scanDeadlineAt.value
  }

  predicate TimedWorker(k: Worker) {
    match k
    case Claimed(row, claimedAt) => row.scanLeaseExpiresAt.Some? && ClaimedAt(row) == claimedAt
    case Settling(row, s) => s.Retry? ==> ClaimedInTime(row) && s.from >= ClaimedAt(row)
    case Won => true
    case Purging(_) => true
    case Purged => true
    case _ => ClaimedInTime(k.row)
  }

  ghost predicate Timed(w: World, late: nat) {
    TimedRow(w.row, late) && forall id :: id in w.workers ==> TimedWorker(w.workers[id])
  }

  /** What a timely run guarantees of the values in a statement. */
  predicate InTime(row: Row, st: Statement) {
    match st
    case TakeLease(at) => NotBefore(row.uploadedAt, at)
    case SettleTo(claimed, s, _) => s.Retry? ==> ClaimedInTime(claimed) && s.from >= ClaimedAt(claimed)
    case _ => true
  }

  lemma {:induction false} RetryKeepsTime(row: Row, late: nat, claimed: Row, s: Settlement, at: Instant)
    requires RowOk(row) && TimedRow(row, late) && s.Retry?
    requires Fits(row, SettleTo(claimed, s, at)) && InTime(row, SettleTo(claimed, s, at))
             && row.version == claimed.version
    ensures TimedRow(Settle(row, claimed, s, at).value, late)
  {
    var n := row.scanAttempts - late;
    DelayGrows(n + 1, row.scanAttempts + 1);
    assert Gap(n + 1) == Gap(n) + Min(RetryDelayMs(n + 1), SCAN_LEASE_MS);
  }

  lemma {:induction false} RecoveryKeepsTime(row: Row, late: nat, at: Instant)
    requires RowOk(row) && TimedRow(row, late) && Matches(RecoverLeases, row, at)
    ensures TimedRow(BulkUpdated(RecoverLeases, row, at), if NotOverdue(row, at) then late else late + 1)
  {
    var n := row.scanAttempts - late;
    assert Gap(n + 1) == Gap(n) + Min(RetryDelayMs(n + 1), SCAN_LEASE_MS);
  }

  lemma {:induction false} StatementKeepsTime(row: Row, late: nat, st: Statement)
    requires RowOk(row) && TimedRow(row, late) && Fits(row, st) && InTime(row, st)
    ensures TimedRow(Executed(row, st), if Late(row, st) then late + 1 else late)
  {
    if Written(row, st).Some? && !Refused(row, st) {
      if st.SettleTo? {
        SettlementKeepsTime(row, late, st.claimed, st.settlement, st.at);
      } else if st.BulkUpdate? && st.bulk.RecoverLeases? {
        RecoveryKeepsTime(row, late, st.at);
      } else if st.TakeLease? {
        LeaseKeepsTime(row, late, st.at);
      } else {
        OthersKeepTime(row, late, st);
      }
    }
  }

  lemma {:induction false} SettlementKeepsTime(row: Row, late: nat, claimed: Row, s: Settlement, at: Instant)
    requires RowOk(row) && TimedRow(row, late)
    requires Fits(row, SettleTo(claimed, s, at)) && InTime(row, SettleTo(claimed, s, at))
             && row.version == claimed.version
    ensures TimedRow(Settle(row, claimed, s, at).value, late)
  {
    if s.Retry? {
      RetryKeepsTime(row, late, claimed, s, at);
    }
  }

  lemma {:induction false} LeaseKeepsTime(row: Row, late: nat, at: Instant)
    requires RowOk(row) && TimedRow(row, late) && ClaimScan(row, at).Some? && NotBefore(row.uploadedAt, at)
    ensures TimedRow(ClaimScan(row, at).value, late)
  {
  }

  /** No other statement counts an attempt or moves a clock column of a scanning row. */
  lemma {:induction false} OthersKeepTime(row: Row, late: nat, st: Statement)
    requires RowOk(row) && TimedRow(row, late) && Written(row, st).Some?
    requires !st.SettleTo? && !st.TakeLease? && !(st.BulkUpdate? && st.bulk.RecoverLeases?)
    ensures TimedRow(Written(row, st).value, late)
  {
    if st.BulkUpdate? {
      BulkLeavesClock(row, st.bulk, st.at);
    } else {
      OthersLeaveClock(row, st);
    }
    SameClockKeepsTime(row, late, Written(row, st).value);
  }

  lemma {:induction false} SameClockKeepsTime(row: Row, late: nat, after: Row)
    requires RowOk(row) && TimedRow(row, late) && SameClock(row, after)
    ensures TimedRow(after, late)
  {
  }

  lemma {:induction false} BulkLeavesClock(row: Row, bulk: Bulk, at: Instant)
    requires RowOk(row) && Matches(bulk, row, at) && !bulk.RecoverLeases?
    ensures SameClock(row, BulkUpdated(bulk, row, at))
  {
  }

  predicate SameClock(row: Row, after: Row) {
    && after.scanAttempts == row.scanAttempts && (after.state == AwaitingUpload ==> row.state == AwaitingUpload)
    && (after.state == Scanning ==>
          || (row.state == AwaitingUpload && after.nextScanAt.None? && after.scanLeaseExpiresAt.None?)
          || (row.state == Scanning && after.uploadedAt == row.uploadedAt && after.nextScanAt == row.nextScanAt
              && after.scanLeaseExpiresAt == row.scanLeaseExpiresAt))
  }

  lemma {:induction false} OthersLeaveClock(row: Row, st: Statement)
    requires RowOk(row) && Written(row, st).Some? && !st.SettleTo? && !st.TakeLease? && !st.BulkUpdate?
    ensures SameClock(row, Written(row, st).value)
  {
  }

  lemma StepIsInTime(w: World, a: Action, late: nat)
    requires Timed(w, late) && Orderly(TIMELY, w, a) && StatementOf(w, a).Some?
    ensures InTime(w.row, StatementOf(w, a).value)
  {
    if !StoreAction(a) && !OwnerAction(a) && a.id in w.workers {
      assert TimedWorker(w.workers[a.id]);
    }
  }

  /** A step moves at most the worker it names. */
  lemma WorkerStaysTimed(w: World, a: Action, k: Worker)
    requires Positioned(w.row, k) && TimedWorker(k) && Orderly(TIMELY, w, a)
    requires !StoreAction(a) && !OwnerAction(a) && a.id in w.workers && w.workers[a.id] == k
    ensures var w' := ApplyWorker(w, a, k); a.id in w'.workers ==> TimedWorker(w'.workers[a.id])
  {
    if a.Intend? && k.Scanned? {
      IntentIsTimed(w, a.id, k.row, k.evidence, a.at);
    }
  }

  lemma IntentIsTimed(w: World, id: ProcessId, row: Row, e: Evidence, at: Instant)
    requires Seen(w.row, row) && ClaimedInTime(row)
    ensures var w' := Intended(w, id, row, e, at); id in w'.workers ==> TimedWorker(w'.workers[id])
  {
  }

  predicate OthersStay(workers: map<ProcessId, Worker>, after: map<ProcessId, Worker>, id: ProcessId) {
    forall i :: i in after && i != id ==> i in workers && after[i] == workers[i]
  }

  lemma OtherWorkersStay(w: World, a: Action, k: Worker)
    requires !StoreAction(a) && !OwnerAction(a)
    ensures OthersStay(w.workers, ApplyWorker(w, a, k).workers, a.id)
  {
  }

  lemma {:induction false} RowStaysTimed(w: World, a: Action, late: nat)
    requires Inv(w) && Timed(w, late) && Orderly(TIMELY, w, a)
    ensures TimedRow(Apply(w, a).row, if LateStep(w, a) then late + 1 else late)
  {
    StepExecutesItsStatement(w, a);
    var st := StatementOf(w, a);
    if st.Some? {
      StatementFits(w, a);
      StepIsInTime(w, a, late);
      StatementKeepsTime(w.row, late, st.value);
    }
  }

  lemma {:induction false} StepKeepsTimed(w: World, a: Action, late: nat)
    requires Inv(w) && Timed(w, late) && Orderly(TIMELY, w, a)
    ensures Timed(Apply(w, a), if LateStep(w, a) then late + 1 else late)
  {
    RowStaysTimed(w, a, late);
    if !StoreAction(a) && !OwnerAction(a) && a.id in w.workers {
      assert WorkerInv(w.store, w.row, w.workers[a.id]);
    }
    WorkersStayTimed(w, a);
  }

  lemma {:induction false} WorkersStayTimed(w: World, a: Action)
    requires (forall id :: id in w.workers ==> TimedWorker(w.workers[id])) && Orderly(TIMELY, w, a)
    requires !StoreAction(a) && !OwnerAction(a) && a.id in w.workers ==> Positioned(w.row, w.workers[a.id])
    ensures forall id :: id in Apply(w, a).workers ==> TimedWorker(Apply(w, a).workers[id])
  {
    if !StoreAction(a) && !OwnerAction(a) {
      if a.id in w.workers {
        WorkerStaysTimed(w, a, w.workers[a.id]);
        OtherWorkersStay(w, a, w.workers[a.id]);
      } else if a.id in w.sweeps {
        SweepLeavesWorkers(w, a, w.sweeps[a.id]);
      } else {
        StartIsTimed(w, a);
      }
    }
  }

  lemma SweepLeavesWorkers(w: World, a: Action, s: Sweep)
    ensures ApplySweep(w, a, s).workers == w.workers
  {
  }

  lemma StartIsTimed(w: World, a: Action)
    requires !StoreAction(a) && !OwnerAction(a) && a.id !in w.workers
    ensures var w' := ApplyStart(w, a);
            (a.id in w'.workers ==> TimedWorker(w'.workers[a.id])) && OthersStay(w.workers, w'.workers, a.id)
  {
  }

  lemma {:induction false} TimelyRunIsTimed(context: Context, declaredBytes: nat, at: Instant, actions: seq<Action>)
    requires Obeys(TIMELY, Init(context, declaredBytes, at), actions)
    ensures var w0 := Init(context, declaredBytes, at);
            Inv(Run(w0, actions)) && Timed(Run(w0, actions), LateRecoveries(w0, actions))
  {
    if actions != [] {
      var n := |actions| - 1;
      var w0 := Init(context, declaredBytes, at);
      TimelyRunIsTimed(context, declaredBytes, at, actions[..n]);
      var w := Run(w0, actions[..n]);
      StepIsTimed(w, actions[n], LateRecoveries(w0, actions[..n]));
    }
  }

  lemma {:induction false} StepIsTimed(w: World, a: Action, late: nat)
    requires Inv(w) && Timed(w, late) && Orderly(TIMELY, w, a)
    ensures Inv(Apply(w, a)) && Timed(Apply(w, a), late + if LateStep(w, a) then 1 else 0)
  {
    StepKeepsTimed(w, a, late);
    ActionKeepsInv(w, a);
  }

  lemma {:induction false} TimedMeansFew(row: Row, late: nat)
    requires TimedRow(row, late)
    ensures row.scanAttempts <= 147 + late
  {
    if row.scanAttempts > late {
      GapIsLong(row.scanAttempts - late - 1);
    }
  }

  /**
   The price of each late recovery is one attempt: with worker clocks that do not run backwards and
   claims read after the upload, a file is attempted at most 147 times and once more for every time
   it was recovered while overdue.
   */
  lemma {:induction false} AttemptsAreBounded(context: Context, declaredBytes: nat, at: Instant, actions: seq<Action>)
    requires Obeys(TIMELY, Init(context, declaredBytes, at), actions)
    ensures var w0 := Init(context, declaredBytes, at);
            Run(w0, actions).row.scanAttempts <= 147 + LateRecoveries(w0, actions)
  {
    TimelyRunIsTimed(context, declaredBytes, at, actions);
    var w0 := Init(context, declaredBytes, at);
    TimedMeansFew(Run(w0, actions).row, LateRecoveries(w0, actions));
  }

  // ----- current clocks keep the other habits of time

  /** No column of the row lies ahead of the clock by more than the lease it carries. */
  predicate ClockedRow(row: Row, now: Instant) {
    && row.createdAt <= now && NotBefore(row.uploadedAt, now)
    && (row.scanLeaseExpiresAt.Some? ==> ClaimedAt(row) <= now)
  }

  predicate ClockedWorker(k: Worker, now: Instant) {
    Retriable(k) && k.row.scanLeaseExpiresAt.Some? ==> ClaimedAt(k.row) <= now
  }

  predicate Clocked(w: World) {
    ClockedRow(w.row, w.store.now) && forall id :: id in w.workers ==> ClockedWorker(w.workers[id], w.store.now)
  }

  lemma {:induction false} StatementKeepsClocked(row: Row, st: Statement, now: Instant)
    requires ClockedRow(row, now) && (st.at <= now || st.MarkPurge?)
    ensures ClockedRow(Executed(row, st), now)
  {
    if Written(row, st).Some? {
      if st.SettleTo? {
        SettledIsClocked(row, st.claimed, st.settlement, st.at, now);
      } else if st.BulkUpdate? {
        BulkIsClocked(row, st.bulk, st.at, now);
      } else {
        OthersAreClocked(row, st, now);
      }
    }
  }

  lemma {:induction false} SettledIsClocked(row: Row, claimed: Row, s: Settlement, at: Instant, now: Instant)
    requires ClockedRow(row, now) && row.version == claimed.version
    ensures ClockedRow(Settle(row, claimed, s, at).value, now)
  {
  }

  lemma {:induction false} BulkIsClocked(row: Row, bulk: Bulk, at: Instant, now: Instant)
    requires ClockedRow(row, now)
    ensures ClockedRow(BulkUpdated(bulk, row, at), now)
  {
  }

  lemma {:induction false} OthersAreClocked(row: Row, st: Statement, now: Instant)
    requires ClockedRow(row, now) && (st.at <= now || st.MarkPurge?) && !st.SettleTo? && !st.BulkUpdate?
             && Written(row, st).Some?
    ensures ClockedRow(Written(row, st).value, now)
  {
  }

  lemma {:induction false} StatementIsPast(w: World, a: Action)
    requires StatementOf(w, a).Some?
    ensures StatementOf(w, a).value.at <= w.store.now || StatementOf(w, a).value.MarkPurge?
  {
  }

  lemma WorkerStaysClocked(w: World, a: Action, k: Worker)
    requires ClockedRow(w.row, w.store.now) && ClockedWorker(k, w.store.now)
    requires !StoreAction(a) && !OwnerAction(a) && a.id in w.workers && w.workers[a.id] == k
    ensures var w' := ApplyWorker(w, a, k); a.id in w'.workers ==> ClockedWorker(w'.workers[a.id], w.store.now)
  {
  }

  lemma StartIsClocked(w: World, a: Action)
    requires !StoreAction(a) && !OwnerAction(a) && a.id !in w.workers
    ensures var w' := ApplyStart(w, a);
            && (a.id in w'.workers ==> ClockedWorker(w'.workers[a.id], w.store.now))
            && OthersStay(w.workers, w'.workers, a.id)
  {
  }

  lemma ClockMovesOn(w: World, a: Action)
    ensures Apply(w, a).store.now >= w.store.now
    ensures !StoreAction(a) ==> Apply(w, a).store.now == w.store.now
  {
  }

  lemma {:induction false} WorkersStayClocked(w: World, a: Action)
    requires Clocked(w)
    ensures forall id :: id in Apply(w, a).workers ==> ClockedWorker(Apply(w, a).workers[id], Apply(w, a).store.now)
  {
    ClockMovesOn(w, a);
    if !StoreAction(a) && !OwnerAction(a) {
      if a.id in w.workers {
        WorkerStaysClocked(w, a, w.workers[a.id]);
        OtherWorkersStay(w, a, w.workers[a.id]);
      } else if a.id in w.sweeps {
        SweepLeavesWorkers(w, a, w.sweeps[a.id]);
      } else {
        StartIsClocked(w, a);
      }
    }
  }

  lemma {:induction false} StepKeepsClocked(w: World, a: Action)
    requires Inv(w) && Clocked(w)
    ensures Clocked(Apply(w, a))
  {
    StepExecutesItsStatement(w, a);
    ClockMovesOn(w, a);
    if StatementOf(w, a).Some? {
      StatementIsPast(w, a);
      StatementKeepsClocked(w.row, StatementOf(w, a).value, w.store.now);
    }
    WorkersStayClocked(w, a);
  }

  lemma {:induction false} RunsAreClocked(context: Context, declaredBytes: nat, at: Instant, actions: seq<Action>)
    ensures var w := Run(Init(context, declaredBytes, at), actions); Inv(w) && Clocked(w)
  {
    if actions != [] {
      var n := |actions| - 1;
      RunsAreClocked(context, declaredBytes, at, actions[..n]);
      StepKeepsClocked(Run(Init(context, declaredBytes, at), actions[..n]), actions[n]);
      ActionKeepsInv(Run(Init(context, declaredBytes, at), actions[..n]), actions[n]);
    }
  }

  /** `d` asks for all that `e` asks for: directly, or because current clocks imply it. */
  predicate Covers(d: Discipline, e: Discipline) {
    && !e.current && (e.failFirst ==> d.failFirst)
    && (d.current || ((e.forward ==> d.forward) && (e.queued ==> d.queued) && (e.dated ==> d.dated)))
  }

  lemma {:induction false} OrderlyIsCovered(d: Discipline, e: Discipline, w: World, a: Action)
    requires Covers(d, e) && Clocked(w) && Orderly(d, w, a)
    ensures Orderly(e, w, a)
  {
    if a.GiveUp? && a.id in w.workers {
      assert ClockedWorker(w.workers[a.id], w.store.now);
    }
  }

  lemma {:induction false} ObeysIsCovered(
    d: Discipline, e: Discipline, context: Context, declaredBytes: nat, at: Instant, actions: seq<Action>)
    requires Covers(d, e) && Obeys(d, Init(context, declaredBytes, at), actions)
    ensures Obeys(e, Init(context, declaredBytes, at), actions)
  {
    if actions != [] {
      var n := |actions| - 1;
      ObeysIsCovered(d, e, context, declaredBytes, at, actions[..n]);
      RunsAreClocked(context, declaredBytes, at, actions[..n]);
      OrderlyIsCovered(d, e, Run(Init(context, declaredBytes, at), actions[..n]), actions[n]);
    }
  }

  lemma {:induction false} NothingIsLate(context: Context, declaredBytes: nat, at: Instant, actions: seq<Action>)
    requires Obeys(ORDERLY, Init(context, declaredBytes, at), actions)
    ensures LateRecoveries(Init(context, declaredBytes, at), actions) == 0
  {
    if actions != [] {
      NothingIsLate(context, declaredBytes, at, actions[..|actions| - 1]);
      OrderlyIsNotLate(Run(Init(context, declaredBytes, at), actions[..|actions| - 1]), actions[|actions| - 1]);
    }
  }

  lemma {:induction false} OrderlyIsNotLate(w: World, a: Action)
    requires Orderly(ORDERLY, w, a)
    ensures !LateStep(w, a)
  {
  }

  lemma {:induction false} CoveredIsFew(d: Discipline, w: World)
    requires Attainable(d, w) && Covers(d, ORDERLY)
    ensures Inv(w) && Clocked(w) && w.row.scanAttempts <= 147
  {
    var context, declaredBytes, at, actions :|
      Obeys(d, Init(context, declaredBytes, at), actions) && w == Run(Init(context, declaredBytes, at), actions);
    RunsAreClocked(context, declaredBytes, at, actions);
    ObeysIsCovered(d, ORDERLY, context, declaredBytes, at, actions);
    ObeysIsCovered(ORDERLY, TIMELY, context, declaredBytes, at, actions);
    NothingIsLate(context, declaredBytes, at, actions);
    AttemptsAreBounded(context, declaredBytes, at, actions);
  }

  /** In an orderly run a file is scanned at most 147 times, whatever fails and however often. */
  lemma {:induction false} FewAttempts(d: Discipline, w: World)
    requires Attainable(d, w) && Covers(d, ORDERLY)
    ensures w.row.scanAttempts <= 147
  {
    CoveredIsFew(d, w);
  }

  lemma {:induction false} CoveredStepIsNotRefused(d: Discipline, w: World, a: Action)
    requires Attainable(d, w) && Orderly(d, w, a) && Covers(d, ORDERLY)
    ensures !StepRefused(w, a)
  {
    CoveredIsFew(d, w);
    OrderlyIsCovered(d, ORDERLY, w, a);
    FewAreNotRefused(w, a);
  }

  lemma {:induction false} FewAreNotRefused(w: World, a: Action)
    requires Inv(w) && w.row.scanAttempts <= 147 && Orderly(ORDERLY, w, a)
    ensures !StepRefused(w, a)
  {
    if StatementOf(w, a).Some? {
      StepRefusedExactly(w, a);
    }
  }

  // ----- and no habit can be dropped

  lemma {:induction false} AttainableStart(d: Discipline)
    ensures Attainable(d, Init(Brief, 1, 0))
  {
    assert Obeys(d, Init(Brief, 1, 0), []) && Run(Init(Brief, 1, 0), []) == Init(Brief, 1, 0);
  }

  lemma {:induction false} AttainableStep(d: Discipline, w: World, a: Action)
    requires Attainable(d, w) && Orderly(d, w, a)
    ensures Attainable(d, Apply(w, a))
  {
    var context, declaredBytes, at, actions :| Obeys(d, Init(context, declaredBytes, at), actions)
        && w == Run(Init(context, declaredBytes, at), actions);
    var more := actions + [a];
    assert more[..|more| - 1] == actions;
    assert Obeys(d, Init(context, declaredBytes, at), more);
    assert Apply(w, a) == Run(Init(context, declaredBytes, at), more);
  }

  /** A file uploaded at 0 that waits for its next scan, with `n` attempts behind it, due by `t`. */
  predicate Waiting(w: World, n: nat, t: Instant) {
    && w.row.state == Scanning && w.row.uploadedAt == Some(0) && w.row.scanDeadlineAt == Some(SCAN_DEADLINE_MS)
    && w.row.scanAttempts == n && w.row.scanLeaseExpiresAt.None? && NullOrDue(w.row.nextScanAt, t)
    && t <= w.store.now && w.workers == map[] && w.sweeps == map[]
  }

  /** The same file, claimed at `t` by worker 1. */
  predicate Taken(w: World, n: nat, t: Instant) {
    && w.row.state == Scanning && w.row.uploadedAt == Some(0) && w.row.scanDeadlineAt == Some(SCAN_DEADLINE_MS)
    && w.row.scanAttempts == n && w.row.scanLeaseExpiresAt == Some(t + SCAN_LEASE_MS)
    && t <= w.store.now && w.workers == map[1 := Claimed(w.row, t)] && w.sweeps == map[]
  }

  lemma {:induction false} FirstWait(d: Discipline) returns (w: World)
    ensures Attainable(d, w) && Waiting(w, 0, -2_000_000_000)
    ensures w.store.now == 0 && w.row.nextScanAt.None?
  {
    var w0 := Init(Brief, 1, 0);
    AttainableStart(d);
    AttainableStep(d, w0, FinishUpload(0));
    w := Apply(w0, FinishUpload(0));
  }

  lemma {:induction false} TakeIt(d: Discipline, w: World, n: nat, t: Instant) returns (w': World)
    requires Attainable(d, w) && Waiting(w, n, t) && (d.queued ==> t >= 0) && (d.current ==> t == w.store.now)
    ensures Attainable(d, w') && Taken(w', n, t) && w'.store == w.store
  {
    AttainableStep(d, w, Claim(1, t));
    w' := Apply(w, Claim(1, t));
    assert w' == ApplyStart(w, Claim(1, t));
  }

  /** The worker gives up at `g`, and is about to record it. */
  predicate GivingUp(w: World, n: nat, t: Instant, g: Instant) {
    && w.row.state == Scanning && w.row.uploadedAt == Some(0) && w.row.scanDeadlineAt == Some(SCAN_DEADLINE_MS)
    && w.row.scanAttempts == n && t <= w.store.now
    && w.workers == map[1 := Settling(w.row, Retry(g))] && w.sweeps == map[]
  }

  lemma {:induction false} GiveItUp(d: Discipline, w: World, n: nat, t: Instant, g: Instant) returns (w': World)
    requires Attainable(d, w) && Taken(w, n, t) && t < SCAN_DEADLINE_MS && (d.forward ==> g >= t) && !d.current
    ensures Attainable(d, w') && GivingUp(w', n, t, g) && w'.store == w.store
  {
    AttainableStep(d, w, GiveUp(1, g));
    w' := Apply(w, GiveUp(1, g));
    GiveUpEffect(w, n, t, g);
  }

  lemma {:induction false} GiveUpEffect(w: World, n: nat, t: Instant, g: Instant)
    requires Taken(w, n, t) && t < SCAN_DEADLINE_MS
    ensures GivingUp(Apply(w, GiveUp(1, g)), n, t, g) && Apply(w, GiveUp(1, g)).store == w.store
  {
    assert Apply(w, GiveUp(1, g)) == ApplyWorker(w, GiveUp(1, g), w.workers[1]);
  }

  lemma {:induction false} RecordIt(
    d: Discipline, w: World, n: nat, t: Instant, g: Instant, next: Instant) returns (w': World)
    requires Attainable(d, w) && GivingUp(w, n, t, g) && n < MAX_SCAN_ATTEMPTS && !d.current
    requires g + RETRY_MAX_MS <= next <= w.store.now
    ensures Attainable(d, w') && Waiting(w', n + 1, next) && w'.store == w.store
  {
    AttainableStep(d, w, SettleScan(1, t));
    w' := Apply(w, SettleScan(1, t));
    RecordEffect(w, n, t, g, next);
  }

  lemma {:induction false} RecordEffect(w: World, n: nat, t: Instant, g: Instant, next: Instant)
    requires GivingUp(w, n, t, g) && n < MAX_SCAN_ATTEMPTS && g + RETRY_MAX_MS <= next <= w.store.now
    ensures Waiting(Apply(w, SettleScan(1, t)), n + 1, next) && Apply(w, SettleScan(1, t)).store == w.store
  {
    RetriedRow(w.row, t, g);
    RetryIsStored(w, t, g);
  }

  lemma {:induction false} RetriedRow(row: Row, t: Instant, g: Instant)
    ensures var after := Settle(row, row, Retry(g), t).value;
            && after.state == row.state && after.uploadedAt == row.uploadedAt
            && after.scanDeadlineAt == row.scanDeadlineAt
            && after.scanAttempts == row.scanAttempts + 1 && after.scanLeaseExpiresAt.None?
            && after.nextScanAt.Some? && after.nextScanAt.value <= g + RETRY_MAX_MS
  {
    RetryDelayDoubles(row.scanAttempts + 1);
  }

  lemma {:induction false} RetryIsStored(w: World, t: Instant, g: Instant)
    requires w.workers == map[1 := Settling(w.row, Retry(g))] && t <= w.store.now
             && w.row.scanAttempts < MAX_SCAN_ATTEMPTS
    ensures var w' := Apply(w, SettleScan(1, t));
            w'.row == Settle(w.row, w.row, Retry(g), t).value && w'.store == w.store && w'.workers == map[]
                && w'.sweeps == w.sweeps
  {
    assert Apply(w, SettleScan(1, t)) == ApplyWorker(w, SettleScan(1, t), w.workers[1]);
    assert ApplyWorker(w, SettleScan(1, t), w.workers[1]) == Settled(w, 1, w.row, Retry(g), t);
  }

  /** Worker clocks that run backwards: every retry is due at once. */
  lemma {:induction false} BackwardClocks(d: Discipline, n: nat) returns (w: World)
    requires !d.forward && !d.current && n <= MAX_SCAN_ATTEMPTS
    ensures Attainable(d, w) && Waiting(w, n, 0) && w.store.now == 0
  {
    if n == 0 {
      w := FirstWait(d);
    } else {
      w := BackwardClocks(d, n - 1);
      w := TakeIt(d, w, n - 1, 0);
      w := GiveItUp(d, w, n - 1, 0, -2_000_000);
      w := RecordIt(d, w, n - 1, 0, -2_000_000, 0);
    }
  }

  /** The instant of the n-th claim in a run whose first claims are read long before the upload. */
  function EarlyClaim(n: int): Instant { (n - 1000) * RETRY_MAX_MS }

  lemma NextEarlyClaim(n: int)
    ensures EarlyClaim(n) == EarlyClaim(n - 1) + RETRY_MAX_MS
    ensures n <= 1000 ==> EarlyClaim(n) <= 0
  {
  }

  lemma {:induction false} EarlyClocks(d: Discipline, n: nat) returns (w: World)
    requires !d.queued && !d.current && n <= MAX_SCAN_ATTEMPTS
    ensures Attainable(d, w) && Waiting(w, n, EarlyClaim(n)) && w.store.now == 0
  {
    if n == 0 {
      w := FirstWait(d);
    } else {
      var t := EarlyClaim(n - 1);
      NextEarlyClaim(n);
      w := EarlyClocks(d, n - 1);
      w := TakeIt(d, w, n - 1, t);
      w := GiveItUp(d, w, n - 1, t, t);
      w := RecordIt(d, w, n - 1, t, t, EarlyClaim(n));
    }
  }

  /** The worker stops and its lease runs out. */
  predicate Abandoned(w: World, n: nat, t: Instant) {
    && w.row.state == Scanning && w.row.uploadedAt == Some(0) && w.row.scanDeadlineAt == Some(SCAN_DEADLINE_MS)
    && w.row.scanAttempts == n && w.row.scanLeaseExpiresAt == Some(t)
    && t <= w.store.now && w.workers == map[] && w.sweeps == map[]
  }

  lemma {:induction false} AbandonIt(d: Discipline, w: World, n: nat, t: Instant) returns (w': World)
    requires Attainable(d, w) && Taken(w, n, t)
    ensures Attainable(d, w') && Abandoned(w', n, t + SCAN_LEASE_MS)
    ensures w'.store.now == Max(w.store.now, t + SCAN_LEASE_MS)
  {
    AttainableStep(d, w, Crash(1));
    var w1 := Apply(w, Crash(1));
    CrashEffect(w);
    var now := Max(w.store.now, t + SCAN_LEASE_MS);
    AttainableStep(d, w1, Tick(now));
    w' := Apply(w1, Tick(now));
  }

  lemma {:induction false} CrashEffect(w: World)
    requires w.workers.Keys == {1}
    ensures Apply(w, Crash(1)) == w.(workers := map[])
  {
    assert Apply(w, Crash(1)) == ApplyWorker(w, Crash(1), w.workers[1]);
    assert w.workers - {1} == map[];
  }

  lemma {:induction false} RecoverIt(d: Discipline, w: World, n: nat, t: Instant) returns (w': World)
    requires Attainable(d, w) && Abandoned(w, n, t) && !d.failFirst && n < MAX_SCAN_ATTEMPTS
    requires d.current ==> t == w.store.now
    ensures Attainable(d, w') && Waiting(w', n + 1, t) && w'.store == w.store
  {
    AttainableStep(d, w, BulkSweep(RecoverLeases, t));
    w' := Apply(w, BulkSweep(RecoverLeases, t));
    assert w'.row == BulkUpdated(RecoverLeases, w.row, t);
  }

  /**
   Sweeps that recover overdue rows: every ten minutes another claim is left behind, with every
   reading of the clock current.
   */
  lemma {:induction false} EndlessRecovery(d: Discipline, n: nat) returns (w: World)
    requires !d.failFirst && n <= MAX_SCAN_ATTEMPTS
    ensures Attainable(d, w) && Waiting(w, n, n * SCAN_LEASE_MS) && w.store.now == n * SCAN_LEASE_MS
  {
    if n == 0 {
      w := FirstWait(d);
    } else {
      w := EndlessRecovery(d, n - 1);
      w := RecoveryCycle(d, w, n - 1, (n - 1) * SCAN_LEASE_MS);
    }
  }

  lemma {:induction false} RecoveryCycle(d: Discipline, w: World, n: nat, t: Instant) returns (w': World)
    requires Attainable(d, w) && Waiting(w, n, t) && t >= 0 && t == w.store.now && !d.failFirst && n < MAX_SCAN_ATTEMPTS
    ensures Attainable(d, w') && Waiting(w', n + 1, t + SCAN_LEASE_MS) && w'.store.now == t + SCAN_LEASE_MS
  {
    w' := TakeIt(d, w, n, t);
    w' := AbandonIt(d, w', n, t);
    w' := RecoverIt(d, w', n, t + SCAN_LEASE_MS);
  }

  lemma {:induction false} RetryIsRefused(w: World, t: Instant, g: Instant)
    requires GivingUp(w, MAX_SCAN_ATTEMPTS, t, g)
    ensures StepRefused(w, SettleScan(1, t))
  {
    assert StatementOf(w, SettleScan(1, t)) == Some(SettleTo(w.row, Retry(g), t));
  }

  lemma {:induction false} RecoveryIsRefused(w: World, t: Instant)
    requires Abandoned(w, MAX_SCAN_ATTEMPTS, t)
    ensures StepRefused(w, BulkSweep(RecoverLeases, t))
  {
  }

  lemma {:induction false} BackDatedIsRefused()
    ensures StepRefused(Init(Brief, 1, 0), FinishUpload(-1))
  {
  }

  lemma {:induction false} SomethingIsRefused(d: Discipline) returns (w: World, a: Action)
    requires !Covers(d, ORDERLY)
    ensures Attainable(d, w) && Orderly(d, w, a) && StepRefused(w, a)
  {
    if d.failFirst && !d.dated {
      w, a := Init(Brief, 1, 0), FinishUpload(-1);
      AttainableStart(d);
      BackDatedIsRefused();
    } else if !d.failFirst {
      var t := 1000 * SCAN_LEASE_MS;
      w := EndlessRecovery(d, MAX_SCAN_ATTEMPTS);
      w := TakeIt(d, w, MAX_SCAN_ATTEMPTS, t);
      w := AbandonIt(d, w, MAX_SCAN_ATTEMPTS, t);
      a := BulkSweep(RecoverLeases, t + SCAN_LEASE_MS);
      RecoveryIsRefused(w, t + SCAN_LEASE_MS);
    } else {
      if !d.forward {
        w := BackwardClocks(d, MAX_SCAN_ATTEMPTS);
      } else {
        w := EarlyClocks(d, MAX_SCAN_ATTEMPTS);
      }
      w := TakeIt(d, w, MAX_SCAN_ATTEMPTS, 0);
      w := GiveItUp(d, w, MAX_SCAN_ATTEMPTS, 0, if d.forward then 0 else -2_000_000);
      a := SettleScan(1, 0);
      RetryIsRefused(w, 0, if d.forward then 0 else -2_000_000);
    }
  }

  /**
   The exact condition over whole runs: no statement is ever refused if and only if overdue rows
   are failed rather than recovered and, besides, every reading of the clock is current, or at
   least worker clocks do not run backwards, claims are read after the upload, and uploads are
   dated after creation. Current clocks alone are not enough.
   */
  lemma {:induction false} NeverRefusedExactly(d: Discipline)
    ensures (forall w, a :: Attainable(d, w) && Orderly(d, w, a) ==> !StepRefused(w, a))
            <==> d.failFirst && (d.current || (d.forward && d.queued && d.dated))
  {
    if d.failFirst && (d.current || (d.forward && d.queued && d.dated)) {
      forall w, a | Attainable(d, w) && Orderly(d, w, a) ensures !StepRefused(w, a) {
        CoveredStepIsNotRefused(d, w, a);
      }
    } else {
      var w, a := SomethingIsRefused(d);
    }
  }

  // ----- the sweep's own order

  /** After the pass that fails overdue rows has read the clock at `at`, no expired lease is left on an overdue row. */
  predicate PassedOver(row: Row, at: Instant) {
    row.state == Scanning && Due(row.scanDeadlineAt, at) && row.scanLeaseExpiresAt.Some? ==>
        row.scanLeaseExpiresAt.value > at
  }

  lemma FailPass(row: Row, at: Instant)
    requires RowOk(row)
    ensures PassedOver(Executed(row, BulkUpdate(FailOverdue, at)), at)
  {
    BulkStatement(row, FailOverdue, at);
  }

  /**
   What other processes may do between the two passes: anything, if claims do not use a reading of
   the clock ten minutes older than the sweep's.
   */
  predicate Between(st: Statement, at: Instant) {
    st.TakeLease? ==> st.at > at - SCAN_LEASE_MS
  }

  lemma {:induction false} StatementPasses(row: Row, st: Statement, at: Instant)
    requires RowOk(row) && PassedOver(row, at) && Between(st, at)
    ensures PassedOver(Executed(row, st), at)
  {
  }

  function AfterAll(row: Row, sts: seq<Statement>): Row {
    if sts == [] then row else Executed(AfterAll(row, sts[..|sts| - 1]), sts[|sts| - 1])
  }

  lemma {:induction false} PassHolds(row: Row, sts: seq<Statement>, at: Instant)
    requires RowOk(row) && PassedOver(row, at)
    requires forall i :: 0 <= i < |sts| ==> Between(sts[i], at) && Fits(AfterAll(row, sts[..i]), sts[i])
    ensures RowOk(AfterAll(row, sts)) && PassedOver(AfterAll(row, sts), at)
  {
    if sts != [] {
      var n := |sts| - 1;
      assert forall i :: 0 <= i < n ==> sts[..n][..i] == sts[..i];
      PassHolds(row, sts[..n], at);
      assert Fits(AfterAll(row, sts[..n]), sts[n]);
      PassStep(AfterAll(row, sts[..n]), sts[n], at);
    }
  }

  lemma {:induction false} PassStep(row: Row, st: Statement, at: Instant)
    requires RowOk(row) && PassedOver(row, at) && Between(st, at) && Fits(row, st)
    ensures RowOk(Executed(row, st)) && PassedOver(Executed(row, st), at)
  {
    StatementPasses(row, st, at);
    ExecutedIsOk(row, st);
  }

  /**
   Why overdue rows are not recovered: once the failing pass of a sweep has reached the row,
   whatever other processes do before the recovering pass of the same sweep, that pass does not
   match an overdue row. The batch limit is what can keep the failing pass from reaching it.
   */
  lemma {:induction false} SweepFailsFirst(row: Row, sts: seq<Statement>, at: Instant)
    requires RowOk(row)
    requires var reached := Executed(row, BulkUpdate(FailOverdue, at));
             forall i :: 0 <= i < |sts| ==> Between(sts[i], at) && Fits(AfterAll(reached, sts[..i]), sts[i])
    ensures var last := AfterAll(Executed(row, BulkUpdate(FailOverdue, at)), sts);
            Matches(RecoverLeases, last, at) ==> NotOverdue(last, at)
  {
    var reached := Executed(row, BulkUpdate(FailOverdue, at));
    FailPass(row, at);
    ExecutedIsOk(row, BulkUpdate(FailOverdue, at));
    PassHolds(reached, sts, at);
  }
}
