/**
 How long an overdue file can be passed over. The failing pass of a round takes a limited batch, so
 a backlog can keep it from a file. Every row of such a batch is either ended, once and for all, or
 was changed by somebody else between the select and the update. That bounds how often a file can
 be recovered while overdue, and so how often it is attempted.
 */
module FileBacklog {
  import opened Common
  import opened FileSignature
  import opened FileRows
  import opened FileLifecycle
  import opened FileStatements
  import opened FileDatabase
  import opened FileAttempts
  import opened FileFleet

  // ----- the accounts of one file

  /**
   What a run did to one file: how often it was recovered while overdue, how many failing passes
   missed it, the rows they ended instead, and how many rows they selected and then left alone.
   */
  datatype Ledger = Ledger(late: nat, misses: nat, taken: set<FileId>, disturbed: nat)

  /** The failing pass about to be executed left the file out while it was overdue. */
  predicate Misses(f: Fleet, step: Step, id: FileId) {
    step.FailRows? && FailReady(f, step.round) && id in f.rounds[step.round].overlooked
  }

  /** The rows that the failing pass will end. */
  function Ended(f: Fleet, r: RoundId): set<FileId>
    requires FailReady(f, r)
  {
    MatchingIn(Table(f), f.rounds[r].stage.ids, FailOverdue, f.rounds[r].at)
  }

  /** The recovering pass about to be executed recovers the file while it is overdue. */
  ghost predicate RecoversLate(f: Fleet, step: Step, id: FileId) {
    && step.RecoverRows? && RecoverReady(f, step.round) && !RecoverFails(f, step.round)
    && id in f.files && id in f.rounds[step.round].stage.ids
    && LateStep(f.files[id], BulkSweep(RecoverLeases, f.rounds[step.round].at))
  }

  ghost function Booked(l: Ledger, f: Fleet, step: Step, id: FileId): Ledger {
    if Misses(f, step, id) then
      var ended := Ended(f, step.round);
      l.(misses := l.misses + 1, taken := l.taken + ended,
         disturbed := l.disturbed + |f.rounds[step.round].stage.ids - ended|)
    else if RecoversLate(f, step, id) then l.(late := l.late + 1)
    else l
  }

  ghost function LedgerAfter(batch: nat, now: Instant, steps: seq<Step>, id: FileId): Ledger {
    if steps == [] then Ledger(0, 0, {}, 0)
    else
      var n := |steps| - 1;
      Booked(LedgerAfter(batch, now, steps[..n], id), FleetAfter(batch, now, steps[..n]), steps[n], id)
  }

  // ----- a late recovery belongs to a miss

  lemma {:induction false} ClearedIsNotLate(round: Round, id: FileId, row: Row)
    requires Cleared(round, id, row) && !round.stage.FailNext?
    requires Matches(RecoverLeases, row, round.at) && !NotOverdue(row, round.at)
    ensures id in round.overlooked
  {
  }

  /** The rounds that missed the file and have yet to recover. */
  function Open(f: Fleet, id: FileId): set<RoundId> {
    set r | r in f.rounds && id in f.rounds[r].overlooked && !f.rounds[r].stage.FailNext?
  }

  lemma {:induction false} OverdueIsOpen(batch: nat, f: Fleet, r: RoundId, id: FileId)
    requires RoundsInv(batch, f) && r in f.rounds && !f.rounds[r].stage.FailNext? && id in f.files
    requires Matches(RecoverLeases, f.files[id].row, f.rounds[r].at) && !NotOverdue(f.files[id].row, f.rounds[r].at)
    ensures r in Open(f, id)
  {
    assert RoundInv(f.files, f.rounds[r], batch);
    ClearedIsNotLate(f.rounds[r], id, f.files[id].row);
  }

  /**
   A recovering pass matches an overdue file only if the failing pass of its own round left the
   file out of a full batch, whatever all processes did in between.
   */
  lemma {:induction false} LateMeansMissed(h: Habit, batch: nat, f: Fleet, r: RoundId, id: FileId)
    requires Fenced(h) && Attained(h, batch, f) && r in f.rounds && !f.rounds[r].stage.FailNext? && id in f.files
    requires Matches(RecoverLeases, f.files[id].row, f.rounds[r].at) && !NotOverdue(f.files[id].row, f.rounds[r].at)
    ensures id in f.rounds[r].overlooked && batch < |f.files|
  {
    var now, steps :| Follows(h, batch, now, steps) && f == FleetAfter(batch, now, steps);
    FleetIsKept(h, batch, now, steps);
    OverdueIsOpen(batch, f, r, id);
    assert RoundInv(f.files, f.rounds[r], batch);
  }

  // ----- a file that was recovered late is beyond its deadline for good

  predicate LateRow(row: Row, late: nat) {
    late > 0 && row.state == Scanning ==>
      && row.scanDeadlineAt.Some?
      && row.nextScanAt.Some? && row.nextScanAt.value >= row.scanDeadlineAt.value
      && (row.scanLeaseExpiresAt.Some? ==> ClaimedAt(row) >= row.scanDeadlineAt.value)
  }

  lemma {:induction false} StatementKeepsLate(row: Row, late: nat, st: Statement)
    requires RowOk(row) && TimedRow(row, late) && Fits(row, st) && InTime(row, st) && LateRow(row, late)
    ensures LateRow(Executed(row, st), if Late(row, st) then late + 1 else late)
  {
    if Written(row, st).Some? && !Refused(row, st) {
      if st.SettleTo? {
        SettlementKeepsLate(row, late, st.claimed, st.settlement, st.at);
      } else if st.BulkUpdate? && st.bulk.RecoverLeases? {
      } else if st.TakeLease? {
      } else {
        OthersKeepLate(row, late, st);
      }
    }
  }

  /** No retry comes after a late recovery: the claim would have to be from before the deadline. */
  lemma {:induction false} NoLateRetry(row: Row, late: nat, claimed: Row, s: Settlement, at: Instant)
    requires RowOk(row) && LateRow(row, late) && late > 0 && row.version == claimed.version
    requires Fits(row, SettleTo(claimed, s, at)) && InTime(row, SettleTo(claimed, s, at))
    ensures !s.Retry?
  {
  }

  lemma {:induction false} SettlementKeepsLate(row: Row, late: nat, claimed: Row, s: Settlement, at: Instant)
    requires RowOk(row) && LateRow(row, late) && row.version == claimed.version
    requires Fits(row, SettleTo(claimed, s, at)) && InTime(row, SettleTo(claimed, s, at))
    ensures LateRow(Settle(row, claimed, s, at).value, late)
  {
    if late > 0 {
      NoLateRetry(row, late, claimed, s, at);
    }
  }

  lemma {:induction false} OthersKeepLate(row: Row, late: nat, st: Statement)
    requires RowOk(row) && TimedRow(row, late) && LateRow(row, late) && Written(row, st).Some? && !Refused(row, st)
    requires !st.SettleTo? && !st.TakeLease? && !(st.BulkUpdate? && st.bulk.RecoverLeases?)
    ensures LateRow(Written(row, st).value, late)
  {
    if st.BulkUpdate? {
      BulkLeavesClock(row, st.bulk, st.at);
    } else {
      OthersLeaveClock(row, st);
    }
  }

  /** The file's clock columns account for its attempts, all but `late` of them. */
  ghost predicate Accounted(w: World, late: nat) {
    Timed(w, late) && LateRow(w.row, late)
  }

  lemma {:induction false} ActionAccounts(w: World, a: Action, late: nat)
    requires Inv(w) && Accounted(w, late) && Orderly(TIMELY, w, a)
    ensures Accounted(Apply(w, a), if LateStep(w, a) then late + 1 else late)
  {
    StepKeepsTimed(w, a, late);
    StepExecutesItsStatement(w, a);
    if StatementOf(w, a).Some? {
      StatementFits(w, a);
      StepIsInTime(w, a, late);
      StatementKeepsLate(w.row, late, StatementOf(w, a).value);
    }
  }

  /** Only a recovering pass is late. */
  lemma OwnIsNotLate(w: World, a: Action)
    requires !(a.BulkSweep? && a.bulk.RecoverLeases?)
    ensures !LateStep(w, a)
  {
  }

  // ----- the accounts balance

  ghost predicate FileAccounted(f: Fleet, id: FileId, late: nat) {
    if id in f.files then Accounted(f.files[id], late) else late == 0
  }

  predicate TakenEnded(files: map<FileId, World>, taken: set<FileId>) {
    forall x :: x in taken ==> x in files && Terminal(files[x].row.state)
  }

  /**
   Every missing pass filled its batch with rows that it ended or left alone, rows it ended stay
   ended, and every late recovery goes with a miss of its own.
   */
  ghost predicate Balanced(batch: nat, f: Fleet, l: Ledger, id: FileId) {
    && batch * l.misses == |l.taken| + l.disturbed
    && id !in l.taken && TakenEnded(f.files, l.taken)
    && l.late + |Open(f, id)| <= l.misses
    && (l.misses > 0 ==> batch < |f.files|)
    && FileAccounted(f, id, l.late)
  }

  lemma {:induction false} NewFileIsAccounted(context: Context, declaredBytes: nat, at: Instant, now: Instant)
    ensures Accounted(Apply(Init(context, declaredBytes, at), Tick(now)), 0)
  {
    TimelyRunIsTimed(context, declaredBytes, at, []);
    ActionAccounts(Init(context, declaredBytes, at), Tick(now), 0);
  }

  lemma {:induction false} PunctualIsTimely(f: Fleet, step: Step, id: FileId)
    requires id in f.files && Punctual(f, step) && ActionOn(f, step, id).Some?
    ensures Orderly(TIMELY, f.files[id], ActionOn(f, step, id).value)
  {
  }

  /** The ledger books a late recovery exactly when the file's own life has one. */
  lemma {:induction false} LateIsBooked(l: Ledger, f: Fleet, step: Step, id: FileId)
    requires id in f.files
    ensures var a := ActionOn(f, step, id);
            Booked(l, f, step, id).late == l.late + if a.Some? && LateStep(f.files[id], a.value) then 1 else 0
  {
    var a := ActionOn(f, step, id);
    if a.Some? && !(a.value.BulkSweep? && a.value.bulk.RecoverLeases?) {
      OwnIsNotLate(f.files[id], a.value);
    }
  }

  /** The file's own account after a step. */
  lemma {:induction false} StepAccounts(batch: nat, f: Fleet, l: Ledger, step: Step, id: FileId)
    requires id in f.files && Inv(f.files[id]) && Accounted(f.files[id], l.late) && Punctual(f, step)
    ensures FileAccounted(Next(batch, f, step), id, Booked(l, f, step, id).late)
  {
    StepActs(batch, f, step, id);
    LateIsBooked(l, f, step, id);
    OwnActionAccounts(f, step, id, l.late);
  }

  lemma {:induction false} OwnActionAccounts(f: Fleet, step: Step, id: FileId, late: nat)
    requires id in f.files && Inv(f.files[id]) && Accounted(f.files[id], late) && Punctual(f, step)
    ensures var a := ActionOn(f, step, id);
            a.Some? ==>
              Accounted(Apply(f.files[id], a.value), if LateStep(f.files[id], a.value) then late + 1 else late)
  {
    if ActionOn(f, step, id).Some? {
      PunctualIsTimely(f, step, id);
      ActionAccounts(f.files[id], ActionOn(f, step, id).value, late);
    }
  }

  lemma {:induction false} StrangerAccounts(batch: nat, f: Fleet, l: Ledger, step: Step, id: FileId)
    requires id !in f.files && l.late == 0
    ensures FileAccounted(Next(batch, f, step), id, Booked(l, f, step, id).late)
  {
    if step.Create? {
      NewFileIsAccounted(step.context, step.declaredBytes, step.at, f.now);
    }
  }

  lemma {:induction false} EndedStayEnded(batch: nat, f: Fleet, step: Step, taken: set<FileId>)
    requires FilesInv(f.files, f.now) && TakenEnded(f.files, taken)
    ensures TakenEnded(Next(batch, f, step).files, taken)
  {
    forall x | x in taken ensures x in Next(batch, f, step).files && Terminal(Next(batch, f, step).files[x].row.state) {
      StepActs(batch, f, step, x);
      if ActionOn(f, step, x).Some? {
        EndedStaysEnded(f.files[x], ActionOn(f, step, x).value);
      }
    }
  }

  lemma {:induction false} FailedIsEnded(w: World, at: Instant)
    requires Inv(w) && Matches(FailOverdue, w.row, at) && at <= w.store.now
    ensures Terminal(Apply(w, BulkSweep(FailOverdue, at)).row.state)
  {
    BulkExecutes(w, FailOverdue, at);
    BulkStatement(w.row, FailOverdue, at);
  }

  lemma {:induction false} EndedIsEnded(batch: nat, f: Fleet, r: RoundId, x: FileId)
    requires FailReady(f, r) && x in Ended(f, r)
    requires Inv(f.files[x]) && f.rounds[r].at <= f.files[x].store.now
    ensures TakenEnded(Next(batch, f, FailRows(r)).files, {x})
  {
    StepActs(batch, f, FailRows(r), x);
    FailedIsEnded(f.files[x], f.rounds[r].at);
  }

  lemma {:induction false} EndedAreEnded(batch: nat, f: Fleet, r: RoundId)
    requires FilesInv(f.files, f.now) && FailReady(f, r) && f.rounds[r].at <= f.now
    ensures TakenEnded(Next(batch, f, FailRows(r)).files, Ended(f, r))
  {
    forall x | x in Ended(f, r) ensures TakenEnded(Next(batch, f, FailRows(r)).files, {x}) {
      EndedIsEnded(batch, f, r, x);
    }
    assert forall x :: x in Ended(f, r) ==> x in {x};
  }

  /** What a missing pass ends was not ended before. */
  lemma {:induction false} EndedAreNew(f: Fleet, r: RoundId, taken: set<FileId>)
    requires FailReady(f, r) && TakenEnded(f.files, taken)
    ensures taken !! Ended(f, r)
  {
  }

  lemma {:induction false} MissIsFull(batch: nat, f: Fleet, r: RoundId, l: Ledger, id: FileId)
    requires FailReady(f, r) && RoundInv(f.files, f.rounds[r], batch) && id in f.rounds[r].overlooked
    requires TakenEnded(f.files, l.taken) && id !in l.taken && batch * l.misses == |l.taken| + l.disturbed
    ensures var b := Booked(l, f, FailRows(r), id);
            && batch * b.misses == |b.taken| + b.disturbed && id !in b.taken
            && b.misses == l.misses + 1 && batch < |f.files|
  {
    var ids, ended := f.rounds[r].stage.ids, Ended(f, r);
    EndedAreNew(f, r, l.taken);
    DisjointUnion(l.taken, ended);
    DisjointUnion(ended, ids - ended);
    assert ids == ended + (ids - ended);
    ProductGrows(batch, l.misses, l.misses);
  }

  lemma {:induction false} OpenAfterFail(batch: nat, f: Fleet, r: RoundId, id: FileId)
    requires FailReady(f, r)
    ensures Open(Next(batch, f, FailRows(r)), id) == Open(f, id) + (if id in f.rounds[r].overlooked then {r} else {})
    ensures r !in Open(f, id)
  {
  }

  /** Any other step opens no round for the file. */
  lemma {:induction false} OpenShrinks(batch: nat, f: Fleet, step: Step, id: FileId)
    requires !step.FailRows?
    ensures Open(Next(batch, f, step), id) <= Open(f, id)
    ensures step.RecoverRows? && RecoverReady(f, step.round) ==> step.round !in Open(Next(batch, f, step), id)
  {
  }

  lemma {:induction false} FailCounts(batch: nat, f: Fleet, r: RoundId, l: Ledger, id: FileId)
    requires l.late + |Open(f, id)| <= l.misses
    ensures var b := Booked(l, f, FailRows(r), id); b.late + |Open(Next(batch, f, FailRows(r)), id)| <= b.misses
  {
    if FailReady(f, r) {
      OpenAfterFail(batch, f, r, id);
    }
  }

  lemma {:induction false} LateIsOpen(batch: nat, f: Fleet, step: Step, id: FileId)
    requires RoundsInv(batch, f) && RecoversLate(f, step, id)
    ensures step.round in Open(f, id)
  {
    OverdueIsOpen(batch, f, step.round, id);
  }

  lemma {:induction false} LateCounts(batch: nat, f: Fleet, step: Step, l: Ledger, id: FileId)
    requires RoundsInv(batch, f) && l.late + |Open(f, id)| <= l.misses && RecoversLate(f, step, id)
    ensures l.late + 1 + |Open(Next(batch, f, step), id)| <= l.misses
  {
    LateIsOpen(batch, f, step, id);
    OpenShrinks(batch, f, step, id);
    SubsetIsNoLarger(Open(Next(batch, f, step), id), Open(f, id) - {step.round});
  }

  lemma {:induction false} OpenCounts(batch: nat, f: Fleet, step: Step, l: Ledger, id: FileId)
    requires RoundsInv(batch, f) && l.late + |Open(f, id)| <= l.misses
    ensures var b := Booked(l, f, step, id); b.late + |Open(Next(batch, f, step), id)| <= b.misses
  {
    if step.FailRows? {
      FailCounts(batch, f, step.round, l, id);
    } else if RecoversLate(f, step, id) {
      LateCounts(batch, f, step, l, id);
    } else {
      OpenShrinks(batch, f, step, id);
      SubsetIsNoLarger(Open(Next(batch, f, step), id), Open(f, id));
    }
  }

  lemma {:induction false} FleetGrows(batch: nat, f: Fleet, step: Step)
    ensures f.files.Keys <= Next(batch, f, step).files.Keys && |f.files| <= |Next(batch, f, step).files|
  {
    SubsetIsNoLarger(f.files.Keys, Next(batch, f, step).files.Keys);
  }

  lemma {:induction false} FileAccounts(batch: nat, f: Fleet, l: Ledger, step: Step, id: FileId)
    requires FilesInv(f.files, f.now) && FileAccounted(f, id, l.late) && Punctual(f, step)
    ensures FileAccounted(Next(batch, f, step), id, Booked(l, f, step, id).late)
  {
    if id in f.files {
      StepAccounts(batch, f, l, step, id);
    } else {
      StrangerAccounts(batch, f, l, step, id);
    }
  }

  lemma {:induction false} TakenStayEnded(batch: nat, f: Fleet, l: Ledger, step: Step, id: FileId)
    requires FleetInv(batch, f) && TakenEnded(f.files, l.taken)
    ensures TakenEnded(Next(batch, f, step).files, Booked(l, f, step, id).taken)
  {
    EndedStayEnded(batch, f, step, l.taken);
    if Misses(f, step, id) {
      EndedAreEnded(batch, f, step.round);
    }
  }

  lemma {:induction false} BooksBalance(batch: nat, f: Fleet, l: Ledger, step: Step, id: FileId)
    requires RoundsInv(batch, f) && TakenEnded(f.files, l.taken) && id !in l.taken
    requires batch * l.misses == |l.taken| + l.disturbed && (l.misses > 0 ==> batch < |f.files|)
    ensures var b := Booked(l, f, step, id);
            && batch * b.misses == |b.taken| + b.disturbed && id !in b.taken
            && (b.misses > 0 ==> batch < |Next(batch, f, step).files|)
  {
    FleetGrows(batch, f, step);
    if Misses(f, step, id) {
      MissIsFull(batch, f, step.round, l, id);
    }
  }

  /** Every step of every process keeps the accounts balanced. */
  lemma {:induction false} StepBalances(batch: nat, f: Fleet, l: Ledger, step: Step, id: FileId)
    requires FleetInv(batch, f) && Balanced(batch, f, l, id) && Punctual(f, step)
    ensures Balanced(batch, Next(batch, f, step), Booked(l, f, step, id), id)
  {
    FileAccounts(batch, f, l, step, id);
    TakenStayEnded(batch, f, l, step, id);
    OpenCounts(batch, f, step, l, id);
    BooksBalance(batch, f, l, step, id);
  }

  lemma {:induction false} RunsBalance(h: Habit, batch: nat, now: Instant, steps: seq<Step>, id: FileId)
    requires Fenced(h) && Follows(h, batch, now, steps)
    ensures Balanced(batch, FleetAfter(batch, now, steps), LedgerAfter(batch, now, steps, id), id)
  {
    if steps != [] {
      var n := |steps| - 1;
      var f := FleetAfter(batch, now, steps[..n]);
      FleetIsKept(h, batch, now, steps[..n]);
      RunsBalance(h, batch, now, steps[..n], id);
      KeepsIsPunctual(h, batch, f, steps[n]);
      StepBalances(batch, f, LedgerAfter(batch, now, steps[..n], id), steps[n], id);
    }
  }

  // ----- the bounds

  /** Every late recovery of a file goes with a failing pass that missed it. */
  lemma {:induction false} LateWithinMisses(h: Habit, batch: nat, now: Instant, steps: seq<Step>, id: FileId)
    requires Fenced(h) && Follows(h, batch, now, steps)
    ensures var l := LedgerAfter(batch, now, steps, id); l.late <= l.misses
  {
    RunsBalance(h, batch, now, steps, id);
  }

  lemma {:induction false} BalancedMisses(batch: nat, f: Fleet, l: Ledger, id: FileId)
    requires Balanced(batch, f, l, id) && id in f.files
    ensures batch * l.misses <= |f.files| - 1 + l.disturbed && (|f.files| <= batch ==> l.misses == 0)
  {
    SubsetIsNoLarger(l.taken, f.files.Keys - {id});
    assert |f.files.Keys - {id}| == |f.files| - 1;
  }

  lemma {:induction false} BalancedAttempts(batch: nat, f: Fleet, l: Ledger, id: FileId)
    requires Balanced(batch, f, l, id) && id in f.files
    ensures f.files[id].row.scanAttempts <= 147 + l.misses
  {
    TimedMeansFew(f.files[id].row, l.late);
  }

  /**
   A file is passed over at most as often as full batches fit into the other files and the rows
   that somebody else changed between the select and the update of a pass that missed it; and
   never while all files fit into one batch.
   */
  lemma {:induction false} BacklogIsFinite(h: Habit, batch: nat, now: Instant, steps: seq<Step>, id: FileId)
    requires Fenced(h) && Follows(h, batch, now, steps) && id in FleetAfter(batch, now, steps).files
    ensures var f, l := FleetAfter(batch, now, steps), LedgerAfter(batch, now, steps, id);
            && batch * l.misses <= |f.files| - 1 + l.disturbed
            && (|f.files| <= batch ==> l.misses == 0)
  {
    RunsBalance(h, batch, now, steps, id);
    BalancedMisses(batch, FleetAfter(batch, now, steps), LedgerAfter(batch, now, steps, id), id);
  }

  /** A file is attempted at most 147 times and once more for each such batch. */
  lemma {:induction false} AttemptsWithinBacklog(h: Habit, batch: nat, now: Instant, steps: seq<Step>, id: FileId)
    requires Fenced(h) && Follows(h, batch, now, steps) && id in FleetAfter(batch, now, steps).files
    ensures var f, l := FleetAfter(batch, now, steps), LedgerAfter(batch, now, steps, id);
            && batch * (f.files[id].row.scanAttempts - 147) <= |f.files| - 1 + l.disturbed
            && (|f.files| <= batch ==> f.files[id].row.scanAttempts <= 147)
  {
    RunsBalance(h, batch, now, steps, id);
    AttemptsFromLedger(batch, FleetAfter(batch, now, steps), LedgerAfter(batch, now, steps, id), id);
  }

  lemma {:induction false} AttemptsFromLedger(batch: nat, f: Fleet, l: Ledger, id: FileId)
    requires Balanced(batch, f, l, id) && id in f.files
    ensures batch * (f.files[id].row.scanAttempts - 147) <= |f.files| - 1 + l.disturbed
    ensures |f.files| <= batch ==> f.files[id].row.scanAttempts <= 147
  {
    BalancedMisses(batch, f, l, id);
    BalancedAttempts(batch, f, l, id);
    ProductGrows(batch, f.files[id].row.scanAttempts - 147, l.misses);
  }

  // ----- a refusal needs a backlog

  /** The file has used up its attempts, 147 of them at most before its deadline. */
  lemma {:induction false} FullIsLate(batch: nat, f: Fleet, l: Ledger, id: FileId)
    requires id in f.files && Balanced(batch, f, l, id) && f.files[id].row.scanAttempts == MAX_SCAN_ATTEMPTS
    ensures l.late >= 853 && LateRow(f.files[id].row, l.late)
  {
    TimedMeansFew(f.files[id].row, l.late);
  }

  /** After a late recovery a process of the file's own has nothing left that counts an attempt. */
  lemma {:induction false} OwnIsAccepted(w: World, a: Action, late: nat)
    requires Inv(w) && Accounted(w, late) && late > 0 && Orderly(PUNCTUAL, w, a) && Own(a)
    ensures !StepRefused(w, a)
  {
    if StatementOf(w, a).Some? {
      var st := StatementOf(w, a).value;
      StatementFits(w, a);
      StepRefusedExactly(w, a);
      StepIsInTime(w, a, late);
      DatedIsNotBackDated(w, a);
      if st.SettleTo? && w.row.version == st.claimed.version {
        NoLateRetry(w.row, late, st.claimed, st.settlement, st.at);
      }
    }
  }

  lemma DatedIsNotBackDated(w: World, a: Action)
    requires Orderly(PUNCTUAL, w, a) && StatementOf(w, a).Some?
    ensures !BackDated(w.row, StatementOf(w, a).value)
  {
  }

  lemma {:induction false} OwnRefusalIsFull(w: World, a: Action)
    requires Inv(w) && Orderly(PUNCTUAL, w, a) && StepRefused(w, a)
    ensures w.row.scanAttempts == MAX_SCAN_ATTEMPTS
  {
    StepRefusedExactly(w, a);
    DatedIsNotBackDated(w, a);
  }

  /** A process of the file's own is never refused. */
  lemma {:induction false} OwnIsNeverRefused(batch: nat, f: Fleet, l: Ledger, id: FileId, a: Action)
    requires FilesInv(f.files, f.now) && id in f.files && Balanced(batch, f, l, id)
    requires Punctual(f, Act(id, a)) && Own(a)
    ensures !StepRefused(f.files[id], a)
  {
    if StepRefused(f.files[id], a) {
      OwnRefusalIsFull(f.files[id], a);
      FullIsLate(batch, f, l, id);
      OwnIsAccepted(f.files[id], a, l.late);
    }
  }

  /** A lease to be recovered from a file that was recovered late is overdue again. */
  lemma {:induction false} FullIsOverdue(row: Row, late: nat, at: Instant)
    requires LateRow(row, late) && late > 0 && Matches(RecoverLeases, row, at)
    ensures !NotOverdue(row, at)
  {
  }

  lemma {:induction false} BlockingFileWasMissed(batch: nat, f: Fleet, l: Ledger, r: RoundId, id: FileId)
    requires RoundsInv(batch, f) && RecoverReady(f, r) && id in f.files && Balanced(batch, f, l, id)
    requires OneTooMany(f.files[id].row, BulkUpdate(RecoverLeases, f.rounds[r].at))
    ensures l.misses >= 854
  {
    FullIsLate(batch, f, l, id);
    FullIsOverdue(f.files[id].row, l.late, f.rounds[r].at);
    OverdueIsOpen(batch, f, r, id);
    SubsetIsNoLarger({r}, Open(f, id));
  }

  /** A refused statement comes after 854 failing passes that missed the same file. */
  lemma {:induction false} RefusalNeedsMisses(
    h: Habit, batch: nat, now: Instant, steps: seq<Step>, step: Step) returns (id: FileId)
    requires Fenced(h) && Follows(h, batch, now, steps) && Keeps(h, FleetAfter(batch, now, steps), step)
    requires StatementRefused(FleetAfter(batch, now, steps), step)
    ensures id in FleetAfter(batch, now, steps).files && LedgerAfter(batch, now, steps, id).misses >= 854
  {
    var f := FleetAfter(batch, now, steps);
    FleetIsKept(h, batch, now, steps);
    KeepsIsPunctual(h, batch, f, step);
    if step.Act? {
      id := step.id;
      RunsBalance(h, batch, now, steps, id);
      OwnIsNeverRefused(batch, f, LedgerAfter(batch, now, steps, id), id, step.action);
    } else {
      var r := step.round;
      id :| id in f.rounds[r].stage.ids && id in Table(f)
            && OneTooMany(Table(f)[id], BulkUpdate(RecoverLeases, f.rounds[r].at));
      RunsBalance(h, batch, now, steps, id);
      BlockingFileWasMissed(batch, f, LedgerAfter(batch, now, steps, id), r, id);
    }
  }

  /**
   No statement is refused, in any round or by any process, while all files fit into one batch, or
   while fewer than 854 batches can be filled with the other files and with rows that were changed
   between the select and the update of a pass.
   */
  lemma {:induction false} NotRefusedWithinBacklog(h: Habit, batch: nat, now: Instant, steps: seq<Step>, step: Step)
    requires Fenced(h) && Follows(h, batch, now, steps) && Keeps(h, FleetAfter(batch, now, steps), step)
    requires var f := FleetAfter(batch, now, steps);
             || |f.files| <= batch
             || forall id :: id in f.files ==>
                  |f.files| - 1 + LedgerAfter(batch, now, steps, id).disturbed < batch * 854
    ensures !StatementRefused(FleetAfter(batch, now, steps), step)
  {
    if StatementRefused(FleetAfter(batch, now, steps), step) {
      var id := RefusalNeedsMisses(h, batch, now, steps, step);
      BacklogIsFinite(h, batch, now, steps, id);
      ProductGrows(batch, 854, LedgerAfter(batch, now, steps, id).misses);
    }
  }

  lemma {:induction false} UntouchedIsEnded(f: Fleet, step: Step)
    requires step.FailRows? && FailReady(f, step.round) && Untouched(f, step)
    ensures f.rounds[step.round].stage.ids - Ended(f, step.round) == {}
  {
  }

  /** Nothing is counted as disturbed in a run whose failing passes are not. */
  lemma {:induction false} UndisturbedIsNothing(h: Habit, batch: nat, now: Instant, steps: seq<Step>, id: FileId)
    requires Follows(h, batch, now, steps) && h.undisturbed
    ensures LedgerAfter(batch, now, steps, id).disturbed == 0
  {
    if steps != [] {
      var n := |steps| - 1;
      UndisturbedIsNothing(h, batch, now, steps[..n], id);
      if Misses(FleetAfter(batch, now, steps[..n]), steps[n], id) {
        UntouchedIsEnded(FleetAfter(batch, now, steps[..n]), steps[n]);
      }
    }
  }
}
