/**
 The SQL behind every step of a file's life: which statement a step issues, when the database
 refuses it, and that the step stores exactly what the database accepts.
 */
module FileStatements {
  import opened Common
  import opened FileRows
  import opened FileRetention
  import opened FileLifecycle

  // ----- when the database refuses a statement

  lemma OwnerStatement(row: Row, st: Statement)
    requires RowOk(row) && (st.Finish? || st.EndFile? || st.BindTo? || st.RetireRow?)
    ensures Refused(row, st) <==> BackDated(row, st)
  {
    OwnerStep(row, if st.BindTo? then st.order else "", st.at);
  }

  lemma BulkStatement(row: Row, bulk: Bulk, at: Instant)
    requires RowOk(row)
    ensures Refused(row, BulkUpdate(bulk, at)) <==> OneTooMany(row, BulkUpdate(bulk, at))
  {
    if Matches(bulk, row, at) && AttemptsFit(BulkUpdated(bulk, row, at)) {
      BulkStep(bulk, row, at);
    }
  }

  lemma WorkerStatement(row: Row, st: Statement)
    requires RowOk(row) && Fits(row, st) && (st.TakeLease? || st.CommitCopy? || st.MarkQuarantine?)
    ensures !Refused(row, st)
  {
    if st.CommitCopy? {
      WorkerStep(row, st.claimed, st.at);
    } else if st.TakeLease? && row.state == Scanning {
      WorkerStep(row, row, st.at);
    }
  }

  lemma SettleStatement(row: Row, claimed: Row, s: Settlement, at: Instant)
    requires RowOk(row) && Fits(row, SettleTo(claimed, s, at))
    ensures Refused(row, SettleTo(claimed, s, at)) <==> OneTooMany(row, SettleTo(claimed, s, at))
  {
    if row.version == claimed.version && AttemptsFit(Settle(row, claimed, s, at).value) {
      SettleStep(row, claimed, s, at);
    }
  }

  /**
   The exact condition: of all the statements the program issues, the trigger and the checks
   refuse one that counts an attempt on a row that already has 1000 of them, or one that dates an
   upload before the row's creation, and no other.
   */
  lemma RefusedExactly(row: Row, st: Statement)
    requires RowOk(row) && Fits(row, st)
    ensures Refused(row, st) <==> OneTooMany(row, st) || BackDated(row, st)
  {
    match st
    case BulkUpdate(bulk, at) => BulkStatement(row, bulk, at);
    case SettleTo(claimed, s, at) => SettleStatement(row, claimed, s, at);
    case MarkPurge(file, at) => PurgeStep(row, file, at);
    case TakeLease(_) => WorkerStatement(row, st);
    case CommitCopy(_, _) => WorkerStatement(row, st);
    case MarkQuarantine(_) => WorkerStatement(row, st);
    case _ => OwnerStatement(row, st);
  }

  /** Executing a statement keeps the table's rows in order. */
  lemma ExecutedIsOk(row: Row, st: Statement)
    requires RowOk(row) && Fits(row, st)
    ensures RowOk(Executed(row, st))
    ensures Executed(row, st) == row || GuardAllows(row, Executed(row, st))
  {
  }

  // ----- which statement a step issues

  function OwnerStatementOf(a: Action): Statement
    requires OwnerAction(a)
  {
    match a
    case FinishUpload(at) => Finish(at)
    case OwnerDiscard(at) => EndFile(at)
    case Attach(order, at) => BindTo(order, at)
    case RetireFile(_, at) => RetireRow(at)
    case BulkSweep(bulk, at) => BulkUpdate(bulk, at)
  }

  function WorkerStatementOf(a: Action, k: Worker): Option<Statement> {
    match (a, k)
    case (Intend(_, at), Scanned(row, _)) => Some(CommitCopy(row, at))
    case (SettleScan(_, at), Settling(row, s)) => Some(SettleTo(row, s, at))
    case (MarkWinnerPurge(_, at), Purged) => Some(MarkQuarantine(at))
    case _ => None
  }

  function SweepStatementOf(a: Action, s: Sweep): Option<Statement> {
    if a.MarkSweep? && (s.quarantine.NotNeeded? || s.quarantine.Done?) && (s.clean.NotNeeded? || s.clean.Done?)
    then Some(MarkPurge(s.file, s.at)) else None
  }

  /** A reading of the clock that has not happened yet cannot be used. */
  function IfPast(st: Option<Statement>, now: Instant): Option<Statement> {
    if st.Some? && st.value.at <= now then st else None
  }

  /** Retention goes no further than its rule allows. */
  predicate Withheld(row: Row, a: Action) {
    a.RetireFile? && !Retires(row.context, a.ruling, a.at)
  }

  function StatementOf(w: World, a: Action): Option<Statement> {
    if StoreAction(a) then None
    else if OwnerAction(a) then if Withheld(w.row, a) then None else IfPast(Some(OwnerStatementOf(a)), w.store.now)
    else if a.id in w.workers then IfPast(WorkerStatementOf(a, w.workers[a.id]), w.store.now)
    else if a.id in w.sweeps then SweepStatementOf(a, w.sweeps[a.id])
    else if a.Claim? then IfPast(Some(TakeLease(a.at)), w.store.now)
    else None
  }

  lemma StatementFits(w: World, a: Action)
    requires Inv(w) && StatementOf(w, a).Some?
    ensures RowOk(w.row) && Fits(w.row, StatementOf(w, a).value)
  {
    if !StoreAction(a) && !OwnerAction(a) && a.id in w.workers {
      assert WorkerInv(w.store, w.row, w.workers[a.id]);
    }
  }

  lemma OwnerExecutes(row: Row, now: Instant, a: Action)
    requires RowOk(row) && OwnerAction(a) && a.at <= now && !Withheld(row, a)
    ensures ApplyRow(row, now, a) == Executed(row, OwnerStatementOf(a))
  {
    RefusedExactly(row, OwnerStatementOf(a));
  }

  lemma WorkerExecutes(w: World, a: Action, k: Worker)
    requires WorkerStatementOf(a, k).Some? && WorkerStatementOf(a, k).value.at <= w.store.now
    requires RowOk(w.row) && Fits(w.row, WorkerStatementOf(a, k).value)
    ensures ApplyWorker(w, a, k).row == Executed(w.row, WorkerStatementOf(a, k).value)
  {
    RefusedExactly(w.row, WorkerStatementOf(a, k).value);
  }

  lemma WorkerIsSilent(w: World, a: Action, k: Worker)
    requires IfPast(WorkerStatementOf(a, k), w.store.now).None?
    ensures ApplyWorker(w, a, k).row == w.row
  {
  }

  lemma SweepExecutes(w: World, a: Action, s: Sweep)
    requires RowOk(w.row) && (SweepStatementOf(a, s).Some? ==> Fits(w.row, SweepStatementOf(a, s).value))
    ensures var st := SweepStatementOf(a, s);
            ApplySweep(w, a, s).row == if st.Some? then Executed(w.row, st.value) else w.row
  {
    if SweepStatementOf(a, s).Some? {
      RefusedExactly(w.row, SweepStatementOf(a, s).value);
    }
  }

  lemma StartExecutes(w: World, a: Action)
    requires RowOk(w.row)
    ensures ApplyStart(w, a).row == if a.Claim? && a.at <= w.store.now then Executed(w.row, TakeLease(a.at)) else w.row
  {
    if a.Claim? {
      RefusedExactly(w.row, TakeLease(a.at));
    }
  }

  /**
   Every step of a file's life stores what the database makes of its statement, and no step without
   one touches the row.
   */
  lemma StepExecutesItsStatement(w: World, a: Action)
    requires Inv(w)
    ensures var st := StatementOf(w, a);
            Apply(w, a).row == if st.Some? then Executed(w.row, st.value) else w.row
  {
    if StatementOf(w, a).Some? {
      StatementFits(w, a);
    }
    RowsAreOk(w);
    FittingStepExecutes(w, a);
  }

  lemma RowsAreOk(w: World)
    requires Inv(w)
    ensures RowOk(w.row)
  {
  }

  /** The row after a statement that may not have been issued. */
  function ExecutedIf(row: Row, st: Option<Statement>): Row { if st.Some? then Executed(row, st.value) else row }

  lemma OwnerStepExecutes(w: World, a: Action)
    requires OwnerAction(a) && RowOk(w.row)
    ensures Apply(w, a).row
            == ExecutedIf(w.row, if Withheld(w.row, a) then None else IfPast(Some(OwnerStatementOf(a)), w.store.now))
  {
    if a.at <= w.store.now && !Withheld(w.row, a) {
      OwnerExecutes(w.row, w.store.now, a);
    }
  }

  lemma WorkerStepExecutes(w: World, a: Action, k: Worker)
    requires RowOk(w.row)
    requires var st := IfPast(WorkerStatementOf(a, k), w.store.now); st.Some? ==> Fits(w.row, st.value)
    ensures ApplyWorker(w, a, k).row == ExecutedIf(w.row, IfPast(WorkerStatementOf(a, k), w.store.now))
  {
    if IfPast(WorkerStatementOf(a, k), w.store.now).Some? {
      WorkerExecutes(w, a, k);
    } else {
      WorkerIsSilent(w, a, k);
    }
  }

  lemma FittingStepExecutes(w: World, a: Action)
    requires RowOk(w.row) && (StatementOf(w, a).Some? ==> Fits(w.row, StatementOf(w, a).value))
    ensures Apply(w, a).row == ExecutedIf(w.row, StatementOf(w, a))
  {
    if StoreAction(a) {
    } else if OwnerAction(a) {
      OwnerStepExecutes(w, a);
    } else if a.id in w.workers {
      WorkerStepExecutes(w, a, w.workers[a.id]);
    } else if a.id in w.sweeps {
      SweepExecutes(w, a, w.sweeps[a.id]);
    } else {
      StartExecutes(w, a);
    }
  }

  /**
   In every state of the invariant a step's statement is refused exactly for a 1001st attempt or a
   back-dated upload.
   */
  lemma StepRefusedExactly(w: World, a: Action)
    requires Inv(w) && StatementOf(w, a).Some?
    ensures var st := StatementOf(w, a).value;
            Refused(w.row, st) <==> OneTooMany(w.row, st) || BackDated(w.row, st)
  {
    StatementFits(w, a);
    RefusedExactly(w.row, StatementOf(w, a).value);
  }
}
