/**
 No file is stuck. From every state it can be in, time, the maintenance sweep and the deletes it
 asks of the store bring a file to its end and both buckets to their final purge marks, whatever
 workers crashed on the way. An attached file is the one exception: only retention ends it.
 */
module FileProgress {
  import opened Common
  import opened FileRows
  import opened FileRetention
  import opened FileLifecycle
  import opened FileStatements

  /** The steps of time, of the sweep, and of the store obeying a delete. */
  predicate Sweeping(a: Action) {
    || a.Tick? || a.BulkSweep? || a.Select? || a.BeginPurgeQuarantine? || a.EndPurgeQuarantine?
    || a.BeginPurgeClean? || a.EndPurgeClean? || a.MarkSweep? || a.LoseQuarantine? || a.LoseClean?
  }

  /** Maintenance with no retention at all, or with retention that always finds the same ruling. */
  predicate Maintenance(r: Option<Ruling>, a: Action) {
    Sweeping(a) || (r.Some? && a.RetireFile? && a.ruling == r.value)
  }

  ghost predicate Leads(r: Option<Ruling>, w: World, w': World) {
    exists actions :: (forall i :: 0 <= i < |actions| ==> Maintenance(r, actions[i])) && Run(w, actions) == w'
  }

  lemma {:induction false} LeadsToItself(r: Option<Ruling>, w: World)
    ensures Leads(r, w, w)
  {
    assert Run(w, []) == w;
  }

  lemma {:induction false} LeadsOn(r: Option<Ruling>, w0: World, w: World, a: Action)
    requires Leads(r, w0, w) && Maintenance(r, a)
    ensures Leads(r, w0, Apply(w, a))
  {
    var actions :| (forall i :: 0 <= i < |actions| ==> Maintenance(r, actions[i])) && Run(w0, actions) == w;
    var more := actions + [a];
    assert more[..|more| - 1] == actions;
    assert Run(w0, more) == Apply(w, a);
  }

  // ----- every live file can be ended

  /** From when the sweep fails a scan: its deadline is past and no lease is in force. */
  function FailsFrom(row: Row): Instant
    requires row.scanDeadlineAt.Some?
  {
    if row.scanLeaseExpiresAt.Some? then Max(row.scanDeadlineAt.value, row.scanLeaseExpiresAt.value)
        else row.scanDeadlineAt.value
  }

  /** A scanning file always has a deadline, and the sweep ends it exactly from then on. */
  lemma ScanningEndsExactly(w: World, at: Instant)
    requires Inv(w) && w.row.state == Scanning && at <= w.store.now
    ensures w.row.scanDeadlineAt.Some?
    ensures Apply(w, BulkSweep(FailOverdue, at)).row.state == ScanFailed <==> at >= FailsFrom(w.row)
  {
  }

  /** When the sweep can end the file at the latest. */
  function EndableFrom(row: Row): Instant
    requires RowChecks(row) && !Terminal(row.state) && row.state != Attached
  {
    if row.state == AwaitingUpload then row.uploadExpiresAt
    else if row.state == Scanning then FailsFrom(row)
    else row.cleanAt.value + UNSENT_TTL_MS
  }

  function EndingPass(state: FileState): Bulk {
    match state
    case AwaitingUpload => ExpireGrants
    case Scanning => FailOverdue
    case _ => DiscardUnsent
  }

  lemma EndingEnds(w: World)
    requires RowChecks(w.row) && !Terminal(w.row.state) && w.row.state != Attached && w.store.now >= EndableFrom(w.row)
    ensures Terminal(Apply(w, BulkSweep(EndingPass(w.row.state), w.store.now)).row.state)
  {
  }

  /** Time and the sweep end every file that is not attached. */
  lemma {:induction false} LiveFileEnds(r: Option<Ruling>, w0: World, w: World) returns (w': World)
    requires Inv(w) && Leads(r, w0, w) && w.row.state != Attached
    ensures Inv(w') && Leads(r, w0, w') && Terminal(w'.row.state)
  {
    w' := w;
    if !Terminal(w.row.state) {
      w' := Later(r, w0, w, EndableFrom(w.row));
      var a := BulkSweep(EndingPass(w'.row.state), w'.store.now);
      EndingEnds(w');
      LeadsOn(r, w0, w', a);
      ActionKeepsInv(w', a);
      w' := Apply(w', a);
    }
  }

  lemma RetiringEnds(w: World, r: Ruling)
    requires w.row.state == Attached && Retires(w.row.context, r, w.store.now)
    ensures Terminal(Apply(w, RetireFile(r, w.store.now)).row.state)
  {
  }

  /** Retention ends an attached file once its order releases it. */
  lemma {:induction false} RetentionEnds(r: Ruling, w0: World, w: World) returns (w': World)
    requires Inv(w) && Leads(Some(r), w0, w) && w.row.state == Attached && Releases(w.row.context, r)
    ensures Inv(w') && Leads(Some(r), w0, w') && Terminal(w'.row.state)
  {
    w' := Later(Some(r), w0, w, KeptUntil(w.row.context, r.order.value).value);
    var a := RetireFile(r, w'.store.now);
    RetentionIsOneDate(w.row.context, r.order.value, w'.store.now);
    RetiringEnds(w', r);
    LeadsOn(Some(r), w0, w', a);
    ActionKeepsInv(w', a);
    w' := Apply(w', a);
  }

  lemma {:induction false} Later(r: Option<Ruling>, w0: World, w: World, at: Instant) returns (w': World)
    requires Inv(w) && Leads(r, w0, w)
    ensures Inv(w') && Leads(r, w0, w') && w'.row == w.row && w'.workers == w.workers && w'.sweeps == w.sweeps
            && w'.store.now == Max(w.store.now, at)
  {
    var now := Max(w.store.now, at);
    LeadsOn(r, w0, w, Tick(now));
    ActionKeepsInv(w, Tick(now));
    w' := Apply(w, Tick(now));
  }

  // ----- every ended file can be purged

  /** Process `p` is visiting the ended file and has read it as it is. */
  predicate Visiting(w: World, p: ProcessId, quarantine: Progress, clean: Progress) {
    && Terminal(w.row.state) && Due(w.row.endedAt, w.store.now - COPY_INTENT_CLOSURE_MS)
    && p !in w.workers && p in w.sweeps && w.sweeps[p] == Sweep(w.store.now, w.row, quarantine, clean)
    && (quarantine.NotNeeded? ==> w.row.quarantinePurgedAt.Some?) && (clean.NotNeeded? ==> w.row.cleanPurgedAt.Some?)
  }

  predicate Finished(p: Progress) { p.NotNeeded? || p.Done? }

  /** The visit goes on as it began, while the clock stands still. */
  predicate SameReading(w: World, w': World) {
    w'.store.now == w.store.now && w'.row == w.row
  }

  lemma {:induction false} QuarantineEmpties(r: Option<Ruling>, w0: World, w: World) returns (w': World)
    requires Leads(r, w0, w) && w.store.quarantinePurging
    ensures Leads(r, w0, w') && w' == w.(store := w.store.(quarantine := {}))
    decreases |w.store.quarantine|
  {
    if v :| v in w.store.quarantine {
      LeadsOn(r, w0, w, LoseQuarantine(v));
      var w1 := Apply(w, LoseQuarantine(v));
      assert w1 == w.(store := w.store.(quarantine := w.store.quarantine - {v}));
      w' := QuarantineEmpties(r, w0, w1);
    } else {
      w' := w;
    }
  }

  lemma {:induction false} CleanEmpties(r: Option<Ruling>, w0: World, w: World) returns (w': World)
    requires Leads(r, w0, w) && w.store.cleanPurging
    ensures Leads(r, w0, w') && w' == w.(store := w.store.(clean := {}))
    decreases |w.store.clean|
  {
    if v :| v in w.store.clean {
      LeadsOn(r, w0, w, LoseClean(v));
      var w1 := Apply(w, LoseClean(v));
      assert w1 == w.(store := w.store.(clean := w.store.clean - {v}));
      w' := CleanEmpties(r, w0, w1);
    } else {
      w' := w;
    }
  }

  /** A step of the visit that only moves its own progress. */
  lemma {:induction false} VisitStep(w: World, p: ProcessId, a: Action)
    requires p !in w.workers && p in w.sweeps && !StoreAction(a) && !OwnerAction(a) && a.id == p
    ensures Apply(w, a) == ApplySweep(w, a, w.sweeps[p])
  {
  }

  lemma {:induction false} QuarantineBegins(w: World, p: ProcessId, clean: Progress)
    requires Visiting(w, p, Pending, clean)
    ensures var w' := Apply(w, BeginPurgeQuarantine(p));
            Visiting(w', p, Deleting(w.store.quarantine), clean) && w'.store.quarantinePurging && SameReading(w, w')
  {
    VisitStep(w, p, BeginPurgeQuarantine(p));
  }

  lemma {:induction false} QuarantineEnds(w: World, p: ProcessId, todo: set<VersionId>, clean: Progress)
    requires Visiting(w, p, Deleting(todo), clean) && w.store.quarantine == {}
    ensures Visiting(Apply(w, EndPurgeQuarantine(p)), p, Done, clean) && SameReading(w, Apply(w, EndPurgeQuarantine(p)))
  {
    VisitStep(w, p, EndPurgeQuarantine(p));
  }

  lemma {:induction false} PurgeQuarantine(
    r: Option<Ruling>, w0: World, w: World, p: ProcessId, clean: Progress) returns (w': World)
    requires Leads(r, w0, w) && Visiting(w, p, Pending, clean)
    ensures Leads(r, w0, w') && Visiting(w', p, Done, clean) && SameReading(w, w')
  {
    LeadsOn(r, w0, w, BeginPurgeQuarantine(p));
    QuarantineBegins(w, p, clean);
    w' := QuarantineEmpties(r, w0, Apply(w, BeginPurgeQuarantine(p)));
    LeadsOn(r, w0, w', EndPurgeQuarantine(p));
    QuarantineEnds(w', p, w.store.quarantine, clean);
    w' := Apply(w', EndPurgeQuarantine(p));
  }

  lemma {:induction false} CleanBegins(w: World, p: ProcessId, quarantine: Progress)
    requires Visiting(w, p, quarantine, Pending) && Finished(quarantine)
    ensures var w' := Apply(w, BeginPurgeClean(p));
            Visiting(w', p, quarantine, Deleting(w.store.clean)) && w'.store.cleanPurging && SameReading(w, w')
  {
    VisitStep(w, p, BeginPurgeClean(p));
  }

  lemma {:induction false} CleanEnds(w: World, p: ProcessId, quarantine: Progress, todo: set<VersionId>)
    requires Visiting(w, p, quarantine, Deleting(todo)) && w.store.clean == {}
    ensures Visiting(Apply(w, EndPurgeClean(p)), p, quarantine, Done) && SameReading(w, Apply(w, EndPurgeClean(p)))
  {
    VisitStep(w, p, EndPurgeClean(p));
  }

  lemma {:induction false} PurgeClean(
    r: Option<Ruling>, w0: World, w: World, p: ProcessId, quarantine: Progress) returns (w': World)
    requires Leads(r, w0, w) && Visiting(w, p, quarantine, Pending) && Finished(quarantine)
    ensures Leads(r, w0, w') && Visiting(w', p, quarantine, Done) && SameReading(w, w')
  {
    LeadsOn(r, w0, w, BeginPurgeClean(p));
    CleanBegins(w, p, quarantine);
    w' := CleanEmpties(r, w0, Apply(w, BeginPurgeClean(p)));
    LeadsOn(r, w0, w', EndPurgeClean(p));
    CleanEnds(w', p, quarantine, w.store.clean);
    w' := Apply(w', EndPurgeClean(p));
  }

  predicate FullyPurged(row: Row) {
    Terminal(row.state) && row.quarantinePurgedAt.Some? && row.cleanPurgedAt.Some?
  }

  lemma {:induction false} VisitMarks(w: World, p: ProcessId, quarantine: Progress, clean: Progress)
    requires Visiting(w, p, quarantine, clean) && Finished(quarantine) && Finished(clean)
    ensures FullyPurged(Apply(w, MarkSweep(p)).row)
    ensures w.row.cleanPurgedAt.None? ==> Apply(w, MarkSweep(p)).row.cleanPurgedAt == Some(w.store.now)
  {
    VisitStep(w, p, MarkSweep(p));
  }

  lemma {:induction false} VisitStarts(w: World, p: ProcessId)
    requires Terminal(w.row.state) && Due(w.row.endedAt, w.store.now - COPY_INTENT_CLOSURE_MS) && !FullyPurged(w.row)
    requires p !in w.workers && p !in w.sweeps
    ensures Visiting(Apply(w, Select(p, w.store.now)), p,
                     if w.row.quarantinePurgedAt.None? then Pending else NotNeeded,
                         if w.row.cleanPurgedAt.None? then Pending else NotNeeded)
  {
  }

  lemma {:induction false} EndedFileIsPurged(r: Option<Ruling>, w0: World, w: World, p: ProcessId) returns (w': World)
    requires Leads(r, w0, w) && Terminal(w.row.state) && Due(w.row.endedAt, w.store.now - COPY_INTENT_CLOSURE_MS)
             && !FullyPurged(w.row)
    requires p !in w.workers && p !in w.sweeps
    ensures Leads(r, w0, w') && FullyPurged(w'.row)
    ensures w.row.cleanPurgedAt.None? ==> w'.row.cleanPurgedAt == Some(w.store.now)
  {
    var quarantine := if w.row.quarantinePurgedAt.None? then Pending else NotNeeded;
    var clean := if w.row.cleanPurgedAt.None? then Pending else NotNeeded;
    LeadsOn(r, w0, w, Select(p, w.store.now));
    VisitStarts(w, p);
    w' := Apply(w, Select(p, w.store.now));
    if quarantine.Pending? {
      w' := PurgeQuarantine(r, w0, w', p, clean);
      quarantine := Done;
    }
    if clean.Pending? {
      w' := PurgeClean(r, w0, w', p, quarantine);
      clean := Done;
    }
    LeadsOn(r, w0, w', MarkSweep(p));
    VisitMarks(w', p, quarantine, clean);
    w' := Apply(w', MarkSweep(p));
  }

  lemma {:induction false} EndIsFollowedByPurge(r: Option<Ruling>, w0: World, w: World) returns (w': World)
    requires Inv(w) && Leads(r, w0, w) && Terminal(w.row.state)
    ensures Leads(r, w0, w') && FullyPurged(w'.row)
  {
    w' := w;
    if !FullyPurged(w'.row) {
      w' := Later(r, w0, w', w'.row.endedAt.value + COPY_INTENT_CLOSURE_MS);
      var p := UnusedNumber(w'.workers.Keys + w'.sweeps.Keys);
      w' := EndedFileIsPurged(r, w0, w', p);
    }
  }

  /**
   Every file that is not attached can be brought to its final purge from every state it can be
   in, by time and the sweep alone: no crash, lost lease, refused attempt or abandoned visit
   leaves it stuck.
   */
  lemma {:induction false} NoFileIsStuck(w: World) returns (w': World)
    requires Inv(w) && w.row.state != Attached
    ensures Leads(None, w, w') && FullyPurged(w'.row)
  {
    LeadsToItself(None, w);
    w' := LiveFileEnds(None, w, w);
    w' := EndIsFollowedByPurge(None, w, w');
  }

  /** A visit is for exactly those files that miss a mark: a live one's quarantine waits five minutes. */
  lemma CandidatesMissAMark(w: World, at: Instant)
    requires Inv(w)
    ensures PurgeCandidate(w.row, at) <==>
              || NeedsClean(w.row)
              || (NeedsQuarantine(w.row)
                  && (Terminal(w.row.state) || (w.row.cleanAt.Some? && at >= w.row.cleanAt.value + 5 * 60_000)))
  {
    assert RowChecks(w.row);
  }

  // ----- an attached file

  lemma StatementKeepsAttached(row: Row, st: Statement)
    requires RowOk(row) && row.state == Attached && !st.RetireRow? && Fits(row, st)
    ensures Executed(row, st).state == Attached && Executed(row, st).context == row.context
  {
  }

  lemma {:induction false} MaintenanceDoesNotRetire(r: Option<Ruling>, w: World, a: Action)
    requires Maintenance(r, a) && (r.Some? ==> !Releases(w.row.context, r.value))
    ensures StatementOf(w, a).Some? ==> !StatementOf(w, a).value.RetireRow?
  {
    if a.RetireFile? && a.ruling.order.Some? {
      RetentionIsOneDate(w.row.context, a.ruling.order.value, a.at);
    }
  }

  /** No step of maintenance takes an attached file anywhere unless its order releases it. */
  lemma {:induction false} AttachedStays(r: Option<Ruling>, w: World, a: Action)
    requires Inv(w) && w.row.state == Attached && Maintenance(r, a)
    requires r.Some? ==> !Releases(w.row.context, r.value)
    ensures var row := Apply(w, a).row; row.state == Attached && row.context == w.row.context
  {
    StepExecutesItsStatement(w, a);
    if StatementOf(w, a).Some? {
      MaintenanceDoesNotRetire(r, w, a);
      StatementFits(w, a);
      StatementKeepsAttached(w.row, StatementOf(w, a).value);
    }
  }

  lemma {:induction false} AttachedStaysForEver(r: Option<Ruling>, w: World, actions: seq<Action>)
    requires Inv(w) && w.row.state == Attached && (r.Some? ==> !Releases(w.row.context, r.value))
    requires forall i :: 0 <= i < |actions| ==> Maintenance(r, actions[i])
    ensures var w' := Run(w, actions); Inv(w') && w'.row.state == Attached && w'.row.context == w.row.context
  {
    if actions != [] {
      var n := |actions| - 1;
      AttachedStaysForEver(r, w, actions[..n]);
      AttachedStays(r, Run(w, actions[..n]), actions[n]);
      ActionKeepsInv(Run(w, actions[..n]), actions[n]);
    }
  }

  /**
   The exact condition: maintenance can bring a file to its final purge if and only if the file is
   not attached, or retention runs, enforces, finds no hold, and finds an order whose state ends
   the file's retention.
   */
  lemma {:induction false} PurgedExactly(w: World, r: Option<Ruling>)
    requires Inv(w)
    ensures (exists w' :: Leads(r, w, w') && FullyPurged(w'.row))
            <==> w.row.state != Attached || (r.Some? && Releases(w.row.context, r.value))
  {
    if w.row.state != Attached || (r.Some? && Releases(w.row.context, r.value)) {
      LeadsToItself(r, w);
      var w1 := w;
      if w.row.state == Attached {
        w1 := RetentionEnds(r.value, w, w);
      } else {
        w1 := LiveFileEnds(r, w, w);
      }
      var w2 := EndIsFollowedByPurge(r, w, w1);
    } else {
      forall w' | Leads(r, w, w') ensures !FullyPurged(w'.row) {
        var actions :| (forall i :: 0 <= i < |actions| ==> Maintenance(r, actions[i])) && Run(w, actions) == w';
        AttachedStaysForEver(r, w, actions);
      }
    }
  }
}
