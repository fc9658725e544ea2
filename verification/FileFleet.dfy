/**
 Many files under maintenance: every file with its own owner, workers and store, and any number of
 maintenance rounds over the whole table. A round reads the clock once. Its failing pass and, after
 it, its recovering pass each select a batch of rows in one statement and update them in another;
 other processes may do anything before, between and after the four statements.
 */
module FileFleet {
  import opened Common
  import opened FileSignature
  import opened FileRows
  import opened FileLifecycle
  import opened FileStatements
  import opened FileDatabase
  import opened FileAttempts

  type RoundId = nat

  /** Which statement of the round comes next, with the rows that were selected for it. */
  datatype Stage = FailNext(ids: set<FileId>) | SelectNext | RecoverNext(ids: set<FileId>)

  /** A round in progress. `overlooked` are the overdue rows its failing pass left out of its batch. */
  datatype Round = Round(at: Instant, overlooked: set<FileId>, stage: Stage)

  datatype Fleet = Fleet(now: Instant, files: map<FileId, World>, rounds: map<RoundId, Round>)

  /** The table that statements see. */
  function Table(f: Fleet): Rows {
    map id | id in f.files :: f.files[id].row
  }

  datatype Step =
    | Advance(now: Instant)
    | Create(id: FileId, context: Context, declaredBytes: nat, at: Instant)
    | Act(id: FileId, action: Action)
    | SelectOverdue(round: RoundId, at: Instant, ids: set<FileId>)
    | FailRows(round: RoundId)
    | SelectExpired(round: RoundId, ids: set<FileId>)
    | RecoverRows(round: RoundId)
    | Stop(round: RoundId)

  /** What can happen to one file alone. The clock and the two passes of a round belong to the whole table. */
  predicate Own(a: Action) {
    !a.Tick? && (a.BulkSweep? ==> a.bulk.ExpireGrants? || a.bulk.DiscardUnsent?)
  }

  /** One bulk statement over the listed files. */
  ghost function Bulked(files: map<FileId, World>, ids: set<FileId>, bulk: Bulk, at: Instant): map<FileId, World> {
    map id | id in files :: if id in ids then Apply(files[id], BulkSweep(bulk, at)) else files[id]
  }

  ghost function Ticked(files: map<FileId, World>, now: Instant): map<FileId, World> {
    map id | id in files :: Apply(files[id], Tick(now))
  }

  function Overlooked(rows: Rows, at: Instant, ids: set<FileId>): set<FileId> {
    set id | id in rows && Matches(FailOverdue, rows[id], at) && id !in ids
  }

  predicate FailReady(f: Fleet, r: RoundId) { r in f.rounds && f.rounds[r].stage.FailNext? }

  predicate SelectReady(f: Fleet, r: RoundId) { r in f.rounds && f.rounds[r].stage.SelectNext? }

  predicate RecoverReady(f: Fleet, r: RoundId) { r in f.rounds && f.rounds[r].stage.RecoverNext? }

  /** The recovering statement fails as a whole. */
  ghost predicate RecoverFails(f: Fleet, r: RoundId)
    requires RecoverReady(f, r)
  {
    Blocked(Table(f), f.rounds[r].stage.ids, RecoverLeases, f.rounds[r].at)
  }

  function AtStage(f: Fleet, r: RoundId, stage: Stage): map<RoundId, Round>
    requires r in f.rounds
  {
    f.rounds[r := f.rounds[r].(stage := stage)]
  }

  ghost function Created(f: Fleet, context: Context, declaredBytes: nat, at: Instant): World {
    Apply(Init(context, declaredBytes, at), Tick(f.now))
  }

  /** The effect of a step, with `batch` as the limit of every select; an impossible step changes nothing. */
  ghost function Next(batch: nat, f: Fleet, step: Step): Fleet {
    match step
    case Advance(now) => if now >= f.now then f.(now := now, files := Ticked(f.files, now)) else f
    case Create(id, context, declaredBytes, at) =>
      if id !in f.files && at <= f.now && SizeFits(context, declaredBytes)
      then f.(files := f.files[id := Created(f, context, declaredBytes, at)]) else f
    case Act(id, a) =>
      if id in f.files && Own(a) then f.(files := f.files[id := Apply(f.files[id], a)]) else f
    case SelectOverdue(r, at, ids) =>
      if r !in f.rounds && at <= f.now && Selects(Table(f), FailOverdue, at, batch, ids)
      then f.(rounds := f.rounds[r := Round(at, Overlooked(Table(f), at, ids), FailNext(ids))]) else f
    case FailRows(r) =>
      if FailReady(f, r)
      then f.(files := Bulked(f.files, f.rounds[r].stage.ids, FailOverdue, f.rounds[r].at),
              rounds := AtStage(f, r, SelectNext))
      else f
    case SelectExpired(r, ids) =>
      if SelectReady(f, r) && Selects(Table(f), RecoverLeases, f.rounds[r].at, batch, ids)
      then f.(rounds := AtStage(f, r, RecoverNext(ids))) else f
    case RecoverRows(r) =>
      if !RecoverReady(f, r) then f
      else if RecoverFails(f, r) then f.(rounds := f.rounds - {r})
      else f.(files := Bulked(f.files, f.rounds[r].stage.ids, RecoverLeases, f.rounds[r].at), rounds := f.rounds - {r})
    case Stop(r) => f.(rounds := f.rounds - {r})
  }

  ghost function FleetAfter(batch: nat, now: Instant, steps: seq<Step>): Fleet {
    if steps == [] then Fleet(now, map[], map[])
    else Next(batch, FleetAfter(batch, now, steps[..|steps| - 1]), steps[|steps| - 1])
  }

  /** What a step does to one file, as an action of the file's own life. */
  ghost function ActionOn(f: Fleet, step: Step, id: FileId): Option<Action> {
    match step
    case Advance(now) => if now >= f.now then Some(Tick(now)) else None
    case Act(x, a) => if x == id && Own(a) then Some(a) else None
    case FailRows(r) =>
      if FailReady(f, r) && id in f.rounds[r].stage.ids then Some(BulkSweep(FailOverdue, f.rounds[r].at)) else None
    case RecoverRows(r) =>
      if RecoverReady(f, r) && !RecoverFails(f, r) && id in f.rounds[r].stage.ids
      then Some(BulkSweep(RecoverLeases, f.rounds[r].at)) else None
    case _ => None
  }

  /** Every step is, for every file, at most one action of the file's own life. */
  lemma {:induction false} StepActs(batch: nat, f: Fleet, step: Step, id: FileId)
    requires id in f.files
    ensures var a := ActionOn(f, step, id);
            && id in Next(batch, f, step).files
            && Next(batch, f, step).files[id] == if a.Some? then Apply(f.files[id], a.value) else f.files[id]
  {
  }

  /** A statement of the step is refused by the table's checks. */
  ghost predicate StatementRefused(f: Fleet, step: Step) {
    || (step.Act? && step.id in f.files && Own(step.action) && StepRefused(f.files[step.id], step.action))
    || (step.RecoverRows? && RecoverReady(f, step.round) && RecoverFails(f, step.round))
  }

  // ----- habits

  const PUNCTUAL: Discipline := Discipline(true, true, false, true, false)

  /**
   The clock habits of the processes of single files: worker clocks do not run backwards, claims
   are read after the upload, uploads are not back-dated.
   */
  predicate Ordered(f: Fleet, step: Step) {
    step.Act? && step.id in f.files ==> Orderly(PUNCTUAL, f.files[step.id], step.action)
  }

  /** No claim uses a reading ten minutes older than that of a round in progress. */
  predicate Recent(f: Fleet, step: Step) {
    step.Act? && step.action.Claim? ==>
      forall r :: r in f.rounds ==> step.action.at > f.rounds[r].at - SCAN_LEASE_MS
  }

  predicate Punctual(f: Fleet, step: Step) { Ordered(f, step) && Recent(f, step) }

  /** Every reading of the clock is the current one. */
  predicate ReadsNow(f: Fleet, step: Step) {
    match step
    case Create(_, _, _, at) => at == f.now
    case Act(_, a) => Reading(a).Some? ==> Reading(a).value == f.now
    case SelectOverdue(_, at, _) => at == f.now
    case _ => true
  }

  /** Whatever a failing pass selected still matches when it is updated. */
  predicate Untouched(f: Fleet, step: Step) {
    step.FailRows? && FailReady(f, step.round) ==>
      var round := f.rounds[step.round];
      forall id :: id in round.stage.ids ==> id in f.files && Matches(FailOverdue, f.files[id].row, round.at)
  }

  /** Three habits that may or may not be kept besides those of single files; current readings imply the second. */
  datatype Habit = Habit(current: bool, recent: bool, undisturbed: bool)

  predicate Keeps(h: Habit, f: Fleet, step: Step) {
    && (if h.current then ReadsNow(f, step) else Ordered(f, step) && (h.recent ==> Recent(f, step)))
    && (h.undisturbed ==> Untouched(f, step))
  }

  /** Claims are no older than the rounds allow, directly or because all readings are current. */
  predicate Fenced(h: Habit) { h.current || h.recent }

  ghost predicate Follows(h: Habit, batch: nat, now: Instant, steps: seq<Step>) {
    steps != [] ==>
      var n := |steps| - 1;
      Follows(h, batch, now, steps[..n]) && Keeps(h, FleetAfter(batch, now, steps[..n]), steps[n])
  }

  /** Some run that keeps the habits leads here. */
  ghost predicate Attained(h: Habit, batch: nat, f: Fleet) {
    exists now, steps :: Follows(h, batch, now, steps) && f == FleetAfter(batch, now, steps)
  }

  // ----- what every step keeps

  ghost predicate FileInv(w: World, now: Instant) {
    Inv(w) && Clocked(w) && w.store.now == now
  }

  ghost predicate FilesInv(files: map<FileId, World>, now: Instant) {
    forall id :: id in files ==> FileInv(files[id], now)
  }

  /**
   What a round's failing pass has achieved for a row: unless the pass overlooked it or is still to
   update it, the row does not carry an expired lease while overdue.
   */
  predicate Cleared(round: Round, id: FileId, row: Row) {
    id in round.overlooked || (round.stage.FailNext? && id in round.stage.ids) || PassedOver(row, round.at)
  }

  predicate RoundInv(files: map<FileId, World>, round: Round, batch: nat) {
    && (round.overlooked != {} ==> batch < |files|)
    && (round.stage.FailNext? ==>
          && round.stage.ids <= files.Keys && round.stage.ids !! round.overlooked
          && (round.overlooked != {} ==> |round.stage.ids| == batch))
    && (forall id :: id in files ==> Cleared(round, id, files[id].row))
  }

  predicate RoundsInv(batch: nat, f: Fleet) {
    forall r :: r in f.rounds ==> f.rounds[r].at <= f.now && RoundInv(f.files, f.rounds[r], batch)
  }

  ghost predicate FleetInv(batch: nat, f: Fleet) {
    FilesInv(f.files, f.now) && RoundsInv(batch, f)
  }

  lemma {:induction false} ActionKeepsFile(w: World, a: Action, now: Instant)
    requires FileInv(w, now)
    ensures FileInv(Apply(w, a), if a.Tick? && a.now >= now then a.now else now)
  {
    ActionKeepsInv(w, a);
    StepKeepsClocked(w, a);
    ClockStays(w, a);
  }

  lemma ClockStays(w: World, a: Action)
    ensures Apply(w, a).store.now == if a.Tick? && a.now >= w.store.now then a.now else w.store.now
  {
    ClockMovesOn(w, a);
  }

  lemma {:induction false} ActionPasses(w: World, a: Action, at: Instant)
    requires Inv(w) && PassedOver(w.row, at) && (a.Claim? ==> a.at > at - SCAN_LEASE_MS)
    ensures PassedOver(Apply(w, a).row, at)
  {
    StepExecutesItsStatement(w, a);
    var st := StatementOf(w, a);
    if st.Some? {
      StatementFits(w, a);
      OnlyClaimsLease(w, a);
      StatementPasses(w.row, st.value, at);
    }
  }

  lemma OnlyClaimsLease(w: World, a: Action)
    requires StatementOf(w, a).Some?
    ensures var st := StatementOf(w, a).value; st.TakeLease? ==> a.Claim? && st.at == a.at
  {
  }

  /** An ended file stays ended. */
  lemma {:induction false} EndedStaysEnded(w: World, a: Action)
    requires Inv(w) && Terminal(w.row.state)
    ensures Terminal(Apply(w, a).row.state)
  {
    StepExecutesItsStatement(w, a);
    if StatementOf(w, a).Some? {
      StatementFits(w, a);
      ExecutedIsOk(w.row, StatementOf(w, a).value);
    }
  }

  /** A bulk statement on a file is its statement on the file's row. */
  lemma {:induction false} BulkExecutes(w: World, bulk: Bulk, at: Instant)
    requires Inv(w) && at <= w.store.now
    ensures Apply(w, BulkSweep(bulk, at)).row == Executed(w.row, BulkUpdate(bulk, at))
  {
    StepExecutesItsStatement(w, BulkSweep(bulk, at));
  }

  /** A pass of the round does to the table what one bulk update of the table does. */
  lemma {:induction false} PassIsOneStatement(f: Fleet, ids: set<FileId>, bulk: Bulk, at: Instant)
    requires FilesInv(f.files, f.now) && at <= f.now
    ensures Swept(Table(f), Table(f.(files := Bulked(f.files, ids, bulk, at))), ids, bulk, at)
  {
    forall id | id in f.files && id in ids
      ensures Apply(f.files[id], BulkSweep(bulk, at)).row == Executed(f.files[id].row, BulkUpdate(bulk, at))
    {
      BulkExecutes(f.files[id], bulk, at);
    }
  }

  lemma {:induction false} ReachedIsPassed(w: World, at: Instant)
    requires Inv(w) && at <= w.store.now
    ensures PassedOver(Apply(w, BulkSweep(FailOverdue, at)).row, at)
  {
    BulkExecutes(w, FailOverdue, at);
    FailPass(w.row, at);
  }

  lemma {:induction false} BulkedKeepsFiles(f: Fleet, ids: set<FileId>, bulk: Bulk, at: Instant)
    requires FilesInv(f.files, f.now)
    ensures FilesInv(Bulked(f.files, ids, bulk, at), f.now)
  {
    forall id | id in f.files && id in ids ensures FileInv(Apply(f.files[id], BulkSweep(bulk, at)), f.now) {
      ActionKeepsFile(f.files[id], BulkSweep(bulk, at), f.now);
    }
  }

  lemma {:induction false} ActionKeepsCleared(w: World, a: Action, round: Round, id: FileId)
    requires Inv(w) && Cleared(round, id, w.row) && (a.Claim? ==> a.at > round.at - SCAN_LEASE_MS)
    ensures Cleared(round, id, Apply(w, a).row)
  {
    if PassedOver(w.row, round.at) {
      ActionPasses(w, a, round.at);
    }
  }

  /** A round keeps its achievement while its files do. */
  lemma {:induction false} SameFilesKeepRound(
    files: map<FileId, World>, later: map<FileId, World>, round: Round, batch: nat)
    requires RoundInv(files, round, batch) && later.Keys == files.Keys
    requires forall id :: id in files ==> Cleared(round, id, later[id].row)
    ensures RoundInv(later, round, batch)
  {
    assert |later| == |later.Keys| && |files| == |files.Keys|;
  }

  lemma {:induction false} BulkedKeepsCleared(
    files: map<FileId, World>, now: Instant, ids: set<FileId>, bulk: Bulk, at: Instant, round: Round, id: FileId)
    requires FilesInv(files, now) && id in files && Cleared(round, id, files[id].row)
    ensures Cleared(round, id, Bulked(files, ids, bulk, at)[id].row)
  {
    ActionKeepsCleared(files[id], BulkSweep(bulk, at), round, id);
  }

  lemma {:induction false} BulkedKeepsAllCleared(
    files: map<FileId, World>, now: Instant, ids: set<FileId>, bulk: Bulk, at: Instant, round: Round)
    requires FilesInv(files, now) && forall id :: id in files ==> Cleared(round, id, files[id].row)
    ensures forall id :: id in files ==> Cleared(round, id, Bulked(files, ids, bulk, at)[id].row)
  {
    forall id | id in files ensures Cleared(round, id, Bulked(files, ids, bulk, at)[id].row) {
      BulkedKeepsCleared(files, now, ids, bulk, at, round, id);
    }
  }

  lemma {:induction false} BulkedKeepsRound(
    f: Fleet, ids: set<FileId>, bulk: Bulk, at: Instant, round: Round, batch: nat)
    requires FilesInv(f.files, f.now) && RoundInv(f.files, round, batch)
    ensures RoundInv(Bulked(f.files, ids, bulk, at), round, batch)
  {
    BulkedKeepsAllCleared(f.files, f.now, ids, bulk, at, round);
    ClearedKeepsRound(f.files, ids, bulk, at, round, batch);
  }

  lemma {:induction false} ClearedKeepsRound(
    files: map<FileId, World>, ids: set<FileId>, bulk: Bulk, at: Instant, round: Round, batch: nat)
    requires RoundInv(files, round, batch)
    requires forall id :: id in files ==> Cleared(round, id, Bulked(files, ids, bulk, at)[id].row)
    ensures RoundInv(Bulked(files, ids, bulk, at), round, batch)
  {
    SameFilesKeepRound(files, Bulked(files, ids, bulk, at), round, batch);
  }

  lemma {:induction false} FailedRound(batch: nat, f: Fleet, r: RoundId)
    requires FleetInv(batch, f) && FailReady(f, r)
    ensures var round := f.rounds[r];
            RoundInv(Bulked(f.files, round.stage.ids, FailOverdue, round.at), round.(stage := SelectNext), batch)
  {
    var round := f.rounds[r];
    var files := Bulked(f.files, round.stage.ids, FailOverdue, round.at);
    BulkedKeepsRound(f, round.stage.ids, FailOverdue, round.at, round, batch);
    forall id | id in files && id in round.stage.ids ensures PassedOver(files[id].row, round.at) {
      ReachedIsPassed(f.files[id], round.at);
    }
  }

  lemma {:induction false} BulkedKeepsRounds(batch: nat, f: Fleet, ids: set<FileId>, bulk: Bulk, at: Instant)
    requires FleetInv(batch, f)
    ensures FleetInv(batch, f.(files := Bulked(f.files, ids, bulk, at)))
  {
    BulkedKeepsFiles(f, ids, bulk, at);
    forall r | r in f.rounds ensures RoundInv(Bulked(f.files, ids, bulk, at), f.rounds[r], batch) {
      BulkedKeepsRound(f, ids, bulk, at, f.rounds[r], batch);
    }
  }

  lemma {:induction false} SelectedRound(batch: nat, f: Fleet, at: Instant, ids: set<FileId>)
    requires Selects(Table(f), FailOverdue, at, batch, ids)
    ensures RoundInv(f.files, Round(at, Overlooked(Table(f), at, ids), FailNext(ids)), batch)
  {
    var overlooked := Overlooked(Table(f), at, ids);
    assert forall id :: id in f.files ==> Table(f)[id] == f.files[id].row;
    if x :| x in overlooked {
      assert |ids| == batch;
      SubsetIsNoLarger(ids + {x}, f.files.Keys);
    }
  }

  lemma {:induction false} ActKeepsRounds(batch: nat, f: Fleet, id: FileId, a: Action)
    requires RoundsInv(batch, f) && id in f.files && Inv(f.files[id]) && Punctual(f, Act(id, a))
    ensures RoundsInv(batch, f.(files := f.files[id := Apply(f.files[id], a)]))
  {
    var files := f.files[id := Apply(f.files[id], a)];
    forall r | r in f.rounds ensures RoundInv(files, f.rounds[r], batch) {
      ActionKeepsCleared(f.files[id], a, f.rounds[r], id);
      SameFilesKeepRound(f.files, files, f.rounds[r], batch);
    }
  }

  lemma {:induction false} TickedFiles(files: map<FileId, World>, before: Instant, now: Instant)
    requires FilesInv(files, before) && now >= before
    ensures FilesInv(Ticked(files, now), now)
  {
    forall id | id in files ensures FileInv(Apply(files[id], Tick(now)), now) {
      ActionKeepsFile(files[id], Tick(now), before);
    }
  }

  lemma {:induction false} AdvanceKeepsRounds(batch: nat, f: Fleet, now: Instant)
    requires RoundsInv(batch, f) && now >= f.now
    ensures RoundsInv(batch, f.(now := now, files := Ticked(f.files, now)))
  {
    assert forall id :: id in f.files ==> Apply(f.files[id], Tick(now)).row == f.files[id].row;
    forall r | r in f.rounds ensures RoundInv(Ticked(f.files, now), f.rounds[r], batch) {
      SameFilesKeepRound(f.files, Ticked(f.files, now), f.rounds[r], batch);
    }
  }

  lemma {:induction false} NewFile(context: Context, declaredBytes: nat, at: Instant, now: Instant)
    requires at <= now
    ensures var w := Apply(Init(context, declaredBytes, at), Tick(now));
            FileInv(w, now) && w.row == NewRow(context, declaredBytes, at)
  {
    RunsAreClocked(context, declaredBytes, at, []);
    ActionKeepsFile(Init(context, declaredBytes, at), Tick(now), at);
  }

  lemma {:induction false} MoreFilesKeepRound(
    files: map<FileId, World>, id: FileId, w: World, round: Round, batch: nat)
    requires RoundInv(files, round, batch) && id !in files && w.row.state == AwaitingUpload
    ensures RoundInv(files[id := w], round, batch)
  {
    assert files[id := w].Keys == files.Keys + {id};
    assert |files[id := w].Keys| == |files.Keys| + 1;
  }

  lemma {:induction false} CreateKeepsInv(
    batch: nat, f: Fleet, id: FileId, context: Context, declaredBytes: nat, at: Instant)
    requires FleetInv(batch, f) && id !in f.files && at <= f.now
    ensures FleetInv(batch, f.(files := f.files[id := Created(f, context, declaredBytes, at)]))
  {
    NewFile(context, declaredBytes, at, f.now);
    var w := Created(f, context, declaredBytes, at);
    forall r | r in f.rounds ensures RoundInv(f.files[id := w], f.rounds[r], batch) {
      MoreFilesKeepRound(f.files, id, w, f.rounds[r], batch);
    }
  }

  lemma {:induction false} FailRowsKeepsFleet(batch: nat, f: Fleet, r: RoundId)
    requires FleetInv(batch, f) && FailReady(f, r)
    ensures FleetInv(batch, Next(batch, f, FailRows(r)))
  {
    FailedRound(batch, f, r);
    BulkedKeepsRounds(batch, f, f.rounds[r].stage.ids, FailOverdue, f.rounds[r].at);
    var after := f.(files := Bulked(f.files, f.rounds[r].stage.ids, FailOverdue, f.rounds[r].at));
    RoundMovesOn(batch, after, r, SelectNext);
  }

  lemma {:induction false} RoundMovesOn(batch: nat, f: Fleet, r: RoundId, stage: Stage)
    requires RoundsInv(batch, f) && r in f.rounds && RoundInv(f.files, f.rounds[r].(stage := stage), batch)
    ensures RoundsInv(batch, f.(rounds := AtStage(f, r, stage)))
  {
  }

  lemma {:induction false} RecoverRowsKeepsFleet(batch: nat, f: Fleet, r: RoundId)
    requires FleetInv(batch, f) && RecoverReady(f, r)
    ensures FleetInv(batch, Next(batch, f, RecoverRows(r)))
  {
    BulkedKeepsRounds(batch, f, f.rounds[r].stage.ids, RecoverLeases, f.rounds[r].at);
  }

  lemma {:induction false} ActKeepsFleet(batch: nat, f: Fleet, id: FileId, a: Action)
    requires FleetInv(batch, f) && id in f.files && Own(a) && Punctual(f, Act(id, a))
    ensures FleetInv(batch, Next(batch, f, Act(id, a)))
  {
    ActKeepsFiles(f.files, f.now, id, a);
    ActKeepsRounds(batch, f, id, a);
  }

  lemma {:induction false} ActKeepsFiles(files: map<FileId, World>, now: Instant, id: FileId, a: Action)
    requires FilesInv(files, now) && id in files && Own(a)
    ensures FilesInv(files[id := Apply(files[id], a)], now)
  {
    ActionKeepsFile(files[id], a, now);
  }

  lemma {:induction false} AdvanceKeepsFleet(batch: nat, f: Fleet, now: Instant)
    requires FleetInv(batch, f) && now >= f.now
    ensures FleetInv(batch, Next(batch, f, Advance(now)))
  {
    TickedFiles(f.files, f.now, now);
    AdvanceKeepsRounds(batch, f, now);
  }

  /** Selects and stops touch no file. */
  lemma {:induction false} RoundStepKeepsFleet(batch: nat, f: Fleet, step: Step)
    requires FleetInv(batch, f) && (step.SelectOverdue? || step.SelectExpired? || step.Stop?)
    ensures FleetInv(batch, Next(batch, f, step))
  {
    RoundStepKeepsRounds(batch, f, step);
  }

  lemma {:induction false} RoundStepKeepsRounds(batch: nat, f: Fleet, step: Step)
    requires RoundsInv(batch, f) && (step.SelectOverdue? || step.SelectExpired? || step.Stop?)
    ensures RoundsInv(batch, Next(batch, f, step)) && Next(batch, f, step).files == f.files
  {
    if step.SelectOverdue? {
      if Selects(Table(f), FailOverdue, step.at, batch, step.ids) {
        SelectedRound(batch, f, step.at, step.ids);
      }
    } else if step.SelectExpired? && SelectReady(f, step.round) {
      LaterStage(f.files, f.rounds[step.round], batch, step.ids);
    }
  }

  lemma {:induction false} LaterStage(files: map<FileId, World>, round: Round, batch: nat, ids: set<FileId>)
    requires RoundInv(files, round, batch) && round.stage.SelectNext?
    ensures RoundInv(files, round.(stage := RecoverNext(ids)), batch)
  {
  }

  /** Every step of every process keeps the files in order and the rounds' achievement. */
  lemma {:induction false} StepKeepsFleet(batch: nat, f: Fleet, step: Step)
    requires FleetInv(batch, f) && Punctual(f, step)
    ensures FleetInv(batch, Next(batch, f, step))
  {
    if Next(batch, f, step) != f {
      match step
      case Advance(now) => AdvanceKeepsFleet(batch, f, now);
      case Create(id, context, declaredBytes, at) => CreateKeepsInv(batch, f, id, context, declaredBytes, at);
      case Act(id, a) => ActKeepsFleet(batch, f, id, a);
      case FailRows(r) => FailRowsKeepsFleet(batch, f, r);
      case RecoverRows(r) => RecoverRowsKeepsFleet(batch, f, r);
      case _ => RoundStepKeepsFleet(batch, f, step);
    }
  }

  // ----- current readings are punctual

  lemma {:induction false} CurrentIsPunctual(batch: nat, f: Fleet, step: Step)
    requires FleetInv(batch, f) && ReadsNow(f, step)
    ensures Punctual(f, step)
  {
    if step.Act? && step.id in f.files {
      OrderlyIsCovered(Discipline(false, false, false, false, true), PUNCTUAL, f.files[step.id], step.action);
    }
  }

  lemma {:induction false} FleetIsKept(h: Habit, batch: nat, now: Instant, steps: seq<Step>)
    requires Fenced(h) && Follows(h, batch, now, steps)
    ensures FleetInv(batch, FleetAfter(batch, now, steps))
  {
    if steps != [] {
      var n := |steps| - 1;
      FleetIsKept(h, batch, now, steps[..n]);
      KeepsIsPunctual(h, batch, FleetAfter(batch, now, steps[..n]), steps[n]);
      StepKeepsFleet(batch, FleetAfter(batch, now, steps[..n]), steps[n]);
    }
  }

  lemma {:induction false} KeepsIsPunctual(h: Habit, batch: nat, f: Fleet, step: Step)
    requires Fenced(h) && FleetInv(batch, f) && Keeps(h, f, step)
    ensures Punctual(f, step)
  {
    if h.current {
      CurrentIsPunctual(batch, f, step);
    }
  }

  /** `h` asks for all that `e` asks for. */
  predicate Stricter(h: Habit, e: Habit) {
    Fenced(h) && (e.current ==> h.current) && (e.undisturbed ==> h.undisturbed)
  }

  lemma {:induction false} StricterFollows(h: Habit, e: Habit, batch: nat, now: Instant, steps: seq<Step>)
    requires Stricter(h, e) && Follows(h, batch, now, steps)
    ensures Follows(e, batch, now, steps)
  {
    if steps != [] {
      var n := |steps| - 1;
      StricterFollows(h, e, batch, now, steps[..n]);
      FleetIsKept(h, batch, now, steps[..n]);
      KeepsIsPunctual(h, batch, FleetAfter(batch, now, steps[..n]), steps[n]);
    }
  }
}
