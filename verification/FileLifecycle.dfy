/**
 The life of one commission file: its owner, any number of scan workers, any number of
 maintenance sweeps and the object store, interleaved in every possible way.

 Each SQL statement (or row-locked transaction) is one action; so is each effect of the object
 store. Processes stop anywhere. A copy asked of the store takes effect at any later time, any
 number of times or never, and a version may still be deleted long after the call that asked
 for it returned. A clock reading used by a statement may be arbitrarily old.
 */
module FileLifecycle {
  import opened Common
  import opened FileSignature
  import opened ScanDecision
  import opened FileRows
  import opened FileRetention

  type ProcessId = nat
  type CopyId = nat

  /** What a scan learned about the object version it read. */
  datatype Evidence = Evidence(source: VersionId, fileType: FileType, sha256: Digest)

  /** Where a worker is in processCommissionFileScan; `row` is the row as it last returned it. */
  datatype Worker =
    | Claimed(row: Row, claimedAt: Instant)
    | Scanned(row: Row, evidence: Evidence)
    | Intending(row: Row, evidence: Evidence)
    | Copying(row: Row, evidence: Evidence, copy: CopyId)
    | Copied(row: Row, evidence: Evidence, version: VersionId)
    | Settling(row: Row, settlement: Settlement)
    | Won
    | Purging(todo: set<VersionId>)
    | Purged

  datatype Progress = NotNeeded | Pending | Deleting(todo: set<VersionId>) | Done

  /** One visit of the maintenance sweep, holding the row as its unlocked select returned it. */
  datatype Sweep = Sweep(at: Instant, file: Row, quarantine: Progress, clean: Progress)

  datatype Landing = Landing(copy: CopyId, source: VersionId, bytes: Bytes, at: Instant)

  /**
   The object store and the clock. `uploads` and `landings` log every version ever written to
   the two buckets; `quarantine` and `clean` are the versions still there. `copies` holds every
   copy ever requested, with its source version.
   */
  datatype Store = Store(
    now: Instant,
    uploads: map<VersionId, Bytes>, quarantine: set<VersionId>, quarantinePurging: bool,
    landings: map<VersionId, Landing>, clean: set<VersionId>, cleanPurging: bool,
    copies: map<CopyId, VersionId>, scannedClean: set<VersionId>)

  datatype World = World(
    store: Store, row: Row, events: seq<Outcome>,
    workers: map<ProcessId, Worker>, sweeps: map<ProcessId, Sweep>)

  function Init(context: Context, declaredBytes: nat, at: Instant): World {
    World(Store(at, map[], {}, false, map[], {}, false, map[], {}), NewRow(context, declaredBytes, at), [], map[],
        map[])
  }

  datatype Action =
    // the clock, the uploader and the store
    | Tick(now: Instant)
    | PutObject(version: VersionId, bytes: Bytes)
    | Land(copy: CopyId, version: VersionId)
    | LoseQuarantine(version: VersionId)
    | LoseClean(version: VersionId)
    // the owner, the orders, the retention rule and the bulk updates of the sweep
    | FinishUpload(at: Instant)
    | OwnerDiscard(at: Instant)
    | Attach(order: OrderId, at: Instant)
    | RetireFile(ruling: Ruling, at: Instant)
    | BulkSweep(bulk: Bulk, at: Instant)
    // a scan worker
    | Claim(id: ProcessId, at: Instant)
    | Overdue(id: ProcessId)
    | Examine(id: ProcessId, head: Option<VersionId>, delivered: Bytes, verdict: Verdict, at: Instant)
    | GiveUp(id: ProcessId, at: Instant)
    | Intend(id: ProcessId, at: Instant)
    | RequestCopy(id: ProcessId, copy: CopyId)
    | CopyReturned(id: ProcessId, version: VersionId)
    | Verify(id: ProcessId, at: Instant)
    | SettleScan(id: ProcessId, at: Instant)
    | BeginWinnerPurge(id: ProcessId)
    | EndWinnerPurge(id: ProcessId)
    | MarkWinnerPurge(id: ProcessId, at: Instant)
    | Crash(id: ProcessId)
    // a sweep visit
    | Select(id: ProcessId, at: Instant)
    | BeginPurgeQuarantine(id: ProcessId)
    | EndPurgeQuarantine(id: ProcessId)
    | BeginPurgeClean(id: ProcessId)
    | EndPurgeClean(id: ProcessId)
    | MarkSweep(id: ProcessId)
    | Abandon(id: ProcessId)

  function Stored(w: World, row: Option<Row>): World {
    if row.Some? then w.(row := row.value) else w
  }

  function AtWorker(w: World, id: ProcessId, k: Worker): World {
    w.(workers := w.workers[id := k])
  }

  function WithoutWorker(w: World, id: ProcessId): World {
    w.(workers := w.workers - {id})
  }

  function WithoutSweep(w: World, id: ProcessId): World {
    w.(sweeps := w.sweeps - {id})
  }

  function AtSweep(w: World, id: ProcessId, s: Sweep): World {
    w.(sweeps := w.sweeps[id := s])
  }

  /** The effect of an action; an action that is not possible in `w` changes nothing. */
  ghost function Apply(w: World, a: Action): World {
    if StoreAction(a) then w.(store := ApplyStore(w.store, a))
    else if OwnerAction(a) then w.(row := ApplyRow(w.row, w.store.now, a))
    else if a.id in w.workers then ApplyWorker(w, a, w.workers[a.id])
    else if a.id in w.sweeps then ApplySweep(w, a, w.sweeps[a.id])
    else ApplyStart(w, a)
  }

  predicate StoreAction(a: Action) {
    a.Tick? || a.PutObject? || a.Land? || a.LoseQuarantine? || a.LoseClean?
  }

  predicate OwnerAction(a: Action) {
    a.FinishUpload? || a.OwnerDiscard? || a.Attach? || a.RetireFile? || a.BulkSweep?
  }

  function OrElse(row: Option<Row>, otherwise: Row): Row {
    if row.Some? then row.value else otherwise
  }

  /** One statement on the row alone. */
  function ApplyRow(row: Row, now: Instant, a: Action): Row
    requires OwnerAction(a)
  {
    if a.at > now then row
    else match a
      case FinishUpload(at) => if row.createdAt <= at then OrElse(CompleteUpload(row, at), row) else row
      case OwnerDiscard(at) => OrElse(Discard(row, at), row)
      case Attach(order, at) => OrElse(AttachTo(row, order, at), row)
      case RetireFile(ruling, at) => if Retires(row.context, ruling, at) then OrElse(Retire(row, at), row) else row
      case BulkSweep(bulk, at) =>
        if Matches(bulk, row, at) && AttemptsFit(BulkUpdated(bulk, row, at)) then BulkUpdated(bulk, row, at) else row
  }

  /** The one check on the row that an attempt can break; a refused statement stores nothing. */
  predicate AttemptsFit(row: Row) { row.scanAttempts <= MAX_SCAN_ATTEMPTS }

  function ApplyStore(t: Store, a: Action): Store {
    match a
    case Tick(now) => if now >= t.now then t.(now := now) else t
    case PutObject(v, bytes) =>
      if v in t.uploads then t else t.(uploads := t.uploads[v := bytes], quarantine := t.quarantine + {v})
    case Land(copy, v) =>
      if copy in t.copies && v !in t.landings && t.copies[copy] in t.uploads
      then t.(landings := t.landings[v := Landing(copy, t.copies[copy], t.uploads[t.copies[copy]], t.now)],
          clean := t.clean + {v})
      else t
    case LoseQuarantine(v) => if t.quarantinePurging then t.(quarantine := t.quarantine - {v}) else t
    case LoseClean(v) => if t.cleanPurging then t.(clean := t.clean - {v}) else t
    case _ => t
  }

  /** A worker claims the row, or a sweep selects it. */
  function ApplyStart(w: World, a: Action): World {
    match a
    case Claim(id, at) =>
      var claimed := ClaimScan(w.row, at);
      if at <= w.store.now && claimed.Some? then AtWorker(Stored(w, claimed), id, Claimed(claimed.value, at)) else w
    case Select(id, at) =>
      if at <= w.store.now && PurgeCandidate(w.row, at)
      then AtSweep(w, id, Sweep(at, w.row, if NeedsQuarantine(w.row) then Pending else NotNeeded,
          if NeedsClean(w.row) then Pending else NotNeeded))
      else w
    case _ => w
  }

  /** Head, stream and verdict: the object must be there when its head is read. */
  predicate Readable(t: Store, head: Option<VersionId>, delivered: Bytes) {
    if head.Some? then head.value in t.quarantine && head.value in t.uploads && delivered <= t.uploads[head.value]
    else t.quarantine == {}
  }

  /** A claim at or past the deadline can only fail; any later phase may give up and retry. */
  predicate Retriable(k: Worker) {
    || (k.Claimed? && k.row.scanDeadlineAt.Some? && k.claimedAt < k.row.scanDeadlineAt.value)
    || k.Scanned? || k.Intending? || k.Copying? || k.Copied?
  }

  /** The scan answered: a rejection is to be recorded, or the version is noted as passed. */
  ghost function Examined(
    w: World, id: ProcessId, row: Row, head: Option<VersionId>, delivered: Bytes, verdict: Verdict, at: Instant): World
    requires Readable(w.store, head, delivered)
  {
    var length := if head.Some? then Some(|w.store.uploads[head.value]|) else None;
    match Decide(row.context, row.declaredBytes, length, delivered, verdict)
    case Reject(reason, signature) => AtWorker(w, id, Settling(row, RejectWith(reason, signature, at)))
    case Accept(t, sha256) => AtWorker(Passing(w, head.value), id, Scanned(row, Evidence(head.value, t, sha256)))
  }

  function Passing(w: World, v: VersionId): World {
    w.(store := w.store.(scannedClean := w.store.scannedClean + {v}))
  }

  /** The intent is committed on the row the worker holds, or the worker stops. */
  function Intended(w: World, id: ProcessId, row: Row, evidence: Evidence, at: Instant): World {
    var intent := CommitIntent(w.row, row, at);
    if intent.Some? then AtWorker(Stored(w, intent), id, Intending(intent.value, evidence)) else WithoutWorker(w, id)
  }

  /** The result is recorded with its event, or the worker stops: superseded, or refused by the table. */
  function Settled(w: World, id: ProcessId, row: Row, s: Settlement, at: Instant): World {
    var settled := Settle(w.row, row, s, at);
    if settled.None? || !AttemptsFit(settled.value) then WithoutWorker(w, id)
    else
      var w1 := w.(row := settled.value, events := w.events + SettlementEvents(s));
      if s.AcceptCopy? then AtWorker(w1, id, Won) else WithoutWorker(w1, id)
  }

  function QuarantineMarked(w: World, at: Instant): World { Stored(w, MarkQuarantinePurged(w.row, at)) }

  ghost function ApplyWorker(w: World, a: Action, k: Worker): World {
    match (a, k)
    case (Overdue(id), Claimed(row, claimedAt)) =>
      if row.scanDeadlineAt.None?
          || claimedAt >= row.scanDeadlineAt.value then AtWorker(w, id, Settling(row, FailWith(claimedAt))) else w
    case (Examine(id, head, delivered, verdict, at), Claimed(row, _)) =>
      if Retriable(k) && at <= w.store.now && ScannerVerdict(verdict) && Readable(w.store, head, delivered)
      then Examined(w, id, row, head, delivered, verdict, at) else w
    case (GiveUp(id, at), _) =>
      if Retriable(k) then AtWorker(w, id, Settling(k.row, Retry(at))) else w
    case (Intend(id, at), Scanned(row, evidence)) => if at <= w.store.now then Intended(w, id, row, evidence, at) else w
    case (RequestCopy(id, copy), Intending(row, evidence)) =>
      if copy in w.store.copies then w
      else AtWorker(w.(store := w.store.(copies := w.store.copies[copy := evidence.source])), id,
          Copying(row, evidence, copy))
    case (CopyReturned(id, v), Copying(row, evidence, copy)) =>
      if v in w.store.landings && w.store.landings[v].copy == copy then AtWorker(w, id, Copied(row, evidence, v)) else w
    case (Verify(id, at), Copied(row, evidence, v)) =>
      if at <= w.store.now && v in w.store.clean && v in w.store.landings
          && |w.store.landings[v].bytes| == row.declaredBytes
      then AtWorker(w, id, Settling(row, AcceptCopy(evidence.source, v, evidence.sha256, evidence.fileType, at)))
      else w
    case (SettleScan(id, at), Settling(row, s)) => if at <= w.store.now then Settled(w, id, row, s, at) else w
    case (BeginWinnerPurge(id), Won) =>
      AtWorker(w.(store := w.store.(quarantinePurging := true)), id, Purging(w.store.quarantine))
    case (EndWinnerPurge(id), Purging(todo)) => if todo !! w.store.quarantine then AtWorker(w, id, Purged) else w
    case (MarkWinnerPurge(id, at), Purged) =>
      if at <= w.store.now then WithoutWorker(QuarantineMarked(w, at), id) else w
    case (Crash(id), _) => WithoutWorker(w, id)
    case _ => w
  }

  function PurgeMarked(w: World, s: Sweep): World { Stored(w, MarkPurged(w.row, s.file, s.at)) }

  function ApplySweep(w: World, a: Action, s: Sweep): World {
    match a
    case BeginPurgeQuarantine(id) =>
      if s.quarantine.Pending?
      then AtSweep(w.(store := w.store.(quarantinePurging := true)), id,
          s.(quarantine := Deleting(w.store.quarantine))) else w
    case EndPurgeQuarantine(id) =>
      if s.quarantine.Deleting?
          && s.quarantine.todo !! w.store.quarantine then AtSweep(w, id, s.(quarantine := Done)) else w
    case BeginPurgeClean(id) =>
      if (s.quarantine.NotNeeded? || s.quarantine.Done?) && s.clean.Pending?
      then AtSweep(w.(store := w.store.(cleanPurging := true)), id, s.(clean := Deleting(w.store.clean))) else w
    case EndPurgeClean(id) =>
      if s.clean.Deleting? && s.clean.todo !! w.store.clean then AtSweep(w, id, s.(clean := Done)) else w
    case MarkSweep(id) =>
      if (s.quarantine.NotNeeded? || s.quarantine.Done?) && (s.clean.NotNeeded? || s.clean.Done?)
      then WithoutSweep(PurgeMarked(w, s), id) else w
    case Abandon(id) => WithoutSweep(w, id)
    case _ => w
  }

  ghost function Run(w: World, actions: seq<Action>): World {
    if actions == [] then w else Apply(Run(w, actions[..|actions| - 1]), actions[|actions| - 1])
  }

  // ----- the invariant

  /** The recorded evidence is that of an uploaded version the scanner passed, copied byte for byte. */
  ghost predicate Provenance(t: Store, row: Row) {
    && row.quarantineVersionId.Some? && row.cleanVersionId.Some? && row.detectedType.Some? && row.sha256.Some?
    && var q, c := row.quarantineVersionId.value, row.cleanVersionId.value;
    && q in t.uploads && q in t.scannedClean
    && c in t.landings && t.landings[c].source == q && t.landings[c].bytes == t.uploads[q]
    && |t.uploads[q]| == row.declaredBytes
    && row.sha256.value == Sha256(t.uploads[q])
    && Acceptable(row.context, t.uploads[q], row.detectedType.value)
  }

  /** Everything in the clean bucket landed at or after `at`. */
  ghost predicate OnlyLaterThan(t: Store, at: Instant) {
    forall v :: v in t.clean && v in t.landings ==> t.landings[v].at >= at
  }

  /** Once the final purge mark is set, whatever is in the clean bucket landed after the mark's time. */
  ghost predicate PurgeMarkSound(t: Store, row: Row) {
    row.cleanPurgedAt.Some? ==>
      && Terminal(row.state)
      && (row.cleanCopyIntent ==> Due(row.endedAt, row.cleanPurgedAt.value - COPY_INTENT_CLOSURE_MS))
      && OnlyLaterThan(t, row.cleanPurgedAt.value)
      && row.cleanPurgedAt.value <= t.now
  }

  predicate EventsFit(state: FileState, events: seq<Outcome>) {
    match state
    case AwaitingUpload => events == []
    case Scanning => events == []
    case Expired => events == []
    case Rejected => events == [RejectedOutcome]
    case ScanFailed => events == [] || events == [ScanFailedOutcome]
    case Discarded => events == [] || events == [CleanOutcome]
    case _ => events == [CleanOutcome]
  }

  ghost predicate RowInv(t: Store, row: Row, events: seq<Outcome>) {
    && RowChecks(row)
    && (row.sha256.Some? ==> Provenance(t, row))
    && PurgeMarkSound(t, row)
    && EventsFit(row.state, events)
  }

  /** Nothing is lost from a bucket before the state of the row allows its purge. */
  predicate BucketsFit(t: Store, row: Row) {
    && t.quarantine <= t.uploads.Keys
    && t.clean <= t.landings.Keys
    && (row.state in {AwaitingUpload, Scanning} ==> !t.quarantinePurging && t.quarantine == t.uploads.Keys)
    && (!Terminal(row.state) ==> !t.cleanPurging && t.clean == t.landings.Keys)
    && (!row.cleanCopyIntent ==> t.copies == map[] && t.landings == map[])
  }

  ghost predicate LogsFit(t: Store) {
    && (forall c :: c in t.copies ==> t.copies[c] in t.uploads)
    && (forall v :: v in t.landings ==>
          && t.landings[v].copy in t.copies && t.copies[t.landings[v].copy] == t.landings[v].source
          && t.landings[v].source in t.uploads && t.landings[v].bytes == t.uploads[t.landings[v].source])
  }

  ghost predicate EvidenceSound(t: Store, held: Row, e: Evidence) {
    && e.source in t.uploads && e.source in t.scannedClean
    && |t.uploads[e.source]| == held.declaredBytes
    && e.sha256 == Sha256(t.uploads[e.source])
    && Acceptable(held.context, t.uploads[e.source], e.fileType)
  }

  ghost predicate SettlementSound(t: Store, held: Row, s: Settlement) {
    match s
    case AcceptCopy(q, c, sha256, fileType, _) =>
      && EvidenceSound(t, held, Evidence(q, fileType, sha256))
      && c in t.landings && t.landings[c].source == q
    case RejectWith(reason, signature, _) => RejectionFits(reason, signature)
    case _ => true
  }

  /** What a worker relies on besides the row it holds. */
  ghost predicate Grounded(t: Store, k: Worker) {
    match k
    case Scanned(row, e) => EvidenceSound(t, row, e)
    case Intending(row, e) => EvidenceSound(t, row, e) && row.cleanCopyIntent
    case Copying(row, e, copy) => EvidenceSound(t, row, e) && row.cleanCopyIntent && copy in t.copies
        && t.copies[copy] == e.source
    case Copied(row, e, v) => EvidenceSound(t, row, e) && v in t.landings && t.landings[v].source == e.source
    case Settling(row, s) => SettlementSound(t, row, s)
    case _ => true
  }

  predicate Positioned(row: Row, k: Worker) {
    match k
    case Won => Rank(row.state) >= Rank(Clean)
    case Purging(_) => Rank(row.state) >= Rank(Clean)
    case Purged => Rank(row.state) >= Rank(Clean)
    case _ => Seen(row, k.row)
  }

  ghost predicate WorkerInv(t: Store, row: Row, k: Worker) {
    Positioned(row, k) && Grounded(t, k)
  }

  ghost predicate SweepInv(t: Store, row: Row, s: Sweep) {
    && Reached(row, s.file)
    && Rank(s.file.state) >= Rank(Clean)
    && s.clean.NotNeeded? == !NeedsClean(s.file)
    && (s.clean.Deleting? ==> forall v :: v in t.clean && v in t.landings ==>
       v in s.clean.todo || t.landings[v].at >= s.at)
    && (s.clean.Done? ==> OnlyLaterThan(t, s.at))
    && s.at <= t.now
  }

  ghost predicate ProcessInv(t: Store, row: Row, workers: map<ProcessId, Worker>, sweeps: map<ProcessId, Sweep>) {
    && (forall id :: id in workers ==> WorkerInv(t, row, workers[id]))
    && (forall id :: id in sweeps ==> SweepInv(t, row, sweeps[id]))
  }

  ghost predicate Inv(w: World) {
    && RowInv(w.store, w.row, w.events)
    && BucketsFit(w.store, w.row)
    && LogsFit(w.store)
    && ProcessInv(w.store, w.row, w.workers, w.sweeps)
  }

  // ----- every row change is one the database guard allows

  predicate RowStep(before: Row, after: Row) {
    && GuardAllows(before, after)
    && RowChecks(after)
    && (Terminal(before.state) ==> after.endedAt == before.endedAt)
  }

  lemma BulkStep(bulk: Bulk, row: Row, at: Instant)
    requires RowChecks(row) && Matches(bulk, row, at) && AttemptsFit(BulkUpdated(bulk, row, at))
    ensures RowStep(row, BulkUpdated(bulk, row, at))
  {
  }

  lemma OwnerStep(row: Row, order: OrderId, at: Instant)
    requires RowChecks(row)
    ensures var r := CompleteUpload(row, at); r.Some? && row.createdAt <= at ==> RowStep(row, r.value)
    ensures var r := Discard(row, at); r.Some? ==> RowStep(row, r.value)
    ensures var r := AttachTo(row, order, at); r.Some? ==> RowStep(row, r.value)
    ensures var r := Retire(row, at); r.Some? ==> RowStep(row, r.value)
  {
  }

  lemma WorkerStep(row: Row, held: Row, at: Instant)
    requires RowChecks(row) && Seen(row, held)
    ensures var r := ClaimScan(row, at); r.Some? ==> RowStep(row, r.value)
    ensures var r := CommitIntent(row, held, at); r.Some? && row.cleanPurgedAt.None? ==> RowStep(row, r.value)
    ensures var r := MarkQuarantinePurged(row, at); r.Some? && row.state != AwaitingUpload ==> RowStep(row, r.value)
  {
  }

  lemma SettleStep(row: Row, held: Row, s: Settlement, at: Instant)
    requires RowChecks(row) && Seen(row, held) && row.version == held.version
    requires SettlementFits(row.context, s) && AttemptsFit(Settle(row, held, s, at).value)
    ensures RowStep(row, Settle(row, held, s, at).value)
  {
  }

  lemma PurgeStep(row: Row, file: Row, at: Instant)
    requires RowChecks(row) && Reached(row, file) && Rank(file.state) >= Rank(Clean)
    ensures var r := MarkPurged(row, file, at); r.Some? ==> RowStep(row, r.value)
  {
  }

  // ----- framing: what a row change, a process change and the store's effects leave intact

  lemma SeenKept(row: Row, after: Row, held: Row)
    requires Seen(row, held) && GuardAllows(row, after)
    ensures Seen(after, held)
  {
  }

  lemma ReachedKept(row: Row, after: Row, file: Row)
    requires Reached(row, file) && RowStep(row, after)
    ensures Reached(after, file)
  {
  }

  /** A row change that keeps the evidence and the purge mark honest keeps everything. */
  lemma RowChangeKeepsInv(w: World, row: Row, events: seq<Outcome>)
    requires Inv(w) && RowStep(w.row, row)
    requires RowInv(w.store, row, events)
    ensures Inv(w.(row := row, events := events))
  {
    forall id | id in w.workers ensures WorkerInv(w.store, row, w.workers[id]) {
      var k := w.workers[id];
      assert WorkerInv(w.store, w.row, k);
      if !k.Won? && !k.Purging? && !k.Purged? {
        SeenKept(w.row, row, k.row);
      }
    }
    forall id | id in w.sweeps ensures SweepInv(w.store, row, w.sweeps[id]) {
      ReachedKept(w.row, row, w.sweeps[id].file);
    }
  }

  lemma WorkerChangeKeepsInv(w: World, id: ProcessId, k: Worker)
    requires Inv(w) && WorkerInv(w.store, w.row, k)
    ensures Inv(AtWorker(w, id, k))
  {
  }

  lemma SweepChangeKeepsInv(w: World, id: ProcessId, s: Sweep)
    requires Inv(w) && SweepInv(w.store, w.row, s)
    ensures Inv(AtSweep(w, id, s))
  {
  }

  lemma StoppingKeepsInv(w: World, id: ProcessId)
    requires Inv(w)
    ensures Inv(WithoutWorker(w, id)) && Inv(WithoutSweep(w, id))
  {
  }

  /** Logs only grow, and what is new in the clean bucket landed no earlier than before the change. */
  ghost predicate Extends(t: Store, t': Store) {
    && t.now <= t'.now
    && (forall v :: v in t.uploads ==> v in t'.uploads && t'.uploads[v] == t.uploads[v])
    && (forall v :: v in t.landings ==> v in t'.landings && t'.landings[v] == t.landings[v])
    && (forall c :: c in t.copies ==> c in t'.copies && t'.copies[c] == t.copies[c])
    && t.scannedClean <= t'.scannedClean
    && (forall v :: v in t'.clean && v in t'.landings ==>
       (v in t.clean && v in t.landings) || t'.landings[v].at >= t.now)
  }

  lemma ProvenanceKept(t: Store, t': Store, row: Row)
    requires Extends(t, t') && Provenance(t, row)
    ensures Provenance(t', row)
  {
  }

  lemma GroundedKept(t: Store, t': Store, k: Worker)
    requires Extends(t, t') && Grounded(t, k)
    ensures Grounded(t', k)
  {
  }

  lemma LaterKept(t: Store, t': Store, at: Instant)
    requires Extends(t, t') && OnlyLaterThan(t, at) && at <= t.now
    ensures OnlyLaterThan(t', at)
  {
  }

  lemma SweepKept(t: Store, t': Store, row: Row, s: Sweep)
    requires Extends(t, t') && SweepInv(t, row, s)
    ensures SweepInv(t', row, s)
  {
    if s.clean.Done? {
      LaterKept(t, t', s.at);
    }
  }

  lemma StoreChangeKeepsInv(w: World, t: Store)
    requires Inv(w) && Extends(w.store, t)
    requires BucketsFit(t, w.row) && LogsFit(t)
    ensures Inv(w.(store := t))
  {
    if w.row.sha256.Some? {
      ProvenanceKept(w.store, t, w.row);
    }
    if w.row.cleanPurgedAt.Some? {
      LaterKept(w.store, t, w.row.cleanPurgedAt.value);
    }
    forall id | id in w.workers ensures WorkerInv(t, w.row, w.workers[id]) {
      assert WorkerInv(w.store, w.row, w.workers[id]);
      GroundedKept(w.store, t, w.workers[id]);
    }
    forall id | id in w.sweeps ensures SweepInv(t, w.row, w.sweeps[id]) {
      SweepKept(w.store, t, w.row, w.sweeps[id]);
    }
  }

  // ----- every action keeps the invariant

  lemma StoreActionExtends(t: Store, a: Action)
    requires LogsFit(t) && t.clean <= t.landings.Keys
    ensures Extends(t, ApplyStore(t, a)) && LogsFit(ApplyStore(t, a))
  {
    if a.Land? {
      LandingExtends(t, a);
    }
  }

  lemma LandingExtends(t: Store, a: Action)
    requires LogsFit(t) && t.clean <= t.landings.Keys && a.Land?
    ensures Extends(t, ApplyStore(t, a)) && LogsFit(ApplyStore(t, a))
  {
  }

  lemma StoreActionKeepsBuckets(t: Store, row: Row, a: Action)
    requires BucketsFit(t, row)
    ensures BucketsFit(ApplyStore(t, a), row)
  {
  }

  lemma StoreActionKeepsInv(w: World, a: Action)
    requires Inv(w) && StoreAction(a)
    ensures Inv(Apply(w, a))
  {
    StoreActionExtends(w.store, a);
    StoreActionKeepsBuckets(w.store, w.row, a);
    StoreChangeKeepsInv(w, ApplyStore(w.store, a));
  }

  lemma OwnerRowStep(t: Store, row: Row, events: seq<Outcome>, a: Action)
    requires RowInv(t, row, events) && OwnerAction(a)
    ensures var after := ApplyRow(row, t.now, a);
            after == row || (RowStep(row, after) && RowInv(t, after, events))
  {
    OwnerStep(row, if a.Attach? then a.order else "", a.at);
    if a.BulkSweep? && Matches(a.bulk, row, a.at) && AttemptsFit(BulkUpdated(a.bulk, row, a.at)) {
      BulkStep(a.bulk, row, a.at);
    }
  }

  lemma OwnerActionKeepsInv(w: World, a: Action)
    requires Inv(w) && OwnerAction(a)
    ensures Inv(Apply(w, a))
  {
    var row := ApplyRow(w.row, w.store.now, a);
    OwnerRowStep(w.store, w.row, w.events, a);
    if row != w.row {
      RowChangeKeepsInv(w, row, w.events);
    }
    assert Apply(w, a) == w.(row := row, events := w.events);
  }

  lemma StartKeepsInv(w: World, a: Action)
    requires Inv(w)
    ensures Inv(ApplyStart(w, a))
  {
    match a
    case Claim(id, at) => ClaimKeepsInv(w, id, at);
    case Select(id, at) => SelectKeepsInv(w, id, at);
    case _ =>
  }

  lemma ClaimKeepsInv(w: World, id: ProcessId, at: Instant)
    requires Inv(w)
    ensures Inv(ApplyStart(w, Claim(id, at)))
  {
    var claimed := ClaimScan(w.row, at);
    if at <= w.store.now && claimed.Some? {
      WorkerStep(w.row, w.row, at);
      RowChangeKeepsInv(w, claimed.value, w.events);
      WorkerChangeKeepsInv(w.(row := claimed.value, events := w.events), id, Claimed(claimed.value, at));
    }
  }

  lemma SelectKeepsInv(w: World, id: ProcessId, at: Instant)
    requires Inv(w)
    ensures Inv(ApplyStart(w, Select(id, at)))
  {
    if at <= w.store.now && PurgeCandidate(w.row, at) {
      var s := Sweep(at, w.row, if NeedsQuarantine(w.row) then Pending else NotNeeded,
          if NeedsClean(w.row) then Pending else NotNeeded);
      SweepChangeKeepsInv(w, id, s);
    }
  }

  /** A scan that accepts hands on evidence about a version the store really holds. */
  lemma ExaminedKeepsInv(
    w: World, id: ProcessId, row: Row, head: Option<VersionId>, delivered: Bytes, verdict: Verdict, at: Instant)
    requires Inv(w) && Seen(w.row, row) && Readable(w.store, head, delivered) && ScannerVerdict(verdict)
    ensures Inv(Examined(w, id, row, head, delivered, verdict, at))
  {
    var length := if head.Some? then Some(|w.store.uploads[head.value]|) else None;
    match Decide(row.context, row.declaredBytes, length, delivered, verdict)
    case Reject(reason, signature) =>
      WorkerChangeKeepsInv(w, id, Settling(row, RejectWith(reason, signature, at)));
    case Accept(fileType, sha256) =>
      AcceptedIsSound(w.store, row, head, delivered, verdict, fileType, sha256);
      ScannedKeepsInv(w, id, row, Evidence(head.value, fileType, sha256));
  }

  lemma AcceptedIsSound(
    t: Store, row: Row, head: Option<VersionId>, delivered: Bytes, verdict: Verdict, fileType: FileType,
    sha256: Digest)
    requires Readable(t, head, delivered)
    requires var length := if head.Some? then Some(|t.uploads[head.value]|) else None;
             Decide(row.context, row.declaredBytes, length, delivered, verdict) == Accept(fileType, sha256)
    ensures head.Some? && head.value in t.uploads
    ensures EvidenceSound(t.(scannedClean := t.scannedClean + {head.value}), row,
            Evidence(head.value, fileType, sha256))
  {
    AcceptanceIsAboutTheWholeObject(row.context, row.declaredBytes, t.uploads[head.value], delivered, verdict,
        fileType, sha256);
  }

  lemma PassingKeepsInv(w: World, v: VersionId)
    requires Inv(w)
    ensures Inv(Passing(w, v))
  {
    StoreChangeKeepsInv(w, Passing(w, v).store);
  }

  lemma ScannedKeepsInv(w: World, id: ProcessId, row: Row, e: Evidence)
    requires Inv(w) && Seen(w.row, row) && EvidenceSound(Passing(w, e.source).store, row, e)
    ensures Inv(AtWorker(Passing(w, e.source), id, Scanned(row, e)))
  {
    PassingKeepsInv(w, e.source);
    WorkerChangeKeepsInv(Passing(w, e.source), id, Scanned(row, e));
  }

  lemma IntendedKeepsInv(w: World, id: ProcessId, row: Row, e: Evidence, at: Instant)
    requires Inv(w) && Seen(w.row, row) && EvidenceSound(w.store, row, e)
    ensures Inv(Intended(w, id, row, e, at))
  {
    var intent := CommitIntent(w.row, row, at);
    StoppingKeepsInv(w, id);
    if intent.Some? {
      WorkerStep(w.row, row, at);
      RowChangeKeepsInv(w, intent.value, w.events);
      WorkerChangeKeepsInv(w.(row := intent.value, events := w.events), id, Intending(intent.value, e));
    }
  }

  lemma RequestCopyKeepsInv(w: World, a: Action, k: Worker)
    requires Inv(w) && WorkerInv(w.store, w.row, k) && a.RequestCopy? && k.Intending?
    ensures Inv(ApplyWorker(w, a, k))
  {
    if a.copy !in w.store.copies {
      var t := w.store.(copies := w.store.copies[a.copy := k.evidence.source]);
      StoreChangeKeepsInv(w, t);
      WorkerChangeKeepsInv(w.(store := t), a.id, Copying(k.row, k.evidence, a.copy));
    }
  }

  /** The fence: an unchanged version means an unchanged row, so the settlement describes this row. */
  lemma SettledRowInv(t: Store, row: Row, events: seq<Outcome>, held: Row, s: Settlement, at: Instant)
    requires RowInv(t, row, events) && LogsFit(t) && Seen(row, held) && SettlementSound(t, held, s)
    requires row.version == held.version && AttemptsFit(Settle(row, held, s, at).value)
    ensures RowStep(row, Settle(row, held, s, at).value)
    ensures RowInv(t, Settle(row, held, s, at).value, events + SettlementEvents(s))
  {
    SettleStep(row, held, s, at);
    var after := Settle(row, held, s, at).value;
    if s.AcceptCopy? {
      assert Provenance(t, after);
    }
  }

  lemma SettlementKeepsInv(w: World, row: Row, s: Settlement, at: Instant)
    requires Inv(w) && Seen(w.row, row) && SettlementSound(w.store, row, s)
    requires w.row.version == row.version && AttemptsFit(Settle(w.row, row, s, at).value)
    ensures Inv(w.(row := Settle(w.row, row, s, at).value, events := w.events + SettlementEvents(s)))
  {
    SettledRowInv(w.store, w.row, w.events, row, s, at);
    RowChangeKeepsInv(w, Settle(w.row, row, s, at).value, w.events + SettlementEvents(s));
  }

  lemma SettledKeepsInv(w: World, id: ProcessId, row: Row, s: Settlement, at: Instant)
    requires Inv(w) && Seen(w.row, row) && SettlementSound(w.store, row, s)
    ensures Inv(Settled(w, id, row, s, at))
  {
    var settled := Settle(w.row, row, s, at);
    if settled.None? || !AttemptsFit(settled.value) {
      StoppingKeepsInv(w, id);
    } else {
      SettlementKeepsInv(w, row, s, at);
      var w1 := w.(row := settled.value, events := w.events + SettlementEvents(s));
      if s.AcceptCopy? {
        WorkerChangeKeepsInv(w1, id, Won);
      } else {
        StoppingKeepsInv(w1, id);
      }
    }
  }

  lemma BeginWinnerPurgeKeepsInv(w: World, id: ProcessId)
    requires Inv(w) && WorkerInv(w.store, w.row, Won)
    ensures Inv(ApplyWorker(w, BeginWinnerPurge(id), Won))
  {
    var t := w.store.(quarantinePurging := true);
    StoreChangeKeepsInv(w, t);
    WorkerChangeKeepsInv(w.(store := t), id, Purging(w.store.quarantine));
  }

  lemma QuarantineMarkStep(t: Store, row: Row, events: seq<Outcome>, at: Instant)
    requires RowInv(t, row, events) && Rank(row.state) >= Rank(Clean) && row.quarantinePurgedAt.None?
    ensures var after := MarkQuarantinePurged(row, at).value; RowStep(row, after) && RowInv(t, after, events)
  {
  }

  lemma MarkWinnerPurgeKeepsInv(w: World, id: ProcessId, at: Instant)
    requires Inv(w) && WorkerInv(w.store, w.row, Purged)
    ensures Inv(ApplyWorker(w, MarkWinnerPurge(id, at), Purged))
  {
    QuarantineMarkKeepsInv(w, at);
    StoppingKeepsInv(QuarantineMarked(w, at), id);
  }

  lemma QuarantineMarkKeepsInv(w: World, at: Instant)
    requires Inv(w) && Rank(w.row.state) >= Rank(Clean)
    ensures Inv(QuarantineMarked(w, at))
  {
    if w.row.quarantinePurgedAt.None? {
      var row := MarkQuarantinePurged(w.row, at).value;
      QuarantineMarkStep(w.store, w.row, w.events, at);
      RowChangeKeepsInv(w, row, w.events);
      assert QuarantineMarked(w, at) == w.(row := row, events := w.events);
    }
  }

  /** The steps that only move the worker on. */
  lemma PhaseMoveKeepsInv(w: World, a: Action, k: Worker)
    requires Inv(w) && WorkerInv(w.store, w.row, k)
    requires a.Overdue? || a.GiveUp? || a.CopyReturned? || a.EndWinnerPurge? || a.Crash?
    ensures Inv(ApplyWorker(w, a, k))
  {
    var w' := ApplyWorker(w, a, k);
    StoppingKeepsInv(w, a.id);
    if w' != w && !a.Crash? {
      var k' := w'.workers[a.id];
      assert w' == AtWorker(w, a.id, k');
      assert WorkerInv(w.store, w.row, k');
      WorkerChangeKeepsInv(w, a.id, k');
    }
  }

  lemma VerifyKeepsInv(w: World, a: Action, k: Worker)
    requires Inv(w) && WorkerInv(w.store, w.row, k) && a.Verify? && k.Copied?
    ensures Inv(ApplyWorker(w, a, k))
  {
    var e := k.evidence;
    WorkerChangeKeepsInv(w, a.id, Settling(k.row, AcceptCopy(e.source, k.version, e.sha256, e.fileType, a.at)));
  }

  lemma WorkerActionKeepsInv(w: World, a: Action, k: Worker)
    requires Inv(w) && WorkerInv(w.store, w.row, k)
    ensures Inv(ApplyWorker(w, a, k))
  {
    if a.Overdue? || a.GiveUp? || a.CopyReturned? || a.EndWinnerPurge? || a.Crash? {
      PhaseMoveKeepsInv(w, a, k);
    } else if a.Examine? && k.Claimed? {
      if ApplyWorker(w, a, k) != w {
        ExaminedKeepsInv(w, a.id, k.row, a.head, a.delivered, a.verdict, a.at);
      }
    } else if a.Intend? && k.Scanned? {
      IntendedKeepsInv(w, a.id, k.row, k.evidence, a.at);
    } else if a.RequestCopy? && k.Intending? {
      RequestCopyKeepsInv(w, a, k);
    } else if a.Verify? && k.Copied? {
      VerifyKeepsInv(w, a, k);
    } else if a.SettleScan? && k.Settling? {
      SettledKeepsInv(w, a.id, k.row, k.settlement, a.at);
    } else if a.BeginWinnerPurge? && k.Won? {
      BeginWinnerPurgeKeepsInv(w, a.id);
    } else if a.MarkWinnerPurge? && k.Purged? {
      MarkWinnerPurgeKeepsInv(w, a.id, a.at);
    } else {
      assert ApplyWorker(w, a, k) == w;
    }
  }

  /** The mark follows a delete that began no earlier than the reading of the clock it records. */
  lemma MarkSweepKeepsInv(w: World, a: Action, s: Sweep)
    requires Inv(w) && SweepInv(w.store, w.row, s) && a.MarkSweep?
    ensures Inv(ApplySweep(w, a, s))
  {
    if (s.quarantine.NotNeeded? || s.quarantine.Done?) && (s.clean.NotNeeded? || s.clean.Done?) {
      PurgeMarkKeepsInv(w, s);
      StoppingKeepsInv(PurgeMarked(w, s), a.id);
    }
  }

  lemma PurgeMarkKeepsInv(w: World, s: Sweep)
    requires Inv(w) && SweepInv(w.store, w.row, s) && (s.clean.NotNeeded? || s.clean.Done?)
    ensures Inv(PurgeMarked(w, s))
  {
    var marked := MarkPurged(w.row, s.file, s.at);
    if marked.Some? {
      PurgeMarkStep(w.store, w.row, w.events, s);
      RowChangeKeepsInv(w, marked.value, w.events);
      assert PurgeMarked(w, s) == w.(row := marked.value, events := w.events);
    }
  }

  lemma PurgeMarkStep(t: Store, row: Row, events: seq<Outcome>, s: Sweep)
    requires RowInv(t, row, events) && SweepInv(t, row, s) && (s.clean.NotNeeded? || s.clean.Done?)
    requires MarkPurged(row, s.file, s.at).Some?
    ensures var after := MarkPurged(row, s.file, s.at).value; RowStep(row, after) && RowInv(t, after, events)
  {
    PurgeStep(row, s.file, s.at);
    assert PurgeMarkSound(t, MarkPurged(row, s.file, s.at).value);
  }

  lemma BeginPurgeKeepsInv(w: World, a: Action, s: Sweep)
    requires Inv(w) && SweepInv(w.store, w.row, s)
    requires (a.BeginPurgeQuarantine? && s.quarantine.Pending?) || (a.BeginPurgeClean? && s.clean.Pending?)
    ensures Inv(ApplySweep(w, a, s))
  {
    var t := if a.BeginPurgeClean? then w.store.(cleanPurging := true) else w.store.(quarantinePurging := true);
    assert BucketsFit(t, w.row);
    StoreChangeKeepsInv(w, t);
    var s' := if a.BeginPurgeClean? then s.(clean := Deleting(t.clean)) else s.(quarantine := Deleting(t.quarantine));
    assert SweepInv(t, w.row, s');
    SweepChangeKeepsInv(w.(store := t), a.id, s');
  }

  lemma EndPurgeKeepsInv(w: World, a: Action, s: Sweep)
    requires Inv(w) && SweepInv(w.store, w.row, s)
    requires a.EndPurgeQuarantine? || a.EndPurgeClean?
    ensures Inv(ApplySweep(w, a, s))
  {
    var s' := if a.EndPurgeClean? then s.(clean := Done) else s.(quarantine := Done);
    if ApplySweep(w, a, s) != w {
      assert SweepInv(w.store, w.row, s');
      SweepChangeKeepsInv(w, a.id, s');
    }
  }

  lemma SweepActionKeepsInv(w: World, a: Action, s: Sweep)
    requires Inv(w) && SweepInv(w.store, w.row, s)
    ensures Inv(ApplySweep(w, a, s))
  {
    if (a.BeginPurgeQuarantine? && s.quarantine.Pending?) || (a.BeginPurgeClean? && s.clean.Pending?) {
      BeginPurgeKeepsInv(w, a, s);
    } else if a.EndPurgeQuarantine? || a.EndPurgeClean? {
      EndPurgeKeepsInv(w, a, s);
    } else if a.MarkSweep? {
      MarkSweepKeepsInv(w, a, s);
    } else if a.Abandon? {
      StoppingKeepsInv(w, a.id);
    } else {
      assert ApplySweep(w, a, s) == w;
    }
  }

  lemma ActionKeepsInv(w: World, a: Action)
    requires Inv(w)
    ensures Inv(Apply(w, a))
  {
    if StoreAction(a) {
      StoreActionKeepsInv(w, a);
    } else if OwnerAction(a) {
      OwnerActionKeepsInv(w, a);
    } else if a.id in w.workers {
      WorkerActionKeepsInv(w, a, w.workers[a.id]);
    } else if a.id in w.sweeps {
      SweepActionKeepsInv(w, a, w.sweeps[a.id]);
    } else {
      StartKeepsInv(w, a);
    }
  }
}
