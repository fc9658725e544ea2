/**
 What the columns of a file's row record, over every run, in terms of the steps that were taken:
 each column is found by looking back through the history, not by following the statements.
 */
module FileHistory {
  import opened Common
  import opened FileSignature
  import opened ScanDecision
  import opened FileRows
  import opened FileLifecycle
  import opened FileStatements
  import opened FileGuarantees

  // ----- the history

  /** The steps of a worker or of a purge visit. */
  predicate OfProcess(a: Action) { !StoreAction(a) && !OwnerAction(a) }

  /** What a process has done since it claimed or selected the file, after one more step of anyone. */
  ghost function Noted(d: seq<Action>, w: World, a: Action, id: ProcessId): seq<Action> {
    if !OfProcess(a) || a.id != id || Apply(w, a) == w then d
    else if a.Claim? || a.Select? then [a]
    else d + [a]
  }

  ghost function Diary(w: World, actions: seq<Action>, id: ProcessId): seq<Action> {
    if actions == [] then []
    else
      var n := |actions| - 1;
      Noted(Diary(w, actions[..n], id), Run(w, actions[..n]), actions[n], id)
  }

  /** A step that changed the row, with what its process had done before. */
  datatype Write = Write(action: Action, diary: seq<Action>)

  ghost function DiaryOf(w: World, actions: seq<Action>, a: Action): seq<Action> {
    if OfProcess(a) then Diary(w, actions, a.id) else []
  }

  ghost function Writes(w: World, actions: seq<Action>): seq<Write> {
    if actions == [] then []
    else
      var n := |actions| - 1;
      var before := Run(w, actions[..n]);
      Writes(w, actions[..n])
      + (if Apply(before, actions[n]).row != before.row
         then [Write(actions[n], DiaryOf(w, actions[..n], actions[n]))] else [])
  }

  // ----- what a process did is what it holds

  /** Why a scan rejected: the size, else the scanner's finding, else that no type fits. */
  ghost predicate RejectedFor(
    uploads: map<VersionId, Bytes>, context: Context, declared: nat, scan: Action, reason: Rejection,
    signature: Option<string>)
    requires scan.Examine?
  {
    && (scan.head.Some? ==> scan.head.value in uploads)
    && if scan.head.None? || |uploads[scan.head.value]| != declared || |scan.delivered| != declared
       then reason == SizeMismatch && signature.None?
       else if scan.verdict.Found?
       then reason == scan.verdict.reason
            && signature == if reason == Malware then Some(scan.verdict.signature) else None
       else reason == TypeRejected && signature.None?
            && forall t :: !Acceptable(context, uploads[scan.head.value], t)
  }

  predicate ExaminedAt(d: seq<Action>, source: VersionId) { |d| > 1 && d[1].Examine? && d[1].head == Some(source) }

  predicate Ends(d: seq<Action>, n: nat) { |d| == n > 0 && d[0].Claim? }

  ghost predicate Kept(uploads: map<VersionId, Bytes>, k: Worker, d: seq<Action>) {
    match k
    case Claimed(_, at) => Ends(d, 1) && d[0].at == at
    case Scanned(_, e) => Ends(d, 2) && ExaminedAt(d, e.source)
    case Intending(_, e) => Ends(d, 3) && ExaminedAt(d, e.source) && d[2].Intend?
    case Copying(_, e, _) => Ends(d, 4) && ExaminedAt(d, e.source) && d[3].RequestCopy?
    case Copied(_, e, v) => Ends(d, 5) && ExaminedAt(d, e.source) && d[4].CopyReturned? && d[4].version == v
    case Settling(row, s) => |d| > 1 && d[0].Claim? && Settles(uploads, row, s, d)
    case _ => true
  }

  ghost predicate Settles(uploads: map<VersionId, Bytes>, row: Row, s: Settlement, d: seq<Action>)
    requires |d| > 1 && d[0].Claim?
  {
    match s
    case FailWith(at) => |d| == 2 && d[1].Overdue? && at == d[0].at
    case RejectWith(reason, signature, at) =>
      && |d| == 2 && d[1].Examine? && at == d[1].at
      && RejectedFor(uploads, row.context, row.declaredBytes, d[1], reason, signature)
    case Retry(from) => d[|d| - 1].GiveUp? && from == d[|d| - 1].at
    case AcceptCopy(q, c, _, _, at) =>
      && |d| == 6 && ExaminedAt(d, q) && d[4].CopyReturned? && d[4].version == c && d[5].Verify? && d[5].at == at
  }

  /** A visit remembers when it selected the row and which bucket it emptied. */
  predicate KeptSweep(s: Sweep, d: seq<Action>) {
    && |d| > 0 && d[0].Select? && d[0].at == s.at
    && (s.quarantine.NotNeeded? <==> !NeedsQuarantine(s.file))
    && (s.quarantine.Done? <==> Emptied(d, true)) && (s.clean.Done? <==> Emptied(d, false))
  }

  predicate Emptied(d: seq<Action>, quarantine: bool) {
    exists i :: 0 <= i < |d| && (if quarantine then d[i].EndPurgeQuarantine? else d[i].EndPurgeClean?)
  }

  ghost predicate KeptAt(w: World, id: ProcessId, d: seq<Action>) {
    && (id in w.workers ==> Kept(w.store.uploads, w.workers[id], d))
    && (id in w.sweeps ==> id !in w.workers && KeptSweep(w.sweeps[id], d))
  }

  lemma {:induction false} KeptGrows(
    uploads: map<VersionId, Bytes>, uploads': map<VersionId, Bytes>, k: Worker, d: seq<Action>)
    requires forall v :: v in uploads ==> v in uploads' && uploads'[v] == uploads[v]
    requires Kept(uploads, k, d)
    ensures Kept(uploads', k, d)
  {
  }

  lemma {:induction false} EmptiedGrows(d: seq<Action>, a: Action, quarantine: bool)
    ensures Emptied(d + [a], quarantine)
            <==> Emptied(d, quarantine) || (if quarantine then a.EndPurgeQuarantine? else a.EndPurgeClean?)
  {
    assert (d + [a])[|d|] == a;
    assert forall i :: 0 <= i < |d| ==> (d + [a])[i] == d[i];
  }

  /** A step of the store or of the owner leaves the processes where they are. */
  lemma {:induction false} OthersKeep(w: World, a: Action, id: ProcessId, d: seq<Action>)
    requires Inv(w) && KeptAt(w, id, d) && !OfProcess(a)
    ensures KeptAt(Apply(w, a), id, Noted(d, w, a, id))
  {
    if StoreAction(a) {
      if id in w.workers {
        KeptGrows(w.store.uploads, Apply(w, a).store.uploads, w.workers[id], d);
      }
    }
  }

  lemma {:induction false} WorkerLeavesUploads(w: World, a: Action, k: Worker)
    ensures ApplyWorker(w, a, k).store.uploads == w.store.uploads && ApplyWorker(w, a, k).sweeps == w.sweeps
  {
  }

  lemma {:induction false} ExamineKeeps(w: World, a: Action, k: Worker, d: seq<Action>)
    requires Inv(w) && a.Examine? && k.Claimed? && Kept(w.store.uploads, k, d) && ApplyWorker(w, a, k) != w
    ensures var w' := ApplyWorker(w, a, k); a.id in w'.workers && Kept(w'.store.uploads, w'.workers[a.id], d + [a])
  {
    var w' := ApplyWorker(w, a, k);
    var row := k.row;
    var length := if a.head.Some? then Some(|w.store.uploads[a.head.value]|) else None;
    assert w' == Examined(w, a.id, row, a.head, a.delivered, a.verdict, a.at);
    var decision := Decide(row.context, row.declaredBytes, length, a.delivered, a.verdict);
    if decision.Reject? {
      RejectionExactly(row.context, row.declaredBytes, length, a.delivered, a.verdict, decision.reason,
          decision.signature);
      RejectionIsFor(w.store, row, a, decision.reason, decision.signature);
    }
  }

  /** What the decision says of the delivered bytes holds of the object they were read from. */
  lemma {:induction false} RejectionIsFor(
    t: Store, row: Row, a: Action, reason: Rejection, signature: Option<string>)
    requires a.Examine? && Readable(t, a.head, a.delivered) && ScannerVerdict(a.verdict)
    requires var length := if a.head.Some? then Some(|t.uploads[a.head.value]|) else None;
             Decide(row.context, row.declaredBytes, length, a.delivered, a.verdict) == Reject(reason, signature)
    ensures RejectedFor(t.uploads, row.context, row.declaredBytes, a, reason, signature)
  {
    var length := if a.head.Some? then Some(|t.uploads[a.head.value]|) else None;
    RejectionExactly(row.context, row.declaredBytes, length, a.delivered, a.verdict, reason, signature);
    if a.head.Some? && |a.delivered| == |t.uploads[a.head.value]| {
      assert a.delivered == t.uploads[a.head.value];
    }
  }

  lemma {:induction false} WorkerStepKeeps(w: World, a: Action, k: Worker, d: seq<Action>)
    requires Inv(w) && OfProcess(a) && Kept(w.store.uploads, k, d) && WorkerInv(w.store, w.row, k)
    requires ApplyWorker(w, a, k) != w && !(a.Examine? && k.Claimed?)
    requires a.id in w.workers && w.workers[a.id] == k
    ensures var w' := ApplyWorker(w, a, k);
            && !a.Claim? && !a.Select?
            && (a.id in w'.workers ==> Kept(w'.store.uploads, w'.workers[a.id], d + [a]))
  {
  }

  lemma {:induction false} WorkersKeep(w: World, a: Action, id: ProcessId, d: seq<Action>)
    requires Inv(w) && KeptAt(w, id, d) && OfProcess(a) && a.id in w.workers
    ensures KeptAt(Apply(w, a), id, Noted(d, w, a, id))
  {
    var k := w.workers[a.id];
    var w' := ApplyWorker(w, a, k);
    WorkerLeavesUploads(w, a, k);
    WorkerOnlyMoves(w, a);
    if id == a.id && w' != w {
      if a.Examine? && k.Claimed? {
        ExamineKeeps(w, a, k, d);
      } else {
        WorkerStepKeeps(w, a, k, d);
      }
    }
  }

  lemma {:induction false} SweepLeavesUploads(w: World, a: Action, s: Sweep)
    ensures ApplySweep(w, a, s).store.uploads == w.store.uploads && ApplySweep(w, a, s).workers == w.workers
  {
  }

  lemma {:induction false} SweepStepKeeps(w: World, a: Action, s: Sweep, d: seq<Action>)
    requires OfProcess(a) && KeptSweep(s, d) && ApplySweep(w, a, s) != w && a.id in w.sweeps && w.sweeps[a.id] == s
    ensures var w' := ApplySweep(w, a, s);
            !a.Claim? && !a.Select? && (a.id in w'.sweeps ==> KeptSweep(w'.sweeps[a.id], d + [a]))
  {
    EmptiedGrows(d, a, true);
    EmptiedGrows(d, a, false);
  }

  lemma {:induction false} SweepsKeep(w: World, a: Action, id: ProcessId, d: seq<Action>)
    requires Inv(w) && KeptAt(w, id, d) && OfProcess(a) && a.id !in w.workers && a.id in w.sweeps
    ensures KeptAt(Apply(w, a), id, Noted(d, w, a, id))
  {
    var s := w.sweeps[a.id];
    var w' := ApplySweep(w, a, s);
    SweepLeavesUploads(w, a, s);
    if id == a.id && w' != w {
      SweepStepKeeps(w, a, s, d);
    }
  }

  lemma {:induction false} StartsKeep(w: World, a: Action, id: ProcessId, d: seq<Action>)
    requires Inv(w) && KeptAt(w, id, d) && OfProcess(a) && a.id !in w.workers && a.id !in w.sweeps
    ensures KeptAt(Apply(w, a), id, Noted(d, w, a, id))
  {
  }

  lemma {:induction false} StepKeeps(w: World, a: Action, id: ProcessId, d: seq<Action>)
    requires Inv(w) && KeptAt(w, id, d)
    ensures KeptAt(Apply(w, a), id, Noted(d, w, a, id))
  {
    if !OfProcess(a) {
      OthersKeep(w, a, id, d);
    } else if a.id in w.workers {
      WorkersKeep(w, a, id, d);
    } else if a.id in w.sweeps {
      SweepsKeep(w, a, id, d);
    } else {
      StartsKeep(w, a, id, d);
    }
  }

  /** In every run each process stands where its own steps have brought it. */
  lemma {:induction false} DiariesAreKept(
    context: Context, declaredBytes: nat, at: Instant, actions: seq<Action>, id: ProcessId)
    ensures var w0 := Init(context, declaredBytes, at); KeptAt(Run(w0, actions), id, Diary(w0, actions, id))
  {
    if actions != [] {
      var n := |actions| - 1;
      var w0 := Init(context, declaredBytes, at);
      DiariesAreKept(context, declaredBytes, at, actions[..n], id);
      RunKeepsInv(context, declaredBytes, at, actions[..n]);
      StepKeeps(Run(w0, actions[..n]), actions[n], id, Diary(w0, actions[..n], id));
    }
  }

  // ----- looking back through the history

  /** The value of the last write that gave one. */
  function Latest<T>(writes: seq<Write>, f: Write -> Option<T>): Option<T> {
    if writes == [] then None
    else if f(writes[|writes| - 1]).Some? then f(writes[|writes| - 1])
    else Latest(writes[..|writes| - 1], f)
  }

  /** The step on which a worker's result rests: its overdue claim, its scan, its retry or its verified copy. */
  function Ground(x: Write): Option<Action> {
    if x.action.SettleScan? && |x.diary| > 1 && x.diary[0].Claim? then Some(x.diary[|x.diary| - 1]) else None
  }

  /** When a visit read the clock: at its select. */
  function VisitedAt(x: Write): Option<Instant> {
    if x.action.MarkSweep? && |x.diary| > 0 && x.diary[0].Select? then Some(x.diary[0].at) else None
  }

  function StateSet(x: Write): Option<FileState> {
    match x.action
    case FinishUpload(_) => Some(Scanning)
    case OwnerDiscard(_) => Some(Discarded)
    case Attach(_, _) => Some(FileState.Attached)
    case RetireFile(_, _) => Some(Deleted)
    case BulkSweep(ExpireGrants, _) => Some(Expired)
    case BulkSweep(DiscardUnsent, _) => Some(Discarded)
    case BulkSweep(FailOverdue, _) => Some(ScanFailed)
    case _ =>
      match Ground(x)
      case Some(Overdue(_)) => Some(ScanFailed)
      case Some(Examine(_, _, _, _, _)) => Some(FileState.Rejected)
      case Some(Verify(_, _)) => Some(Clean)
      case _ => None
  }

  function UploadSet(x: Write): Option<Instant> { if x.action.FinishUpload? then Some(x.action.at) else None }

  /** The reading that dates an end: the step's own, the overdue claim's, or the rejecting scan's. */
  function EndSet(x: Write): Option<Instant> {
    match x.action
    case OwnerDiscard(at) => Some(at)
    case RetireFile(_, at) => Some(at)
    case BulkSweep(bulk, at) => if bulk.RecoverLeases? then None else Some(at)
    case _ =>
      match Ground(x)
      case Some(Overdue(_)) => Some(x.diary[0].at)
      case Some(Examine(_, _, _, _, at)) => Some(at)
      case _ => None
  }

  function OrderSet(x: Write): Option<OrderId> { if x.action.Attach? then Some(x.action.order) else None }

  function AttachSet(x: Write): Option<Instant> { if x.action.Attach? then Some(x.action.at) else None }

  function IntentSet(x: Write): Option<bool> { if x.action.Intend? then Some(true) else None }

  /** An accepted file: when its copy was verified, which version was scanned, and which one is the copy. */
  predicate Accepts(x: Write) {
    && Ground(x).Some? && Ground(x).value.Verify? && |x.diary| == 6
    && x.diary[1].Examine? && x.diary[4].CopyReturned?
  }

  function CleanSet(x: Write): Option<Instant> { if Accepts(x) then Some(x.diary[5].at) else None }

  function SourceSet(x: Write): Option<VersionId> { if Accepts(x) then x.diary[1].head else None }

  function CopySet(x: Write): Option<VersionId> { if Accepts(x) then Some(x.diary[4].version) else None }

  function RejectingScan(x: Write): Option<Action> {
    match Ground(x)
    case Some(Examine(_, _, _, _, _)) => Ground(x)
    case _ => None
  }

  function QuarantineSet(x: Write): Option<Instant> {
    if x.action.MarkWinnerPurge? then Some(x.action.at)
    else if Emptied(x.diary, true) then VisitedAt(x) else None
  }

  /** When a visit that emptied the clean bucket selected the row. */
  function CleanVisit(x: Write): Option<Instant> { if Emptied(x.diary, false) then VisitedAt(x) else None }

  function CountsAttempt(x: Write): bool {
    || (x.action.BulkSweep? && x.action.bulk.RecoverLeases?)
    || (Ground(x).Some? && Ground(x).value.GiveUp?)
  }

  function Attempts(writes: seq<Write>): nat {
    if writes == [] then 0
    else Attempts(writes[..|writes| - 1]) + (if CountsAttempt(writes[|writes| - 1]) then 1 else 0)
  }

  /** The lease in force: ten minutes from the claim, unless something ended it since. */
  function Lease(writes: seq<Write>): Option<Instant> {
    if writes == [] then None
    else
      var x := writes[|writes| - 1];
      match x.action
      case Claim(_, at) => Some(at + 10 * 60_000)
      case SettleScan(_, _) => None
      case OwnerDiscard(_) => None
      case BulkSweep(FailOverdue, _) => None
      case BulkSweep(RecoverLeases, _) => None
      case _ => Lease(writes[..|writes| - 1])
  }

  /** When the next scan is due: the delay of that attempt after the retry, or at once after a recovery. */
  function NextScan(writes: seq<Write>): Option<Instant> {
    if writes == [] then None
    else
      var x := writes[|writes| - 1];
      match x.action
      case SettleScan(_, _) =>
        (match Ground(x)
         case Some(GiveUp(_, from)) => Some(from + RetryDelayMs(Attempts(writes)))
         case _ => None)
      case OwnerDiscard(_) => None
      case BulkSweep(FailOverdue, _) => None
      case BulkSweep(RecoverLeases, at) => Some(at)
      case _ => NextScan(writes[..|writes| - 1])
  }

  function ReadingOf(x: Write): Option<Instant> {
    match x.action
    case FinishUpload(at) => Some(at)
    case OwnerDiscard(at) => Some(at)
    case Attach(_, at) => Some(at)
    case RetireFile(_, at) => Some(at)
    case BulkSweep(_, at) => Some(at)
    case Claim(_, at) => Some(at)
    case Intend(_, at) => Some(at)
    case SettleScan(_, at) => Some(at)
    case MarkWinnerPurge(_, at) => Some(at)
    case _ => VisitedAt(x)
  }

  function LatestReading(created: Instant, writes: seq<Write>): Instant {
    if writes == [] then created
    else
      var earlier := LatestReading(created, writes[..|writes| - 1]);
      match ReadingOf(writes[|writes| - 1])
      case Some(at) => Max(earlier, at)
      case None => earlier
  }

  // ----- the row is its history

  /** The columns of the scan queue: version, last update, attempts, lease and due time. */
  predicate QueueRecords(row: Row, writes: seq<Write>) {
    && row.version == 1 + |writes|
    && row.updatedAt == LatestReading(row.createdAt, writes)
    && row.scanAttempts == Attempts(writes)
    && row.scanLeaseExpiresAt == Lease(writes)
    && row.nextScanAt == NextScan(writes)
  }

  /** The columns of the file's life: its state and the dates and names that go with it. */
  predicate LifeRecords(row: Row, writes: seq<Write>) {
    && row.state == (match Latest(writes, StateSet) case Some(s) => s case None => AwaitingUpload)
    && row.uploadedAt == Latest(writes, UploadSet)
    && row.endedAt == Latest(writes, EndSet)
    && row.orderId == Latest(writes, OrderSet) && row.attachedAt == Latest(writes, AttachSet)
    && row.cleanCopyIntent == Latest(writes, IntentSet).Some?
    && row.cleanAt == Latest(writes, CleanSet)
    && row.quarantineVersionId == Latest(writes, SourceSet) && row.cleanVersionId == Latest(writes, CopySet)
  }

  /** The purge marks: each is the reading of the first visit that emptied the bucket and was allowed to say so. */
  predicate PurgeRecords(row: Row, writes: seq<Write>) {
    && row.quarantinePurgedAt == Latest(writes, QuarantineSet)
    && (row.cleanPurgedAt.Some? ==> exists i :: 0 <= i < |writes| && CleanVisit(writes[i]) == row.cleanPurgedAt)
    && (forall i :: 0 <= i < |writes| && CleanVisit(writes[i]).Some? ==>
          && Terminal(row.state)
          && (row.cleanPurgedAt.None? ==>
                row.cleanCopyIntent && row.endedAt.Some?
                && CleanVisit(writes[i]).value < row.endedAt.value + 24 * 3_600_000))
  }

  ghost predicate RejectionRecords(uploads: map<VersionId, Bytes>, row: Row, writes: seq<Write>) {
    row.rejectionReason.Some? ==>
      && Latest(writes, RejectingScan).Some?
      && var scan := Latest(writes, RejectingScan).value;
      scan.Examine? && RejectedFor(uploads, row.context, row.declaredBytes, scan, row.rejectionReason.value,
          row.malwareSignature)
  }

  ghost predicate Records(uploads: map<VersionId, Bytes>, row: Row, writes: seq<Write>) {
    QueueRecords(row, writes) && LifeRecords(row, writes) && PurgeRecords(row, writes)
    && RejectionRecords(uploads, row, writes)
  }

  lemma {:induction false} HistoryGrows(writes: seq<Write>, x: Write)
    ensures (writes + [x])[..|writes|] == writes && (writes + [x])[|writes|] == x
    ensures Attempts(writes + [x]) == Attempts(writes) + (if CountsAttempt(x) then 1 else 0)
  {
    assert (writes + [x])[..|writes|] == writes;
  }

  lemma {:induction false} LatestGrows<T>(writes: seq<Write>, x: Write, f: Write -> Option<T>)
    ensures Latest(writes + [x], f) == if f(x).Some? then f(x) else Latest(writes, f)
  {
    assert (writes + [x])[..|writes|] == writes;
  }

  lemma {:induction false} LifeGrows(writes: seq<Write>, x: Write)
    ensures Latest(writes + [x], StateSet) == if StateSet(x).Some? then StateSet(x) else Latest(writes, StateSet)
    ensures Latest(writes + [x], UploadSet) == if UploadSet(x).Some? then UploadSet(x) else Latest(writes, UploadSet)
    ensures Latest(writes + [x], EndSet) == if EndSet(x).Some? then EndSet(x) else Latest(writes, EndSet)
    ensures Latest(writes + [x], OrderSet) == if OrderSet(x).Some? then OrderSet(x) else Latest(writes, OrderSet)
    ensures Latest(writes + [x], AttachSet) == if AttachSet(x).Some? then AttachSet(x) else Latest(writes, AttachSet)
    ensures Latest(writes + [x], IntentSet) == if IntentSet(x).Some? then IntentSet(x) else Latest(writes, IntentSet)
    ensures Latest(writes + [x], CleanSet) == if CleanSet(x).Some? then CleanSet(x) else Latest(writes, CleanSet)
    ensures Latest(writes + [x], SourceSet) == if SourceSet(x).Some? then SourceSet(x) else Latest(writes, SourceSet)
    ensures Latest(writes + [x], CopySet) == if CopySet(x).Some? then CopySet(x) else Latest(writes, CopySet)
  {
    LatestGrows(writes, x, StateSet);
    LatestGrows(writes, x, UploadSet);
    LatestGrows(writes, x, EndSet);
    LatestGrows(writes, x, OrderSet);
    LatestGrows(writes, x, AttachSet);
    LatestGrows(writes, x, IntentSet);
    LatestGrows(writes, x, CleanSet);
    LatestGrows(writes, x, SourceSet);
    LatestGrows(writes, x, CopySet);
  }

  // ----- statement by statement

  /** What the history says of the statement that a write executed. */
  ghost predicate Explains(uploads: map<VersionId, Bytes>, row: Row, st: Statement, x: Write) {
    match st
    case Finish(at) => x.action == FinishUpload(at)
    case EndFile(at) => x.action == OwnerDiscard(at)
    case BindTo(order, at) => x.action == Attach(order, at)
    case RetireRow(at) => x.action.RetireFile? && x.action.at == at
    case BulkUpdate(bulk, at) => x.action == BulkSweep(bulk, at)
    case TakeLease(at) => x.action.Claim? && x.action.at == at
    case CommitCopy(claimed, at) => x.action.Intend? && x.action.at == at && Seen(row, claimed)
    case SettleTo(claimed, s, at) =>
      && x.action.SettleScan? && x.action.at == at && Seen(row, claimed)
      && |x.diary| > 1 && x.diary[0].Claim? && Settles(uploads, claimed, s, x.diary)
    case MarkQuarantine(at) => x.action.MarkWinnerPurge? && x.action.at == at && Rank(row.state) >= Rank(Clean)
    case MarkPurge(file, at) =>
      && x.action.MarkSweep? && Reached(row, file) && Rank(file.state) >= Rank(Clean)
      && |x.diary| > 0 && x.diary[0].Select? && x.diary[0].at == at
      && (Emptied(x.diary, true) <==> NeedsQuarantine(file)) && (Emptied(x.diary, false) <==> NeedsClean(file))
  }

  /** What one write does to the columns of the queue. */
  predicate QueueMoves(row: Row, after: Row, x: Write) {
    && after.version == row.version + 1 && after.createdAt == row.createdAt
    && after.updatedAt == (match ReadingOf(x) case Some(at) => Max(row.updatedAt, at) case None => row.updatedAt)
    && after.scanAttempts == row.scanAttempts + (if CountsAttempt(x) then 1 else 0)
    && after.scanLeaseExpiresAt == (match x.action
        case Claim(_, at) => Some(at + 10 * 60_000)
        case SettleScan(_, _) => None
        case OwnerDiscard(_) => None
        case BulkSweep(FailOverdue, _) => None
        case BulkSweep(RecoverLeases, _) => None
        case _ => row.scanLeaseExpiresAt)
    && after.nextScanAt == (match x.action
        case SettleScan(_, _) =>
          (match Ground(x) case Some(GiveUp(_, from)) => Some(from + RetryDelayMs(after.scanAttempts)) case _ => None)
        case OwnerDiscard(_) => None
        case BulkSweep(FailOverdue, _) => None
        case BulkSweep(RecoverLeases, at) => Some(at)
        case _ => row.nextScanAt)
  }

  function OrKept<T>(set': Option<T>, before: Option<T>): Option<T> { if set'.Some? then set' else before }

  /** What one write does to the columns of the file's life. */
  predicate LifeMoves(row: Row, after: Row, x: Write) {
    && after.state == (match StateSet(x) case Some(s) => s case None => row.state)
    && after.uploadedAt == OrKept(UploadSet(x), row.uploadedAt) && after.endedAt == OrKept(EndSet(x), row.endedAt)
    && after.orderId == OrKept(OrderSet(x), row.orderId) && after.attachedAt == OrKept(AttachSet(x), row.attachedAt)
    && after.cleanCopyIntent == (IntentSet(x).Some? || row.cleanCopyIntent)
    && after.cleanAt == OrKept(CleanSet(x), row.cleanAt)
    && after.quarantineVersionId == OrKept(SourceSet(x), row.quarantineVersionId)
    && after.cleanVersionId == OrKept(CopySet(x), row.cleanVersionId)
  }

  lemma {:induction false} OwnerMoves(uploads: map<VersionId, Bytes>, row: Row, st: Statement, x: Write)
    requires RowChecks(row) && Explains(uploads, row, st, x) && Written(row, st).Some?
    requires st.Finish? || st.EndFile? || st.BindTo? || st.RetireRow?
    ensures QueueMoves(row, Written(row, st).value, x) && LifeMoves(row, Written(row, st).value, x)
  {
  }

  lemma {:induction false} BulkMoves(uploads: map<VersionId, Bytes>, row: Row, st: Statement, x: Write)
    requires RowChecks(row) && Explains(uploads, row, st, x) && Written(row, st).Some? && st.BulkUpdate?
    ensures QueueMoves(row, Written(row, st).value, x) && LifeMoves(row, Written(row, st).value, x)
  {
  }

  lemma {:induction false} MarkMoves(uploads: map<VersionId, Bytes>, row: Row, st: Statement, x: Write)
    requires RowChecks(row) && Explains(uploads, row, st, x) && Written(row, st).Some?
    requires st.TakeLease? || st.CommitCopy? || st.MarkQuarantine? || st.MarkPurge?
    ensures QueueMoves(row, Written(row, st).value, x) && LifeMoves(row, Written(row, st).value, x)
  {
  }

  lemma {:induction false} SettleMovesQueue(uploads: map<VersionId, Bytes>, row: Row, st: Statement, x: Write)
    requires RowChecks(row) && Explains(uploads, row, st, x) && Written(row, st).Some? && st.SettleTo?
    ensures QueueMoves(row, Written(row, st).value, x)
  {
  }

  /** What a settlement's ground says of the columns it sets. */
  predicate Grounds(s: Settlement, x: Write) {
    && x.action.SettleScan? && Ground(x).Some?
    && match s
       case Retry(_) => Ground(x).value.GiveUp?
       case FailWith(at) => Ground(x).value.Overdue? && x.diary[0].at == at
       case RejectWith(_, _, at) => Ground(x).value.Examine? && Ground(x).value.at == at
       case AcceptCopy(q, c, _, _, at) =>
         Accepts(x) && CleanSet(x) == Some(at) && SourceSet(x) == Some(q) && CopySet(x) == Some(c)
  }

  lemma {:induction false} SettlementGrounds(uploads: map<VersionId, Bytes>, row: Row, st: Statement, x: Write)
    requires Explains(uploads, row, st, x) && st.SettleTo?
    ensures Grounds(st.settlement, x)
  {
  }

  lemma {:induction false} EndingMovesLife(row: Row, claimed: Row, s: Settlement, at: Instant, x: Write)
    requires Settle(row, claimed, s, at).Some? && Grounds(s, x) && (s.Retry? || s.FailWith? || s.RejectWith?)
    ensures LifeMoves(row, Settle(row, claimed, s, at).value, x)
  {
  }

  lemma {:induction false} AcceptingMovesLife(row: Row, claimed: Row, s: Settlement, at: Instant, x: Write)
    requires Settle(row, claimed, s, at).Some? && Grounds(s, x) && s.AcceptCopy?
    ensures LifeMoves(row, Settle(row, claimed, s, at).value, x)
  {
  }

  lemma {:induction false} SettleMovesLife(uploads: map<VersionId, Bytes>, row: Row, st: Statement, x: Write)
    requires Explains(uploads, row, st, x) && Written(row, st).Some? && st.SettleTo?
    ensures LifeMoves(row, Written(row, st).value, x)
  {
    SettlementGrounds(uploads, row, st, x);
    if st.settlement.AcceptCopy? {
      AcceptingMovesLife(row, st.claimed, st.settlement, st.at, x);
    } else {
      EndingMovesLife(row, st.claimed, st.settlement, st.at, x);
    }
  }

  lemma {:induction false} StatementMoves(uploads: map<VersionId, Bytes>, row: Row, st: Statement, x: Write)
    requires RowChecks(row) && Explains(uploads, row, st, x) && Written(row, st).Some?
    ensures QueueMoves(row, Written(row, st).value, x) && LifeMoves(row, Written(row, st).value, x)
  {
    if st.BulkUpdate? {
      BulkMoves(uploads, row, st, x);
    } else if st.SettleTo? {
      SettleMovesQueue(uploads, row, st, x);
      SettleMovesLife(uploads, row, st, x);
    } else if st.TakeLease? || st.CommitCopy? || st.MarkQuarantine? || st.MarkPurge? {
      MarkMoves(uploads, row, st, x);
    } else {
      OwnerMoves(uploads, row, st, x);
    }
  }

  lemma {:induction false} QueueStep(row: Row, after: Row, writes: seq<Write>, x: Write)
    requires QueueRecords(row, writes) && QueueMoves(row, after, x)
    ensures QueueRecords(after, writes + [x])
  {
    HistoryGrows(writes, x);
  }

  lemma {:induction false} LifeStep(row: Row, after: Row, writes: seq<Write>, x: Write)
    requires LifeRecords(row, writes) && LifeMoves(row, after, x)
    ensures LifeRecords(after, writes + [x])
  {
    LifeGrows(writes, x);
  }

  lemma {:induction false} RejectionStep(
    uploads: map<VersionId, Bytes>, row: Row, st: Statement, writes: seq<Write>, x: Write)
    requires RowChecks(row) && Explains(uploads, row, st, x) && Written(row, st).Some?
             && RejectionRecords(uploads, row, writes)
    ensures RejectionRecords(uploads, Written(row, st).value, writes + [x])
  {
    LatestGrows(writes, x, RejectingScan);
  }

  lemma {:induction false} QuarantineStep(
    uploads: map<VersionId, Bytes>, row: Row, st: Statement, writes: seq<Write>, x: Write)
    requires RowChecks(row) && Explains(uploads, row, st, x) && Written(row, st).Some?
    requires row.quarantinePurgedAt == Latest(writes, QuarantineSet)
    ensures Written(row, st).value.quarantinePurgedAt == Latest(writes + [x], QuarantineSet)
  {
    LatestGrows(writes, x, QuarantineSet);
  }

  lemma {:induction false} CleanVisitStep(
    uploads: map<VersionId, Bytes>, row: Row, st: Statement, writes: seq<Write>, x: Write)
    requires RowChecks(row) && Explains(uploads, row, st, x) && Written(row, st).Some?
             && RowStep(row, Written(row, st).value) && PurgeRecords(row, writes)
    ensures PurgeRecords(Written(row, st).value, writes + [x])
  {
    var after := Written(row, st).value;
    QuarantineStep(uploads, row, st, writes, x);
    HistoryGrows(writes, x);
    if st.MarkPurge? {
      VisitCounts(row, st.file, st.at, x);
    } else {
      OthersDoNotVisit(uploads, row, st, x);
    }
    if after.cleanPurgedAt.Some? {
      if row.cleanPurgedAt.Some? {
        var i :| 0 <= i < |writes| && CleanVisit(writes[i]) == row.cleanPurgedAt;
        assert (writes + [x])[i] == writes[i];
      }
    }
    forall i | 0 <= i < |writes + [x]| && CleanVisit((writes + [x])[i]).Some?
      ensures Terminal(after.state)
      ensures after.cleanPurgedAt.None? ==>
                after.cleanCopyIntent && after.endedAt.Some?
                && CleanVisit((writes + [x])[i]).value < after.endedAt.value + 24 * 3_600_000
    {
      if i < |writes| {
        assert (writes + [x])[i] == writes[i];
      }
    }
  }

  /** A visit that emptied the clean bucket sets the mark at its reading unless the intent is too recent. */
  lemma {:induction false} VisitCounts(row: Row, file: Row, at: Instant, x: Write)
    requires RowChecks(row) && MarkPurged(row, file, at).Some? && Reached(row, file)
    requires VisitedAt(x) == Some(at) && (Emptied(x.diary, false) <==> NeedsClean(file))
    ensures var after := MarkPurged(row, file, at).value;
            && (CleanVisit(x).None? ==> after.cleanPurgedAt == row.cleanPurgedAt)
            && (CleanVisit(x).Some? ==>
                  && Terminal(after.state)
                  && (after.cleanPurgedAt == Some(at)
                      || (after.cleanPurgedAt == row.cleanPurgedAt && after.cleanCopyIntent && after.endedAt.Some?
                          && at < after.endedAt.value + 24 * 3_600_000)))
  {
  }

  lemma {:induction false} OthersDoNotVisit(uploads: map<VersionId, Bytes>, row: Row, st: Statement, x: Write)
    requires Explains(uploads, row, st, x) && Written(row, st).Some? && !st.MarkPurge?
    ensures CleanVisit(x).None? && Written(row, st).value.cleanPurgedAt == row.cleanPurgedAt
  {
  }

  // ----- whole runs

  lemma {:induction false} StatementIsExplained(w: World, a: Action, d: seq<Action>)
    requires Inv(w) && StatementOf(w, a).Some? && (OfProcess(a) ==> KeptAt(w, a.id, d))
    ensures Explains(w.store.uploads, w.row, StatementOf(w, a).value, Write(a, d))
  {
    StatementFits(w, a);
  }

  lemma {:induction false} WriteRecords(w: World, a: Action, d: seq<Action>, writes: seq<Write>)
    requires Inv(w) && (OfProcess(a) ==> KeptAt(w, a.id, d)) && Apply(w, a).row != w.row
    requires Records(w.store.uploads, w.row, writes)
    ensures Records(w.store.uploads, Apply(w, a).row, writes + [Write(a, d)])
  {
    StepExecutesItsStatement(w, a);
    StepIsGuarded(w, a);
    var st := StatementOf(w, a).value;
    var x := Write(a, d);
    StatementIsExplained(w, a, d);
    assert Apply(w, a).row == Written(w.row, st).value;
    StatementMoves(w.store.uploads, w.row, st, x);
    QueueStep(w.row, Apply(w, a).row, writes, x);
    LifeStep(w.row, Apply(w, a).row, writes, x);
    RejectionStep(w.store.uploads, w.row, st, writes, x);
    CleanVisitStep(w.store.uploads, w.row, st, writes, x);
  }

  lemma {:induction false} RecordsGrow(
    uploads: map<VersionId, Bytes>, uploads': map<VersionId, Bytes>, row: Row, writes: seq<Write>)
    requires forall v :: v in uploads ==> v in uploads' && uploads'[v] == uploads[v]
    requires Records(uploads, row, writes)
    ensures Records(uploads', row, writes)
  {
  }

  lemma {:induction false} UploadsGrow(w: World, a: Action)
    ensures forall v :: v in w.store.uploads ==>
              v in Apply(w, a).store.uploads && Apply(w, a).store.uploads[v] == w.store.uploads[v]
  {
    if OfProcess(a) {
      if a.id in w.workers {
        WorkerLeavesUploads(w, a, w.workers[a.id]);
      } else if a.id in w.sweeps {
        SweepLeavesUploads(w, a, w.sweeps[a.id]);
      }
    }
  }

  /**
   The row is its history: after every run of owner, orders, workers, sweeps and store, every column
   a statement writes is what looking back through the steps that changed the row finds.
   */
  lemma {:induction false} RowIsItsHistory(context: Context, declaredBytes: nat, at: Instant, actions: seq<Action>)
    ensures var w0 := Init(context, declaredBytes, at);
            Records(Run(w0, actions).store.uploads, Run(w0, actions).row, Writes(w0, actions))
  {
    var w0 := Init(context, declaredBytes, at);
    if actions != [] {
      var n := |actions| - 1;
      var w := Run(w0, actions[..n]);
      RowIsItsHistory(context, declaredBytes, at, actions[..n]);
      RunKeepsInv(context, declaredBytes, at, actions[..n]);
      if OfProcess(actions[n]) {
        DiariesAreKept(context, declaredBytes, at, actions[..n], actions[n].id);
      }
      UploadsGrow(w, actions[n]);
      if Apply(w, actions[n]).row != w.row {
        WriteRecords(w, actions[n], DiaryOf(w0, actions[..n], actions[n]), Writes(w0, actions[..n]));
      } else {
        assert Writes(w0, actions) == Writes(w0, actions[..n]);
      }
      RecordsGrow(w.store.uploads, Apply(w, actions[n]).store.uploads, Apply(w, actions[n]).row, Writes(w0, actions));
    }
  }
}
