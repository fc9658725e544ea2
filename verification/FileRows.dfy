/**
 The commission_files table: its columns, every statement that writes a row, and the two
 database-side guards (the row checks and the update trigger).

 Each statement is one function on the row it matches.
 */
module FileRows {
  import opened Common
  import opened FileSignature
  import opened ScanDecision

  /** A file's id, as its position in the database's order of ids. */
  type FileId = nat
  type OrderId = string
  type VersionId = string

  const SCAN_LEASE_MS: int := 10 * 60_000
  const SCAN_DEADLINE_MS: int := 24 * 3_600_000
  const UPLOAD_GRANT_MS: int := 15 * 60_000
  const UNSENT_TTL_MS: int := 24 * 3_600_000
  const RETRY_BASE_MS: int := 60_000
  const RETRY_MAX_MS: int := 30 * 60_000
  const PURGE_GRACE_MS: int := 300_000
  const COPY_INTENT_CLOSURE_MS: int := 24 * 60 * 60 * 1_000
  const MAX_SCAN_ATTEMPTS: nat := 1000

  datatype FileState =
    | AwaitingUpload | Scanning | Clean | Attached | Rejected | ScanFailed | Expired | Discarded | Deleted

  predicate Terminal(s: FileState) {
    s in {Rejected, ScanFailed, Expired, Discarded, Deleted}
  }

  /** Every change of state raises this. */
  function Rank(s: FileState): nat {
    match s
    case AwaitingUpload => 0
    case Scanning => 1
    case Clean => 2
    case Attached => 3
    case _ => 4
  }

  datatype Row = Row(
    context: Context, declaredBytes: nat, createdAt: Instant, uploadExpiresAt: Instant,
    state: FileState, version: nat, updatedAt: Instant,
    cleanCopyIntent: bool,
    orderId: Option<OrderId>, attachedAt: Option<Instant>,
    quarantineVersionId: Option<VersionId>, cleanVersionId: Option<VersionId>,
    detectedType: Option<FileType>, sha256: Option<Digest>, cleanAt: Option<Instant>,
    rejectionReason: Option<Rejection>, malwareSignature: Option<string>,
    scanAttempts: nat, nextScanAt: Option<Instant>, scanLeaseExpiresAt: Option<Instant>,
    uploadedAt: Option<Instant>, scanDeadlineAt: Option<Instant>, endedAt: Option<Instant>,
    quarantinePurgedAt: Option<Instant>, cleanPurgedAt: Option<Instant>)

  /** The event a settled scan emits. */
  datatype Outcome = CleanOutcome | RejectedOutcome | ScanFailedOutcome

  function NewRow(context: Context, declaredBytes: nat, at: Instant): Row {
    Row(context, declaredBytes, at, at + UPLOAD_GRANT_MS, AwaitingUpload, 1, at, false, None, None,
        None, None, None, None, None, None, None, 0, None, None, None, None, None, None, None)
  }

  const MIB: int := 1024 * 1024

  function MaxBytes(context: Context): nat {
    if context.Submission? then 250 * MIB else 25 * MIB
  }

  /** The check on the declared size, which is never written again. */
  predicate SizeFits(context: Context, declaredBytes: nat) {
    1 <= declaredBytes <= MaxBytes(context)
  }

  function Bumped(row: Row, at: Instant): Row {
    row.(version := row.version + 1, updatedAt := Max(row.updatedAt, at))
  }

  predicate Due(column: Option<Instant>, at: Instant) {
    column.Some? && column.value <= at
  }

  predicate NullOrDue(column: Option<Instant>, at: Instant) {
    column.None? || column.value <= at
  }

  // ----- the scan worker's statements

  function ClaimScan(row: Row, at: Instant): Option<Row> {
    if row.state == Scanning && NullOrDue(row.nextScanAt, at) && NullOrDue(row.scanLeaseExpiresAt, at)
    then Some(Bumped(row, at).(scanLeaseExpiresAt := Some(at + SCAN_LEASE_MS)))
    else None
  }

  /** Fenced by the version the worker last saw, and by the state. */
  function CommitIntent(row: Row, claimed: Row, at: Instant): Option<Row> {
    if row.version == claimed.version && row.state == Scanning
    then Some(row.(cleanCopyIntent := true, version := claimed.version + 1, updatedAt := Max(claimed.updatedAt, at)))
    else None
  }

  datatype Settlement =
    | Retry(from: Instant)
    | RejectWith(reason: Rejection, signature: Option<string>, endedAt: Instant)
    | FailWith(endedAt: Instant)
    | AcceptCopy(quarantineVersion: VersionId, cleanVersion: VersionId, sha256: Digest, fileType: FileType,
        cleanAt: Instant)

  function Pow2(n: nat): nat {
    if n == 0 then 1 else 2 * Pow2(n - 1)
  }

  function RetryDelayMs(attempts: nat): int {
    Min(RETRY_MAX_MS, RETRY_BASE_MS * Pow2(Min(Max(attempts, 1) - 1, 16)))
  }

  /**
   The delay starts at a minute and doubles with every attempt up to 30 minutes; the exponent's own
   cap never shows.
   */
  lemma RetryDelayDoubles(attempts: nat)
    ensures RetryDelayMs(0) == RetryDelayMs(1) == RETRY_BASE_MS
    ensures attempts > 0 ==> RetryDelayMs(attempts + 1) == Min(RETRY_MAX_MS, 2 * RetryDelayMs(attempts))
    ensures RETRY_BASE_MS <= RetryDelayMs(attempts) <= RETRY_MAX_MS
  {
    if attempts > 5 {
      Pow2AtLeast(Min(attempts - 1, 16));
      Pow2AtLeast(Min(attempts, 16));
    } else {
      assert Pow2(5) == 32 && Pow2(4) == 16 && Pow2(3) == 8 && Pow2(2) == 4;
    }
  }

  lemma {:induction false} Pow2AtLeast(n: nat)
    requires n >= 5
    ensures Pow2(n) >= 32
  {
    if n > 5 {
      Pow2AtLeast(n - 1);
    } else {
      assert Pow2(3) == 8;
    }
  }

  function SettledValues(row: Row, claimed: Row, s: Settlement): Row {
    match s
    case Retry(from) =>
      row.(scanAttempts := claimed.scanAttempts + 1, nextScanAt := Some(from + RetryDelayMs(claimed.scanAttempts + 1)))
    case RejectWith(reason, signature, endedAt) =>
      row.(state := Rejected, rejectionReason := Some(reason), malwareSignature := signature, nextScanAt := None,
          endedAt := Some(endedAt))
    case FailWith(endedAt) =>
      row.(state := ScanFailed, nextScanAt := None, endedAt := Some(endedAt))
    case AcceptCopy(q, c, sha256, t, cleanAt) =>
      row.(state := Clean, quarantineVersionId := Some(q), cleanVersionId := Some(c), sha256 := Some(sha256),
           detectedType := Some(t), cleanAt := Some(cleanAt), nextScanAt := None)
  }

  /** The fence of every settlement: it lands on the version its worker holds, or nowhere. */
  function Settle(row: Row, claimed: Row, s: Settlement, at: Instant): Option<Row> {
    if row.version == claimed.version
    then Some(SettledValues(row, claimed, s).(scanLeaseExpiresAt := None, version := claimed.version + 1,
                                              updatedAt := Max(claimed.updatedAt, at)))
    else None
  }

  function SettlementEvents(s: Settlement): seq<Outcome> {
    match s
    case Retry(_) => []
    case RejectWith(_, _, _) => [RejectedOutcome]
    case FailWith(_) => [ScanFailedOutcome]
    case AcceptCopy(_, _, _, _, _) => [CleanOutcome]
  }

  function MarkQuarantinePurged(row: Row, at: Instant): Option<Row> {
    if row.quarantinePurgedAt.None? then Some(Bumped(row, at).(quarantinePurgedAt := Some(at))) else None
  }

  // ----- the owner's commands

  function CompleteUpload(row: Row, at: Instant): Option<Row> {
    if row.state == AwaitingUpload && at < row.uploadExpiresAt
    then Some(Bumped(row, at).(state := Scanning, uploadedAt := Some(at),
        scanDeadlineAt := Some(at + SCAN_DEADLINE_MS)))
    else None
  }

  function Discard(row: Row, at: Instant): Option<Row> {
    if row.state in {AwaitingUpload, Scanning, Clean}
    then Some(Bumped(row, at).(state := Discarded, endedAt := Some(at), nextScanAt := None, scanLeaseExpiresAt := None))
    else None
  }

  /** The update the three attachment ports apply to a validated row. */
  function AttachTo(row: Row, order: OrderId, at: Instant): Option<Row> {
    if row.state == Clean && row.orderId.None?
    then Some(Bumped(row, at).(state := Attached, orderId := Some(order), attachedAt := Some(at)))
    else None
  }

  // ----- the maintenance sweep's statements

  /** The four bulk updates; `Matches` is re-applied by the update itself. */
  datatype Bulk = ExpireGrants | DiscardUnsent | FailOverdue | RecoverLeases

  predicate Matches(bulk: Bulk, row: Row, at: Instant) {
    match bulk
    case ExpireGrants => row.state == AwaitingUpload && row.uploadExpiresAt <= at
    case DiscardUnsent => row.state == Clean && Due(row.cleanAt, at - UNSENT_TTL_MS)
    case FailOverdue => row.state == Scanning && Due(row.scanDeadlineAt, at) && NullOrDue(row.scanLeaseExpiresAt, at)
    case RecoverLeases => row.state == Scanning && Due(row.scanLeaseExpiresAt, at)
  }

  function BulkUpdated(bulk: Bulk, row: Row, at: Instant): Row {
    match bulk
    case ExpireGrants => Bumped(row, at).(state := Expired, endedAt := Some(at))
    case DiscardUnsent => Bumped(row, at).(state := Discarded, endedAt := Some(at))
    case FailOverdue => Bumped(row, at).(state := ScanFailed, endedAt := Some(at), nextScanAt := None,
        scanLeaseExpiresAt := None)
    case RecoverLeases => Bumped(row, at).(scanLeaseExpiresAt := None, nextScanAt := Some(at),
        scanAttempts := row.scanAttempts + 1)
  }

  predicate PurgeCandidate(row: Row, at: Instant) {
    || (Terminal(row.state) && (row.quarantinePurgedAt.None? || row.cleanPurgedAt.None?))
    || (row.state in {Clean, Attached} && row.quarantinePurgedAt.None? && Due(row.cleanAt, at - PURGE_GRACE_MS))
  }

  predicate NeedsQuarantine(file: Row) {
    file.quarantinePurgedAt.None?
  }

  predicate NeedsClean(file: Row) {
    Terminal(file.state) && file.cleanPurgedAt.None?
  }

  predicate CanMarkClean(file: Row, at: Instant) {
    NeedsClean(file) && (!file.cleanCopyIntent || Due(file.endedAt, at - COPY_INTENT_CLOSURE_MS))
  }

  /** The mark after the deletes, computed from the earlier, unlocked read `file`. */
  function MarkPurged(row: Row, file: Row, at: Instant): Option<Row> {
    if && row.state == file.state
       && (NeedsQuarantine(file) ==> row.quarantinePurgedAt.None?)
       && (CanMarkClean(file, at) ==> row.cleanPurgedAt.None?)
    then
      var bumped := Bumped(row, at);
      Some(bumped.(quarantinePurgedAt := if NeedsQuarantine(file) then Some(at) else row.quarantinePurgedAt,
                   cleanPurgedAt := if CanMarkClean(file, at) then Some(at) else row.cleanPurgedAt))
    else None
  }

  function Retire(row: Row, at: Instant): Option<Row> {
    if row.state == Attached then Some(Bumped(row, at).(state := Deleted, endedAt := Some(at))) else None
  }

  // ----- what the database itself insists on

  /** The CHECK constraints of the table on the columns its statements write. */
  predicate RowChecks(row: Row) {
    && row.version > 0 && row.scanAttempts <= MAX_SCAN_ATTEMPTS
    && row.updatedAt >= row.createdAt
    && (row.state in {Attached, Deleted} <==> row.orderId.Some? && row.attachedAt.Some?)
    && (row.detectedType.Some? ==> row.detectedType.value in ContextTypes(row.context))
    && (row.state in {Clean, Attached, Deleted} ==>
       row.sha256.Some? && row.detectedType.Some? && row.cleanVersionId.Some? && row.cleanAt.Some?)
    && (row.state in {AwaitingUpload, Scanning} ==>
       row.sha256.None? && row.detectedType.None? && row.cleanVersionId.None? && row.cleanAt.None?)
    && (row.state == Rejected <==> row.rejectionReason.Some?)
    && (row.rejectionReason == Some(Malware) <==> row.malwareSignature.Some?)
    && (row.malwareSignature.Some? ==> SignatureText(row.malwareSignature.value))
    && (row.state in {AwaitingUpload, Expired} ==> row.uploadedAt.None?)
    && (row.state in {Scanning, Clean, Attached, Rejected, ScanFailed, Deleted} ==> row.uploadedAt.Some?)
    && (row.uploadedAt.None? <==> row.scanDeadlineAt.None?)
    && (row.uploadedAt.Some? ==>
       row.uploadedAt.value >= row.createdAt && row.scanDeadlineAt == Some(row.uploadedAt.value + SCAN_DEADLINE_MS))
    && row.uploadExpiresAt == row.createdAt + UPLOAD_GRANT_MS
    && (Terminal(row.state) <==> row.endedAt.Some?)
    && (row.scanLeaseExpiresAt.Some? ==> row.state == Scanning)
    && (row.nextScanAt.Some? ==> row.state == Scanning)
  }

  predicate AllowedTransition(before: FileState, after: FileState) {
    match before
    case AwaitingUpload => after in {Scanning, Expired, Discarded}
    case Scanning => after in {Scanning, Clean, Rejected, ScanFailed, Discarded}
    case Clean => after in {Clean, Attached, Discarded}
    case Attached => after in {Attached, Deleted}
    case _ => after == before
  }

  predicate WriteOnce<T(==)>(before: Option<T>, after: Option<T>) {
    before.Some? ==> after == before
  }

  /** The BEFORE UPDATE trigger: what it lets through. */
  predicate GuardAllows(before: Row, after: Row) {
    && after.context == before.context && after.declaredBytes == before.declaredBytes
    && after.createdAt == before.createdAt && after.uploadExpiresAt == before.uploadExpiresAt
    && after.version == before.version + 1
    && after.updatedAt >= before.updatedAt
    && (before.cleanCopyIntent ==> after.cleanCopyIntent)
    && (!before.cleanCopyIntent && after.cleanCopyIntent ==> after.state == Scanning && after.cleanPurgedAt.None?)
    && (after.cleanCopyIntent && before.cleanPurgedAt.None? && after.cleanPurgedAt.Some?
        ==> Terminal(after.state) && Due(after.endedAt, after.updatedAt - COPY_INTENT_CLOSURE_MS))
    && WriteOnce(before.orderId, after.orderId)
    && (before.sha256.Some? ==> after.sha256 == before.sha256 && after.detectedType == before.detectedType
                                && after.cleanVersionId == before.cleanVersionId && after.cleanAt == before.cleanAt)
    && WriteOnce(before.quarantinePurgedAt, after.quarantinePurgedAt)
    && WriteOnce(before.cleanPurgedAt, after.cleanPurgedAt)
    && AllowedTransition(before.state, after.state)
  }

  // ----- statements, and what the database does with them

  /** One SQL statement on a row, with the values its caller computed beforehand. */
  datatype Statement =
    | Finish(at: Instant)
    | EndFile(at: Instant)
    | BindTo(order: OrderId, at: Instant)
    | RetireRow(at: Instant)
    | BulkUpdate(bulk: Bulk, at: Instant)
    | TakeLease(at: Instant)
    | CommitCopy(claimed: Row, at: Instant)
    | SettleTo(claimed: Row, settlement: Settlement, at: Instant)
    | MarkQuarantine(at: Instant)
    | MarkPurge(file: Row, at: Instant)

  /** The row a statement would store; None when its condition matches no row. */
  function Written(row: Row, st: Statement): Option<Row> {
    match st
    case Finish(at) => CompleteUpload(row, at)
    case EndFile(at) => Discard(row, at)
    case BindTo(order, at) => AttachTo(row, order, at)
    case RetireRow(at) => Retire(row, at)
    case BulkUpdate(bulk, at) => if Matches(bulk, row, at) then Some(BulkUpdated(bulk, row, at)) else None
    case TakeLease(at) => ClaimScan(row, at)
    case CommitCopy(claimed, at) => CommitIntent(row, claimed, at)
    case SettleTo(claimed, settlement, at) => Settle(row, claimed, settlement, at)
    case MarkQuarantine(at) => MarkQuarantinePurged(row, at)
    case MarkPurge(file, at) => MarkPurged(row, file, at)
  }

  /** The trigger and the checks let the update through. */
  predicate Accepted(before: Row, after: Row) {
    GuardAllows(before, after) && RowChecks(after)
  }

  /** The row after a statement: a refused one raises an error and stores nothing. */
  function Executed(row: Row, st: Statement): Row {
    var after := Written(row, st);
    if after.Some? && Accepted(row, after.value) then after.value else row
  }

  predicate Refused(row: Row, st: Statement) {
    Written(row, st).Some? && !Accepted(row, Written(row, st).value)
  }

  // ----- what callers know when they issue a statement

  /** A row a worker holds: older than the table's row, or equal to it. */
  predicate Seen(row: Row, held: Row) {
    && held.version <= row.version
    && (held.version == row.version ==> held == row)
    && held.state == Scanning
    && held.context == row.context && held.declaredBytes == row.declaredBytes
    && (held.cleanCopyIntent ==> row.cleanCopyIntent)
  }

  /** A row a sweep read: terminal rows have not changed since in anything the sweep decides on. */
  predicate Reached(row: Row, file: Row) {
    && file.version <= row.version
    && Rank(file.state) <= Rank(row.state)
    && (Terminal(file.state) ==>
       row.state == file.state && row.cleanCopyIntent == file.cleanCopyIntent && row.endedAt == file.endedAt)
  }

  /** Every row of the table: the checks, and no purge of clean bytes before the end. */
  predicate RowOk(row: Row) {
    RowChecks(row) && (row.cleanPurgedAt.Some? ==> Terminal(row.state))
  }

  predicate SettlementFits(context: Context, s: Settlement) {
    match s
    case RejectWith(reason, signature, _) => RejectionFits(reason, signature)
    case AcceptCopy(_, _, _, fileType, _) => fileType in ContextTypes(context)
    case _ => true
  }

  predicate Fits(row: Row, st: Statement) {
    match st
    case CommitCopy(claimed, _) => Seen(row, claimed)
    case SettleTo(claimed, s, _) => Seen(row, claimed) && SettlementFits(claimed.context, s)
    case MarkQuarantine(_) => Rank(row.state) >= Rank(Clean)
    case MarkPurge(file, _) => Reached(row, file) && Rank(file.state) >= Rank(Clean)
    case _ => true
  }

  /** The statement would count an attempt beyond what the column's check allows. */
  predicate OneTooMany(row: Row, st: Statement) {
    && Written(row, st).Some? && row.scanAttempts == MAX_SCAN_ATTEMPTS
    && (|| (st.BulkUpdate? && st.bulk.RecoverLeases?)
        || (st.SettleTo? && st.settlement.Retry?))
  }

  /** The upload would be dated before the row's creation. */
  predicate BackDated(row: Row, st: Statement) {
    st.Finish? && CompleteUpload(row, st.at).Some? && st.at < row.createdAt
  }
}
