/**
 Attaching files to a brief, a message, a submission or a refund record. The three ports lock and
 validate every named row, then write each row and its attachment in a loop.
 */
module Attachment {
  import opened Common
  import opened FileSignature
  import opened FileRows

  datatype File = File(owner: string, packageId: Option<string>, uploadOrderId: Option<OrderId>, row: Row)

  datatype TargetKind = ToBrief | ToMessage | ToSubmission | ToRefundSend | ToLateClaim

  datatype Target = Target(kind: TargetKind, id: string)

  datatype Entry = Entry(orderId: OrderId, target: Target, position: nat, attachedAt: Instant)

  /** The two tables. Keying attachments by file is their primary key. */
  datatype Store = Store(files: map<FileId, File>, attachments: map<FileId, Entry>)

  datatype Port =
    | BriefPort(packageId: string)
    | ThreadPort(context: Context)
    | EvidencePort

  datatype Command = Command(port: Port, orderId: OrderId, owner: string, target: Target, ids: seq<FileId>, at: Instant)

  datatype Outcome = Done | Invalid | Aborted    // aborted: the index on target positions refused an insert

  function Limit(cmd: Command): nat {
    match cmd.port
    case BriefPort(_) => 10
    case ThreadPort(_) => if cmd.target.kind.ToMessage? then 10 else 20
    case EvidencePort => 3
  }

  /** The request by itself: the target suits the port, and the ids are few and distinct. */
  predicate WellFormed(cmd: Command) {
    && |cmd.ids| <= Limit(cmd)
    && (forall i, j :: 0 <= i < j < |cmd.ids| ==> cmd.ids[i] != cmd.ids[j])
    && match cmd.port
       case BriefPort(_) => cmd.target == Target(ToBrief, cmd.orderId)
       case ThreadPort(context) =>
         (cmd.target.kind.ToMessage? && context.Thread?) || (cmd.target.kind.ToSubmission? && context.Submission?)
       case EvidencePort => cmd.target.kind.ToRefundSend? || cmd.target.kind.ToLateClaim?
  }

  predicate Suits(context: Context, f: File, cmd: Command) {
    && f.uploadOrderId == Some(cmd.orderId) && f.row.context == context && f.row.declaredBytes <= MaxBytes(context)
    && f.row.detectedType.Some? && f.row.detectedType.value in ContextTypes(context)
  }

  predicate Attachable(f: File, cmd: Command) {
    && f.row.state.Clean? && f.row.orderId.None? && f.owner == cmd.owner
    && match cmd.port
       case BriefPort(packageId) => f.row.context.Brief? && f.packageId == Some(packageId)
       case ThreadPort(context) => Suits(context, f, cmd)
       case EvidencePort => Suits(ResolutionEvidence, f, cmd)
  }

  predicate Valid(files: map<FileId, File>, cmd: Command) {
    WellFormed(cmd) && forall i :: 0 <= i < |cmd.ids| ==> cmd.ids[i] in files && Attachable(files[cmd.ids[i]], cmd)
  }

  // ----- what an attachment does, all at once

  function AttachedFile(f: File, cmd: Command): File {
    var after := AttachTo(f.row, cmd.orderId, cmd.at);
    if after.Some? then f.(row := after.value) else f
  }

  function FilesAfter(files: map<FileId, File>, cmd: Command, ids: seq<FileId>): map<FileId, File> {
    map f | f in files :: if f in ids then AttachedFile(files[f], cmd) else files[f]
  }

  ghost function PositionOf(ids: seq<FileId>, f: FileId): (i: nat)
    requires f in ids
    ensures i < |ids| && ids[i] == f
  {
    var i :| 0 <= i < |ids| && ids[i] == f;
    i
  }

  ghost function AttachmentsAfter(attachments: map<FileId, Entry>, cmd: Command, ids: seq<FileId>): map<FileId, Entry> {
    map f | f in attachments.Keys + (set x | x in ids) ::
      if f in ids then Entry(cmd.orderId, cmd.target, PositionOf(ids, f), cmd.at) else attachments[f]
  }

  /** The target already has an attachment at one of the first `n` positions. */
  predicate PositionTaken(attachments: map<FileId, Entry>, target: Target, n: nat) {
    exists f :: f in attachments && attachments[f].target == target && attachments[f].position < n
  }

  ghost function Do(s: Store, cmd: Command): (Store, Outcome) {
    if !Valid(s.files, cmd) then (s, Invalid)
    else if PositionTaken(s.attachments, cmd.target, |cmd.ids|) then (s, Aborted)
    else (Store(FilesAfter(s.files, cmd, cmd.ids), AttachmentsAfter(s.attachments, cmd, cmd.ids)), Done)
  }

  // ----- the tables' own invariant

  /** Only attached or since deleted files have an attachment, and it names the order they are bound to. */
  ghost predicate BoundOk(files: map<FileId, File>, attachments: map<FileId, Entry>) {
    forall f :: f in attachments ==>
      f in files && (files[f].row.state == FileState.Attached || files[f].row.state == Deleted)
      && files[f].row.orderId == Some(attachments[f].orderId)
  }

  ghost predicate PositionsDiffer(attachments: map<FileId, Entry>) {
    forall f, g :: f in attachments && g in attachments && f != g && attachments[f].target == attachments[g].target
      ==> attachments[f].position != attachments[g].position
  }

  ghost predicate HasPosition(attachments: map<FileId, Entry>, target: Target, k: nat) {
    exists f :: f in attachments && attachments[f].target == target && attachments[f].position == k
  }

  /** The positions of a target have no gap below any of them. */
  ghost predicate Dense(attachments: map<FileId, Entry>) {
    forall f, k: nat :: f in attachments && k < attachments[f].position ==>
        HasPosition(attachments, attachments[f].target, k)
  }

  ghost predicate Inv(s: Store) {
    BoundOk(s.files, s.attachments) && PositionsDiffer(s.attachments) && Dense(s.attachments)
  }

  /** The update trigger lets every attached row through, and a row of an order is bound to its upload order. */
  lemma AttachIsGuarded(files: map<FileId, File>, cmd: Command, i: nat)
    requires Valid(files, cmd) && i < |cmd.ids|
    ensures var before := files[cmd.ids[i]];
            var after := AttachedFile(before, cmd);
            && GuardAllows(before.row, after.row)
            && (before.row.context != Brief ==> after.row.orderId == before.uploadOrderId)
  {
    assert Attachable(files[cmd.ids[i]], cmd);
  }

  // ----- the loop

  lemma FilesGrow(files: map<FileId, File>, cmd: Command, i: nat)
    requires Valid(files, cmd) && i < |cmd.ids|
    ensures var id := cmd.ids[i];
            var before := FilesAfter(files, cmd, cmd.ids[..i]);
            && id in before && before[id] == files[id]
            && before[id := AttachedFile(before[id], cmd)] == FilesAfter(files, cmd, cmd.ids[..i + 1])
  {
    var ids := cmd.ids;
    assert ids[..i + 1] == ids[..i] + [ids[i]];
    assert ids[i] !in ids[..i];
  }

  lemma AttachmentsGrow(attachments: map<FileId, Entry>, cmd: Command, i: nat)
    requires WellFormed(cmd) && i < |cmd.ids|
    ensures AttachmentsAfter(attachments, cmd, cmd.ids[..i])[cmd.ids[i] := Entry(cmd.orderId, cmd.target, i, cmd.at)]
            == AttachmentsAfter(attachments, cmd, cmd.ids[..i + 1])
  {
    var ids := cmd.ids;
    assert ids[..i + 1] == ids[..i] + [ids[i]];
    forall f | f in ids[..i] ensures PositionOf(ids[..i], f) == PositionOf(ids[..i + 1], f) {
      PositionKept(ids, i, f);
    }
    PositionOfLast(ids, i);
  }

  lemma PositionKept(ids: seq<FileId>, i: nat, f: FileId)
    requires (forall a, b :: 0 <= a < b < |ids| ==> ids[a] != ids[b]) && i < |ids| && f in ids[..i]
    ensures f in ids[..i + 1] && PositionOf(ids[..i], f) == PositionOf(ids[..i + 1], f)
  {
    assert ids[..i + 1][PositionOf(ids[..i], f)] == f;
    assert ids[PositionOf(ids[..i], f)] == f && ids[PositionOf(ids[..i + 1], f)] == f;
  }

  lemma PositionOfLast(ids: seq<FileId>, i: nat)
    requires (forall a, b :: 0 <= a < b < |ids| ==> ids[a] != ids[b]) && i < |ids|
    ensures ids[i] in ids[..i + 1] && PositionOf(ids[..i + 1], ids[i]) == i
  {
    assert ids[..i + 1][i] == ids[i];
    assert ids[PositionOf(ids[..i + 1], ids[i])] == ids[i];
  }

  /** The positions already written by the loop do not collide with the next one. */
  lemma NextPositionIsFree(attachments: map<FileId, Entry>, cmd: Command, i: nat)
    requires WellFormed(cmd) && i < |cmd.ids| && !PositionTaken(attachments, cmd.target, i)
    requires forall j :: 0 <= j < |cmd.ids| ==> cmd.ids[j] !in attachments
    ensures HasPosition(AttachmentsAfter(attachments, cmd, cmd.ids[..i]), cmd.target, i)
            <==> PositionTaken(attachments, cmd.target, i + 1)
  {
    var now := AttachmentsAfter(attachments, cmd, cmd.ids[..i]);
    assert forall f :: f in attachments ==> f !in cmd.ids[..i] && f in now && now[f] == attachments[f];
  }

  class FileStore {
    var files: map<FileId, File>
    var attachments: map<FileId, Entry>

    ghost function Value(): Store
      reads this
    {
      Store(files, attachments)
    }

    constructor (files: map<FileId, File>)
      ensures Value() == Store(files, map[])
    {
      this.files, attachments := files, map[];
    }

    /**
     All or nothing. The check of a row's version inside the loop cannot fail, because the rows are
     locked and distinct; the one refusal that can come half way, from the index on positions,
     rolls everything back.
     */
    method Attach(cmd: Command) returns (outcome: Outcome)
      requires Inv(Value())
      modifies this
      ensures (Value(), outcome) == Do(old(Value()), cmd)
    {
      if !Valid(files, cmd) { return Invalid; }
      var locked, attachmentsBefore := files, attachments;
      var i := 0;
      assert files == FilesAfter(locked, cmd, cmd.ids[..0]);
      assert attachments == AttachmentsAfter(attachmentsBefore, cmd, cmd.ids[..0]);
      while i < |cmd.ids|
        invariant i <= |cmd.ids|
        invariant files == FilesAfter(locked, cmd, cmd.ids[..i])
        invariant attachments == AttachmentsAfter(attachmentsBefore, cmd, cmd.ids[..i])
        invariant !PositionTaken(attachmentsBefore, cmd.target, i)
      {
        var id := cmd.ids[i];
        FilesGrow(locked, cmd, i);
        AttachmentsGrow(attachmentsBefore, cmd, i);
        NextPositionIsFree(attachmentsBefore, cmd, i);
        if files[id].row.version == locked[id].row.version {
          files := files[id := AttachedFile(files[id], cmd)];
          if exists f :: f in attachments && attachments[f].target == cmd.target && attachments[f].position == i {
            assert PositionTaken(attachmentsBefore, cmd.target, |cmd.ids|);
            files, attachments := locked, attachmentsBefore;
            return Aborted;
          }
          attachments := attachments[id := Entry(cmd.orderId, cmd.target, i, cmd.at)];
        } else {
          assert false;
        }
        i := i + 1;
      }
      assert cmd.ids[..i] == cmd.ids;
      outcome := Done;
    }
  }

  // ----- over every run

  /** Steps on the tables: attachments, and any other update of a row that its trigger lets through. */
  datatype Step =
    | AttachStep(cmd: Command)
    | RowStep(id: FileId, after: Row)

  predicate OtherUpdate(before: Row, after: Row) {
    GuardAllows(before, after) && (after.state == FileState.Attached ==> before.state == FileState.Attached)
  }

  ghost function Apply(s: Store, step: Step): Store {
    match step
    case AttachStep(cmd) => Do(s, cmd).0
    case RowStep(id, after) =>
      if id in s.files && OtherUpdate(s.files[id].row, after)
          then s.(files := s.files[id := s.files[id].(row := after)]) else s
  }

  ghost function Run(s: Store, steps: seq<Step>): Store {
    if steps == [] then s else Apply(Run(s, steps[..|steps| - 1]), steps[|steps| - 1])
  }

  lemma NamedFilesAreFree(s: Store, cmd: Command)
    requires BoundOk(s.files, s.attachments) && Valid(s.files, cmd)
    ensures forall i :: 0 <= i < |cmd.ids| ==> cmd.ids[i] !in s.attachments
  {
  }

  /** What an accepted attachment adds: one entry for each id at its own position, and nothing else. */
  lemma AddsExactly(s: Store, cmd: Command)
    requires BoundOk(s.files, s.attachments) && Do(s, cmd).1 == Done
    ensures var after := Do(s, cmd).0.attachments;
            && after.Keys == s.attachments.Keys + (set x | x in cmd.ids)
            && (forall f :: f in s.attachments ==> after[f] == s.attachments[f])
            && (forall i :: 0 <= i < |cmd.ids| ==>
               cmd.ids[i] in after && after[cmd.ids[i]] == Entry(cmd.orderId, cmd.target, i, cmd.at))
  {
    NamedFilesAreFree(s, cmd);
    forall i | 0 <= i < |cmd.ids| ensures PositionOf(cmd.ids, cmd.ids[i]) == i {
    }
  }

  /** What the added entries look like from the other side. */
  lemma EntryIsOldOrNew(s: Store, cmd: Command, f: FileId)
    requires BoundOk(s.files, s.attachments) && Do(s, cmd).1 == Done && f in Do(s, cmd).0.attachments
    ensures var after := Do(s, cmd).0.attachments;
            || (f in s.attachments && after[f] == s.attachments[f])
            || (exists i ::
                  0 <= i < |cmd.ids| && cmd.ids[i] == f && after[f] == Entry(cmd.orderId, cmd.target, i, cmd.at))
  {
    AddsExactly(s, cmd);
    if f !in s.attachments {
      assert cmd.ids[PositionOf(cmd.ids, f)] == f;
    }
  }

  /** A target that has any attachment has its first position taken. */
  lemma FirstIsTaken(attachments: map<FileId, Entry>, f: FileId, n: nat)
    requires Dense(attachments) && f in attachments && n > 0
    ensures PositionTaken(attachments, attachments[f].target, n)
  {
    if attachments[f].position > 0 {
      assert HasPosition(attachments, attachments[f].target, 0);
    }
  }

  /** So a target takes attachments once. */
  lemma TargetWasEmpty(s: Store, cmd: Command)
    requires Inv(s) && Do(s, cmd).1 == Done && cmd.ids != []
    ensures forall f :: f in s.attachments ==> s.attachments[f].target != cmd.target
  {
    forall f | f in s.attachments ensures s.attachments[f].target != cmd.target {
      FirstIsTaken(s.attachments, f, |cmd.ids|);
    }
  }

  lemma {:induction false} AttachKeepsPositions(s: Store, cmd: Command)
    requires Inv(s) && Do(s, cmd).1 == Done && cmd.ids != []
    ensures PositionsDiffer(Do(s, cmd).0.attachments) && Dense(Do(s, cmd).0.attachments)
  {
    var after := Do(s, cmd).0.attachments;
    AddsExactly(s, cmd);
    TargetWasEmpty(s, cmd);
    forall f, g | f in after && g in after && f != g && after[f].target == after[g].target
      ensures after[f].position != after[g].position
    {
      EntryIsOldOrNew(s, cmd, f);
      EntryIsOldOrNew(s, cmd, g);
    }
    forall f, k: nat | f in after && k < after[f].position ensures HasPosition(after, after[f].target, k) {
      EntryIsOldOrNew(s, cmd, f);
      if f in s.attachments {
        assert HasPosition(s.attachments, s.attachments[f].target, k);
      } else {
        assert cmd.ids[k] in after;
      }
    }
  }

  lemma {:induction false} AttachKeepsBound(s: Store, cmd: Command)
    requires Inv(s) && Do(s, cmd).1 == Done
    ensures BoundOk(Do(s, cmd).0.files, Do(s, cmd).0.attachments)
  {
    NamedFilesAreFree(s, cmd);
    AddsExactly(s, cmd);
  }

  lemma {:induction false} StepKeepsInv(s: Store, step: Step)
    requires Inv(s)
    ensures Inv(Apply(s, step))
    ensures forall f :: f in s.attachments ==>
            f in Apply(s, step).attachments && Apply(s, step).attachments[f] == s.attachments[f]
  {
    if step.AttachStep? && Do(s, step.cmd).1 == Done {
      AddsExactly(s, step.cmd);
      AttachKeepsBound(s, step.cmd);
      if step.cmd.ids == [] {
        assert Do(s, step.cmd).0.attachments == s.attachments;
      } else {
        AttachKeepsPositions(s, step.cmd);
      }
    }
  }

  lemma {:induction false} RunKeepsInv(s: Store, steps: seq<Step>)
    requires Inv(s)
    ensures Inv(Run(s, steps))
    ensures forall f :: f in s.attachments ==>
            f in Run(s, steps).attachments && Run(s, steps).attachments[f] == s.attachments[f]
  {
    if steps != [] {
      RunKeepsInv(s, steps[..|steps| - 1]);
      StepKeepsInv(Run(s, steps[..|steps| - 1]), steps[|steps| - 1]);
    }
  }

  /**
   A file is attached at most once in its life: after an attachment that names it, and whatever
   happens next, every later attachment that names it is refused and its entry is unchanged.
   */
  lemma {:induction false} AttachedOnce(s: Store, cmd: Command, later: seq<Step>, again: Command, f: FileId)
    requires Inv(s) && Do(s, cmd).1 == Done && f in cmd.ids && f in again.ids
    ensures var s2 := Run(Do(s, cmd).0, later);
            && f in s2.attachments && s2.attachments[f] == Do(s, cmd).0.attachments[f]
            && Do(s2, again) == (s2, Invalid)
  {
    StepKeepsInv(s, AttachStep(cmd));
    AddsExactly(s, cmd);
    RunKeepsInv(Do(s, cmd).0, later);
    var s2 := Run(Do(s, cmd).0, later);
    assert again.ids[PositionOf(again.ids, f)] == f;
    assert BoundOk(s2.files, s2.attachments);
  }

  /** The positions of a target, over any run from empty tables: exactly 0..n-1 for one n, each once. */
  lemma {:induction false} PositionsAreExact(files: map<FileId, File>, steps: seq<Step>, target: Target, k: nat)
    ensures var attachments := Run(Store(files, map[]), steps).attachments;
            && PositionsDiffer(attachments)
            && (HasPosition(attachments, target, k) ==> forall j: nat :: j < k ==> HasPosition(attachments, target, j))
  {
    RunKeepsInv(Store(files, map[]), steps);
  }

  // ----- whose files, and where they end up

  /** The context that a kind of target takes its files from. */
  function ContextOf(kind: TargetKind): Context {
    match kind
    case ToBrief => Brief
    case ToMessage => Thread
    case ToSubmission => Submission
    case ToRefundSend => ResolutionEvidence
    case ToLateClaim => ResolutionEvidence
  }

  /** How many files a target takes. */
  function MostFiles(kind: TargetKind): nat {
    match kind
    case ToBrief => 10
    case ToMessage => 10
    case ToSubmission => 20
    case ToRefundSend => 3
    case ToLateClaim => 3
  }

  /** The file is the owner's, was uploaded for this target's context, and for this order or package. */
  predicate Belongs(f: File, cmd: Command) {
    && f.owner == cmd.owner && f.row.context == ContextOf(cmd.target.kind)
    && if cmd.port.BriefPort? then f.packageId == Some(cmd.port.packageId) else f.uploadOrderId == Some(cmd.orderId)
  }

  /**
   An accepted attachment names only clean, unbound files of its owner that belong to the order or
   package and to the target's context, no more of them than the target takes; each is afterwards
   attached to the order since the command's time, with its version raised by one.
   */
  lemma AttachesOnlyOwnFiles(s: Store, cmd: Command, i: nat)
    requires Do(s, cmd).1 == Done && i < |cmd.ids|
    ensures |cmd.ids| <= MostFiles(cmd.target.kind) && cmd.ids[i] in s.files
    ensures var before := s.files[cmd.ids[i]];
            var after := Do(s, cmd).0.files[cmd.ids[i]];
            && Belongs(before, cmd) && before.row.state == Clean && before.row.orderId.None?
            && after.owner == before.owner && after.row.state == FileState.Attached
            && after.row.orderId == Some(cmd.orderId) && after.row.attachedAt == Some(cmd.at)
            && after.row.version == before.row.version + 1
  {
    assert Attachable(s.files[cmd.ids[i]], cmd);
  }

  /** The port serves this kind of target, in the right context. */
  predicate Serves(port: Port, target: Target, orderId: OrderId) {
    match target.kind
    case ToBrief => port.BriefPort? && target.id == orderId
    case ToMessage => port == ThreadPort(Thread)
    case ToSubmission => port == ThreadPort(Submission)
    case ToRefundSend => port == EvidencePort
    case ToLateClaim => port == EvidencePort
  }

  /** Briefs take what was found clean; other targets look at size and type again. */
  predicate Presentable(f: File, kind: TargetKind) {
    kind == ToBrief
    || (f.row.declaredBytes <= MaxBytes(ContextOf(kind)) && f.row.detectedType.Some?
        && f.row.detectedType.value in ContextTypes(ContextOf(kind)))
  }

  /**
   And it is accepted whenever that is so: the ids are distinct and no more than the target takes, every one
   names a clean, unbound, presentable file that belongs, and the target has no attachment yet.
   */
  lemma AttachedExactly(s: Store, cmd: Command)
    requires Inv(s)
    ensures Do(s, cmd).1 == Done <==>
              && Serves(cmd.port, cmd.target, cmd.orderId) && |cmd.ids| <= MostFiles(cmd.target.kind)
              && (forall i, j :: 0 <= i < j < |cmd.ids| ==> cmd.ids[i] != cmd.ids[j])
              && (forall i :: 0 <= i < |cmd.ids| ==>
                    && cmd.ids[i] in s.files && Belongs(s.files[cmd.ids[i]], cmd)
                    && s.files[cmd.ids[i]].row.state == Clean && s.files[cmd.ids[i]].row.orderId.None?
                    && Presentable(s.files[cmd.ids[i]], cmd.target.kind))
              && (cmd.ids == [] || forall f :: f in s.attachments ==> s.attachments[f].target != cmd.target)
  {
    assert WellFormed(cmd) ==> Serves(cmd.port, cmd.target, cmd.orderId) && |cmd.ids| <= MostFiles(cmd.target.kind);
    if cmd.ids != [] && !PositionTaken(s.attachments, cmd.target, |cmd.ids|) {
      assert !HasPosition(s.attachments, cmd.target, 0);
    }
    forall i | 0 <= i < |cmd.ids| && WellFormed(cmd) && cmd.ids[i] in s.files
      ensures Attachable(s.files[cmd.ids[i]], cmd) <==>
                && Belongs(s.files[cmd.ids[i]], cmd) && Presentable(s.files[cmd.ids[i]], cmd.target.kind)
                && s.files[cmd.ids[i]].row.state == Clean && s.files[cmd.ids[i]].row.orderId.None?
    {
    }
  }

  /** The command that made an entry. */
  predicate Made(cmd: Command, entry: Entry, f: FileId, file: File) {
    && entry.position < |cmd.ids| <= MostFiles(cmd.target.kind) && cmd.ids[entry.position] == f
    && entry == Entry(cmd.orderId, cmd.target, entry.position, cmd.at)
    && Belongs(file, cmd)
  }

  ghost predicate MadeBy(steps: seq<Step>, entry: Entry, f: FileId, file: File) {
    exists i :: 0 <= i < |steps| && steps[i].AttachStep? && Made(steps[i].cmd, entry, f, file)
  }

  lemma {:induction false} MadeEarlier(steps: seq<Step>, last: Step, entry: Entry, f: FileId, file: File, file': File)
    requires MadeBy(steps, entry, f, file)
    requires file'.owner == file.owner && file'.packageId == file.packageId
             && file'.uploadOrderId == file.uploadOrderId && file'.row.context == file.row.context
    ensures MadeBy(steps + [last], entry, f, file')
  {
    var i :| 0 <= i < |steps| && steps[i].AttachStep? && Made(steps[i].cmd, entry, f, file);
    assert (steps + [last])[i] == steps[i];
  }

  /** A step changes nothing of a file but its row, and of the row not the context. */
  lemma {:induction false} FilesStay(s: Store, step: Step, f: FileId)
    requires f in s.files
    ensures f in Apply(s, step).files
    ensures var a, b := s.files[f], Apply(s, step).files[f];
            b.owner == a.owner && b.packageId == a.packageId && b.uploadOrderId == a.uploadOrderId
            && b.row.context == a.row.context
  {
  }

  /**
   Over any run from empty tables: every attachment was made by a command that named the file at
   that position, for its order, its target and its time, on behalf of the file's own owner.
   */
  lemma {:induction false} EveryAttachmentIsOwned(files: map<FileId, File>, steps: seq<Step>, f: FileId)
    requires f in Run(Store(files, map[]), steps).attachments
    ensures var s := Run(Store(files, map[]), steps); f in s.files && MadeBy(steps, s.attachments[f], f, s.files[f])
  {
    if steps != [] {
      var n := |steps| - 1;
      var before := Run(Store(files, map[]), steps[..n]);
      var s := Run(Store(files, map[]), steps);
      RunKeepsInv(Store(files, map[]), steps[..n]);
      StepKeepsInv(before, steps[n]);
      assert steps == steps[..n] + [steps[n]];
      if f in before.attachments {
        EveryAttachmentIsOwned(files, steps[..n], f);
        FilesStay(before, steps[n], f);
        MadeEarlier(steps[..n], steps[n], before.attachments[f], f, before.files[f], s.files[f]);
      } else {
        EntryIsOldOrNew(before, steps[n].cmd, f);
        var i := s.attachments[f].position;
        AttachesOnlyOwnFiles(before, steps[n].cmd, i);
        FilesStay(before, steps[n], f);
        assert Made(steps[n].cmd, s.attachments[f], f, s.files[f]);
      }
    }
  }
}
