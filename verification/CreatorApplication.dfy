/**
 A creator application and its review. The applicant saves, submits and withdraws; owners take a
 review claim that expires, and decide. Each accepted command is one transaction on the locked
 application row, fenced by the version the caller expects.
 */
module CreatorApplication {
  import opened Common

  type OwnerId = string
  type RevisionId = string

  /** The answers of a draft, by field. */
  type Content = map<string, string>

  /** A review claim lasts 15 minutes. */
  const CLAIM_LEASE_MS: int := 900_000

  datatype State = Draft | Submitted | UnderReview | ChangesRequested | Approved | Rejected | Withdrawn

  datatype Revision = Revision(id: RevisionId, number: nat, content: Content, submittedAt: Option<Instant>)

  datatype ReviewClaim = ReviewClaim(owner: OwnerId, claimedAt: Instant, expiresAt: Instant)

  /** The application row and its revisions, in the order they were inserted. */
  datatype Application = Application(
    state: State, version: nat, current: RevisionId, claim: Option<ReviewClaim>, revisions: seq<Revision>)

  datatype Action = RequestChanges | Approve | Reject | Reopen

  datatype Code =
    | StaleVersion | InvalidState | MissingRevision | NotEligible | ClaimUnavailable | ClaimExpired | IdTaken

  /** A command with what its caller and its ports supplied; `newId` is the id a new revision would get. */
  datatype Command =
    | Save(expectedVersion: int, changes: Content, newId: RevisionId)
    | Submit(expectedVersion: int, content: Option<Content>, newId: RevisionId, at: Instant)
    | Withdraw(expectedVersion: int)
    | Claim(expectedVersion: int, owner: OwnerId, at: Instant)
    | Decide(expectedVersion: int, revisionId: RevisionId, owner: OwnerId, action: Action, authorized: bool,
        at: Instant)

  datatype Outcome = Accepted(application: Application) | Refused(code: Code)

  // ----- revisions

  /** The row with this id, by position. */
  function Find(revisions: seq<Revision>, id: RevisionId): (r: Option<nat>)
    ensures r.Some? ==> r.value < |revisions| && revisions[r.value].id == id
    ensures r.None? ==> forall i :: 0 <= i < |revisions| ==> revisions[i].id != id
  {
    if revisions == [] then None
    else if revisions[|revisions| - 1].id == id then Some(|revisions| - 1)
    else Find(revisions[..|revisions| - 1], id)
  }

  predicate Editable(state: State) { state.Draft? || state.ChangesRequested? }

  /** A revision that was submitted and sent back is left alone: the next edit starts a new one. */
  predicate NeedsNewRevision(a: Application, r: Revision) { a.state.ChangesRequested? && r.submittedAt.Some? }

  /** A save on an application that is no longer editable does not touch it: it starts another one. */
  function DoSave(a: Application, cmd: Command): Outcome
    requires cmd.Save?
  {
    var found := Find(a.revisions, a.current);
    if !Editable(a.state) then Refused(InvalidState)
    else if a.version != cmd.expectedVersion then Refused(StaleVersion)
    else if found.None? then Refused(MissingRevision)
    else
      var r := a.revisions[found.value];
      var merged := r.content + cmd.changes;
      if !NeedsNewRevision(a, r) then
        Accepted(a.(version := a.version + 1, revisions := a.revisions[found.value := r.(content := merged)]))
      else if Find(a.revisions, cmd.newId).Some? then Refused(IdTaken)
      else
        Accepted(a.(version := a.version + 1, current := cmd.newId,
                    revisions := a.revisions + [Revision(cmd.newId, r.number + 1, merged, None)]))
  }

  function DoSubmit(a: Application, cmd: Command): Outcome
    requires cmd.Submit?
  {
    var found := Find(a.revisions, a.current);
    if !Editable(a.state) || a.version != cmd.expectedVersion then Refused(InvalidState)
    else if cmd.content.None? then Refused(NotEligible)
    else if found.None? then Refused(MissingRevision)
    else
      var r := a.revisions[found.value];
      if NeedsNewRevision(a, r) then
        if Find(a.revisions, cmd.newId).Some? then Refused(IdTaken)
        else Accepted(a.(state := Submitted, version := a.version + 1, current := cmd.newId,
                         revisions := a.revisions
                             + [Revision(cmd.newId, r.number + 1, cmd.content.value, Some(cmd.at))]))
      else if r.submittedAt.Some? then Refused(InvalidState)
      else Accepted(a.(state := Submitted, version := a.version + 1,
                       revisions := a.revisions[found.value :=
                           r.(content := cmd.content.value, submittedAt := Some(cmd.at))]))
  }

  function DoWithdraw(a: Application, cmd: Command): Outcome
    requires cmd.Withdraw?
  {
    if !(Editable(a.state) || a.state.Submitted? || a.state.UnderReview?)
        || a.version != cmd.expectedVersion then Refused(InvalidState)
    else Accepted(a.(state := Withdrawn, claim := None, version := a.version + 1))
  }

  predicate Claimable(a: Application, at: Instant) {
    a.state.Submitted? || (a.state.UnderReview? && a.claim.Some? && a.claim.value.expiresAt <= at)
  }

  function DoClaim(a: Application, cmd: Command): Outcome
    requires cmd.Claim?
  {
    if a.version != cmd.expectedVersion then Refused(StaleVersion)
    else if !Claimable(a, cmd.at) then Refused(ClaimUnavailable)
    else Accepted(a.(state := UnderReview, claim := Some(ReviewClaim(cmd.owner, cmd.at, cmd.at + CLAIM_LEASE_MS)),
        version := a.version + 1))
  }

  predicate HoldsClaim(a: Application, owner: OwnerId, at: Instant) {
    a.claim.Some? && a.claim.value.owner == owner && a.claim.value.expiresAt > at
  }

  function StateAfterDecision(action: Action): State {
    match action
    case RequestChanges => ChangesRequested
    case Approve => Approved
    case Reject => Rejected
    case Reopen => ChangesRequested
  }

  function DoDecide(a: Application, cmd: Command): Outcome
    requires cmd.Decide?
  {
    if a.version != cmd.expectedVersion || a.current != cmd.revisionId then Refused(StaleVersion)
    else if a.state != (if cmd.action.Reopen? then Rejected else UnderReview) then Refused(InvalidState)
    else if !cmd.action.Reopen? && !HoldsClaim(a, cmd.owner, cmd.at) then Refused(ClaimExpired)
    else if !cmd.authorized then Refused(NotEligible)
    else Accepted(a.(state := StateAfterDecision(cmd.action), claim := None, version := a.version + 1))
  }

  function Apply(a: Application, cmd: Command): Outcome {
    match cmd
    case Save(_, _, _) => DoSave(a, cmd)
    case Submit(_, _, _, _) => DoSubmit(a, cmd)
    case Withdraw(_) => DoWithdraw(a, cmd)
    case Claim(_, _, _) => DoClaim(a, cmd)
    case Decide(_, _, _, _, _, _) => DoDecide(a, cmd)
  }

  /** The first save of an applicant. */
  function Created(id: RevisionId, content: Content): Application {
    Application(Draft, 1, id, None, [Revision(id, 1, content, None)])
  }

  class ApplicationRow {
    var state: State
    var version: nat
    var current: RevisionId
    var claim: Option<ReviewClaim>
    var revisions: seq<Revision>

    function Value(): Application
      reads this
    {
      Application(state, version, current, claim, revisions)
    }

    constructor (id: RevisionId, content: Content)
      ensures Value() == Created(id, content)
    {
      state, version, current, claim := Draft, 1, id, None;
      revisions := [Revision(id, 1, content, None)];
    }

    method SaveDraft(cmd: Command) returns (outcome: Outcome)
      requires cmd.Save?
      modifies this
      ensures outcome == DoSave(old(Value()), cmd)
      ensures Value() == if outcome.Accepted? then outcome.application else old(Value())
    {
      if !Editable(state) { return Refused(InvalidState); }
      if version != cmd.expectedVersion { return Refused(StaleVersion); }
      var found := Find(revisions, current);
      if found.None? { return Refused(MissingRevision); }
      var r := revisions[found.value];
      if NeedsNewRevision(Value(), r) {
        if Find(revisions, cmd.newId).Some? { return Refused(IdTaken); }
        revisions := revisions + [Revision(cmd.newId, r.number + 1, r.content + cmd.changes, None)];
        current := cmd.newId;
      } else {
        revisions := revisions[found.value := r.(content := r.content + cmd.changes)];
      }
      version := version + 1;
      outcome := Accepted(Value());
    }

    method SubmitDraft(cmd: Command) returns (outcome: Outcome)
      requires cmd.Submit?
      modifies this
      ensures outcome == DoSubmit(old(Value()), cmd)
      ensures Value() == if outcome.Accepted? then outcome.application else old(Value())
    {
      if !Editable(state) || version != cmd.expectedVersion { return Refused(InvalidState); }
      if cmd.content.None? { return Refused(NotEligible); }
      var found := Find(revisions, current);
      if found.None? { return Refused(MissingRevision); }
      var r := revisions[found.value];
      if NeedsNewRevision(Value(), r) {
        if Find(revisions, cmd.newId).Some? { return Refused(IdTaken); }
        revisions := revisions + [Revision(cmd.newId, r.number + 1, cmd.content.value, Some(cmd.at))];
        current := cmd.newId;
      } else {
        if r.submittedAt.Some? { return Refused(InvalidState); }
        revisions := revisions[found.value := r.(content := cmd.content.value, submittedAt := Some(cmd.at))];
      }
      state := Submitted;
      version := version + 1;
      outcome := Accepted(Value());
    }

    method WithdrawApplication(cmd: Command) returns (outcome: Outcome)
      requires cmd.Withdraw?
      modifies this
      ensures outcome == DoWithdraw(old(Value()), cmd)
      ensures Value() == if outcome.Accepted? then outcome.application else old(Value())
    {
      if !(Editable(state) || state.Submitted? || state.UnderReview?)
          || version != cmd.expectedVersion { return Refused(InvalidState); }
      state, claim, version := Withdrawn, None, version + 1;
      outcome := Accepted(Value());
    }

    method ClaimReview(cmd: Command) returns (outcome: Outcome)
      requires cmd.Claim?
      modifies this
      ensures outcome == DoClaim(old(Value()), cmd)
      ensures Value() == if outcome.Accepted? then outcome.application else old(Value())
    {
      if version != cmd.expectedVersion { return Refused(StaleVersion); }
      if !Claimable(Value(), cmd.at) { return Refused(ClaimUnavailable); }
      state, version := UnderReview, version + 1;
      claim := Some(ReviewClaim(cmd.owner, cmd.at, cmd.at + CLAIM_LEASE_MS));
      outcome := Accepted(Value());
    }

    method DecideReview(cmd: Command) returns (outcome: Outcome)
      requires cmd.Decide?
      modifies this
      ensures outcome == DoDecide(old(Value()), cmd)
      ensures Value() == if outcome.Accepted? then outcome.application else old(Value())
    {
      if version != cmd.expectedVersion || current != cmd.revisionId { return Refused(StaleVersion); }
      var expected := if cmd.action.Reopen? then Rejected else UnderReview;
      if state != expected { return Refused(InvalidState); }
      if !cmd.action.Reopen? && !HoldsClaim(Value(), cmd.owner, cmd.at) { return Refused(ClaimExpired); }
      if !cmd.authorized { return Refused(NotEligible); }
      state, claim, version := StateAfterDecision(cmd.action), None, version + 1;
      outcome := Accepted(Value());
    }
  }

  // ----- revisions over every run

  /** Revisions are numbered 1..n with the last one current, and only that one may be unsubmitted. */
  ghost predicate RevisionsOk(current: RevisionId, revisions: seq<Revision>) {
    && |revisions| > 0
    && (forall i :: 0 <= i < |revisions| ==> revisions[i].number == i + 1)
    && (forall i, j :: 0 <= i < j < |revisions| ==> revisions[i].id != revisions[j].id)
    && revisions[|revisions| - 1].id == current
    && (forall i :: 0 <= i < |revisions| - 1 ==> revisions[i].submittedAt.Some?)
  }

  function Last(revisions: seq<Revision>): Revision
    requires |revisions| > 0
  {
    revisions[|revisions| - 1]
  }

  predicate StateOk(state: State, last: Revision, claim: Option<ReviewClaim>) {
    && (state.Draft? ==> last.submittedAt.None?)
    && (state.Submitted? || state.UnderReview? || state.Approved? || state.Rejected? ==> last.submittedAt.Some?)
    && (state.UnderReview? <==> claim.Some?)
    && (claim.Some? ==> claim.value.expiresAt == claim.value.claimedAt + CLAIM_LEASE_MS)
  }

  ghost predicate Inv(a: Application) {
    RevisionsOk(a.current, a.revisions) && StateOk(a.state, Last(a.revisions), a.claim)
  }

  lemma CurrentIsLast(a: Application)
    requires RevisionsOk(a.current, a.revisions)
    ensures Find(a.revisions, a.current) == Some(|a.revisions| - 1)
  {
  }

  /** What was submitted stays as it was submitted, in its place. */
  ghost predicate SubmittedKept(before: seq<Revision>, after: seq<Revision>) {
    && |before| <= |after|
    && forall i :: 0 <= i < |before| && before[i].submittedAt.Some? ==> after[i] == before[i]
  }

  lemma {:induction false} EditKeeps(a: Application, cmd: Command)
    requires Inv(a) && (cmd.Save? || cmd.Submit?)
    ensures Apply(a, cmd).Accepted? ==>
              Inv(Apply(a, cmd).application) && SubmittedKept(a.revisions, Apply(a, cmd).application.revisions)
    ensures Apply(a, cmd).Refused? ==> !Apply(a, cmd).code.MissingRevision?
  {
    CurrentIsLast(a);
  }

  lemma {:induction false} CommandKeeps(a: Application, cmd: Command)
    requires Inv(a)
    ensures Apply(a, cmd).Accepted? ==>
              var b := Apply(a, cmd).application;
              Inv(b) && SubmittedKept(a.revisions, b.revisions) && b.version == a.version + 1
    ensures Apply(a, cmd).Refused? ==> !Apply(a, cmd).code.MissingRevision?
  {
    if cmd.Save? || cmd.Submit? {
      EditKeeps(a, cmd);
    }
  }

  // ----- the history of accepted commands

  datatype Event =
    | WasSaved
    | WasSubmitted
    | WasWithdrawn
    | WasClaimed(owner: OwnerId, at: Instant)
    | WasDecided(owner: OwnerId, action: Action, at: Instant)

  function EventOf(cmd: Command): Event {
    match cmd
    case Save(_, _, _) => WasSaved
    case Submit(_, _, _, _) => WasSubmitted
    case Withdraw(_) => WasWithdrawn
    case Claim(_, owner, at) => WasClaimed(owner, at)
    case Decide(_, _, owner, action, _, at) => WasDecided(owner, action, at)
  }

  predicate ReturnsToApplicant(e: Event) { e.WasDecided? && (e.action.RequestChanges? || e.action.Reopen?) }

  /** Which event may come right after which: the review protocol, with no mention of the row. */
  predicate Follows(prev: Event, next: Event) {
    match next
    case WasSaved => prev.WasSaved? || ReturnsToApplicant(prev)
    case WasSubmitted => prev.WasSaved? || ReturnsToApplicant(prev)
    case WasWithdrawn => prev.WasSaved? || prev.WasSubmitted? || prev.WasClaimed? || ReturnsToApplicant(prev)
    case WasClaimed(_, at) => prev.WasSubmitted? || (prev.WasClaimed? && at >= prev.at + CLAIM_LEASE_MS)
    case WasDecided(owner, action, at) =>
      if action.Reopen? then prev.WasDecided? && prev.action.Reject?
      else prev.WasClaimed? && prev.owner == owner && at < prev.at + CLAIM_LEASE_MS
  }

  datatype World = World(application: Application, history: seq<Event>)

  function Step(w: World, cmd: Command): World {
    var outcome := Apply(w.application, cmd);
    if outcome.Accepted? then World(outcome.application, w.history + [EventOf(cmd)]) else w
  }

  function Run(w: World, commands: seq<Command>): World {
    if commands == [] then w else Step(Run(w, commands[..|commands| - 1]), commands[|commands| - 1])
  }

  function Start(id: RevisionId, content: Content): World { World(Created(id, content), [WasSaved]) }

  /** The row's state and claim are what its last event left. */
  predicate Reflects(a: Application, last: Event) {
    match last
    case WasSaved => Editable(a.state)
    case WasSubmitted => a.state.Submitted?
    case WasWithdrawn => a.state.Withdrawn?
    case WasClaimed(owner, at) => a.state.UnderReview? && a.claim == Some(ReviewClaim(owner, at, at + CLAIM_LEASE_MS))
    case WasDecided(_, Approve, _) => a.state.Approved?
    case WasDecided(_, Reject, _) => a.state.Rejected?
    case WasDecided(_, _, _) => a.state.ChangesRequested?
  }

  ghost predicate WorldInv(w: World) {
    && Inv(w.application)
    && |w.history| > 0 && w.application.version == |w.history|
    && Reflects(w.application, w.history[|w.history| - 1])
    && forall i :: 0 < i < |w.history| ==> Follows(w.history[i - 1], w.history[i])
  }

  lemma {:induction false} AcceptedFollows(a: Application, last: Event, cmd: Command)
    requires Inv(a) && Reflects(a, last) && Apply(a, cmd).Accepted?
    ensures Follows(last, EventOf(cmd)) && Reflects(Apply(a, cmd).application, EventOf(cmd))
  {
  }

  lemma {:induction false} StepKeepsInv(w: World, cmd: Command)
    requires WorldInv(w)
    ensures WorldInv(Step(w, cmd))
    ensures SubmittedKept(w.application.revisions, Step(w, cmd).application.revisions)
  {
    CommandKeeps(w.application, cmd);
    if Apply(w.application, cmd).Accepted? {
      AcceptedFollows(w.application, w.history[|w.history| - 1], cmd);
    }
  }

  lemma {:induction false} RunKeepsInv(w: World, commands: seq<Command>)
    requires WorldInv(w)
    ensures WorldInv(Run(w, commands))
    ensures SubmittedKept(w.application.revisions, Run(w, commands).application.revisions)
  {
    if commands != [] {
      RunKeepsInv(w, commands[..|commands| - 1]);
      StepKeepsInv(Run(w, commands[..|commands| - 1]), commands[|commands| - 1]);
    }
  }

  lemma {:induction false} RunAppend(w: World, first: seq<Command>, second: seq<Command>)
    ensures Run(w, first + second) == Run(Run(w, first), second)
  {
    if second == [] {
      assert first + second == first;
    } else {
      var all := first + second;
      assert all[..|all| - 1] == first + second[..|second| - 1];
      RunAppend(w, first, second[..|second| - 1]);
    }
  }

  /**
   The structure of an application after any run: revisions numbered 1..n, a draft has an
   unsubmitted current revision, what owners see was submitted, and the version counts the
   accepted commands.
   */
  lemma {:induction false} ApplicationIsWellFormed(id: RevisionId, content: Content, commands: seq<Command>)
    ensures var w := Run(Start(id, content), commands);
            var a := w.application;
            && |a.revisions| > 0
            && (forall i :: 0 <= i < |a.revisions| ==> a.revisions[i].number == i + 1)
            && Last(a.revisions).id == a.current
            && (a.state.Draft? ==> Last(a.revisions).submittedAt.None?)
            && (a.state.Submitted? || a.state.UnderReview? || a.state.Approved? || a.state.Rejected? ==>
               Last(a.revisions).submittedAt.Some?)
            && (a.state.UnderReview? <==> a.claim.Some?)
            && a.version == |w.history|
  {
    RunKeepsInv(Start(id, content), commands);
  }

  /** A submitted revision is never modified, whatever commands come later. */
  lemma {:induction false} SubmissionsAreImmutable(
    id: RevisionId, content: Content, first: seq<Command>, later: seq<Command>, i: nat)
    requires var before := Run(Start(id, content), first).application.revisions;
             i < |before| && before[i].submittedAt.Some?
    ensures var before := Run(Start(id, content), first).application.revisions;
            var after := Run(Start(id, content), first + later).application.revisions;
            i < |after| && after[i] == before[i]
  {
    RunKeepsInv(Start(id, content), first);
    RunKeepsInv(Run(Start(id, content), first), later);
    RunAppend(Start(id, content), first, later);
  }

  /** Every run obeys the review protocol. */
  lemma {:induction false} HistoryIsLegal(id: RevisionId, content: Content, commands: seq<Command>, i: nat)
    requires 0 < i < |Run(Start(id, content), commands).history|
    ensures var h := Run(Start(id, content), commands).history; Follows(h[i - 1], h[i])
  {
    RunKeepsInv(Start(id, content), commands);
  }

  /**
   Who may decide an application under review: exactly the owner of the claim that is its last
   event, while that claim is unexpired, and nobody else with any version or proof.
   */
  lemma {:induction false} OnlyTheClaimHolderDecides(
    id: RevisionId, content: Content, commands: seq<Command>, cmd: Command)
    requires cmd.Decide? && !cmd.action.Reopen? && cmd.authorized
    ensures var w := Run(Start(id, content), commands);
            |w.history| > 0
            && var last := w.history[|w.history| - 1];
            (Apply(w.application, cmd).Accepted? <==>
              && cmd.expectedVersion == |w.history| && cmd.revisionId == w.application.current
              && last.WasClaimed? && last.owner == cmd.owner && cmd.at < last.at + CLAIM_LEASE_MS)
  {
    RunKeepsInv(Start(id, content), commands);
  }

  // ----- the state, the acceptance and the contents in terms of the history

  function LastEvent(w: World): Event
    requires |w.history| > 0
  {
    w.history[|w.history| - 1]
  }

  /** The applicant may edit: the last event is a save, a request for changes or a reopening. */
  predicate WithApplicant(e: Event) { e.WasSaved? || ReturnsToApplicant(e) }

  /** Nothing was ever submitted: a draft is an application that has only been saved. */
  predicate OnlySaved(history: seq<Event>) { forall i :: 0 <= i < |history| ==> history[i].WasSaved? }

  lemma OnlySavedGrows(history: seq<Event>, e: Event)
    ensures OnlySaved(history + [e]) <==> OnlySaved(history) && e.WasSaved?
  {
    assert (history + [e])[|history|] == e;
    assert forall i :: 0 <= i < |history| ==> (history + [e])[i] == history[i];
  }

  lemma {:induction false} DraftWasOnlySaved(id: RevisionId, content: Content, commands: seq<Command>)
    ensures var w := Run(Start(id, content), commands); w.application.state.Draft? <==> OnlySaved(w.history)
  {
    if commands != [] {
      var n := |commands| - 1;
      var before := Run(Start(id, content), commands[..n]);
      DraftWasOnlySaved(id, content, commands[..n]);
      RunKeepsInv(Start(id, content), commands[..n]);
      if Apply(before.application, commands[n]).Accepted? {
        OnlySavedGrows(before.history, EventOf(commands[n]));
      }
    }
  }

  /**
   The state is what the history says, after every run: approved exactly after an approval, rejected
   exactly after a rejection, and so for each of the others; with the applicant it is a draft
   exactly while nothing was ever submitted.
   */
  lemma {:induction false} StateIsLastEvent(id: RevisionId, content: Content, commands: seq<Command>)
    ensures var w := Run(Start(id, content), commands);
            |w.history| > 0
            && var state, last := w.application.state, LastEvent(w);
            && (state.Approved? <==> last.WasDecided? && last.action.Approve?)
            && (state.Rejected? <==> last.WasDecided? && last.action.Reject?)
            && (state.Submitted? <==> last.WasSubmitted?)
            && (state.UnderReview? <==> last.WasClaimed?)
            && (state.Withdrawn? <==> last.WasWithdrawn?)
            && (state.Draft? <==> OnlySaved(w.history))
            && (state.ChangesRequested? <==> WithApplicant(last) && !OnlySaved(w.history))
  {
    RunKeepsInv(Start(id, content), commands);
    DraftWasOnlySaved(id, content, commands);
    var w := Run(Start(id, content), commands);
    assert OnlySaved(w.history) ==> LastEvent(w).WasSaved?;
  }

  /** What a command needs besides its turn: the id of a new revision is free, the ports agree. */
  predicate InOrder(a: Application, cmd: Command) {
    match cmd
    case Save(_, _, newId) => StartsRevision(a) ==> Fresh(a, newId)
    case Submit(_, content, newId, _) => content.Some? && (StartsRevision(a) ==> Fresh(a, newId))
    case Withdraw(_) => true
    case Claim(_, _, _) => true
    case Decide(_, revisionId, _, _, authorized, _) => revisionId == a.current && authorized
  }

  /** What is current has been submitted, so the next edit starts a revision. */
  predicate StartsRevision(a: Application) { |a.revisions| > 0 && Last(a.revisions).submittedAt.Some? }

  predicate Fresh(a: Application, id: RevisionId) {
    forall i :: 0 <= i < |a.revisions| ==> a.revisions[i].id != id
  }

  /**
   Acceptance, both ways: after any run a command is accepted if and only if it names the current
   version, its event may follow the last one, and its inputs are in order. So an authorised
   reopening of a rejected application is accepted, and so are a save and an eligible submission
   after a request for changes or a reopening.
   */
  lemma {:induction false} AcceptedExactly(id: RevisionId, content: Content, commands: seq<Command>, cmd: Command)
    ensures var w := Run(Start(id, content), commands);
            |w.history| > 0
            && (Apply(w.application, cmd).Accepted? <==>
                 && cmd.expectedVersion == |w.history| && Follows(LastEvent(w), EventOf(cmd))
                 && InOrder(w.application, cmd))
  {
    var w := Run(Start(id, content), commands);
    RunKeepsInv(Start(id, content), commands);
    StateIsLastEvent(id, content, commands);
    CurrentIsLast(w.application);
    if cmd.Save? || cmd.Submit? {
      EditsExactly(w.application, LastEvent(w), cmd);
    }
  }

  lemma {:induction false} EditsExactly(a: Application, last: Event, cmd: Command)
    requires Inv(a) && Reflects(a, last) && (cmd.Save? || cmd.Submit?)
    requires a.state.ChangesRequested? || a.state.Draft? <==> WithApplicant(last)
    ensures Apply(a, cmd).Accepted? <==>
              cmd.expectedVersion == a.version && WithApplicant(last) && InOrder(a, cmd)
  {
    CurrentIsLast(a);
  }

  /** Which refusal a decision meets, in the order the fences stand. */
  lemma {:induction false} DecisionRefusals(id: RevisionId, content: Content, commands: seq<Command>, cmd: Command)
    requires cmd.Decide? && Apply(Run(Start(id, content), commands).application, cmd).Refused?
    ensures var w := Run(Start(id, content), commands);
            |w.history| > 0
            && var current := cmd.expectedVersion == |w.history| && cmd.revisionId == w.application.current;
               var last := LastEvent(w);
               var turn := if cmd.action.Reopen? then last.WasDecided? && last.action.Reject? else last.WasClaimed?;
            Apply(w.application, cmd).code ==
              if !current then StaleVersion
              else if !turn then InvalidState
              else if !Follows(last, EventOf(cmd)) then ClaimExpired
              else NotEligible
  {
    RunKeepsInv(Start(id, content), commands);
    StateIsLastEvent(id, content, commands);
  }

  /** The commands of a run that were accepted. */
  function AcceptedOf(w: World, commands: seq<Command>): seq<Command> {
    if commands == [] then []
    else
      var n := |commands| - 1;
      AcceptedOf(w, commands[..n])
      + (if Apply(Run(w, commands[..n]).application, commands[n]).Accepted? then [commands[n]] else [])
  }

  function Lookup(content: Content, field: string): Option<string> {
    if field in content then Some(content[field]) else None
  }

  /** The answer to one field: that of the last save that gave one, or of the last submission. */
  function AnswerTo(start: Content, accepted: seq<Command>, field: string): Option<string> {
    if accepted == [] then Lookup(start, field)
    else
      var cmd := accepted[|accepted| - 1];
      if cmd.Save? && field in cmd.changes then Some(cmd.changes[field])
      else if cmd.Submit? && cmd.content.Some? then Lookup(cmd.content.value, field)
      else AnswerTo(start, accepted[..|accepted| - 1], field)
  }

  lemma {:induction false} AnswerAfter(a: Application, cmd: Command, field: string)
    requires Inv(a) && Apply(a, cmd).Accepted?
    ensures var b := Apply(a, cmd).application;
            |b.revisions| > 0
            && Lookup(Last(b.revisions).content, field)
               == if cmd.Save? && field in cmd.changes then Some(cmd.changes[field])
                  else if cmd.Submit? && cmd.content.Some? then Lookup(cmd.content.value, field)
                  else Lookup(Last(a.revisions).content, field)
  {
    CurrentIsLast(a);
    CommandKeeps(a, cmd);
  }

  /** No answer is lost: the current revision holds for every field the last answer given to it. */
  lemma {:induction false} AnswersAreKept(id: RevisionId, content: Content, commands: seq<Command>, field: string)
    ensures var w := Run(Start(id, content), commands);
            |w.application.revisions| > 0
            && Lookup(Last(w.application.revisions).content, field)
               == AnswerTo(content, AcceptedOf(Start(id, content), commands), field)
  {
    if commands != [] {
      var n := |commands| - 1;
      var before := Run(Start(id, content), commands[..n]);
      AnswersAreKept(id, content, commands[..n], field);
      RunKeepsInv(Start(id, content), commands[..n]);
      if Apply(before.application, commands[n]).Accepted? {
        var accepted := AcceptedOf(Start(id, content), commands);
        assert accepted[..|accepted| - 1] == AcceptedOf(Start(id, content), commands[..n]);
        AnswerAfter(before.application, commands[n], field);
      } else {
        assert AcceptedOf(Start(id, content), commands) == AcceptedOf(Start(id, content), commands[..n]);
      }
    }
  }

  /**
   What owners review is what was sent: an accepted submission stands in the current revision with
   its content and its time, and stays there whatever follows.
   */
  lemma {:induction false} SubmissionStands(
    id: RevisionId, content: Content, first: seq<Command>, cmd: Command, later: seq<Command>)
    requires cmd.Submit? && Apply(Run(Start(id, content), first).application, cmd).Accepted?
    ensures var sent := Apply(Run(Start(id, content), first).application, cmd).application;
            var i := |sent.revisions| - 1;
            var after := Run(Start(id, content), first + [cmd] + later).application.revisions;
            && 0 <= i < |after| && cmd.content.Some?
            && after[i] == Revision(sent.current, i + 1, cmd.content.value, Some(cmd.at))
  {
    var w := Run(Start(id, content), first);
    RunKeepsInv(Start(id, content), first);
    CurrentIsLast(w.application);
    CommandKeeps(w.application, cmd);
    assert (first + [cmd])[..|first|] == first;
    assert Run(Start(id, content), first + [cmd]) == Step(w, cmd);
    SubmissionsAreImmutable(id, content, first + [cmd], later, |Step(w, cmd).application.revisions| - 1);
  }
}
