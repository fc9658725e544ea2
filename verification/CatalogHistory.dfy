/**
 The catalog over whole histories, in terms of the commands that were accepted: what a publication
 shows, which handle a page has, how versions fence commands and how far apart renames are.
 */
module CatalogHistory {
  import opened Common
  import opened CatalogPublication
  import ReplayReference

  ghost predicate Accepts(c: Catalog, cmd: Command) { Apply(c, cmd).outcome == Done }

  /** The page that an owner's command names. */
  predicate Names(cmd: Command, p: PageId) {
    match cmd
    case Initialize(_, _, _, _, _) => false
    case ClearForSuspension(_) => false
    case _ => cmd.request.pageId == p
  }

  /** The commands that change the draft side of a page and so its version. */
  predicate Edits(cmd: Command) { cmd.ClaimHandle? || cmd.RenameHandle? || cmd.SaveDraft? }

  // ----- drafts

  /** Every page has a draft, and every draft could be published as far as its disciplines go. */
  ghost predicate DraftsOk(c: Catalog) {
    && c.drafts.Keys == c.pages.Keys
    && forall p :: p in c.drafts ==> NormalDisciplines(c.drafts[p].primary, c.drafts[p].secondary)
  }

  lemma {:induction false} CommandKeepsDrafts(c: Catalog, cmd: Command)
    requires DraftsOk(c)
    ensures DraftsOk(Apply(c, cmd).catalog) && c.pages.Keys <= Apply(c, cmd).catalog.pages.Keys
  {
    if cmd.Initialize? {
      InitializeKeepsDrafts(c, cmd);
    } else {
      OthersKeepDrafts(c, cmd);
    }
  }

  lemma {:induction false} InitializeKeepsDrafts(c: Catalog, cmd: Command)
    requires DraftsOk(c) && cmd.Initialize?
    ensures DraftsOk(DoInitialize(c, cmd).catalog) && c.pages.Keys <= DoInitialize(c, cmd).catalog.pages.Keys
  {
  }

  lemma {:induction false} OthersKeepDrafts(c: Catalog, cmd: Command)
    requires DraftsOk(c) && !cmd.Initialize?
    ensures DraftsOk(Apply(c, cmd).catalog) && c.pages.Keys <= Apply(c, cmd).catalog.pages.Keys
  {
  }

  /** A page's owner never changes. */
  lemma {:induction false} OwnerStays(c: Catalog, cmd: Command, p: PageId)
    requires p in c.pages
    ensures p in Apply(c, cmd).catalog.pages && Apply(c, cmd).catalog.pages[p].userId == c.pages[p].userId
  {
  }

  ghost predicate Sound(c: Catalog) { Agreement(c) && DraftsOk(c) }

  lemma {:induction false} RunIsSound(c: Catalog, commands: seq<Command>)
    requires Sound(c)
    ensures Sound(Run(c, commands))
  {
    if commands != [] {
      var before := Run(c, commands[..|commands| - 1]);
      RunIsSound(c, commands[..|commands| - 1]);
      CommandKeepsAgreement(before, commands[|commands| - 1]);
      CommandKeepsDrafts(before, commands[|commands| - 1]);
    }
  }

  // ----- what is accepted

  /** The request is its owner's, publishing is on, the capability is there, and the version is current. */
  predicate Entitled(c: Catalog, q: Request, activeOnly: bool, needsRecent: bool) {
    && q.pageId in c.pages && c.pages[q.pageId].userId == q.userId && c.pages[q.pageId].version == q.expectedVersion
    && q.enabled && q.active.Some? && (activeOnly ==> q.active.value) && (needsRecent ==> q.recent)
  }

  ghost predicate Acceptable(c: Catalog, cmd: Command) {
    match cmd
    case Initialize(user, p, enabled, active, texts) =>
      (exists own :: Owns(c.pages, user, own))
      || (active == Some(true) && enabled && texts.Some? && p !in c.pages)
    case ClaimHandle(q, h) =>
      NormalHandle(h) && h !in c.claims && Entitled(c, q, true, true) && CanonicalOf(c.claims, q.pageId).None?
    case RenameHandle(q, h) =>
      && NormalHandle(h) && h !in c.claims && Entitled(c, q, true, true) && CanonicalOf(c.claims, q.pageId).Some?
      && !CoolingDown(c.pages[q.pageId], q.at)
    case SaveDraft(q, d) => NormalDisciplines(d.primary, d.secondary) && Entitled(c, q, false, false)
    case Publish(q, id, texts, thumbs, held) =>
      && Entitled(c, q, true, false) && q.expectedVersion > 0 && CanonicalOf(c.claims, q.pageId).Some?
      && texts.Some? && !held && id !in c.revisions
      && (q.pageId in c.drafts && c.drafts[q.pageId].avatar.Some? ==> c.drafts[q.pageId].avatar.value in thumbs)
    case Unpublish(q) => Entitled(c, q, true, false) && q.expectedVersion > 0 && Head(c.pages, q.pageId).Some?
    case ClearForSuspension(_) => true
  }

  lemma {:induction false} AcceptedRename(c: Catalog, q: Request, h: Handle)
    requires Sound(c)
    ensures Accepts(c, RenameHandle(q, h)) <==> Acceptable(c, RenameHandle(q, h))
  {
    RenameIsNotBlocked(c, q, h);
  }

  lemma {:induction false} AcceptedInitialize(c: Catalog, cmd: Command)
    requires cmd.Initialize?
    ensures Accepts(c, cmd) <==> Acceptable(c, cmd)
  {
  }

  lemma {:induction false} AcceptedClaim(c: Catalog, q: Request, h: Handle)
    ensures Accepts(c, ClaimHandle(q, h)) <==> Acceptable(c, ClaimHandle(q, h))
  {
  }

  lemma {:induction false} AcceptedSave(c: Catalog, q: Request, d: Draft)
    requires DraftsOk(c)
    ensures Accepts(c, SaveDraft(q, d)) <==> Acceptable(c, SaveDraft(q, d))
  {
  }

  lemma {:induction false} UnpublishFindsItsProjection(c: Catalog, q: Request)
    requires Agreement(c)
    ensures DoUnpublish(c, q).outcome != Failed(ProjectionMissing)
  {
    UnpublishKeepsAgreement(c, q);
  }

  lemma {:induction false} AcceptedUnpublish(c: Catalog, q: Request)
    requires DoUnpublish(c, q).outcome != Failed(ProjectionMissing)
    ensures Accepts(c, Unpublish(q)) <==> Acceptable(c, Unpublish(q))
  {
  }

  lemma {:induction false} AcceptedPublish(c: Catalog, cmd: Command)
    requires Sound(c) && cmd.Publish?
    ensures Accepts(c, cmd) <==> Acceptable(c, cmd)
  {
    if cmd.revisionId !in c.revisions {
      PublishHitsNoIndex(c, cmd);
    }
    var canonical := CanonicalOf(c.claims, cmd.request.pageId);
    assert canonical.Some? ==> NormalHandle(canonical.value);
  }

  /**
   What is accepted, both ways, from every catalog that commands can reach: the request must be the
   page owner's, at the page's version, with publishing on and the capability it needs; beyond that
   a handle must be free and fit, a rename past its cooldown, a publication complete and not held,
   and an unpublication find something published.
   */
  lemma {:induction false} AcceptedExactly(c: Catalog, cmd: Command)
    requires Sound(c)
    ensures Accepts(c, cmd) <==> Acceptable(c, cmd)
  {
    match cmd
    case Initialize(_, _, _, _, _) => AcceptedInitialize(c, cmd);
    case ClaimHandle(q, h) => AcceptedClaim(c, q, h);
    case RenameHandle(q, h) => AcceptedRename(c, q, h);
    case SaveDraft(q, d) => AcceptedSave(c, q, d);
    case Publish(_, _, _, _, _) => AcceptedPublish(c, cmd);
    case Unpublish(q) =>
      UnpublishFindsItsProjection(c, q);
      AcceptedUnpublish(c, q);
    case ClearForSuspension(user) => ClearKeepsAgreement(c, user);
  }

  /** A refused command changes nothing. */
  lemma {:induction false} RefusedChangesNothing(c: Catalog, cmd: Command)
    requires !Accepts(c, cmd)
    ensures Apply(c, cmd).catalog == c
  {
  }

  // ----- versions

  /** How many accepted commands of the run edited the page. */
  ghost function EditsOf(c: Catalog, commands: seq<Command>, p: PageId): nat {
    if commands == [] then 0
    else
      var n := |commands| - 1;
      EditsOf(c, commands[..n], p)
      + (if Edits(commands[n]) && Names(commands[n], p) && Accepts(Run(c, commands[..n]), commands[n]) then 1 else 0)
  }

  lemma {:induction false} VersionStep(c: Catalog, cmd: Command, p: PageId)
    ensures p in c.pages ==>
              && p in Apply(c, cmd).catalog.pages
              && Apply(c, cmd).catalog.pages[p].version
                 == c.pages[p].version + (if Edits(cmd) && Names(cmd, p) && Accepts(c, cmd) then 1 else 0)
    ensures p !in c.pages && p in Apply(c, cmd).catalog.pages ==> Apply(c, cmd).catalog.pages[p].version == 1
    ensures p !in c.pages && Edits(cmd) && Names(cmd, p) ==> !Accepts(c, cmd)
  {
  }

  /** A page's version is one more than the number of edits it accepted. */
  lemma {:induction false} VersionCountsEdits(commands: seq<Command>, p: PageId)
    ensures var c := Run(EMPTY, commands);
            if p in c.pages then c.pages[p].version == 1 + EditsOf(EMPTY, commands, p)
            else EditsOf(EMPTY, commands, p) == 0
  {
    if commands != [] {
      var n := |commands| - 1;
      VersionCountsEdits(commands[..n], p);
      VersionStep(Run(EMPTY, commands[..n]), commands[n], p);
    }
  }

  lemma {:induction false} VersionsRise(c: Catalog, commands: seq<Command>, p: PageId)
    requires p in c.pages
    ensures p in Run(c, commands).pages && Run(c, commands).pages[p].version >= c.pages[p].version
  {
    if commands != [] {
      VersionsRise(c, commands[..|commands| - 1], p);
      VersionStep(Run(c, commands[..|commands| - 1]), commands[|commands| - 1], p);
    }
  }

  /**
   The version fence: after an accepted edit, and whatever comes between, no command that still
   expects the version the edit was made at is accepted.
   */
  lemma {:induction false} NoLostUpdate(c: Catalog, edit: Command, between: seq<Command>, cmd: Command, p: PageId)
    requires Sound(c) && Edits(edit) && Names(edit, p) && Accepts(c, edit)
    requires Names(cmd, p) && cmd.request.expectedVersion <= edit.request.expectedVersion
    ensures !Accepts(Run(Apply(c, edit).catalog, between), cmd)
  {
    AcceptedExactly(c, edit);
    CommandKeepsAgreement(c, edit);
    CommandKeepsDrafts(c, edit);
    VersionStep(c, edit, p);
    RunIsSound(Apply(c, edit).catalog, between);
    VersionsRise(Apply(c, edit).catalog, between, p);
    AcceptedExactly(Run(Apply(c, edit).catalog, between), cmd);
  }

  // ----- handles

  lemma {:induction false} CanonicalIs(c: Catalog, p: PageId, h: Handle)
    requires Agreement(c) && IsCanonical(c.claims, p, h)
    ensures CanonicalOf(c.claims, p) == Some(h)
  {
    assert c.claims[CanonicalOf(c.claims, p).value] == c.claims[h];
  }

  lemma {:induction false} HandleStays(c: Catalog, cmd: Command, p: PageId, h: Handle)
    requires Agreement(c) && IsCanonical(c.claims, p, h) && !(cmd.RenameHandle? && Names(cmd, p))
    ensures IsCanonical(Apply(c, cmd).catalog.claims, p, h)
  {
    if cmd.RenameHandle? {
      RenameHasEffect(c, cmd.request, cmd.handle);
    } else if !cmd.ClaimHandle? {
      OthersKeepClaims(c, cmd);
    }
  }

  lemma {:induction false} HandleStaysOver(c: Catalog, commands: seq<Command>, p: PageId, h: Handle)
    requires Agreement(c) && IsCanonical(c.claims, p, h)
    requires forall i :: 0 <= i < |commands| ==> !(commands[i].RenameHandle? && Names(commands[i], p))
    ensures Agreement(Run(c, commands)) && IsCanonical(Run(c, commands).claims, p, h)
  {
    if commands != [] {
      var n := |commands| - 1;
      HandleStaysOver(c, commands[..n], p, h);
      HandleStays(Run(c, commands[..n]), commands[n], p, h);
      CommandKeepsAgreement(Run(c, commands[..n]), commands[n]);
    }
  }

  /** An accepted claim or rename gives the page its handle, which it keeps until it is renamed again. */
  lemma {:induction false} HandleIsTheLastTaken(c: Catalog, cmd: Command, later: seq<Command>, p: PageId)
    requires Agreement(c) && (cmd.ClaimHandle? || cmd.RenameHandle?) && Names(cmd, p) && Accepts(c, cmd)
    requires forall i :: 0 <= i < |later| ==> !(later[i].RenameHandle? && Names(later[i], p))
    ensures CanonicalOf(Run(Apply(c, cmd).catalog, later).claims, p) == Some(cmd.handle)
  {
    CommandKeepsAgreement(c, cmd);
    HandleStaysOver(Apply(c, cmd).catalog, later, p, cmd.handle);
    CanonicalIs(Run(Apply(c, cmd).catalog, later), p, cmd.handle);
  }

  const THIRTY_DAYS_MS: int := 30 * 24 * 3_600_000

  /** The page may not be renamed before `at`. */
  predicate LockedUntil(c: Catalog, p: PageId, at: Instant) {
    p in c.pages && c.pages[p].renameAvailableAt.Some? && c.pages[p].renameAvailableAt.value >= at
  }

  lemma {:induction false} LockStays(c: Catalog, cmd: Command, p: PageId, at: Instant)
    requires LockedUntil(c, p, at)
    ensures LockedUntil(Apply(c, cmd).catalog, p, at)
  {
  }

  lemma {:induction false} LockStaysOver(c: Catalog, commands: seq<Command>, p: PageId, at: Instant)
    requires LockedUntil(c, p, at)
    ensures LockedUntil(Run(c, commands), p, at)
  {
    if commands != [] {
      LockStaysOver(c, commands[..|commands| - 1], p, at);
      LockStays(Run(c, commands[..|commands| - 1]), commands[|commands| - 1], p, at);
    }
  }

  /** Two accepted renames of a page are at least 30 days apart, whatever comes between them. */
  lemma {:induction false} RenamesAreApart(
    c: Catalog, first: Command, between: seq<Command>, second: Command, p: PageId)
    requires first.RenameHandle? && Names(first, p) && Accepts(c, first)
    requires second.RenameHandle? && Names(second, p) && Accepts(Run(Apply(c, first).catalog, between), second)
    ensures second.request.at >= first.request.at + THIRTY_DAYS_MS
  {
    LockStaysOver(Apply(c, first).catalog, between, p, first.request.at + THIRTY_DAYS_MS);
  }

  /** The cooldown is no longer than that: nothing but a rename starts one. */
  predicate RenamedAt(c: Catalog, p: PageId, at: Option<Instant>) {
    p in c.pages && c.pages[p].renameAvailableAt == match at case Some(t) => Some(t + THIRTY_DAYS_MS) case None => None
  }

  lemma {:induction false} RenameTimeStep(c: Catalog, cmd: Command, p: PageId)
    requires p in c.pages && !(cmd.RenameHandle? && Names(cmd, p))
    ensures var pages := Apply(c, cmd).catalog.pages;
            p in pages && pages[p].renameAvailableAt == c.pages[p].renameAvailableAt
  {
  }

  lemma {:induction false} RenameTimeStays(c: Catalog, commands: seq<Command>, p: PageId, at: Option<Instant>)
    requires RenamedAt(c, p, at)
    requires forall i :: 0 <= i < |commands| ==> !(commands[i].RenameHandle? && Names(commands[i], p))
    ensures RenamedAt(Run(c, commands), p, at)
  {
    if commands != [] {
      RenameTimeStays(c, commands[..|commands| - 1], p, at);
      RenameTimeStep(Run(c, commands[..|commands| - 1]), commands[|commands| - 1], p);
    }
  }

  /**
   So after an accepted rename, until the next, a rename that is otherwise in order is accepted
   exactly from 30 days on.
   */
  lemma {:induction false} CooldownIsThirtyDays(
    c: Catalog, first: Command, between: seq<Command>, cmd: Command, p: PageId)
    requires Sound(c) && first.RenameHandle? && Names(first, p) && Accepts(c, first)
    requires forall i :: 0 <= i < |between| ==> !(between[i].RenameHandle? && Names(between[i], p))
    requires cmd.RenameHandle? && Names(cmd, p)
    ensures var later := Run(Apply(c, first).catalog, between);
            Accepts(later, cmd) <==>
              && NormalHandle(cmd.handle) && cmd.handle !in later.claims && Entitled(later, cmd.request, true, true)
              && cmd.request.at >= first.request.at + THIRTY_DAYS_MS
  {
    var renamed := Apply(c, first).catalog;
    CommandKeepsAgreement(c, first);
    CommandKeepsDrafts(c, first);
    RunIsSound(renamed, between);
    RenameStartsCooldown(c, first.request, first.handle);
    RenameTimeStays(renamed, between, p, Some(first.request.at));
    HandleIsTheLastTaken(c, first, between, p);
    AcceptedRename(Run(renamed, between), cmd.request, cmd.handle);
  }

  lemma {:induction false} RenameStartsCooldown(c: Catalog, q: Request, h: Handle)
    requires Accepts(c, RenameHandle(q, h))
    ensures RenamedAt(Apply(c, RenameHandle(q, h)).catalog, q.pageId, Some(q.at))
  {
  }

  // ----- publications

  lemma {:induction false} DraftStays(c: Catalog, commands: seq<Command>, p: PageId, d: Draft)
    requires Sound(c) && p in c.drafts && c.drafts[p] == d
    requires forall i :: 0 <= i < |commands| && commands[i].SaveDraft? && Names(commands[i], p) ==>
             commands[i].draft == d
    ensures Sound(Run(c, commands)) && p in Run(c, commands).drafts && Run(c, commands).drafts[p] == d
  {
    if commands != [] {
      var n := |commands| - 1;
      DraftStays(c, commands[..n], p, d);
      DraftStep(Run(c, commands[..n]), commands[n], p, d);
      CommandKeepsAgreement(Run(c, commands[..n]), commands[n]);
      CommandKeepsDrafts(Run(c, commands[..n]), commands[n]);
    }
  }

  lemma {:induction false} DraftStep(c: Catalog, cmd: Command, p: PageId, d: Draft)
    requires DraftsOk(c) && p in c.drafts && c.drafts[p] == d
    requires cmd.SaveDraft? && Names(cmd, p) ==> cmd.draft == d
    ensures var c' := Apply(c, cmd).catalog; p in c'.drafts && c'.drafts[p] == d
  {
  }

  /** The publication's entry, as the draft and the publication's own inputs determine it. */
  ghost predicate ShowsDraft(c: Catalog, p: PageId, d: Draft, cmd: Command)
    requires cmd.Publish?
  {
    && p in c.pages && c.pages[p].head == Some(cmd.revisionId)
    && p in c.projections
    && var x := c.projections[p];
    && x.enabled && x.revisionId == cmd.revisionId
    && x.disciplines == [d.primary] + d.secondary
    && cmd.texts == Some(x.texts)
    && (d.avatar.None? ==> x.avatarThumb.None?)
    && (d.avatar.Some? ==> d.avatar.value in cmd.thumbs && x.avatarThumb == Some(cmd.thumbs[d.avatar.value]))
    && x.revisionAt == cmd.request.at
  }

  /** The revision is numbered one above every earlier one of its page. */
  ghost predicate NumberedNext(before: Catalog, after: Catalog, p: PageId, id: RevisionId) {
    && id !in before.revisions && id in after.revisions && after.revisions[id].pageId == p
    && (forall r :: r in before.revisions && before.revisions[r].pageId == p ==>
          before.revisions[r].number < after.revisions[id].number)
    && (after.revisions[id].number == 1
        || exists r :: r in before.revisions && before.revisions[r].pageId == p
                       && before.revisions[r].number == after.revisions[id].number - 1)
  }

  lemma {:induction false} PublishShowsDraft(c: Catalog, cmd: Command, p: PageId, d: Draft)
    requires Sound(c) && cmd.Publish? && Names(cmd, p) && Accepts(c, cmd) && p in c.drafts && c.drafts[p] == d
    ensures ShowsDraft(Apply(c, cmd).catalog, p, d, cmd)
    ensures NumberedNext(c, Apply(c, cmd).catalog, p, cmd.revisionId)
  {
    assert LargestNumber(c.revisions, p, MaxRevision(c.revisions, p));
  }

  /** The command neither publishes the page nor takes it down. */
  predicate LeavesUp(cmd: Command, p: PageId, owner: UserId) {
    && !((cmd.Publish? || cmd.Unpublish?) && Names(cmd, p))
    && !(cmd.ClearForSuspension? && cmd.userId == owner)
  }

  /** The page and its entry are as before, but for the page's version and cooldown. */
  ghost predicate SameEntry(c: Catalog, c': Catalog, p: PageId) {
    p in c'.pages && Head(c'.pages, p) == Head(c.pages, p) && Entry(c'.projections, p) == Entry(c.projections, p)
  }

  lemma {:induction false} EditsLeaveDirectory(c: Catalog, cmd: Command, p: PageId)
    requires p in c.pages && (cmd.Initialize? || cmd.ClaimHandle? || cmd.SaveDraft?)
    ensures SameEntry(c, Apply(c, cmd).catalog, p)
  {
  }

  lemma {:induction false} PublishLeavesOthers(c: Catalog, cmd: Command, p: PageId)
    requires p in c.pages && cmd.Publish? && !Names(cmd, p)
    ensures SameEntry(c, Apply(c, cmd).catalog, p)
  {
  }

  lemma {:induction false} WithdrawnLeavesOthers(c: Catalog, other: PageId, kind: EventKind, p: PageId)
    requires p in c.pages && p != other && other in c.pages && c.pages[other].head.Some?
    ensures SameEntry(c, Withdrawn(c, other, kind).catalog, p)
  {
  }

  lemma {:induction false} UnpublishLeavesOthers(c: Catalog, q: Request, p: PageId)
    requires p in c.pages && q.pageId != p
    ensures SameEntry(c, DoUnpublish(c, q).catalog, p)
  {
    UnpublishIsWithdrawal(c, q);
    if q.pageId in c.pages && c.pages[q.pageId].head.Some? {
      WithdrawnLeavesOthers(c, q.pageId, Unpublished, p);
    }
  }

  lemma {:induction false} ClearLeavesOthers(c: Catalog, user: UserId, p: PageId)
    requires p in c.pages && c.pages[p].userId != user
    ensures SameEntry(c, DoClear(c, user).catalog, p)
  {
    var page := PageOfUser(c.pages, user);
    if page.Some? && c.pages[page.value].head.Some? {
      WithdrawnLeavesOthers(c, page.value, SuspensionUnpublish, p);
    }
  }

  /** The same, except that a rename moves the entry to the new handle. */
  ghost predicate SameButHandle(c: Catalog, c': Catalog, p: PageId) {
    && p in c'.pages && Head(c'.pages, p) == Head(c.pages, p)
    && (p in c.projections ==>
          p in c'.projections && c'.projections[p] == c.projections[p].(handle := c'.projections[p].handle))
  }

  lemma {:induction false} RenameMovesEntry(c: Catalog, q: Request, h: Handle, p: PageId)
    requires p in c.pages
    ensures SameButHandle(c, DoRename(c, q, h).catalog, p)
  {
    RenameHasEffect(c, q, h);
  }

  lemma {:induction false} SameIsSameButHandle(c: Catalog, c': Catalog, p: PageId)
    requires SameEntry(c, c', p)
    ensures SameButHandle(c, c', p)
  {
  }

  lemma {:induction false} EntryStays(c: Catalog, cmd: Command, p: PageId)
    requires p in c.pages && LeavesUp(cmd, p, c.pages[p].userId)
    ensures SameButHandle(c, Apply(c, cmd).catalog, p)
  {
    if cmd.RenameHandle? {
      RenameMovesEntry(c, cmd.request, cmd.handle, p);
    } else {
      match cmd
      case Publish(_, _, _, _, _) => PublishLeavesOthers(c, cmd, p);
      case Unpublish(q) => UnpublishLeavesOthers(c, q, p);
      case ClearForSuspension(user) => ClearLeavesOthers(c, user, p);
      case _ => EditsLeaveDirectory(c, cmd, p);
      SameIsSameButHandle(c, Apply(c, cmd).catalog, p);
    }
  }

  lemma {:induction false} StillShows(c: Catalog, c': Catalog, p: PageId, d: Draft, published: Command)
    requires published.Publish? && ShowsDraft(c, p, d, published) && SameButHandle(c, c', p)
    ensures ShowsDraft(c', p, d, published)
  {
  }

  lemma {:induction false} EntryStaysOver(
    c: Catalog, commands: seq<Command>, p: PageId, d: Draft, published: Command, owner: UserId)
    requires Sound(c) && published.Publish? && ShowsDraft(c, p, d, published) && c.pages[p].userId == owner
    requires forall i :: 0 <= i < |commands| ==> LeavesUp(commands[i], p, owner)
    ensures Sound(Run(c, commands)) && ShowsDraft(Run(c, commands), p, d, published)
    ensures Run(c, commands).pages[p].userId == owner
  {
    if commands != [] {
      var n := |commands| - 1;
      var before := Run(c, commands[..n]);
      EntryStaysOver(c, commands[..n], p, d, published, owner);
      EntryStays(before, commands[n], p);
      StillShows(before, Apply(before, commands[n]).catalog, p, d, published);
      OwnerStays(before, commands[n], p);
      CommandKeepsAgreement(before, commands[n]);
      CommandKeepsDrafts(before, commands[n]);
    }
  }

  /**
   What visitors see is what the creator saved: after an accepted save, any commands that save no
   other draft of the page, an accepted publication, and any commands that neither publish the
   page again nor take it down, the directory admits the page; its entry shows the draft's
   disciplines and avatar and the publication's texts, under the page's handle of the day, and its
   revision was numbered one above every earlier one.
   */
  lemma {:induction false} VisitorsSeeTheDraft(
    c: Catalog, save: Command, between: seq<Command>, publish: Command, later: seq<Command>, p: PageId)
    requires Sound(c) && save.SaveDraft? && Names(save, p) && Accepts(c, save)
    requires forall i :: 0 <= i < |between| && between[i].SaveDraft? && Names(between[i], p) ==>
             between[i].draft == save.draft
    requires publish.Publish? && Names(publish, p)
    requires Accepts(Run(Apply(c, save).catalog, between), publish)
    requires forall i :: 0 <= i < |later| ==> LeavesUp(later[i], p, save.request.userId)
    ensures var before := Run(Apply(c, save).catalog, between);
            var published := Apply(before, publish).catalog;
            var seen := Run(published, later);
            && NumberedNext(before, published, p, publish.revisionId)
            && ShowsDraft(seen, p, save.draft, publish)
            && Admits(seen, p) && CanonicalOf(seen.claims, p) == Some(seen.projections[p].handle)
  {
    var saved := Apply(c, save).catalog;
    AcceptedExactly(c, save);
    CommandKeepsAgreement(c, save);
    CommandKeepsDrafts(c, save);
    DraftStays(saved, between, p, save.draft);
    OwnerStaysOver(saved, between, p);
    var before := Run(saved, between);
    var published := Apply(before, publish).catalog;
    PublishShowsDraft(before, publish, p, save.draft);
    CommandKeepsAgreement(before, publish);
    CommandKeepsDrafts(before, publish);
    OwnerStays(before, publish, p);
    EntryStaysOver(published, later, p, save.draft, publish, save.request.userId);
    PublishedIsAdmitted(Run(published, later), p);
  }

  lemma {:induction false} OwnerStaysOver(c: Catalog, commands: seq<Command>, p: PageId)
    requires p in c.pages
    ensures p in Run(c, commands).pages && Run(c, commands).pages[p].userId == c.pages[p].userId
  {
    if commands != [] {
      OwnerStaysOver(c, commands[..|commands| - 1], p);
      OwnerStays(Run(c, commands[..|commands| - 1]), commands[|commands| - 1], p);
    }
  }

  /** An accepted unpublication, or the suspension of the owner, takes the page out of the directory. */
  lemma {:induction false} TakenDown(c: Catalog, cmd: Command, p: PageId)
    requires Sound(c) && p in c.pages && Accepts(c, cmd)
    requires (cmd.Unpublish? && Names(cmd, p)) || (cmd.ClearForSuspension? && cmd.userId == c.pages[p].userId)
    ensures !Admits(Apply(c, cmd).catalog, p)
  {
    if cmd.ClearForSuspension? {
      ClearKeepsAgreement(c, cmd.userId);
      assert Owns(c.pages, cmd.userId, p);
    } else {
      UnpublishIsWithdrawal(c, cmd.request);
    }
  }

  // ----- what a handle and a list of disciplines look like

  predicate Word(w: string) {
    w != [] && forall i :: 0 <= i < |w| ==> ('a' <= w[i] <= 'z' || '0' <= w[i] <= '9')
  }

  predicate AllWords(words: seq<string>) {
    words != [] && forall i :: 0 <= i < |words| ==> Word(words[i])
  }

  function Hyphenated(words: seq<string>): string
    requires words != []
  {
    if |words| == 1 then words[0] else words[0] + "-" + Hyphenated(words[1..])
  }

  /** Letters and digits in groups, a single hyphen between two groups. */
  predicate Grouped(h: string) {
    && h != [] && HandleChar(h[0]) && HandleChar(h[|h| - 1])
    && (forall i :: 0 <= i < |h| ==> HandleChar(h[i]) || h[i] == '-')
    && (forall i :: 0 < i < |h| && h[i] == '-' ==> h[i - 1] != '-')
  }

  lemma {:induction false} WordsAreGrouped(words: seq<string>)
    requires AllWords(words)
    ensures Grouped(Hyphenated(words))
  {
    var first := words[0];
    assert Word(first);
    if |words| > 1 {
      assert AllWords(words[1..]);
      WordsAreGrouped(words[1..]);
      var rest := Hyphenated(words[1..]);
      var h := first + "-" + rest;
      assert forall i :: |first| < i < |h| ==> h[i] == rest[i - |first| - 1];
      assert forall i :: 0 <= i < |first| ==> h[i] == first[i];
      assert h[|first|] == '-' && h[|h| - 1] == rest[|rest| - 1];
    }
  }

  lemma {:induction false} GroupsAreWords(h: string) returns (words: seq<string>)
    requires Grouped(h)
    ensures AllWords(words) && Hyphenated(words) == h
  {
    if |h| == 1 {
      words := [h];
    } else if h[1] == '-' {
      var rest := GroupsAreWords(h[2..]);
      words := [h[..1]] + rest;
      assert words[1..] == rest && Word(h[..1]);
      assert h == h[..1] + "-" + h[2..];
    } else {
      var rest := GroupsAreWords(h[1..]);
      var first := h[..1] + rest[0];
      words := [first] + rest[1..];
      assert Word(rest[0]) && Word(first);
      assert forall i :: 1 <= i < |words| ==> words[i] == rest[i];
      assert h == h[..1] + h[1..];
      assert |rest| > 1 ==> words[1..] == rest[1..];
    }
  }

  /** A handle is what the program's pattern says: words of letters and digits joined by single hyphens. */
  lemma HandlesAreWords(h: Handle)
    ensures NormalHandle(h) <==>
              3 <= |h| <= 30 && h !in RESERVED && exists words :: AllWords(words) && h == Hyphenated(words)
  {
    if NormalHandle(h) {
      var words := GroupsAreWords(h);
    }
    forall words | AllWords(words) && h == Hyphenated(words) ensures Grouped(h) {
      WordsAreGrouped(words);
    }
  }

  /** Primary and secondary together are one to three disciplines, each named once. */
  lemma DisciplinesAreDistinct(primary: Discipline, secondary: seq<Discipline>)
    ensures var all := [primary] + secondary;
            NormalDisciplines(primary, secondary) <==>
              |all| <= 3 && forall i, j :: 0 <= i < j < |all| ==> all[i] != all[j]
  {
    var all := [primary] + secondary;
    assert forall i :: 0 <= i < |secondary| ==> all[i + 1] == secondary[i];
    if forall i, j :: 0 <= i < j < |all| ==> all[i] != all[j] {
      forall i, j | 0 <= i < j < |secondary| ensures secondary[i] != secondary[j] {
        assert all[i + 1] != all[j + 1];
      }
      assert forall i :: 0 <= i < |secondary| ==> all[0] != secondary[i];
    }
  }

  /** Every handle that a publication can have survives in the reference it is replayed from. */
  lemma HandlesFitReferences(h: Handle)
    requires NormalHandle(h)
    ensures ReplayReference.IsHandle(h)
  {
    assert forall i :: 0 <= i < |h| ==> HandleChar(h[i]) || h[i] == '-';
  }
}
