/**
 The catalog's commands as transactions: each works on a copy of the tables, statement by
 statement, and commits the copy or nothing.
 */
module CatalogCommands {
  import opened Common
  import opened CatalogPublication

  /** What the unique indexes give a lookup: at most one canonical claim per page, one page per user. */
  ghost predicate Indexed(c: Catalog) {
    OwnersDiffer(c.pages) && ClaimsOk(c.pages.Keys, c.claims)
  }

  lemma CanonicalIsUnique(c: Catalog, p: PageId, h: Handle)
    requires Indexed(c) && IsCanonical(c.claims, p, h)
    ensures CanonicalOf(c.claims, p) == Some(h)
  {
    assert c.claims[CanonicalOf(c.claims, p).value] == c.claims[h];
  }

  lemma LargestIsUnique(revisions: map<RevisionId, Revision>, p: PageId, n: nat)
    requires LargestNumber(revisions, p, n)
    ensures MaxRevision(revisions, p) == n
  {
  }

  method FindCanonical(claims: map<Handle, Claim>, p: PageId) returns (r: Option<Handle>)
    ensures r.Some? ==> IsCanonical(claims, p, r.value)
    ensures r.None? ==> forall h :: !IsCanonical(claims, p, h)
  {
    if h :| h in claims && claims[h] == Claim(p, Canonical) {
      return Some(h);
    }
    return None;
  }

  /** The largest revision number of a page, found row by row. */
  method FindMaxRevision(revisions: map<RevisionId, Revision>, p: PageId) returns (n: nat)
    ensures LargestNumber(revisions, p, n)
  {
    n := 0;
    var rest := revisions.Keys;
    while rest != {}
      invariant rest <= revisions.Keys
      invariant forall r :: r in revisions && r !in rest && revisions[r].pageId == p ==> revisions[r].number <= n
      invariant n == 0 || exists r :: r in revisions && revisions[r].pageId == p && revisions[r].number == n
    {
      var r :| r in rest;
      if revisions[r].pageId == p && revisions[r].number > n {
        n := revisions[r].number;
      }
      rest := rest - {r};
    }
  }

  class CatalogDatabase {
    var committed: Catalog

    constructor ()
      ensures committed == EMPTY && Agreement(committed)
    {
      committed := EMPTY;
    }

    method ClaimHandle(q: Request, h: Handle) returns (outcome: Outcome)
      requires Agreement(committed)
      modifies this
      ensures Result(committed, outcome) == DoClaim(old(committed), q, h)
      ensures Agreement(committed)
    {
      ClaimKeepsAgreement(committed, q, h);
      if !NormalHandle(h) { return Failed(PolicyViolation); }
      var tx := committed;
      var refusal := MutationRefusal(tx, q, true, true);
      if refusal.Some? { return Failed(refusal.value); }
      var current := FindCanonical(tx.claims, q.pageId);
      if current.Some? || h in tx.claims { return Failed(HandleUnavailable); }
      tx := tx.(claims := tx.claims[h := Claim(q.pageId, Canonical)]);
      tx := Bumped(tx, q.pageId);
      committed := tx;
      outcome := Done;
    }

    /** The rename itself, once the command has passed its checks. */
    method MoveHandle(q: Request, from: Handle, to: Handle) returns (outcome: Outcome)
      requires q.pageId in committed.pages && from in committed.claims && from != to
      modifies this
      ensures to in old(committed).claims ==> committed == old(committed) && outcome == Failed(HandleUnavailable)
      ensures to !in old(committed).claims && q.pageId in old(committed).projections
              && HandleProjectedElsewhere(old(committed).projections, q.pageId, to)
              ==> committed == old(committed) && outcome == Failed(IndexViolation)
      ensures to !in old(committed).claims
              && !(q.pageId in old(committed).projections
              && HandleProjectedElsewhere(old(committed).projections, q.pageId, to))
              ==> committed == Moved(old(committed), q, from, to) && outcome == Done
    {
      var tx := committed;
      tx := tx.(claims := tx.claims[from := Claim(q.pageId, Alias)]);
      if to in tx.claims { return Failed(HandleUnavailable); }
      tx := tx.(claims := tx.claims[to := Claim(q.pageId, Canonical)]);
      tx := tx.(pages := tx.pages[q.pageId :=
          tx.pages[q.pageId].(renameAvailableAt := Some(q.at + RENAME_COOLDOWN_MS))]);
      if q.pageId in tx.projections {
        if HandleProjectedElsewhere(tx.projections, q.pageId, to) { return Failed(IndexViolation); }
        tx := tx.(projections := tx.projections[q.pageId := tx.projections[q.pageId].(handle := to)]);
      }
      tx := Bumped(tx, q.pageId);
      committed := tx;
      outcome := Done;
    }

    method RenameHandle(q: Request, h: Handle) returns (outcome: Outcome)
      requires Agreement(committed)
      modifies this
      ensures Result(committed, outcome) == DoRename(old(committed), q, h)
      ensures Agreement(committed)
    {
      RenameKeepsAgreement(committed, q, h);
      if !NormalHandle(h) { return Failed(PolicyViolation); }
      var refusal := MutationRefusal(committed, q, true, true);
      if refusal.Some? { return Failed(refusal.value); }
      if CoolingDown(committed.pages[q.pageId], q.at) { return Failed(RenameCooldown); }
      var current := FindCanonical(committed.claims, q.pageId);
      if current.None? || current.value == h { return Failed(HandleUnavailable); }
      CanonicalIsUnique(committed, q.pageId, current.value);
      outcome := MoveHandle(q, current.value, h);
    }

    method Publish(cmd: Command) returns (outcome: Outcome)
      requires Agreement(committed) && cmd.Publish?
      modifies this
      ensures Result(committed, outcome) == DoPublish(old(committed), cmd)
      ensures Agreement(committed)
    {
      PublishKeepsAgreement(committed, cmd);
      var q := cmd.request;
      if q.expectedVersion <= 0 { return Failed(PolicyViolation); }
      var tx := committed;
      var refusal := MutationRefusal(tx, q, true, false);
      if refusal.Some? { return Failed(refusal.value); }
      var canonical := FindCanonical(tx.claims, q.pageId);
      if q.pageId !in tx.drafts || canonical.None? { return Failed(PolicyViolation); }
      CanonicalIsUnique(tx, q.pageId, canonical.value);
      if !NormalHandle(canonical.value) { return Failed(PolicyViolation); }
      var draft := tx.drafts[q.pageId];
      if !NormalDisciplines(draft.primary, draft.secondary) || cmd.texts.None? { return Failed(PolicyViolation); }
      if cmd.held { return Failed(PolicyViolation); }
      if draft.avatar.Some? && draft.avatar.value !in cmd.thumbs { return Failed(PolicyViolation); }
      var latest := FindMaxRevision(tx.revisions, q.pageId);
      LargestIsUnique(tx.revisions, q.pageId, latest);
      var revision := Revision(q.pageId, latest + 1, canonical.value, cmd.texts.value, draft.primary, draft.secondary,
                               ThumbOf(draft.avatar, cmd.thumbs), q.at);
      assert revision == NewRevision(tx, cmd);
      if RevisionClashes(tx.revisions, cmd.revisionId, revision) { return Failed(IndexViolation); }
      tx := tx.(revisions := tx.revisions[cmd.revisionId := revision]);
      tx := tx.(pages := tx.pages[q.pageId := tx.pages[q.pageId].(head := Some(cmd.revisionId))]);
      if HandleProjectedElsewhere(tx.projections, q.pageId, revision.handle) { return Failed(IndexViolation); }
      tx := tx.(projections := tx.projections[q.pageId := Shown(cmd.revisionId, revision, revision.handle)]);
      tx := tx.(events := tx.events + [Event(q.pageId, cmd.revisionId, Published)]);
      committed := tx;
      outcome := Done;
    }

    /** The part that unpublishing and suspension share. */
    method Withdraw(p: PageId, kind: EventKind) returns (outcome: Outcome)
      requires Agreement(committed) && p in committed.pages && committed.pages[p].head.Some? && !kind.Published?
      modifies this
      ensures Result(committed, outcome) == Withdrawn(old(committed), p, kind)
      ensures Agreement(committed) && outcome == Done
    {
      WithdrawnKeepsAgreement(committed, p, kind);
      var tx := committed;
      var previous := tx.pages[p].head.value;
      tx := tx.(pages := tx.pages[p := tx.pages[p].(head := None)]);
      if p in tx.projections && tx.projections[p].revisionId == previous {
        tx := tx.(projections := tx.projections[p := tx.projections[p].(enabled := false)]);
        tx := tx.(events := tx.events + [Event(p, previous, kind)]);
        committed := tx;
        outcome := Done;
      } else {
        assert false;
      }
    }

    method Unpublish(q: Request) returns (outcome: Outcome)
      requires Agreement(committed)
      modifies this
      ensures Result(committed, outcome) == DoUnpublish(old(committed), q)
      ensures Agreement(committed)
    {
      if q.expectedVersion <= 0 { return Failed(PolicyViolation); }
      var refusal := MutationRefusal(committed, q, true, false);
      if refusal.Some? { return Failed(refusal.value); }
      if committed.pages[q.pageId].head.None? { return Failed(PolicyViolation); }
      outcome := Withdraw(q.pageId, Unpublished);
    }

    method ClearForSuspension(user: UserId) returns (outcome: Outcome)
      requires Agreement(committed)
      modifies this
      ensures Result(committed, outcome) == DoClear(old(committed), user)
      ensures Agreement(committed) && outcome == Done
      ensures forall p :: Owns(committed.pages, user, p) ==> committed.pages[p].head.None?
    {
      ClearKeepsAgreement(committed, user);
      if p :| p in committed.pages && committed.pages[p].userId == user {
        assert Owns(committed.pages, user, p);
        assert PageOfUser(committed.pages, user) == Some(p);
        if committed.pages[p].head.Some? {
          outcome := Withdraw(p, SuspensionUnpublish);
        } else {
          if p in committed.projections {
            committed := committed.(projections :=
                committed.projections[p := committed.projections[p].(enabled := false)]);
          }
          outcome := Done;
        }
      } else {
        assert forall p :: !Owns(committed.pages, user, p);
        outcome := Done;
      }
    }
  }
}
