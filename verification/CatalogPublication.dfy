/**
 Catalog publication. Pages, handle claims, publication revisions and the discovery projection
 that the public directory reads, changed by the catalog's commands. A command is one
 transaction that holds its page row; a failure leaves everything as it was.
 */
module CatalogPublication {
  import opened Common

  type PageId = string
  type UserId = string
  type RevisionId = string
  type AssetId = string
  type Handle = string

  datatype Page = Page(userId: UserId, version: int, head: Option<RevisionId>, renameAvailableAt: Option<Instant>)

  datatype Kind = Canonical | Alias

  datatype Claim = Claim(pageId: PageId, kind: Kind)

  datatype Texts = Texts(displayName: string, introduction: string)

  datatype Draft = Draft(texts: Texts, primary: Discipline, secondary: seq<Discipline>, avatar: Option<AssetId>)

  datatype Revision = Revision(
    pageId: PageId, number: nat, handle: Handle, texts: Texts, primary: Discipline, secondary: seq<Discipline>,
    avatarThumb: Option<string>, publishedAt: Instant)

  datatype Projection = Projection(
    revisionId: RevisionId, handle: Handle, texts: Texts, disciplines: seq<Discipline>,
    avatarThumb: Option<string>, revisionAt: Instant, enabled: bool)

  datatype EventKind = Published | Unpublished | SuspensionUnpublish

  datatype Event = Event(pageId: PageId, revisionId: RevisionId, kind: EventKind)

  /** The catalog's tables. Keying claims by handle is the unique index on handles. */
  datatype Catalog = Catalog(
    pages: map<PageId, Page>, claims: map<Handle, Claim>, drafts: map<PageId, Draft>,
    revisions: map<RevisionId, Revision>, projections: map<PageId, Projection>, events: seq<Event>)

  const EMPTY: Catalog := Catalog(map[], map[], map[], map[], map[], [])

  /** How long a page must wait between renames: 30 days. */
  const RENAME_COOLDOWN_MS: int := 2_592_000_000

  // ----- policy

  datatype Discipline =
    | Illustration | Drawing | Painting | Comics | Animation | ThreeD | GraphicDesign | Photography | Crafts | Other

  const RESERVED: set<string> := {
    "admin", "api", "assets", "auth", "creator", "creators", "favicon", "forgot-password", "health",
    "legal", "media", "metrics", "pawket", "privacy", "reset-password", "robots", "security", "settings",
    "sign-in", "sign-up", "sitemap", "static", "support", "terms", "verify-email", "_next"}

  predicate HandleChar(c: char) { '0' <= c <= '9' || 'a' <= c <= 'z' }

  /** Runs of letters and digits joined by single hyphens. */
  predicate PublicHandle(h: Handle) {
    && 3 <= |h| <= 30
    && HandleChar(h[0]) && HandleChar(h[|h| - 1])
    && (forall i :: 0 <= i < |h| ==> HandleChar(h[i]) || h[i] == '-')
    && (forall i :: 0 < i < |h| && h[i] == '-' ==> h[i - 1] != '-')
  }

  predicate NormalHandle(h: Handle) { PublicHandle(h) && h !in RESERVED }

  predicate NormalDisciplines(primary: Discipline, secondary: seq<Discipline>) {
    && |secondary| <= 2 && primary !in secondary
    && (forall i, j :: 0 <= i < j < |secondary| ==> secondary[i] != secondary[j])
  }

  // ----- lookups

  predicate IsCanonical(claims: map<Handle, Claim>, p: PageId, h: Handle) {
    h in claims && claims[h] == Claim(p, Canonical)
  }

  /** The canonical handle of a page; the schema allows one. */
  ghost function CanonicalOf(claims: map<Handle, Claim>, p: PageId): (r: Option<Handle>)
    ensures r.Some? ==> IsCanonical(claims, p, r.value)
    ensures r.None? ==> forall h :: !IsCanonical(claims, p, h)
  {
    if h :| IsCanonical(claims, p, h) then Some(h) else None
  }

  predicate Owns(pages: map<PageId, Page>, user: UserId, p: PageId) {
    p in pages && pages[p].userId == user
  }

  ghost function PageOfUser(pages: map<PageId, Page>, user: UserId): (r: Option<PageId>)
    ensures r.Some? ==> Owns(pages, user, r.value)
    ensures r.None? ==> forall p :: !Owns(pages, user, p)
  {
    if p :| Owns(pages, user, p) then Some(p) else None
  }

  /** `n` is the largest revision number of the page, zero when it has none. */
  ghost predicate LargestNumber(revisions: map<RevisionId, Revision>, p: PageId, n: nat) {
    && (forall r :: r in revisions && revisions[r].pageId == p ==> revisions[r].number <= n)
    && (n == 0 || exists r :: r in revisions && revisions[r].pageId == p && revisions[r].number == n)
  }

  lemma {:induction false} LargestExists(revisions: map<RevisionId, Revision>, p: PageId)
    ensures exists n :: LargestNumber(revisions, p, n)
    decreases |revisions|
  {
    if r :| r in revisions {
      var rest := revisions - {r};
      assert r !in rest && forall q :: q in rest ==> q in revisions && rest[q] == revisions[q];
      assert rest.Keys == revisions.Keys - {r};
      LargestExists(rest, p);
      var n :| LargestNumber(rest, p, n);
      var top := if revisions[r].pageId == p && revisions[r].number > n then revisions[r].number else n;
      assert LargestNumber(revisions, p, top);
    } else {
      assert LargestNumber(revisions, p, 0);
    }
  }

  ghost function MaxRevision(revisions: map<RevisionId, Revision>, p: PageId): (n: nat)
    ensures LargestNumber(revisions, p, n)
  {
    LargestExists(revisions, p);
    var n :| LargestNumber(revisions, p, n);
    n
  }

  /** Another page's projection already carries this handle: the index on projected handles refuses it. */
  predicate HandleProjectedElsewhere(projections: map<PageId, Projection>, p: PageId, h: Handle) {
    exists q :: q in projections && q != p && projections[q].handle == h
  }

  // ----- commands

  datatype Code =
    | NotFound | VersionConflict | HandleUnavailable | RecentAuthRequired | RenameCooldown
    | PolicyViolation | PublishingDisabled
    | ProjectionMissing    // the projection update did not touch one row
    | IndexViolation       // an insert or update refused by a unique index nobody handles

  datatype Outcome = Done | Failed(code: Code)

  /** What every owner command carries, with what its ports answered: the creator seed and the clock. */
  datatype Request = Request(
    userId: UserId, pageId: PageId, expectedVersion: int, enabled: bool, active: Option<bool>, recent: bool,
        at: Instant)

  datatype Command =
    | Initialize(userId: UserId, pageId: PageId, enabled: bool, active: Option<bool>, texts: Option<Texts>)
    | ClaimHandle(request: Request, handle: Handle)
    | RenameHandle(request: Request, handle: Handle)
    | SaveDraft(request: Request, draft: Draft)
    | Publish(request: Request, revisionId: RevisionId, texts: Option<Texts>, thumbs: map<AssetId, string>, held: bool)
    | Unpublish(request: Request)
    | ClearForSuspension(userId: UserId)

  datatype Result = Result(catalog: Catalog, outcome: Outcome)

  /** The checks of a mutation before its own change, in the order they are made. */
  function MutationRefusal(c: Catalog, q: Request, activeOnly: bool, needsRecent: bool): Option<Code> {
    if !Owns(c.pages, q.userId, q.pageId) then Some(NotFound)
    else if !q.enabled then Some(PublishingDisabled)
    else if q.active.None? || (activeOnly && !q.active.value) then Some(NotFound)
    else if needsRecent && !q.recent then Some(RecentAuthRequired)
    else if c.pages[q.pageId].version != q.expectedVersion then Some(VersionConflict)
    else None
  }

  function Bumped(c: Catalog, p: PageId): Catalog
    requires p in c.pages
  {
    c.(pages := c.pages[p := c.pages[p].(version := c.pages[p].version + 1)])
  }

  ghost function DoInitialize(c: Catalog, cmd: Command): Result
    requires cmd.Initialize?
  {
    if PageOfUser(c.pages, cmd.userId).Some? then Result(c, Done)
    else if cmd.active != Some(true) then Result(c, Failed(NotFound))
    else if !cmd.enabled then Result(c, Failed(PublishingDisabled))
    else if cmd.texts.None? then Result(c, Failed(PolicyViolation))
    else if cmd.pageId in c.pages then Result(c, Failed(IndexViolation))
    else Result(
      c.(pages := c.pages[cmd.pageId := Page(cmd.userId, 1, None, None)],
         drafts := c.drafts[cmd.pageId := Draft(cmd.texts.value, Other, [], None)]), Done)
  }

  ghost function DoClaim(c: Catalog, q: Request, h: Handle): Result {
    var refusal := MutationRefusal(c, q, true, true);
    if !NormalHandle(h) then Result(c, Failed(PolicyViolation))
    else if refusal.Some? then Result(c, Failed(refusal.value))
    else if CanonicalOf(c.claims, q.pageId).Some? || h in c.claims then Result(c, Failed(HandleUnavailable))
    else Result(Bumped(c.(claims := c.claims[h := Claim(q.pageId, Canonical)]), q.pageId), Done)
  }

  predicate CoolingDown(page: Page, at: Instant) { page.renameAvailableAt.Some? && page.renameAvailableAt.value > at }

  function Renamed(projections: map<PageId, Projection>, p: PageId, h: Handle): map<PageId, Projection> {
    if p in projections then projections[p := projections[p].(handle := h)] else projections
  }

  /** The claims after a rename: the old handle stays with the page as an alias. */
  function RenamedClaims(claims: map<Handle, Claim>, p: PageId, from: Handle, to: Handle): map<Handle, Claim> {
    claims[from := Claim(p, Alias)][to := Claim(p, Canonical)]
  }

  /** All that an accepted rename writes: the claims, the cooldown, the projection and the draft version. */
  function Moved(c: Catalog, q: Request, from: Handle, to: Handle): Catalog
    requires q.pageId in c.pages
  {
    var page := c.pages[q.pageId].(renameAvailableAt := Some(q.at + RENAME_COOLDOWN_MS));
    Bumped(
      c.(claims := RenamedClaims(c.claims, q.pageId, from, to),
         pages := c.pages[q.pageId := page],
         projections := Renamed(c.projections, q.pageId, to)),
      q.pageId)
  }

  ghost function DoRename(c: Catalog, q: Request, h: Handle): Result {
    var refusal := MutationRefusal(c, q, true, true);
    var current := CanonicalOf(c.claims, q.pageId);
    if !NormalHandle(h) then Result(c, Failed(PolicyViolation))
    else if refusal.Some? then Result(c, Failed(refusal.value))
    else if CoolingDown(c.pages[q.pageId], q.at) then Result(c, Failed(RenameCooldown))
    else if current.None? || current.value == h || h in c.claims then Result(c, Failed(HandleUnavailable))
    else if q.pageId in c.projections
        && HandleProjectedElsewhere(c.projections, q.pageId, h) then Result(c, Failed(IndexViolation))
    else Result(Moved(c, q, current.value, h), Done)
  }

  function DoSave(c: Catalog, q: Request, draft: Draft): Result {
    var refusal := MutationRefusal(c, q, false, false);
    if !NormalDisciplines(draft.primary, draft.secondary) then Result(c, Failed(PolicyViolation))
    else if refusal.Some? then Result(c, Failed(refusal.value))
    else if q.pageId !in c.drafts then Result(c, Failed(NotFound))
    else Result(Bumped(c.(drafts := c.drafts[q.pageId := draft]), q.pageId), Done)
  }

  /** Why a publication is refused before anything is written. */
  ghost function PublishRefusal(c: Catalog, cmd: Command): Option<Code>
    requires cmd.Publish?
  {
    var q := cmd.request;
    var refusal := MutationRefusal(c, q, true, false);
    if q.expectedVersion <= 0 then Some(PolicyViolation)
    else if refusal.Some? then refusal
    else if q.pageId !in c.drafts || CanonicalOf(c.claims, q.pageId).None? then Some(PolicyViolation)
    else if !NormalHandle(CanonicalOf(c.claims, q.pageId).value) then Some(PolicyViolation)
    else if !NormalDisciplines(c.drafts[q.pageId].primary, c.drafts[q.pageId].secondary)
        || cmd.texts.None? then Some(PolicyViolation)
    else if cmd.held then Some(PolicyViolation)
    else if c.drafts[q.pageId].avatar.Some? && c.drafts[q.pageId].avatar.value !in cmd.thumbs then Some(PolicyViolation)
    else None
  }

  function ThumbOf(avatar: Option<AssetId>, thumbs: map<AssetId, string>): Option<string>
    requires avatar.Some? ==> avatar.value in thumbs
  {
    if avatar.Some? then Some(thumbs[avatar.value]) else None
  }

  /** The snapshot of the draft that a publication freezes. */
  ghost function NewRevision(c: Catalog, cmd: Command): Revision
    requires cmd.Publish? && PublishRefusal(c, cmd).None?
  {
    var p := cmd.request.pageId;
    var d := c.drafts[p];
    Revision(p, MaxRevision(c.revisions, p) + 1, CanonicalOf(c.claims, p).value, cmd.texts.value, d.primary,
        d.secondary,
             ThumbOf(d.avatar, cmd.thumbs), cmd.request.at)
  }

  /** The directory entry that shows a revision under a handle. */
  function Shown(id: RevisionId, r: Revision, h: Handle): Projection {
    Projection(id, h, r.texts, [r.primary] + r.secondary, r.avatarThumb, r.publishedAt, true)
  }

  /** The page already has a revision with that number, or that id is taken. */
  predicate RevisionClashes(revisions: map<RevisionId, Revision>, id: RevisionId, r: Revision) {
    || id in revisions
    || (exists other ::
          other in revisions && revisions[other].pageId == r.pageId && revisions[other].number == r.number)
  }

  /** All that an accepted publication writes: the revision, the head, the directory entry and the event. */
  function Publication(c: Catalog, p: PageId, id: RevisionId, r: Revision): Catalog
    requires p in c.pages
  {
    c.(revisions := c.revisions[id := r],
       pages := c.pages[p := c.pages[p].(head := Some(id))],
       projections := c.projections[p := Shown(id, r, r.handle)],
       events := c.events + [Event(p, id, Published)])
  }

  ghost function DoPublish(c: Catalog, cmd: Command): Result
    requires cmd.Publish?
  {
    var refusal := PublishRefusal(c, cmd);
    if refusal.Some? then Result(c, Failed(refusal.value))
    else
      var p := cmd.request.pageId;
      var revision := NewRevision(c, cmd);
      if RevisionClashes(c.revisions, cmd.revisionId, revision) then Result(c, Failed(IndexViolation))
      else if HandleProjectedElsewhere(c.projections, p, revision.handle) then Result(c, Failed(IndexViolation))
      else Result(Publication(c, p, cmd.revisionId, revision), Done)
  }

  /** Clears a head and disables the projection of the revision it showed. */
  function Withdrawn(c: Catalog, p: PageId, kind: EventKind): Result
    requires p in c.pages && c.pages[p].head.Some?
  {
    var previous := c.pages[p].head.value;
    if p !in c.projections || c.projections[p].revisionId != previous then Result(c, Failed(ProjectionMissing))
    else Result(
      c.(pages := c.pages[p := c.pages[p].(head := None)],
         projections := c.projections[p := c.projections[p].(enabled := false)],
         events := c.events + [Event(p, previous, kind)]),
      Done)
  }

  function DoUnpublish(c: Catalog, q: Request): Result {
    var refusal := MutationRefusal(c, q, true, false);
    if q.expectedVersion <= 0 then Result(c, Failed(PolicyViolation))
    else if refusal.Some? then Result(c, Failed(refusal.value))
    else if c.pages[q.pageId].head.None? then Result(c, Failed(PolicyViolation))
    else Withdrawn(c, q.pageId, Unpublished)
  }

  ghost function DoClear(c: Catalog, user: UserId): Result {
    var page := PageOfUser(c.pages, user);
    if page.None? then Result(c, Done)
    else if c.pages[page.value].head.Some? then Withdrawn(c, page.value, SuspensionUnpublish)
    else if page.value in c.projections then
      Result(c.(projections := c.projections[page.value := c.projections[page.value].(enabled := false)]), Done)
    else Result(c, Done)
  }

  ghost function Apply(c: Catalog, cmd: Command): Result {
    match cmd
    case Initialize(_, _, _, _, _) => DoInitialize(c, cmd)
    case ClaimHandle(q, h) => DoClaim(c, q, h)
    case RenameHandle(q, h) => DoRename(c, q, h)
    case SaveDraft(q, d) => DoSave(c, q, d)
    case Publish(_, _, _, _, _) => DoPublish(c, cmd)
    case Unpublish(q) => DoUnpublish(c, q)
    case ClearForSuspension(user) => DoClear(c, user)
  }

  // ----- the invariant

  /** Every claim belongs to a page, and no page has two canonical ones. */
  ghost predicate ClaimsOk(owners: set<PageId>, claims: map<Handle, Claim>) {
    && (forall h :: h in claims ==> claims[h].pageId in owners)
    && (forall h, k :: h in claims && k in claims && claims[h].kind.Canonical? && claims[k] == claims[h] ==> h == k)
  }

  ghost predicate HandlesNormal(claims: map<Handle, Claim>) {
    forall h :: h in claims ==> NormalHandle(h)
  }

  /** A revision keeps a handle that its page still holds, whether as canonical or as alias. */
  ghost predicate RevisionsOk(claims: map<Handle, Claim>, revisions: map<RevisionId, Revision>) {
    forall id :: id in revisions ==>
        revisions[id].handle in claims && claims[revisions[id].handle].pageId == revisions[id].pageId
  }

  /** A projection shows a revision of its page, under the page's current canonical handle. */
  ghost predicate ProjectionOk(
    claims: map<Handle, Claim>, revisions: map<RevisionId, Revision>, p: PageId, x: Projection) {
    && IsCanonical(claims, p, x.handle)
    && x.revisionId in revisions && revisions[x.revisionId].pageId == p
    && x.(enabled := true) == Shown(x.revisionId, revisions[x.revisionId], x.handle)
  }

  ghost predicate ProjectionsOk(
    claims: map<Handle, Claim>, revisions: map<RevisionId, Revision>, projections: map<PageId, Projection>) {
    forall p :: p in projections ==> ProjectionOk(claims, revisions, p, projections[p])
  }

  /** A page's head and its directory entry tell the same story. */
  predicate Agrees(head: Option<RevisionId>, x: Option<Projection>) {
    && (head.Some? <==> x.Some? && x.value.enabled)
    && (head.Some? ==> x.value.revisionId == head.value)
  }

  function Entry(projections: map<PageId, Projection>, p: PageId): Option<Projection> {
    if p in projections then Some(projections[p]) else None
  }

  function Head(pages: map<PageId, Page>, p: PageId): Option<RevisionId> {
    if p in pages then pages[p].head else None
  }

  ghost predicate HeadsAgree(pages: map<PageId, Page>, projections: map<PageId, Projection>) {
    && projections.Keys <= pages.Keys
    && forall p :: p in pages ==> Agrees(pages[p].head, Entry(projections, p))
  }

  ghost predicate OwnersDiffer(pages: map<PageId, Page>) {
    forall p, q :: p in pages && q in pages && pages[p].userId == pages[q].userId ==> p == q
  }

  /** The head that the ledger of publication events implies. */
  function LedgerHead(events: seq<Event>, p: PageId): Option<RevisionId> {
    if events == [] then None
    else
      var last := events[|events| - 1];
      if last.pageId != p then LedgerHead(events[..|events| - 1], p)
      else if last.kind.Published? then Some(last.revisionId) else None
  }

  ghost predicate LedgerOk(pages: map<PageId, Page>, events: seq<Event>) {
    forall p :: LedgerHead(events, p) == Head(pages, p)
  }

  ghost predicate Agreement(c: Catalog) {
    && ClaimsOk(c.pages.Keys, c.claims) && HandlesNormal(c.claims) && RevisionsOk(c.claims, c.revisions)
    && ProjectionsOk(c.claims, c.revisions, c.projections) && HeadsAgree(c.pages, c.projections)
    && OwnersDiffer(c.pages) && LedgerOk(c.pages, c.events)
  }

  // ----- table by table

  /** Pages change in version and cooldown only. */
  ghost predicate SameHeads(pages: map<PageId, Page>, pages': map<PageId, Page>) {
    pages.Keys == pages'.Keys && forall p :: p in pages ==>
        pages'[p].head == pages[p].head && pages'[p].userId == pages[p].userId
  }

  lemma {:induction false} SameHeadsKeep(
    pages: map<PageId, Page>, pages': map<PageId, Page>, projections: map<PageId, Projection>, events: seq<Event>)
    requires SameHeads(pages, pages')
    requires HeadsAgree(pages, projections) && OwnersDiffer(pages) && LedgerOk(pages, events)
    ensures HeadsAgree(pages', projections) && OwnersDiffer(pages') && LedgerOk(pages', events)
  {
    forall p ensures LedgerHead(events, p) == Head(pages', p) {
      assert LedgerHead(events, p) == Head(pages, p);
    }
  }

  lemma {:induction false} LedgerGrows(events: seq<Event>, e: Event, p: PageId)
    ensures LedgerHead(events + [e], p)
            == if e.pageId != p then LedgerHead(events, p) else if e.kind.Published? then Some(e.revisionId) else None
  {
    assert (events + [e])[..|events|] == events;
  }

  /** The event that a command appends records the head it sets. */
  lemma {:induction false} LedgerFollows(pages: map<PageId, Page>, events: seq<Event>, p: PageId, page: Page, e: Event)
    requires LedgerOk(pages, events) && p in pages && e.pageId == p
    requires page.head == if e.kind.Published? then Some(e.revisionId) else None
    ensures LedgerOk(pages[p := page], events + [e])
  {
    forall q ensures LedgerHead(events + [e], q) == Head(pages[p := page], q) {
      LedgerGrows(events, e, q);
      assert LedgerHead(events, q) == Head(pages, q);
    }
  }

  lemma HeadFollows(
    pages: map<PageId, Page>, projections: map<PageId, Projection>, p: PageId, page: Page, x: Projection)
    requires HeadsAgree(pages, projections) && OwnersDiffer(pages) && p in pages
    requires Agrees(page.head, Some(x)) && page.userId == pages[p].userId
    ensures HeadsAgree(pages[p := page], projections[p := x]) && OwnersDiffer(pages[p := page])
  {
    var pages', projections' := pages[p := page], projections[p := x];
    forall q | q in pages' ensures Agrees(pages'[q].head, Entry(projections', q)) {
      if q != p {
        assert Entry(projections', q) == Entry(projections, q);
      }
    }
  }

  /** No handle is given up: a page keeps every handle it ever claimed. */
  ghost predicate ClaimsGrow(claims: map<Handle, Claim>, claims': map<Handle, Claim>) {
    forall h :: h in claims ==> h in claims' && claims'[h].pageId == claims[h].pageId
  }

  lemma NewCanonical(owners: set<PageId>, claims: map<Handle, Claim>, p: PageId, h: Handle)
    requires ClaimsOk(owners, claims) && p in owners && h !in claims
    requires forall k :: !IsCanonical(claims, p, k)
    ensures ClaimsOk(owners, claims[h := Claim(p, Canonical)]) && ClaimsGrow(claims, claims[h := Claim(p, Canonical)])
  {
    forall k | k in claims && claims[k] == Claim(p, Canonical) ensures false {
      assert IsCanonical(claims, p, k);
    }
  }

  lemma RenamedClaimsOk(owners: set<PageId>, claims: map<Handle, Claim>, p: PageId, from: Handle, to: Handle)
    requires ClaimsOk(owners, claims) && IsCanonical(claims, p, from) && to !in claims
    ensures ClaimsOk(owners, RenamedClaims(claims, p, from, to))
            && ClaimsGrow(claims, RenamedClaims(claims, p, from, to))
  {
    var demoted := claims[from := Claim(p, Alias)];
    forall k ensures !IsCanonical(demoted, p, k) {
      assert k in claims && k != from ==> claims[k] != claims[from];
    }
    NewCanonical(owners, demoted, p, to);
  }

  lemma HandlesStayNormal(claims: map<Handle, Claim>, p: PageId, from: Handle, to: Handle)
    requires HandlesNormal(claims) && from in claims && NormalHandle(to)
    ensures HandlesNormal(RenamedClaims(claims, p, from, to))
  {
  }

  lemma RevisionsKeepHandles(
    claims: map<Handle, Claim>, claims': map<Handle, Claim>, revisions: map<RevisionId, Revision>)
    requires RevisionsOk(claims, revisions) && ClaimsGrow(claims, claims')
    ensures RevisionsOk(claims', revisions)
  {
  }

  lemma RevisionAdded(claims: map<Handle, Claim>, revisions: map<RevisionId, Revision>, id: RevisionId, r: Revision)
    requires RevisionsOk(claims, revisions) && r.handle in claims && claims[r.handle].pageId == r.pageId
    ensures RevisionsOk(claims, revisions[id := r])
  {
  }

  /** Canonical handles of distinct pages are distinct, so their projections cannot collide. */
  lemma NoHandleCollision(
    claims: map<Handle, Claim>, revisions: map<RevisionId, Revision>, projections: map<PageId, Projection>,
    p: PageId, h: Handle)
    requires ProjectionsOk(claims, revisions, projections)
    requires h !in claims || claims[h].pageId == p
    ensures !HandleProjectedElsewhere(projections, p, h)
  {
    forall q | q in projections && q != p ensures projections[q].handle != h {
      assert ProjectionOk(claims, revisions, q, projections[q]);
    }
  }

  lemma ProjectionHasHandle(
    claims: map<Handle, Claim>, revisions: map<RevisionId, Revision>, projections: map<PageId, Projection>,
    p: PageId)
    requires ProjectionsOk(claims, revisions, projections)
    ensures p in projections ==> CanonicalOf(claims, p).Some?
  {
    if p in projections {
      assert ProjectionOk(claims, revisions, p, projections[p]);
    }
  }

  /** Other pages' projections survive a change of one page's claims and of its projection. */
  lemma ProjectionsKeep(
    claims: map<Handle, Claim>, claims': map<Handle, Claim>, revisions: map<RevisionId, Revision>,
        revisions': map<RevisionId, Revision>,
    projections: map<PageId, Projection>, p: PageId, x: Option<Projection>)
    requires ProjectionsOk(claims, revisions, projections)
    requires forall h :: h in claims && claims[h].pageId != p ==> h in claims' && claims'[h] == claims[h]
    requires forall id :: id in revisions ==> id in revisions' && revisions'[id] == revisions[id]
    requires match x case Some(y) => ProjectionOk(claims', revisions', p, y) case None => p !in projections
    ensures ProjectionsOk(claims', revisions', if x.Some? then projections[p := x.value] else projections)
  {
    var projections' := if x.Some? then projections[p := x.value] else projections;
    forall q | q in projections' ensures ProjectionOk(claims', revisions', q, projections'[q]) {
      if q != p {
        assert ProjectionOk(claims, revisions, q, projections[q]);
      }
    }
  }

  // ----- command by command

  lemma {:induction false} InitializeKeepsAgreement(c: Catalog, cmd: Command)
    requires Agreement(c) && cmd.Initialize?
    ensures Agreement(DoInitialize(c, cmd).catalog)
  {
    var c' := DoInitialize(c, cmd).catalog;
    if c' != c {
      assert forall q :: q in c.pages ==> Owns(c.pages, c.pages[q].userId, q) && c.pages[q].userId != cmd.userId;
      forall p ensures LedgerHead(c'.events, p) == Head(c'.pages, p) {
        assert LedgerHead(c.events, p) == Head(c.pages, p);
      }
      forall q | q in c'.pages ensures Agrees(c'.pages[q].head, Entry(c'.projections, q)) {
        assert q in c.pages ==> Agrees(c.pages[q].head, Entry(c.projections, q));
      }
    }
  }

  lemma {:induction false} ClaimKeepsAgreement(c: Catalog, q: Request, h: Handle)
    requires Agreement(c)
    ensures Agreement(DoClaim(c, q, h).catalog)
  {
    var c' := DoClaim(c, q, h).catalog;
    if c' != c {
      NewCanonical(c.pages.Keys, c.claims, q.pageId, h);
      RevisionsKeepHandles(c.claims, c'.claims, c.revisions);
      SameHeadsKeep(c.pages, c'.pages, c.projections, c.events);
      ProjectionHasHandle(c.claims, c.revisions, c.projections, q.pageId);
      ProjectionsKeep(c.claims, c'.claims, c.revisions, c.revisions, c.projections, q.pageId, None);
    }
  }

  lemma {:induction false} RenameIsNotBlocked(c: Catalog, q: Request, h: Handle)
    requires Agreement(c)
    ensures DoRename(c, q, h).outcome != Failed(IndexViolation)
  {
    if h !in c.claims {
      NoHandleCollision(c.claims, c.revisions, c.projections, q.pageId, h);
    }
  }

  lemma {:induction false} RenamedProjections(c: Catalog, p: PageId, from: Handle, h: Handle)
    requires ProjectionsOk(c.claims, c.revisions, c.projections)
    requires IsCanonical(c.claims, p, from) && h !in c.claims
    ensures ProjectionsOk(RenamedClaims(c.claims, p, from, h), c.revisions, Renamed(c.projections, p, h))
  {
    var claims' := RenamedClaims(c.claims, p, from, h);
    if p in c.projections {
      assert ProjectionOk(c.claims, c.revisions, p, c.projections[p]);
      ProjectionsKeep(c.claims, claims', c.revisions, c.revisions, c.projections, p,
          Some(c.projections[p].(handle := h)));
    } else {
      ProjectionsKeep(c.claims, claims', c.revisions, c.revisions, c.projections, p, None);
    }
  }

  lemma RenamedHeads(pages: map<PageId, Page>, projections: map<PageId, Projection>, p: PageId, h: Handle)
    requires HeadsAgree(pages, projections)
    ensures HeadsAgree(pages, Renamed(projections, p, h))
  {
    forall q | q in pages ensures Agrees(pages[q].head, Entry(Renamed(projections, p, h), q)) {
      assert Agrees(pages[q].head, Entry(projections, q));
    }
  }

  /** What an accepted rename does to each table. */
  ghost predicate RenameEffect(c: Catalog, c': Catalog, p: PageId, from: Handle, to: Handle) {
    && IsCanonical(c.claims, p, from) && to !in c.claims && NormalHandle(to)
    && SameHeads(c.pages, c'.pages)
    && c'.claims == RenamedClaims(c.claims, p, from, to)
    && c'.projections == Renamed(c.projections, p, to)
    && c'.revisions == c.revisions && c'.events == c.events
  }

  lemma {:induction false} RenameHasEffect(c: Catalog, q: Request, h: Handle)
    ensures var c' := DoRename(c, q, h).catalog;
            c' == c || (CanonicalOf(c.claims, q.pageId).Some?
                && RenameEffect(c, c', q.pageId, CanonicalOf(c.claims, q.pageId).value, h))
  {
  }

  lemma {:induction false} RenameEffectKeepsAgreement(c: Catalog, c': Catalog, p: PageId, from: Handle, to: Handle)
    requires Agreement(c) && RenameEffect(c, c', p, from, to)
    ensures Agreement(c')
  {
    RenamedClaimsOk(c.pages.Keys, c.claims, p, from, to);
    HandlesStayNormal(c.claims, p, from, to);
    RevisionsKeepHandles(c.claims, c'.claims, c.revisions);
    RenamedProjections(c, p, from, to);
    RenamedHeads(c.pages, c.projections, p, to);
    SameHeadsKeep(c.pages, c'.pages, c'.projections, c.events);
  }

  lemma {:induction false} RenameKeepsAgreement(c: Catalog, q: Request, h: Handle)
    requires Agreement(c)
    ensures Agreement(DoRename(c, q, h).catalog)
  {
    RenameHasEffect(c, q, h);
    var c' := DoRename(c, q, h).catalog;
    if c' != c {
      RenameEffectKeepsAgreement(c, c', q.pageId, CanonicalOf(c.claims, q.pageId).value, h);
    }
  }

  lemma {:induction false} PublishHitsNoIndex(c: Catalog, cmd: Command)
    requires Agreement(c) && cmd.Publish? && cmd.revisionId !in c.revisions
    ensures DoPublish(c, cmd).outcome != Failed(IndexViolation)
  {
    if PublishRefusal(c, cmd).None? {
      var r := NewRevision(c, cmd);
      NumberIsFresh(c.revisions, cmd.revisionId, r);
      NoHandleCollision(c.claims, c.revisions, c.projections, cmd.request.pageId, r.handle);
    }
  }

  lemma NumberIsFresh(revisions: map<RevisionId, Revision>, id: RevisionId, r: Revision)
    requires id !in revisions && r.number == MaxRevision(revisions, r.pageId) + 1
    ensures !RevisionClashes(revisions, id, r)
  {
    assert LargestNumber(revisions, r.pageId, MaxRevision(revisions, r.pageId));
  }

  lemma {:induction false} PublicationKeepsAgreement(c: Catalog, p: PageId, id: RevisionId, r: Revision)
    requires Agreement(c) && p in c.pages && r.pageId == p && id !in c.revisions && IsCanonical(c.claims, p, r.handle)
    ensures Agreement(Publication(c, p, id, r))
  {
    var x, page := Shown(id, r, r.handle), c.pages[p].(head := Some(id));
    LedgerFollows(c.pages, c.events, p, page, Event(p, id, Published));
    HeadFollows(c.pages, c.projections, p, page, x);
    ProjectionsKeep(c.claims, c.claims, c.revisions, c.revisions[id := r], c.projections, p, Some(x));
    RevisionAdded(c.claims, c.revisions, id, r);
    assert c.pages[p := page].Keys == c.pages.Keys;
  }

  lemma {:induction false} PublishKeepsAgreement(c: Catalog, cmd: Command)
    requires Agreement(c) && cmd.Publish?
    ensures Agreement(DoPublish(c, cmd).catalog)
  {
    var c' := DoPublish(c, cmd).catalog;
    if c' != c {
      PublicationKeepsAgreement(c, cmd.request.pageId, cmd.revisionId, NewRevision(c, cmd));
    }
  }

  lemma {:induction false} WithdrawnKeepsAgreement(c: Catalog, p: PageId, kind: EventKind)
    requires Agreement(c) && p in c.pages && c.pages[p].head.Some? && !kind.Published?
    ensures Withdrawn(c, p, kind).outcome == Done
    ensures Agreement(Withdrawn(c, p, kind).catalog)
  {
    assert Agrees(c.pages[p].head, Entry(c.projections, p));
    var c' := Withdrawn(c, p, kind).catalog;
    LedgerFollows(c.pages, c.events, p, c'.pages[p], Event(p, c.pages[p].head.value, kind));
    HeadFollows(c.pages, c.projections, p, c'.pages[p], c'.projections[p]);
    assert ProjectionOk(c.claims, c.revisions, p, c.projections[p]);
    ProjectionsKeep(c.claims, c.claims, c.revisions, c.revisions, c.projections, p, Some(c'.projections[p]));
  }

  lemma {:induction false} ClearKeepsAgreement(c: Catalog, user: UserId)
    requires Agreement(c)
    ensures Agreement(DoClear(c, user).catalog)
    ensures DoClear(c, user).outcome == Done
    ensures PageOfUser(c.pages, user).Some? ==>
            Head(DoClear(c, user).catalog.pages, PageOfUser(c.pages, user).value).None?
  {
    var page := PageOfUser(c.pages, user);
    if page.Some? {
      assert Agrees(c.pages[page.value].head, Entry(c.projections, page.value));
      if c.pages[page.value].head.Some? {
        WithdrawnKeepsAgreement(c, page.value, SuspensionUnpublish);
      } else if page.value in c.projections {
        assert c.projections[page.value].(enabled := false) == c.projections[page.value];
        assert c.projections[page.value := c.projections[page.value]] == c.projections;
      }
    }
  }

  lemma {:induction false} SaveKeepsAgreement(c: Catalog, q: Request, draft: Draft)
    requires Agreement(c)
    ensures Agreement(DoSave(c, q, draft).catalog)
  {
    var c' := DoSave(c, q, draft).catalog;
    if c' != c {
      SameHeadsKeep(c.pages, c'.pages, c.projections, c.events);
    }
  }

  lemma {:induction false} UnpublishIsWithdrawal(c: Catalog, q: Request)
    ensures var r := DoUnpublish(c, q);
            || (r.catalog == c && r.outcome.Failed? && r.outcome != Failed(ProjectionMissing)
            && r.outcome != Failed(IndexViolation))
            || (q.pageId in c.pages && c.pages[q.pageId].head.Some? && r == Withdrawn(c, q.pageId, Unpublished))
  {
  }

  lemma {:induction false} UnpublishKeepsAgreement(c: Catalog, q: Request)
    requires Agreement(c)
    ensures Agreement(DoUnpublish(c, q).catalog)
    ensures DoUnpublish(c, q).outcome != Failed(ProjectionMissing)
            && DoUnpublish(c, q).outcome != Failed(IndexViolation)
  {
    UnpublishIsWithdrawal(c, q);
    if q.pageId in c.pages && c.pages[q.pageId].head.Some? {
      WithdrawnKeepsAgreement(c, q.pageId, Unpublished);
    }
  }

  /** Every command, accepted or refused, keeps the tables in agreement. */
  lemma {:induction false} CommandKeepsAgreement(c: Catalog, cmd: Command)
    requires Agreement(c)
    ensures Agreement(Apply(c, cmd).catalog)
  {
    match cmd
    case Initialize(_, _, _, _, _) => InitializeKeepsAgreement(c, cmd);
    case ClaimHandle(q, h) => ClaimKeepsAgreement(c, q, h);
    case RenameHandle(q, h) => RenameKeepsAgreement(c, q, h);
    case SaveDraft(q, d) => SaveKeepsAgreement(c, q, d);
    case Publish(_, _, _, _, _) => PublishKeepsAgreement(c, cmd);
    case Unpublish(q) => UnpublishKeepsAgreement(c, q);
    case ClearForSuspension(user) => ClearKeepsAgreement(c, user);
  }

  // ----- over every run

  ghost function Run(c: Catalog, commands: seq<Command>): Catalog {
    if commands == [] then c else Apply(Run(c, commands[..|commands| - 1]), commands[|commands| - 1]).catalog
  }

  lemma {:induction false} RunKeepsAgreement(commands: seq<Command>)
    ensures Agreement(Run(EMPTY, commands))
  {
    if commands != [] {
      RunKeepsAgreement(commands[..|commands| - 1]);
      CommandKeepsAgreement(Run(EMPTY, commands[..|commands| - 1]), commands[|commands| - 1]);
    }
  }

  /** The test that the public query makes of a page before showing it. */
  ghost predicate Admits(c: Catalog, p: PageId) {
    && p in c.pages && c.pages[p].head.Some?
    && var id := c.pages[p].head.value;
       && id in c.revisions && c.revisions[id].pageId == p
       && p in c.projections
       && CanonicalOf(c.claims, p).Some? && PublicHandle(CanonicalOf(c.claims, p).value)
       && var r, x, canonical := c.revisions[id], c.projections[p], CanonicalOf(c.claims, p).value;
          && r.handle in c.claims && c.claims[r.handle].pageId == p
          && x.enabled && x.revisionId == id && x.handle == canonical
          && x.texts == r.texts && x.disciplines == [r.primary] + r.secondary
          && x.avatarThumb == r.avatarThumb && x.revisionAt == r.publishedAt
  }

  lemma {:induction false} PublishedIsAdmitted(c: Catalog, p: PageId)
    requires Agreement(c) && p in c.pages && c.pages[p].head.Some?
    ensures Admits(c, p)
  {
    assert Agrees(c.pages[p].head, Entry(c.projections, p));
    var x := c.projections[p];
    assert ProjectionOk(c.claims, c.revisions, p, x);
    assert IsCanonical(c.claims, p, CanonicalOf(c.claims, p).value);
    assert x.(enabled := true) == x;
  }

  /**
   Projection agreement: after any sequence of commands a page has a published head exactly when
   its projection is enabled, exactly when the public query admits it, and exactly when its last
   publication event published it; that event names the head.
   */
  lemma {:induction false} DirectoryAgrees(commands: seq<Command>, p: PageId)
    ensures var c := Run(EMPTY, commands);
            && (Admits(c, p) <==> p in c.pages && c.pages[p].head.Some?)
            && (Admits(c, p) <==> p in c.projections && c.projections[p].enabled)
            && LedgerHead(c.events, p) == Head(c.pages, p)
  {
    RunKeepsAgreement(commands);
    var c := Run(EMPTY, commands);
    assert p in c.pages ==> Agrees(c.pages[p].head, Entry(c.projections, p));
    if p in c.pages && c.pages[p].head.Some? {
      PublishedIsAdmitted(c, p);
    }
  }

  /** The failures that would mean a corrupt index cannot happen, given fresh revision and page ids. */
  lemma {:induction false} NoCorruptIndexFailure(commands: seq<Command>, cmd: Command)
    requires cmd.Publish? ==> cmd.revisionId !in Run(EMPTY, commands).revisions
    requires cmd.Initialize? ==> cmd.pageId !in Run(EMPTY, commands).pages
    ensures var outcome := Apply(Run(EMPTY, commands), cmd).outcome;
            outcome != Failed(ProjectionMissing) && outcome != Failed(IndexViolation)
  {
    RunKeepsAgreement(commands);
    var c := Run(EMPTY, commands);
    match cmd
    case Initialize(_, _, _, _, _) =>
    case ClaimHandle(q, h) =>
    case RenameHandle(q, h) => RenameIsNotBlocked(c, q, h);
    case SaveDraft(q, d) =>
    case Publish(_, _, _, _, _) => PublishHitsNoIndex(c, cmd);
    case Unpublish(q) => UnpublishKeepsAgreement(c, q);
    case ClearForSuspension(user) => ClearKeepsAgreement(c, user);
  }

  // ----- resolving handles

  datatype Resolution = Nothing | Redirect(handle: Handle) | Shows(pageId: PageId)

  /** What a public request for a handle finds. */
  ghost function Resolve(c: Catalog, h: Handle): Resolution {
    if !PublicHandle(h) || h !in c.claims || !Admits(c, c.claims[h].pageId) then Nothing
    else if c.claims[h].kind.Alias? then Redirect(CanonicalOf(c.claims, c.claims[h].pageId).value)
    else Shows(c.claims[h].pageId)
  }

  lemma {:induction false} ClaimKeepsClaims(c: Catalog, q: Request, h: Handle)
    ensures ClaimsGrow(c.claims, DoClaim(c, q, h).catalog.claims)
  {
  }

  lemma {:induction false} RenameKeepsClaims(c: Catalog, q: Request, h: Handle)
    requires ClaimsOk(c.pages.Keys, c.claims)
    ensures ClaimsGrow(c.claims, DoRename(c, q, h).catalog.claims)
  {
    RenameHasEffect(c, q, h);
    if DoRename(c, q, h).catalog != c {
      RenamedClaimsOk(c.pages.Keys, c.claims, q.pageId, CanonicalOf(c.claims, q.pageId).value, h);
    }
  }

  lemma {:induction false} OthersKeepClaims(c: Catalog, cmd: Command)
    requires !cmd.ClaimHandle? && !cmd.RenameHandle?
    ensures Apply(c, cmd).catalog.claims == c.claims
  {
  }

  lemma {:induction false} CommandKeepsClaims(c: Catalog, cmd: Command)
    requires ClaimsOk(c.pages.Keys, c.claims)
    ensures ClaimsGrow(c.claims, Apply(c, cmd).catalog.claims)
  {
    if cmd.ClaimHandle? {
      ClaimKeepsClaims(c, cmd.request, cmd.handle);
    } else if cmd.RenameHandle? {
      RenameKeepsClaims(c, cmd.request, cmd.handle);
    } else {
      OthersKeepClaims(c, cmd);
    }
  }

  lemma {:induction false} RunKeepsClaims(c: Catalog, commands: seq<Command>)
    requires Agreement(c)
    ensures Agreement(Run(c, commands)) && ClaimsGrow(c.claims, Run(c, commands).claims)
  {
    if commands != [] {
      var before := Run(c, commands[..|commands| - 1]);
      RunKeepsClaims(c, commands[..|commands| - 1]);
      CommandKeepsAgreement(before, commands[|commands| - 1]);
      CommandKeepsClaims(before, commands[|commands| - 1]);
    }
  }

  /**
   A handle is never lost or taken over: however often its page is renamed afterwards, as long as
   the page is published the handle shows it, or redirects in one hop to a handle that does.
   */
  lemma {:induction false} OldLinksStillLand(commands: seq<Command>, later: seq<Command>, h: Handle)
    requires h in Run(EMPTY, commands).claims
    ensures var p := Run(EMPTY, commands).claims[h].pageId;
            var c := Run(Run(EMPTY, commands), later);
            && h in c.claims && c.claims[h].pageId == p
            && (Head(c.pages, p).Some? ==>
                  Resolve(c, h) == Shows(p)
                      || (Resolve(c, h).Redirect? && Resolve(c, Resolve(c, h).handle) == Shows(p)))
            && (Head(c.pages, p).None? ==> Resolve(c, h) == Nothing)
  {
    RunKeepsAgreement(commands);
    RunKeepsClaims(Run(EMPTY, commands), later);
    var c := Run(Run(EMPTY, commands), later);
    var p := c.claims[h].pageId;
    if Head(c.pages, p).Some? {
      PublishedIsAdmitted(c, p);
      assert NormalHandle(h);
      assert NormalHandle(CanonicalOf(c.claims, p).value);
    }
  }
}
