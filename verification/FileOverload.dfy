/**
 How large a table may be. Three kinds of run break the check on the number of attempts: one in
 which rows are claimed between the select and the update of the failing pass, round after round;
 one in which nothing of the sort happens but the backlog is long enough; and one in which claims
 use readings of the clock that are older than the rounds in progress. The first two need no
 reading that is not current. Together with the bounds they give the exact size of a safe table.
 */
module FileOverload {
  import opened Common
  import opened FileSignature
  import opened FileRows
  import opened FileLifecycle
  import opened FileDatabase
  import opened FileAttempts
  import opened FileFleet
  import opened FileBacklog

  // ----- one file

  /** A file that was uploaded at 0, with `n` attempts behind it and no process at work. */
  predicate Idle(w: World, now: Instant, n: nat) {
    && w.row.state == Scanning && w.row.uploadedAt == Some(0) && w.row.scanDeadlineAt == Some(SCAN_DEADLINE_MS)
    && w.row.scanAttempts == n && w.row.updatedAt <= now
    && w.store.now == now && w.workers == map[] && w.sweeps == map[]
  }

  /** It can be claimed. */
  predicate Queued(w: World, now: Instant, n: nat) {
    Idle(w, now, n) && w.row.scanLeaseExpiresAt.None? && NullOrDue(w.row.nextScanAt, now)
  }

  /** A worker claimed it ten minutes before `t` and was never seen again. */
  predicate Left(w: World, now: Instant, n: nat, t: Instant) {
    && Idle(w, now, n) && w.row.scanLeaseExpiresAt == Some(t) && w.row.updatedAt == t - SCAN_LEASE_MS
    && NullOrDue(w.row.nextScanAt, w.row.updatedAt)
  }

  predicate Claimable(w: World, now: Instant, n: nat) {
    Idle(w, now, n) && NullOrDue(w.row.nextScanAt, now) && NullOrDue(w.row.scanLeaseExpiresAt, now)
  }

  lemma {:induction false} LeaveIt(w: World, now: Instant, n: nat)
    requires Claimable(w, now, n)
    ensures Left(Apply(Apply(w, Claim(1, now)), Crash(1)), now, n, now + SCAN_LEASE_MS)
  {
    var claimed := Apply(w, Claim(1, now));
    assert claimed == ApplyStart(w, Claim(1, now));
    assert claimed.workers == map[1 := Claimed(claimed.row, now)];
    CrashEffect(claimed);
  }

  lemma {:induction false} TimePasses(w: World, now: Instant, n: nat, later: Instant)
    requires Idle(w, now, n) && now <= later
    ensures Idle(Apply(w, Tick(later)), later, n) && Apply(w, Tick(later)).row == w.row
  {
  }

  lemma {:induction false} RecoverLeft(w: World, now: Instant, n: nat, t: Instant)
    requires Left(w, now, n, t) && t <= now && n < MAX_SCAN_ATTEMPTS
    ensures Queued(Apply(w, BulkSweep(RecoverLeases, now)), now, n + 1)
  {
  }

  lemma {:induction false} FailQueued(w: World, now: Instant)
    requires Queued(w, now, 0) && now >= SCAN_DEADLINE_MS
    ensures Apply(w, BulkSweep(FailOverdue, now)).row.state == ScanFailed
  {
  }

  lemma {:induction false} TakeQueued(w: World, now: Instant, n: nat)
    requires Queued(w, now, n)
    ensures var w' := Apply(w, Claim(1, now)); Taken(w', n, now) && w'.store == w.store && w'.row.updatedAt == now
  {
    assert Apply(w, Claim(1, now)) == ApplyStart(w, Claim(1, now));
  }

  lemma {:induction false} GiveUpLeavesRow(w: World, n: nat, t: Instant)
    requires Taken(w, n, t) && t < SCAN_DEADLINE_MS
    ensures var w' := Apply(w, GiveUp(1, t)); GivingUp(w', n, t, t) && w'.row == w.row && w'.store == w.store
  {
    GiveUpEffect(w, n, t, t);
    assert Apply(w, GiveUp(1, t)) == ApplyWorker(w, GiveUp(1, t), w.workers[1]);
  }

  lemma {:induction false} RecordGiveUp(w: World, n: nat, t: Instant)
    requires GivingUp(w, n, t, t) && n < MAX_SCAN_ATTEMPTS && w.store.now == t && w.row.updatedAt == t
    ensures var w' := Apply(w, SettleScan(1, t));
            && Idle(w', t, n + 1) && w'.row.scanLeaseExpiresAt.None?
            && w'.row.nextScanAt == Some(t + RetryDelayMs(n + 1))
  {
    RetryIsStored(w, t, t);
  }

  /** A worker claims the file and gives up at once. */
  lemma {:induction false} TakeAndGiveUp(w: World, now: Instant, n: nat)
    requires Queued(w, now, n) && now < SCAN_DEADLINE_MS
    ensures var w' := Apply(Apply(w, Claim(1, now)), GiveUp(1, now));
            GivingUp(w', n, now, now) && w'.store.now == now && w'.row.updatedAt == now
  {
    TakeQueued(w, now, n);
    GiveUpLeavesRow(Apply(w, Claim(1, now)), n, now);
  }

  // ----- the table around it

  /** Some habits, a batch size and a set of fleets. */
  datatype Region = Region(h: Habit, batch: nat, fleets: iset<Fleet>)

  /** The set holds the empty fleet, and no step that keeps the habits leads out of it. */
  ghost predicate Closed(g: Region) {
    && Fleet(0, map[], map[]) in g.fleets
    && forall f, step {:trigger Keeps(g.h, f, step)} :: f in g.fleets && Keeps(g.h, f, step) ==>
         Next(g.batch, f, step) in g.fleets
  }

  lemma {:induction false} StepStays(g: Region, f: Fleet, step: Step)
    requires Closed(g) && f in g.fleets && Keeps(g.h, f, step)
    ensures Next(g.batch, f, step) in g.fleets
  {
  }

  /** The runs below keep every clock reading current. */
  ghost predicate Now(g: Region) { Closed(g) && g.h.current }

  /** The target is the last of the files 0 to `z`. */
  ghost predicate Numbered(f: Fleet, z: nat) {
    forall i: nat :: i in f.files <==> i <= z
  }

  /** A file that nobody has touched since its upload. */
  predicate Fresh(w: World, now: Instant) {
    Queued(w, now, 0) && w.row.updatedAt == 0 && w.row.nextScanAt.None?
  }

  /** The backlog: files below `lo` have ended, the others wait untouched. */
  ghost predicate Backlog(f: Fleet, lo: nat, z: nat) {
    && Numbered(f, z)
    && (forall i: nat :: i < lo && i < z ==> f.files[i].row.state == ScanFailed)
    && (forall i: nat :: lo <= i < z ==> Fresh(f.files[i], f.now))
  }

  lemma {:induction false} NewIsFresh()
    ensures Fresh(Apply(Apply(Init(Brief, 1, 0), Tick(0)), FinishUpload(0)), 0)
  {
  }

  lemma {:induction false} Launch(g: Region, z: nat) returns (f: Fleet)
    requires Now(g)
    ensures f in g.fleets && f.now == 0 && f.rounds == map[] && Backlog(f, 0, z) && Fresh(f.files[z], 0)
  {
    if z == 0 {
      f := Fleet(0, map[], map[]);
    } else {
      f := Launch(g, z - 1);
    }
    f := Launched(g, f, z);
  }

  lemma {:induction false} Launched(g: Region, f: Fleet, z: nat) returns (f': Fleet)
    requires Now(g) && f in g.fleets && f.now == 0 && z !in f.files
    ensures f' in g.fleets && f'.now == 0 && f'.rounds == f.rounds
    ensures f'.files.Keys == f.files.Keys + {z} && Fresh(f'.files[z], 0)
    ensures forall i :: i in f.files ==> f'.files[i] == f.files[i]
  {
    StepStays(g, f, Create(z, Brief, 1, 0));
    var f1 := Next(g.batch, f, Create(z, Brief, 1, 0));
    assert f1.files == f.files[z := Apply(Init(Brief, 1, 0), Tick(0))];
    StepStays(g, f1, Act(z, FinishUpload(0)));
    f' := Next(g.batch, f1, Act(z, FinishUpload(0)));
    NewIsFresh();
  }

  /** Something happens to one file, with the current clock. */
  lemma {:induction false} ActNow(g: Region, f: Fleet, id: FileId, a: Action) returns (f': Fleet)
    requires Now(g) && f in g.fleets && id in f.files && Own(a)
    requires Reading(a).Some? ==> Reading(a).value == f.now
    ensures f' in g.fleets && f' == f.(files := f.files[id := Apply(f.files[id], a)])
  {
    StepStays(g, f, Act(id, a));
    f' := Next(g.batch, f, Act(id, a));
  }

  /** Only this file has changed. */
  predicate OnlyFile(f: Fleet, f': Fleet, id: FileId) {
    && f'.now == f.now && f'.rounds == f.rounds && f'.files.Keys == f.files.Keys
    && (forall i :: i in f.files && i != id ==> f'.files[i] == f.files[i])
  }

  lemma {:induction false} ClaimAndCrash(g: Region, f: Fleet, id: FileId) returns (f': Fleet)
    requires Now(g) && f in g.fleets && id in f.files
    ensures f' in g.fleets && OnlyFile(f, f', id)
    ensures f'.files[id] == Apply(Apply(f.files[id], Claim(1, f.now)), Crash(1))
  {
    var f1 := ActNow(g, f, id, Claim(1, f.now));
    f' := ActNow(g, f1, id, Crash(1));
  }

  lemma {:induction false} LeaveOne(g: Region, f: Fleet, id: FileId, n: nat) returns (f': Fleet)
    requires Now(g) && f in g.fleets && id in f.files && Claimable(f.files[id], f.now, n)
    ensures f' in g.fleets && OnlyFile(f, f', id)
    ensures Left(f'.files[id], f.now, n, f.now + SCAN_LEASE_MS)
  {
    f' := ClaimAndCrash(g, f, id);
    LeaveIt(f.files[id], f.now, n);
  }

  lemma {:induction false} ClaimAndGiveUp(g: Region, f: Fleet, id: FileId) returns (f': Fleet)
    requires Now(g) && f in g.fleets && id in f.files
    ensures f' in g.fleets && OnlyFile(f, f', id)
    ensures f'.files[id] == Apply(Apply(f.files[id], Claim(1, f.now)), GiveUp(1, f.now))
  {
    var f1 := ActNow(g, f, id, Claim(1, f.now));
    f' := ActNow(g, f1, id, GiveUp(1, f.now));
  }

  lemma {:induction false} BeginGivingUp(g: Region, f: Fleet, id: FileId, n: nat) returns (f': Fleet)
    requires Now(g) && f in g.fleets && id in f.files && Queued(f.files[id], f.now, n)
    requires f.now < SCAN_DEADLINE_MS
    ensures f' in g.fleets && OnlyFile(f, f', id) && GivingUp(f'.files[id], n, f.now, f.now)
    ensures f'.files[id].store.now == f.now && f'.files[id].row.updatedAt == f.now
  {
    f' := ClaimAndGiveUp(g, f, id);
    TakeAndGiveUp(f.files[id], f.now, n);
  }

  /** A file that gives up at once is left to be retried. */
  predicate Retried(w: World, now: Instant, n: nat) {
    Idle(w, now, n) && w.row.scanLeaseExpiresAt.None? && w.row.nextScanAt == Some(now + RetryDelayMs(n))
  }

  lemma {:induction false} RecordOne(g: Region, f: Fleet, id: FileId, n: nat) returns (f': Fleet)
    requires Now(g) && f in g.fleets && id in f.files && GivingUp(f.files[id], n, f.now, f.now)
    requires f.files[id].store.now == f.now && f.files[id].row.updatedAt == f.now && n < MAX_SCAN_ATTEMPTS
    ensures f' in g.fleets && OnlyFile(f, f', id) && Retried(f'.files[id], f.now, n + 1)
  {
    f' := ActNow(g, f, id, SettleScan(1, f.now));
    RecordGiveUp(f.files[id], n, f.now);
  }

  lemma {:induction false} GiveUpOne(g: Region, f: Fleet, id: FileId, n: nat) returns (f': Fleet)
    requires Now(g) && f in g.fleets && id in f.files && Queued(f.files[id], f.now, n)
    requires f.now < SCAN_DEADLINE_MS && n < MAX_SCAN_ATTEMPTS
    ensures f' in g.fleets && OnlyFile(f, f', id) && Retried(f'.files[id], f.now, n + 1)
  {
    var f1 := BeginGivingUp(g, f, id, n);
    f' := RecordOne(g, f1, id, n);
  }

  lemma {:induction false} Wait(g: Region, f: Fleet, later: Instant) returns (f': Fleet)
    requires Now(g) && f in g.fleets && f.now <= later
    ensures f' in g.fleets && f'.now == later && f'.rounds == f.rounds && f'.files.Keys == f.files.Keys
    ensures forall i :: i in f.files ==> f'.files[i] == Apply(f.files[i], Tick(later))
  {
    StepStays(g, f, Advance(later));
    f' := Next(g.batch, f, Advance(later));
  }

  // ----- the second half of a round

  /** The recovering pass finds the target alone. */
  predicate Alone(f: Fleet, z: nat, n: nat) {
    && z in f.files && Left(f.files[z], f.now, n, f.now)
    && (forall i :: i in f.files && i != z ==> !Matches(RecoverLeases, f.files[i].row, f.now))
  }

  lemma {:induction false} SelectTarget(
    g: Region, f: Fleet, z: nat, n: nat, overlooked: set<FileId>) returns (f': Fleet)
    requires Now(g) && f in g.fleets && Alone(f, z, n) && g.batch > 0
    requires f.rounds == map[0 := Round(f.now, overlooked, SelectNext)]
    ensures f' in g.fleets
    ensures f' == f.(rounds := map[0 := Round(f.now, overlooked, RecoverNext({z}))])
  {
    assert Selects(Table(f), RecoverLeases, f.now, g.batch, {z});
    StepStays(g, f, SelectExpired(0, {z}));
    f' := Next(g.batch, f, SelectExpired(0, {z}));
  }

  /** The recovering pass is about to update the target. */
  predicate Recovering(f: Fleet, z: nat, n: nat) {
    && z in f.files && Left(f.files[z], f.now, n, f.now)
    && f.rounds.Keys == {0} && f.rounds[0].at == f.now && f.rounds[0].stage == RecoverNext({z})
  }

  lemma {:induction false} RecoverTarget(g: Region, f: Fleet, z: nat, n: nat) returns (f': Fleet)
    requires Now(g) && f in g.fleets && Recovering(f, z, n) && n < MAX_SCAN_ATTEMPTS
    ensures f' in g.fleets && f'.now == f.now && f'.rounds == map[] && f'.files.Keys == f.files.Keys
    ensures Queued(f'.files[z], f.now, n + 1)
    ensures forall i :: i in f.files && i != z ==> f'.files[i] == f.files[i]
  {
    assert !RecoverFails(f, 0);
    StepStays(g, f, RecoverRows(0));
    f' := Next(g.batch, f, RecoverRows(0));
    assert f'.rounds == map[];
    RecoverLeft(f.files[z], f.now, n, f.now);
  }

  lemma {:induction false} RecoveryFails(f: Fleet, z: nat)
    requires Recovering(f, z, MAX_SCAN_ATTEMPTS)
    ensures StatementRefused(f, RecoverRows(0))
  {
    assert OneTooMany(Table(f)[z], BulkUpdate(RecoverLeases, f.now));
  }

  // ----- the backlog is failed batch by batch

  /** The files from `lo` to before `hi`. */
  function Block(lo: nat, hi: nat): (ids: set<FileId>)
    requires lo <= hi
    ensures |ids| == hi - lo && forall i :: i in ids <==> lo <= i < hi
    decreases hi
  {
    if lo == hi then {} else Block(lo, hi - 1) + {hi - 1}
  }

  /** Where the backlog begins after a round that reads the clock at `now`. */
  function Shortened(lo: nat, batch: nat, now: Instant): nat {
    if now < SCAN_DEADLINE_MS then lo else lo + batch
  }

  /** The backlog comes in the order of its numbers, and the target behind it. */
  lemma {:induction false} BlockPrecedes(f: Fleet, lo: nat, z: nat, n: nat, i: nat, j: nat)
    requires Backlog(f, lo, z) && Left(f.files[z], f.now, n, f.now) && f.now > SCAN_LEASE_MS
    requires lo <= i < j <= z
    ensures Precedes(Table(f), i, j)
  {
    assert Fresh(f.files[i], f.now);
    assert j < z ==> Fresh(f.files[j], f.now);
  }

  lemma {:induction false} OverdueExactly(f: Fleet, lo: nat, z: nat, n: nat, i: nat)
    requires Backlog(f, lo, z) && Left(f.files[z], f.now, n, f.now) && i <= z && lo <= z
    ensures Matches(FailOverdue, Table(f)[i], f.now) <==> lo <= i && f.now >= SCAN_DEADLINE_MS
  {
    assert lo <= i < z ==> Fresh(f.files[i], f.now);
  }

  lemma {:induction false} BlockIsNext(f: Fleet, batch: nat, lo: nat, z: nat, n: nat)
    requires Backlog(f, lo, z) && Left(f.files[z], f.now, n, f.now) && f.now > SCAN_LEASE_MS
    requires Shortened(lo, batch, f.now) <= z
    ensures Selects(Table(f), FailOverdue, f.now, batch, Block(lo, Shortened(lo, batch, f.now)))
  {
    forall i: nat | i <= z ensures Matches(FailOverdue, Table(f)[i], f.now) <==> lo <= i && f.now >= SCAN_DEADLINE_MS {
      OverdueExactly(f, lo, z, n, i);
    }
    forall i: nat, j: nat | lo <= i < j <= z ensures Precedes(Table(f), i, j) {
      BlockPrecedes(f, lo, z, n, i, j);
    }
  }

  lemma {:induction false} FailBlock(
    g: Region, f: Fleet, lo: nat, z: nat, n: nat) returns (f': Fleet, overlooked: set<FileId>)
    requires Now(g) && f in g.fleets && f.rounds == map[]
    requires Backlog(f, lo, z) && Left(f.files[z], f.now, n, f.now) && f.now > SCAN_LEASE_MS
    requires Shortened(lo, g.batch, f.now) <= z
    ensures f' in g.fleets && f'.now == f.now && f'.files.Keys == f.files.Keys
    ensures f'.rounds == map[0 := Round(f.now, overlooked, SelectNext)]
    ensures f'.files[z] == f.files[z] && Backlog(f', Shortened(lo, g.batch, f.now), z)
  {
    var ids := Block(lo, Shortened(lo, g.batch, f.now));
    BlockIsNext(f, g.batch, lo, z, n);
    var f1;
    f1, overlooked := StartRound(g, f, ids);
    StepStays(g, f1, FailRows(0));
    f' := Next(g.batch, f1, FailRows(0));
    FailRowsEffect(g.batch, f1, overlooked, ids);
    BlockFails(f, f', g.batch, lo, z);
  }

  lemma {:induction false} FailRowsEffect(batch: nat, f: Fleet, overlooked: set<FileId>, ids: set<FileId>)
    requires f.rounds == map[0 := Round(f.now, overlooked, FailNext(ids))]
    ensures Next(batch, f, FailRows(0)) == f.(files := Bulked(f.files, ids, FailOverdue, f.now),
                                              rounds := map[0 := Round(f.now, overlooked, SelectNext)])
  {
  }

  /** A round reads the clock and selects what its failing pass will update. */
  lemma {:induction false} StartRound(g: Region, f: Fleet, ids: set<FileId>)
    returns (f': Fleet, overlooked: set<FileId>)
    requires Now(g) && f in g.fleets && f.rounds == map[]
    requires Selects(Table(f), FailOverdue, f.now, g.batch, ids)
    ensures f' in g.fleets && f' == f.(rounds := map[0 := Round(f.now, overlooked, FailNext(ids))])
    ensures Untouched(f', FailRows(0))
  {
    overlooked := Overlooked(Table(f), f.now, ids);
    StepStays(g, f, SelectOverdue(0, f.now, ids));
    f' := Next(g.batch, f, SelectOverdue(0, f.now, ids));
  }

  lemma {:induction false} BlockFails(f: Fleet, f': Fleet, batch: nat, lo: nat, z: nat)
    requires Backlog(f, lo, z) && f'.now == f.now && Shortened(lo, batch, f.now) <= z
    requires f'.files == Bulked(f.files, Block(lo, Shortened(lo, batch, f.now)), FailOverdue, f.now)
    ensures f'.files[z] == f.files[z] && Backlog(f', Shortened(lo, batch, f.now), z)
  {
    forall i: nat | lo <= i < Shortened(lo, batch, f.now) ensures f'.files[i].row.state == ScanFailed {
      FailQueued(f.files[i], f.now);
    }
  }

  // ----- cycles of the undisturbed run

  lemma {:induction false} WaitingKeepsBacklog(g: Region, f: Fleet, lo: nat, z: nat, later: Instant)
    returns (f': Fleet)
    requires Now(g) && f in g.fleets && Backlog(f, lo, z) && f.now <= later
    ensures f' in g.fleets && f'.now == later && f'.rounds == f.rounds && Backlog(f', lo, z)
    ensures f'.files[z] == Apply(f.files[z], Tick(later))
  {
    f' := Wait(g, f, later);
    forall i: nat | lo <= i < z ensures Fresh(f'.files[i], later) {
      TimePasses(f.files[i], f.now, 0, later);
    }
  }

  /** The target gives up at once and waits for its retry. */
  lemma {:induction false} RetryCycle(g: Region, f: Fleet, z: nat, n: nat) returns (f': Fleet)
    requires Now(g) && f in g.fleets && f.rounds == map[] && Backlog(f, 0, z)
    requires Queued(f.files[z], f.now, n) && 0 <= f.now < SCAN_DEADLINE_MS && n < MAX_SCAN_ATTEMPTS
    ensures f' in g.fleets && f'.rounds == map[] && Backlog(f', 0, z)
    ensures f'.now == f.now + RetryDelayMs(n + 1) && Queued(f'.files[z], f'.now, n + 1)
  {
    var f1 := GiveUpOne(g, f, z, n);
    RetryDelayDoubles(n + 1);
    f' := WaitingKeepsBacklog(g, f1, 0, z, f.now + RetryDelayMs(n + 1));
    TimePasses(f1.files[z], f.now, n + 1, f'.now);
  }

  /** The target is claimed and left for ten minutes. */
  lemma {:induction false} LeaveTarget(g: Region, f: Fleet, lo: nat, z: nat, n: nat) returns (f': Fleet)
    requires Now(g) && f in g.fleets && Backlog(f, lo, z) && Queued(f.files[z], f.now, n)
    ensures f' in g.fleets && f'.rounds == f.rounds && f'.now == f.now + SCAN_LEASE_MS
    ensures Backlog(f', lo, z) && Left(f'.files[z], f'.now, n, f'.now)
  {
    var f1 := LeaveOne(g, f, z, n);
    f' := WaitingKeepsBacklog(g, f1, lo, z, f.now + SCAN_LEASE_MS);
    TimePasses(f1.files[z], f.now, n, f'.now);
  }

  lemma {:induction false} BacklogIsUnleased(f: Fleet, lo: nat, z: nat, n: nat)
    requires Backlog(f, lo, z) && Left(f.files[z], f.now, n, f.now)
    ensures Alone(f, z, n)
  {
    forall i: nat | i < z ensures !Matches(RecoverLeases, f.files[i].row, f.now) {
      assert i < lo || Fresh(f.files[i], f.now);
    }
  }

  /** Then a round comes to recover it. */
  lemma {:induction false} UpToRecovery(
    g: Region, f: Fleet, lo: nat, z: nat, n: nat) returns (f': Fleet)
    requires Now(g) && f in g.fleets && f.rounds == map[] && Backlog(f, lo, z) && g.batch > 0
    requires Queued(f.files[z], f.now, n) && f.now > 0 && Shortened(lo, g.batch, f.now + SCAN_LEASE_MS) <= z
    ensures f' in g.fleets && f'.now == f.now + SCAN_LEASE_MS
    ensures Backlog(f', Shortened(lo, g.batch, f'.now), z) && Recovering(f', z, n)
  {
    var f1 := LeaveTarget(g, f, lo, z, n);
    var f2, overlooked := FailBlock(g, f1, lo, z, n);
    BacklogIsUnleased(f2, Shortened(lo, g.batch, f1.now), z, n);
    f' := SelectTarget(g, f2, z, n, overlooked);
  }

  lemma {:induction false} BacklogCycle(
    g: Region, f: Fleet, lo: nat, z: nat, n: nat) returns (f': Fleet)
    requires Now(g) && f in g.fleets && f.rounds == map[] && Backlog(f, lo, z) && g.batch > 0
    requires Queued(f.files[z], f.now, n) && f.now > 0 && Shortened(lo, g.batch, f.now + SCAN_LEASE_MS) <= z
    requires n < MAX_SCAN_ATTEMPTS
    ensures f' in g.fleets && f'.rounds == map[] && f'.now == f.now + SCAN_LEASE_MS
    ensures Backlog(f', Shortened(lo, g.batch, f'.now), z) && Queued(f'.files[z], f'.now, n + 1)
  {
    var f1 := UpToRecovery(g, f, lo, z, n);
    f' := RecoverTarget(g, f1, z, n);
  }

  /** Four quick retries: at 0, 1, 3 and 7 minutes. */
  lemma {:induction false} QuickRetries(g: Region, z: nat) returns (f: Fleet)
    requires Now(g)
    ensures f in g.fleets && f.rounds == map[] && Backlog(f, 0, z)
    ensures f.now == 15 * MINUTE_MS && Queued(f.files[z], f.now, 4)
  {
    RetryDelayDoubles(1);
    RetryDelayDoubles(2);
    RetryDelayDoubles(3);
    f := Launch(g, z);
    f := RetryCycle(g, f, z, 0);
    f := RetryCycle(g, f, z, 1);
    f := RetryCycle(g, f, z, 2);
    f := RetryCycle(g, f, z, 3);
  }

  /** Then a recovery every ten minutes, up to the last before the deadline. */
  lemma {:induction false} TimelyRecoveries(g: Region, z: nat, k: nat) returns (f: Fleet)
    requires Now(g) && g.batch > 0 && k <= 142
    ensures f in g.fleets && f.rounds == map[] && Backlog(f, 0, z)
    ensures f.now == (15 + 10 * k) * MINUTE_MS && Queued(f.files[z], f.now, 4 + k)
  {
    if k == 0 {
      f := QuickRetries(g, z);
    } else {
      f := TimelyRecoveries(g, z, k - 1);
      f := BacklogCycle(g, f, 0, z, 3 + k);
    }
  }

  /** The bound of 147 attempts before the deadline is reached; each further one takes a batch of the backlog. */
  lemma {:induction false} LateRecoveriesOfBacklog(g: Region, z: nat, k: nat, lo: nat) returns (f: Fleet)
    requires Now(g) && g.batch > 0 && k <= 853 && lo == g.batch * k && lo <= z
    ensures f in g.fleets && f.rounds == map[] && Backlog(f, lo, z)
    ensures f.now >= SCAN_DEADLINE_MS - SCAN_LEASE_MS && Queued(f.files[z], f.now, 147 + k)
  {
    if k == 0 {
      f := LastRetry(g, z);
    } else {
      ProductGrows(g.batch, 0, k - 1);
      ProductGrows(g.batch, k - 1, k);
      f := LateRecoveriesOfBacklog(g, z, k - 1, lo - g.batch);
      f := LateCycle(g, f, lo - g.batch, z, 146 + k);
    }
  }

  lemma {:induction false} LastRetry(g: Region, z: nat) returns (f: Fleet)
    requires Now(g) && g.batch > 0
    ensures f in g.fleets && f.rounds == map[] && Backlog(f, 0, z)
    ensures f.now >= SCAN_DEADLINE_MS - SCAN_LEASE_MS && Queued(f.files[z], f.now, 147)
  {
    f := TimelyRecoveries(g, z, 142);
    f := RetryCycle(g, f, z, 146);
    DelayIsLong(147);
  }

  lemma {:induction false} LateCycle(g: Region, f: Fleet, lo: nat, z: nat, n: nat) returns (f': Fleet)
    requires Now(g) && f in g.fleets && f.rounds == map[] && Backlog(f, lo, z) && g.batch > 0
    requires Queued(f.files[z], f.now, n) && f.now >= SCAN_DEADLINE_MS - SCAN_LEASE_MS && lo + g.batch <= z
    requires n < MAX_SCAN_ATTEMPTS
    ensures f' in g.fleets && f'.rounds == map[] && f'.now >= SCAN_DEADLINE_MS - SCAN_LEASE_MS
    ensures Backlog(f', lo + g.batch, z) && Queued(f'.files[z], f'.now, n + 1)
  {
    f' := BacklogCycle(g, f, lo, z, n);
  }

  lemma {:induction false} NumberedSize(f: Fleet, z: nat)
    requires Numbered(f, z)
    ensures |f.files| == z + 1
  {
    assert f.files.Keys == Block(0, z + 1);
  }

  /** 854 batches besides the file are enough for a refusal, although nothing disturbs any pass. */
  lemma {:induction false} BacklogOverloads(g: Region) returns (f: Fleet)
    requires Now(g) && g.batch > 0
    ensures f in g.fleets && |f.files| == 854 * g.batch + 1 && StatementRefused(f, RecoverRows(0))
  {
    var z := 854 * g.batch;
    f := LateRecoveriesOfBacklog(g, z, 853, 853 * g.batch);
    f := UpToRecovery(g, f, 853 * g.batch, z, MAX_SCAN_ATTEMPTS);
    NumberedSize(f, z);
    RecoveryFails(f, z);
  }

  // ----- the disturbed run

  /** All other files carry leases that end at `t`. */
  ghost predicate Clustered(f: Fleet, z: nat, t: Instant) {
    Numbered(f, z) && forall i: nat :: i < z ==> Left(f.files[i], f.now, 0, t)
  }

  /** Of the files of `f`, the first `k` have been claimed and left. */
  ghost predicate FirstLeft(f: Fleet, f': Fleet, k: nat, z: nat) {
    && f'.now == f.now && f'.rounds == f.rounds && Numbered(f', z)
    && (forall i: nat :: i < k ==> i in f'.files && Left(f'.files[i], f.now, 0, f.now + SCAN_LEASE_MS))
    && (forall i: nat :: k <= i <= z ==> i in f.files && i in f'.files && f'.files[i] == f.files[i])
  }

  lemma {:induction false} OneMoreLeft(f: Fleet, f1: Fleet, f': Fleet, k: nat, z: nat)
    requires FirstLeft(f, f1, k, z) && k < z && OnlyFile(f1, f', k)
    requires Left(f'.files[k], f.now, 0, f.now + SCAN_LEASE_MS)
    ensures FirstLeft(f, f', k + 1, z)
  {
  }

  /** The others are claimed one after the other, and left. */
  lemma {:induction false} ClaimOthers(g: Region, f: Fleet, k: nat, z: nat) returns (f': Fleet)
    requires Now(g) && f in g.fleets && Numbered(f, z) && k <= z
    requires forall i: nat :: i < z ==> Claimable(f.files[i], f.now, 0)
    ensures f' in g.fleets && FirstLeft(f, f', k, z)
  {
    if k == 0 {
      f' := f;
    } else {
      var f1 := ClaimOthers(g, f, k - 1, z);
      f' := ClaimNext(g, f, f1, k - 1, z);
    }
  }

  lemma {:induction false} ClaimNext(g: Region, f: Fleet, f1: Fleet, k: nat, z: nat) returns (f': Fleet)
    requires Now(g) && f1 in g.fleets && FirstLeft(f, f1, k, z) && k < z && k in f.files
    requires Claimable(f.files[k], f.now, 0)
    ensures f' in g.fleets && FirstLeft(f, f', k + 1, z)
  {
    f' := LeaveOne(g, f1, k, 0);
    OneMoreLeft(f, f1, f', k, z);
  }

  lemma {:induction false} ClusterPrecedes(f: Fleet, z: nat, n: nat, i: nat)
    requires Clustered(f, z, f.now) && Left(f.files[z], f.now, n, f.now) && f.now >= SCAN_DEADLINE_MS && i < z
    ensures Matches(FailOverdue, Table(f)[i], f.now) && Precedes(Table(f), i, z)
  {
    assert Left(f.files[i], f.now, 0, f.now);
  }

  lemma {:induction false} OthersAreFirst(f: Fleet, z: nat, n: nat)
    requires Clustered(f, z, f.now) && Left(f.files[z], f.now, n, f.now) && f.now >= SCAN_DEADLINE_MS
    ensures Selects(Table(f), FailOverdue, f.now, z, Block(0, z))
  {
    var rows, ids := Table(f), Block(0, z);
    NumberedRows(f, z);
    forall i | i in ids ensures Matches(FailOverdue, rows[i], f.now) && Precedes(rows, i, z) {
      ClusterPrecedes(f, z, n, i);
    }
    AllButOne(rows, f.now, ids, z);
  }

  lemma {:induction false} NumberedRows(f: Fleet, z: nat)
    requires Numbered(f, z)
    ensures Table(f).Keys == Block(0, z) + {z}
  {
  }

  lemma {:induction false} AllButOne(rows: Rows, at: Instant, ids: set<FileId>, z: FileId)
    requires rows.Keys == ids + {z}
    requires forall i :: i in ids ==> Matches(FailOverdue, rows[i], at) && Precedes(rows, i, z)
    ensures Selects(rows, FailOverdue, at, |ids|, ids)
  {
  }

  lemma {:induction false} LeasedIsNotFailed(w: World, now: Instant)
    requires Left(w, now, 0, now + SCAN_LEASE_MS)
    ensures Apply(w, BulkSweep(FailOverdue, now)) == w
  {
  }

  lemma {:induction false} NothingToFail(f: Fleet, z: nat)
    requires Clustered(f, z, f.now + SCAN_LEASE_MS)
    ensures Bulked(f.files, Block(0, z), FailOverdue, f.now) == f.files
  {
    forall i: nat | i < z ensures Apply(f.files[i], BulkSweep(FailOverdue, f.now)) == f.files[i] {
      LeasedIsNotFailed(f.files[i], f.now);
    }
  }

  lemma {:induction false} ReclaimOthers(g: Region, f: Fleet, z: nat) returns (f': Fleet)
    requires Now(g) && f in g.fleets && Clustered(f, z, f.now)
    ensures f' in g.fleets && f'.now == f.now && f'.rounds == f.rounds
    ensures Clustered(f', z, f.now + SCAN_LEASE_MS) && f'.files[z] == f.files[z]
  {
    forall i: nat | i < z ensures Claimable(f.files[i], f.now, 0) {
      assert Left(f.files[i], f.now, 0, f.now);
    }
    f' := ClaimOthers(g, f, z, z);
  }

  lemma {:induction false} FailNothing(g: Region, f: Fleet, z: nat, overlooked: set<FileId>) returns (f': Fleet)
    requires Now(g) && z == g.batch && !g.h.undisturbed && f in g.fleets && Clustered(f, z, f.now + SCAN_LEASE_MS)
    requires f.rounds == map[0 := Round(f.now, overlooked, FailNext(Block(0, z)))]
    ensures f' in g.fleets && f' == f.(rounds := map[0 := Round(f.now, overlooked, SelectNext)])
  {
    NothingToFail(f, z);
    FailRowsEffect(z, f, overlooked, Block(0, z));
    StepStays(g, f, FailRows(0));
    f' := Next(z, f, FailRows(0));
  }

  lemma {:induction false} SameFilesCluster(f: Fleet, f': Fleet, z: nat, t: Instant)
    requires Clustered(f, z, t) && f'.files == f.files && f'.now == f.now
    ensures Clustered(f', z, t)
  {
  }

  lemma {:induction false} SelectOthers(g: Region, f: Fleet, z: nat, n: nat)
    returns (f': Fleet, overlooked: set<FileId>)
    requires z == g.batch && Now(g) && f in g.fleets && f.rounds == map[]
    requires Clustered(f, z, f.now) && Left(f.files[z], f.now, n, f.now) && f.now >= SCAN_DEADLINE_MS
    ensures f' in g.fleets && f'.now == f.now && Clustered(f', z, f.now) && f'.files[z] == f.files[z]
    ensures f'.rounds == map[0 := Round(f.now, overlooked, FailNext(Block(0, z)))]
  {
    OthersAreFirst(f, z, n);
    f', overlooked := StartRound(g, f, Block(0, z));
    SameFilesCluster(f, f', z, f.now);
  }

  /** Every row of the batch is claimed between its select and its update, which then changes nothing. */
  lemma {:induction false} DisturbedPass(g: Region, f: Fleet, z: nat, n: nat)
    returns (f': Fleet, overlooked: set<FileId>)
    requires Now(g) && z == g.batch && !g.h.undisturbed && f in g.fleets && f.rounds == map[]
    requires Clustered(f, z, f.now) && Left(f.files[z], f.now, n, f.now) && f.now >= SCAN_DEADLINE_MS
    ensures f' in g.fleets && f'.now == f.now && Clustered(f', z, f.now + SCAN_LEASE_MS)
    ensures f'.rounds == map[0 := Round(f.now, overlooked, SelectNext)] && f'.files[z] == f.files[z]
  {
    var f1, f2;
    f1, overlooked := SelectOthers(g, f, z, n);
    f2 := ReclaimOthers(g, f1, z);
    f' := FailNothing(g, f2, z, overlooked);
    SameFilesCluster(f2, f', z, f.now + SCAN_LEASE_MS);
  }

  lemma {:induction false} WaitingKeepsCluster(g: Region, f: Fleet, z: nat, n: nat) returns (f': Fleet)
    requires Now(g) && f in g.fleets && Clustered(f, z, f.now + SCAN_LEASE_MS)
    requires Queued(f.files[z], f.now, n)
    ensures f' in g.fleets && f'.now == f.now + SCAN_LEASE_MS && f'.rounds == f.rounds
    ensures Clustered(f', z, f'.now) && Left(f'.files[z], f'.now, n, f'.now)
  {
    var f1 := LeaveOne(g, f, z, n);
    f' := Wait(g, f1, f.now + SCAN_LEASE_MS);
    TimePasses(f1.files[z], f.now, n, f'.now);
    forall i: nat | i < z ensures Left(f'.files[i], f'.now, 0, f'.now) {
      TimePasses(f1.files[i], f.now, 0, f'.now);
    }
  }

  lemma {:induction false} ClusterIsLeased(f: Fleet, z: nat, n: nat)
    requires Clustered(f, z, f.now + SCAN_LEASE_MS) && Left(f.files[z], f.now, n, f.now)
    ensures Alone(f, z, n)
  {
    forall i: nat | i < z ensures !Matches(RecoverLeases, f.files[i].row, f.now) {
      assert Left(f.files[i], f.now, 0, f.now + SCAN_LEASE_MS);
    }
  }

  lemma {:induction false} UpToDisturbedRecovery(g: Region, f: Fleet, z: nat, n: nat) returns (f': Fleet)
    requires Now(g) && z == g.batch && !g.h.undisturbed && f in g.fleets && f.rounds == map[] && z > 0
    requires Clustered(f, z, f.now + SCAN_LEASE_MS) && Queued(f.files[z], f.now, n) && f.now >= SCAN_DEADLINE_MS
    ensures f' in g.fleets && f'.now >= SCAN_DEADLINE_MS
    ensures Clustered(f', z, f'.now + SCAN_LEASE_MS) && Recovering(f', z, n)
  {
    var f1 := WaitingKeepsCluster(g, f, z, n);
    var f2, overlooked := DisturbedPass(g, f1, z, n);
    ClusterIsLeased(f2, z, n);
    f' := SelectTarget(g, f2, z, n, overlooked);
    SameFilesCluster(f2, f', z, f2.now + SCAN_LEASE_MS);
  }

  lemma {:induction false} ClusterAfterDeadline(g: Region, z: nat) returns (f: Fleet)
    requires Now(g)
    ensures f in g.fleets && f.rounds == map[] && f.now >= SCAN_DEADLINE_MS
    ensures Clustered(f, z, f.now + SCAN_LEASE_MS) && Queued(f.files[z], f.now, 0)
  {
    var f1 := Launch(g, z);
    var f2 := WaitingKeepsBacklog(g, f1, 0, z, SCAN_DEADLINE_MS);
    TimePasses(f1.files[z], 0, 0, SCAN_DEADLINE_MS);
    forall i: nat | i < z ensures Claimable(f2.files[i], f2.now, 0) {
      assert Fresh(f2.files[i], f2.now);
    }
    f := ClaimOthers(g, f2, z, z);
  }

  /** The same state returns every ten minutes, with one more attempt. */
  lemma {:induction false} EndlessDisturbance(g: Region, z: nat, n: nat) returns (f: Fleet)
    requires Now(g) && z == g.batch && !g.h.undisturbed && z > 0 && n <= MAX_SCAN_ATTEMPTS
    ensures f in g.fleets && f.rounds == map[] && f.now >= SCAN_DEADLINE_MS
    ensures Clustered(f, z, f.now + SCAN_LEASE_MS) && Queued(f.files[z], f.now, n)
  {
    if n == 0 {
      f := ClusterAfterDeadline(g, z);
    } else {
      f := EndlessDisturbance(g, z, n - 1);
      f := DisturbedCycle(g, f, z, n - 1);
    }
  }

  lemma {:induction false} DisturbedCycle(g: Region, f: Fleet, z: nat, n: nat) returns (f': Fleet)
    requires Now(g) && z == g.batch && !g.h.undisturbed && f in g.fleets && f.rounds == map[]
    requires z > 0 && n < MAX_SCAN_ATTEMPTS
    requires Clustered(f, z, f.now + SCAN_LEASE_MS) && Queued(f.files[z], f.now, n) && f.now >= SCAN_DEADLINE_MS
    ensures f' in g.fleets && f'.rounds == map[] && f'.now >= SCAN_DEADLINE_MS
    ensures Clustered(f', z, f'.now + SCAN_LEASE_MS) && Queued(f'.files[z], f'.now, n + 1)
  {
    var f1 := UpToDisturbedRecovery(g, f, z, n);
    f' := RecoverTarget(g, f1, z, n);
  }

  /** One file more than a batch is enough for a refusal if rows may be claimed under a pass. */
  lemma {:induction false} DisturbanceOverloads(g: Region) returns (f: Fleet)
    requires Now(g) && !g.h.undisturbed && g.batch > 0
    ensures f in g.fleets && |f.files| == g.batch + 1 && StatementRefused(f, RecoverRows(0))
  {
    f := EndlessDisturbance(g, g.batch, MAX_SCAN_ATTEMPTS);
    f := UpToDisturbedRecovery(g, f, g.batch, MAX_SCAN_ATTEMPTS);
    NumberedSize(f, g.batch);
    RecoveryFails(f, g.batch);
  }

  // ----- the run with old claims

  /** A reading for each of 1001 rounds, ten minutes apart, all of them past the deadline. */
  function OldReading(r: nat): Instant { SCAN_DEADLINE_MS + (r + 1) * SCAN_LEASE_MS }

  const LAST: nat := 1001

  /** The rounds from `lo` to before `hi` have done their failing pass and wait. */
  ghost predicate Poised(f: Fleet, lo: nat, hi: nat) {
    && (forall r: nat :: r in f.rounds <==> lo <= r < hi)
    && (forall r: nat :: lo <= r < hi ==> f.rounds[r].at == OldReading(r) && f.rounds[r].stage == SelectNext)
    && f.now == OldReading(LAST)
  }

  lemma OldReadingsGrow(r: nat, s: nat)
    requires r <= s
    ensures OldReading(r) <= OldReading(s) && OldReading(r + 1) == OldReading(r) + SCAN_LEASE_MS
  {
  }

  /** A row that has not been uploaded yet, long after it was created. */
  predicate Unsent(f: Fleet) {
    && f.files.Keys == {0} && f.files[0].row == NewRow(Brief, 1, 0) && f.files[0].store.now == f.now
    && f.files[0].workers == map[] && f.files[0].sweeps == map[]
  }

  lemma {:induction false} FirstUnsent(g: Region) returns (f: Fleet)
    requires Closed(g) && !g.h.current
    ensures f in g.fleets && Unsent(f) && Poised(f, 0, 0)
  {
    f := Fleet(0, map[], map[]);
    StepStays(g, f, Create(0, Brief, 1, 0));
    f := Next(g.batch, f, Create(0, Brief, 1, 0));
    assert f.files == map[0 := Apply(Init(Brief, 1, 0), Tick(0))];
    StepStays(g, f, Advance(OldReading(LAST)));
    f := Next(g.batch, f, Advance(OldReading(LAST)));
  }

  lemma {:induction false} NothingIsOverdue(g: Region, f: Fleet, r: nat) returns (f': Fleet)
    requires Closed(g) && !g.h.current && f in g.fleets && Unsent(f) && r !in f.rounds && OldReading(r) <= f.now
    ensures f' in g.fleets
    ensures f' == f.(rounds := f.rounds[r := Round(OldReading(r), {}, SelectNext)])
  {
    var at := OldReading(r);
    NothingSelected(g.batch, f, r);
    StepStays(g, f, SelectOverdue(r, at, {}));
    var f1 := Next(g.batch, f, SelectOverdue(r, at, {}));
    NothingFailed(g.batch, f1, r);
    StepStays(g, f1, FailRows(r));
    f' := Next(g.batch, f1, FailRows(r));
  }

  lemma {:induction false} NothingSelected(batch: nat, f: Fleet, r: nat)
    requires Unsent(f) && r !in f.rounds && OldReading(r) <= f.now
    ensures Next(batch, f, SelectOverdue(r, OldReading(r), {}))
            == f.(rounds := f.rounds[r := Round(OldReading(r), {}, FailNext({}))])
  {
    assert Selects(Table(f), FailOverdue, OldReading(r), batch, {});
    assert Overlooked(Table(f), OldReading(r), {}) == {};
  }

  lemma {:induction false} NothingFailed(batch: nat, f: Fleet, r: nat)
    requires FailReady(f, r) && f.rounds[r].stage.ids == {}
    ensures Next(batch, f, FailRows(r)) == f.(rounds := AtStage(f, r, SelectNext))
  {
    assert Bulked(f.files, {}, FailOverdue, f.rounds[r].at) == f.files;
  }

  lemma {:induction false} PoiseRounds(g: Region, hi: nat) returns (f: Fleet)
    requires Closed(g) && !g.h.current && hi <= LAST
    ensures f in g.fleets && Unsent(f) && Poised(f, 0, hi)
  {
    if hi == 0 {
      f := FirstUnsent(g);
    } else {
      f := PoiseRounds(g, hi - 1);
      OldReadingsGrow(hi - 1, LAST);
      f := NothingIsOverdue(g, f, hi - 1);
    }
  }

  /** The file is due for a claim by round `n`'s time, ten minutes before it. */
  predicate DueBefore(w: World, now: Instant, n: nat) {
    && Queued(w, now, n) && w.row.updatedAt <= OldReading(n) - SCAN_LEASE_MS
    && NullOrDue(w.row.nextScanAt, OldReading(n) - SCAN_LEASE_MS)
  }

  lemma {:induction false} LateUpload(g: Region) returns (f: Fleet)
    requires Closed(g) && !g.h.current
    ensures f in g.fleets && f.files.Keys == {0} && Poised(f, 0, LAST) && DueBefore(f.files[0], f.now, 0)
  {
    f := PoiseRounds(g, LAST);
    StepStays(g, f, Act(0, FinishUpload(0)));
    f := Next(g.batch, f, Act(0, FinishUpload(0)));
  }

  lemma {:induction false} OldClaim(w: World, now: Instant, n: nat, t: Instant)
    requires Idle(w, now, n) && w.row.scanLeaseExpiresAt.None? && NullOrDue(w.row.nextScanAt, t)
    requires w.row.updatedAt <= t <= now
    ensures Left(Apply(Apply(w, Claim(1, t)), Crash(1)), now, n, t + SCAN_LEASE_MS)
  {
    var claimed := Apply(w, Claim(1, t));
    assert claimed == ApplyStart(w, Claim(1, t));
    assert claimed.workers == map[1 := Claimed(claimed.row, t)];
    CrashEffect(claimed);
  }

  lemma {:induction false} LeaveAt(g: Region, f: Fleet, n: nat, t: Instant) returns (f': Fleet)
    requires Closed(g) && !Fenced(g.h) && f in g.fleets && 0 in f.files && 0 <= t <= f.now
    requires Queued(f.files[0], f.now, n) && f.files[0].row.updatedAt <= t && NullOrDue(f.files[0].row.nextScanAt, t)
    ensures f' in g.fleets && OnlyFile(f, f', 0) && Left(f'.files[0], f.now, n, t + SCAN_LEASE_MS)
  {
    f' := ClaimOld(g, f, t);
    OldClaim(f.files[0], f.now, n, t);
  }

  /** The claim is left, and its lease is over by the reading of round `n`. */
  lemma {:induction false} LeaveOld(g: Region, f: Fleet, n: nat) returns (f': Fleet)
    requires Closed(g) && !Fenced(g.h) && f in g.fleets && f.files.Keys == {0} && OldReading(n) <= f.now
    requires DueBefore(f.files[0], f.now, n)
    ensures f' in g.fleets && f'.files.Keys == {0} && f'.rounds == f.rounds && f'.now == f.now
    ensures Left(f'.files[0], f.now, n, OldReading(n))
  {
    f' := LeaveAt(g, f, n, OldReading(n) - SCAN_LEASE_MS);
  }

  lemma {:induction false} ClaimOld(g: Region, f: Fleet, t: Instant) returns (f': Fleet)
    requires Closed(g) && !Fenced(g.h) && f in g.fleets && 0 in f.files && NotBefore(f.files[0].row.uploadedAt, t)
    ensures f' in g.fleets && OnlyFile(f, f', 0)
    ensures f'.files[0] == Apply(Apply(f.files[0], Claim(1, t)), Crash(1))
  {
    StepStays(g, f, Act(0, Claim(1, t)));
    var f1 := Next(g.batch, f, Act(0, Claim(1, t)));
    assert f1.files[0] == Apply(f.files[0], Claim(1, t));
    StepStays(g, f1, Act(0, Crash(1)));
    f' := Next(g.batch, f1, Act(0, Crash(1)));
  }

  /** Round `n` is about to update the file. */
  predicate RecoveringOld(f: Fleet, n: nat) {
    && f.files.Keys == {0} && Left(f.files[0], f.now, n, OldReading(n)) && OldReading(n) <= f.now
    && RecoverReady(f, n) && f.rounds[n].at == OldReading(n) && f.rounds[n].stage.ids == {0}
  }

  lemma {:induction false} UpToOldRecovery(g: Region, f: Fleet, n: nat) returns (f': Fleet)
    requires Closed(g) && !Fenced(g.h) && f in g.fleets && f.files.Keys == {0} && Poised(f, n, LAST) && n < LAST
    requires DueBefore(f.files[0], f.now, n) && g.batch > 0
    ensures f' in g.fleets && RecoveringOld(f', n) && f'.now == f.now
    ensures f'.rounds - {n} == f.rounds - {n}
  {
    OldReadingsGrow(n, LAST);
    var f1 := LeaveOld(g, f, n);
    f' := SelectOld(g, f1, n);
  }

  lemma {:induction false} SelectOld(g: Region, f: Fleet, n: nat) returns (f': Fleet)
    requires Closed(g) && f in g.fleets && f.files.Keys == {0} && g.batch > 0 && OldReading(n) <= f.now
    requires SelectReady(f, n) && f.rounds[n].at == OldReading(n) && Left(f.files[0], f.now, n, OldReading(n))
    ensures f' in g.fleets && RecoveringOld(f', n) && f'.now == f.now && f'.rounds - {n} == f.rounds - {n}
  {
    assert Selects(Table(f), RecoverLeases, OldReading(n), g.batch, {0});
    StepStays(g, f, SelectExpired(n, {0}));
    f' := Next(g.batch, f, SelectExpired(n, {0}));
  }

  lemma {:induction false} RecoverOld(g: Region, f: Fleet, n: nat) returns (f': Fleet)
    requires Closed(g) && f in g.fleets && RecoveringOld(f, n) && n < MAX_SCAN_ATTEMPTS
    ensures f' in g.fleets && f'.files.Keys == {0} && f'.rounds == f.rounds - {n} && f'.now == f.now
    ensures DueBefore(f'.files[0], f.now, n + 1)
  {
    StepStays(g, f, RecoverRows(n));
    f' := Next(g.batch, f, RecoverRows(n));
    OldRecoveryEffect(g.batch, f, n);
    OldRecovered(f.files[0], f.now, n);
  }

  lemma {:induction false} OldRecoveryEffect(batch: nat, f: Fleet, n: nat)
    requires RecoveringOld(f, n) && n < MAX_SCAN_ATTEMPTS
    ensures var f' := Next(batch, f, RecoverRows(n));
            && f'.files.Keys == {0} && f'.rounds == f.rounds - {n} && f'.now == f.now
            && f'.files[0] == Apply(f.files[0], BulkSweep(RecoverLeases, OldReading(n)))
  {
    assert !RecoverFails(f, n);
  }

  lemma {:induction false} OldRecovered(w: World, now: Instant, n: nat)
    requires Left(w, now, n, OldReading(n)) && OldReading(n) <= now && n < MAX_SCAN_ATTEMPTS
    ensures DueBefore(Apply(w, BulkSweep(RecoverLeases, OldReading(n))), now, n + 1)
  {
    OldReadingsGrow(n, n);
  }

  lemma {:induction false} OneRoundLess(f: Fleet, f': Fleet, lo: nat, hi: nat)
    requires Poised(f, lo, hi) && lo < hi && f'.rounds == f.rounds - {lo} && f'.now == f.now
    ensures Poised(f', lo + 1, hi)
  {
  }

  /** Each of the waiting rounds recovers the file after another old claim. */
  lemma {:induction false} OldClaims(g: Region, n: nat) returns (f: Fleet)
    requires Closed(g) && !Fenced(g.h) && g.batch > 0 && n <= MAX_SCAN_ATTEMPTS
    ensures f in g.fleets && f.files.Keys == {0} && Poised(f, n, LAST) && DueBefore(f.files[0], f.now, n)
  {
    if n == 0 {
      f := LateUpload(g);
    } else {
      var f0 := OldClaims(g, n - 1);
      var f1 := UpToOldRecovery(g, f0, n - 1);
      f := RecoverOld(g, f1, n - 1);
      OneRoundLess(f0, f, n - 1, LAST);
    }
  }

  /** A single file is enough for a refusal if claims may be older than the rounds in progress. */
  lemma {:induction false} OldClaimsOverload(g: Region) returns (f: Fleet, r: RoundId)
    requires Closed(g) && !Fenced(g.h) && g.batch > 0
    ensures f in g.fleets && |f.files| == 1 && StatementRefused(f, RecoverRows(r))
  {
    f := OldClaims(g, MAX_SCAN_ATTEMPTS);
    f := UpToOldRecovery(g, f, MAX_SCAN_ATTEMPTS);
    r := MAX_SCAN_ATTEMPTS;
    assert |f.files| == |f.files.Keys|;
    assert OneTooMany(Table(f)[0], BulkUpdate(RecoverLeases, f.rounds[r].at));
  }

  // ----- the exact size

  /** The largest number of files for which no statement is refused. */
  function SafeSize(h: Habit, batch: nat): nat {
    if !Fenced(h) then 0 else if h.undisturbed then 854 * batch else batch
  }

  lemma {:induction false} SmallTableIsSafe(h: Habit, batch: nat, f: Fleet, step: Step)
    requires Attained(h, batch, f) && Keeps(h, f, step) && |f.files| <= SafeSize(h, batch)
    ensures !StatementRefused(f, step)
  {
    if Fenced(h) {
      var now, steps :| Follows(h, batch, now, steps) && f == FleetAfter(batch, now, steps);
      if h.undisturbed {
        forall id | id in f.files ensures LedgerAfter(batch, now, steps, id).disturbed == 0 {
          UndisturbedIsNothing(h, batch, now, steps, id);
        }
      }
      NotRefusedWithinBacklog(h, batch, now, steps, step);
    } else {
      assert f.files == map[];
    }
  }

  /** All that runs which keep the habits lead to. */
  ghost function AllAttained(h: Habit, batch: nat): Region {
    Region(h, batch, iset f | Attained(h, batch, f))
  }

  lemma {:induction false} AttainedStep(h: Habit, batch: nat, f: Fleet, step: Step)
    requires Attained(h, batch, f) && Keeps(h, f, step)
    ensures Attained(h, batch, Next(batch, f, step))
  {
    var now, steps :| Follows(h, batch, now, steps) && f == FleetAfter(batch, now, steps);
    var more := steps + [step];
    assert more[..|more| - 1] == steps;
    assert Follows(h, batch, now, more);
    assert Next(batch, f, step) == FleetAfter(batch, now, more);
  }

  lemma {:induction false} AllAttainedIsClosed(h: Habit, batch: nat)
    ensures Closed(AllAttained(h, batch))
  {
    assert Follows(h, batch, 0, []) && Fleet(0, map[], map[]) == FleetAfter(batch, 0, []);
    forall f, step | Attained(h, batch, f) && Keeps(h, f, step) ensures Attained(h, batch, Next(batch, f, step)) {
      AttainedStep(h, batch, f, step);
    }
  }

  lemma {:induction false} StricterIsAttained(h: Habit, e: Habit, batch: nat, f: Fleet)
    requires Stricter(h, e) && Attained(h, batch, f)
    ensures Attained(e, batch, f)
  {
    var now, steps :| Follows(h, batch, now, steps) && f == FleetAfter(batch, now, steps);
    StricterFollows(h, e, batch, now, steps);
  }

  /** One file more, and some run leads to a refusal. */
  lemma {:induction false} LargeTableIsNot(h: Habit, batch: nat) returns (f: Fleet, r: RoundId)
    requires batch > 0
    ensures Attained(h, batch, f) && |f.files| == SafeSize(h, batch) + 1
    ensures Keeps(h, f, RecoverRows(r)) && StatementRefused(f, RecoverRows(r))
  {
    if !Fenced(h) {
      AllAttainedIsClosed(h, batch);
      f, r := OldClaimsOverload(AllAttained(h, batch));
    } else {
      var strict := Habit(true, true, h.undisturbed);
      AllAttainedIsClosed(strict, batch);
      r := 0;
      if h.undisturbed {
        f := BacklogOverloads(AllAttained(strict, batch));
      } else {
        f := DisturbanceOverloads(AllAttained(strict, batch));
      }
      StricterIsAttained(strict, h, batch, f);
    }
  }

  /**
   The exact condition on the size of the table. With claims no older than the rounds in progress,
   no statement on any of at most `n` files is ever refused if and only if all of them fit into one
   batch; or, when no row changes between the select and the update of a failing pass, into 854
   batches. With older claims no file is safe. Current clocks make no further difference.
   */
  lemma {:induction false} SafeSizeExactly(h: Habit, batch: nat, n: nat)
    requires batch > 0
    ensures (forall f, step :: Attained(h, batch, f) && |f.files| <= n && Keeps(h, f, step) ==>
               !StatementRefused(f, step))
            <==> n <= if !(h.current || h.recent) then 0 else if h.undisturbed then 854 * batch else batch
  {
    if n <= SafeSize(h, batch) {
      forall f, step | Attained(h, batch, f) && |f.files| <= n && Keeps(h, f, step)
        ensures !StatementRefused(f, step)
      {
        SmallTableIsSafe(h, batch, f, step);
      }
    } else {
      var f, r := LargeTableIsNot(h, batch);
    }
  }
}
