/** The transactional outbox: events claimed under a lease, published once, retried after failure. */
module Outbox {
  import opened Common

  type EventId = nat
  type WorkerId = string

  const MAX_ERROR_LENGTH: nat := 2_000

  datatype Event = Event(
    occurredAt: Instant, availableAt: Instant, attempts: nat,
    lockedAt: Option<Instant>, lockedBy: Option<WorkerId>, leaseExpiresAt: Option<Instant>,
    publishedAt: Option<Instant>, lastError: Option<string>)

  type Table = map<EventId, Event>

  function NewEvent(occurredAt: Instant, availableAt: Option<Instant>): Event {
    Event(occurredAt, if availableAt.Some? then availableAt.value else occurredAt, 0, None, None, None, None, None)
  }

  /** The candidate condition of the claim query. */
  predicate Claimable(e: Event, now: Instant) {
    && e.publishedAt.None?
    && e.availableAt <= now
    && ((e.lockedAt.None? && e.leaseExpiresAt.None?) || (e.leaseExpiresAt.Some? && e.leaseExpiresAt.value <= now))
  }

  function Unlocked(e: Event): Event {
    e.(lockedAt := None, lockedBy := None, leaseExpiresAt := None)
  }

  function Claimed(e: Event, worker: WorkerId, leaseMs: int, now: Instant): Event {
    e.(lockedAt := Some(now), lockedBy := Some(worker), leaseExpiresAt := Some(now + leaseMs),
        attempts := e.attempts + 1)
  }

  predicate HeldBy(e: Event, worker: WorkerId) {
    e.lockedBy == Some(worker) && e.publishedAt.None?
  }

  function Published(e: Event, at: Instant): Event {
    Unlocked(e).(publishedAt := Some(at))
  }

  function Failed(e: Event, error: string, nextAttemptAt: Instant): Event {
    Unlocked(e).(availableAt := nextAttemptAt, lastError := Some(error[..Min(MAX_ERROR_LENGTH, |error|)]))
  }

  predicate Releasable(e: Event, now: Instant) {
    e.publishedAt.None? && e.leaseExpiresAt.Some? && e.leaseExpiresAt.value <= now
  }

  /** The order of the claim query. */
  predicate Precedes(a: Event, aId: EventId, b: Event, bId: EventId) {
    a.occurredAt < b.occurredAt || (a.occurredAt == b.occurredAt && aId < bId)
  }

  /**
   What `for update skip locked limit n` may pick: the first candidates in order, passing over
   rows some other transaction holds locked at that moment.
   */
  ghost predicate Picks(table: Table, now: Instant, limit: nat, skipped: set<EventId>, picked: set<EventId>) {
    && |picked| <= limit
    && (forall id :: id in picked ==> id in table && Claimable(table[id], now) && id !in skipped)
    && (forall id :: id in table && Claimable(table[id], now) && id !in skipped && id !in picked ==>
          |picked| == limit && forall other :: other in picked ==> Precedes(table[other], other, table[id], id))
  }

  /** The pick is determined by what is skipped: no other set of rows satisfies it. */
  lemma PickIsDetermined(
    table: Table, now: Instant, limit: nat, skipped: set<EventId>, a: set<EventId>, b: set<EventId>)
    requires Picks(table, now, limit, skipped, a) && Picks(table, now, limit, skipped, b)
    ensures a == b
  {
    PickWithin(table, now, limit, skipped, a, b);
    PickWithin(table, now, limit, skipped, b, a);
  }

  lemma PickWithin(table: Table, now: Instant, limit: nat, skipped: set<EventId>, a: set<EventId>, b: set<EventId>)
    requires Picks(table, now, limit, skipped, a) && Picks(table, now, limit, skipped, b)
    ensures a <= b
  {
    forall x | x in a ensures x in b {
      if x !in b {
        SameSize(b, a, x);
      }
    }
  }

  /** A set that is no smaller and lacks an element of the other has one that the other lacks. */
  lemma SameSize(large: set<EventId>, small: set<EventId>, x: EventId)
    requires |large| >= |small| && x in small && x !in large
    ensures exists y :: y in large && y !in small
  {
    if large <= small {
      SubsetIsNoLarger(large, small - {x});
    }
  }

  /** The first of some rows in the order of the claim query. */
  method First(table: Table, ids: set<EventId>) returns (first: EventId)
    requires ids != {} && ids <= table.Keys
    ensures first in ids && forall id :: id in ids && id != first ==> Precedes(table[first], first, table[id], id)
  {
    first :| first in ids;
    var rest := ids - {first};
    while rest != {}
      invariant rest <= ids && first in ids && first !in rest
      invariant forall id :: id in ids && id !in rest && id != first ==> Precedes(table[first], first, table[id], id)
    {
      var id :| id in rest;
      if Precedes(table[id], id, table[first], first) {
        first := id;
      }
      rest := rest - {id};
    }
  }

  /** The candidates of a claim, taken in order up to the limit. */
  method PickBatch(table: Table, now: Instant, limit: nat, skipped: set<EventId>) returns (picked: set<EventId>)
    ensures Picks(table, now, limit, skipped, picked)
  {
    picked := {};
    var left := set id | id in table && Claimable(table[id], now) && id !in skipped;
    while |picked| < limit && left != {}
      invariant |picked| <= limit
      invariant forall id :: id in picked || id in left <==> id in table && Claimable(table[id], now) && id !in skipped
      invariant forall id, other :: id in left && other in picked ==>
                id != other && Precedes(table[other], other, table[id], id)
      decreases |left|
    {
      var id := First(table, left);
      picked := picked + {id};
      left := left - {id};
    }
  }

  class OutboxTable {
    var events: Table

    constructor ()
      ensures events == map[]
    {
      events := map[];
    }

    /** Locks the first claimable rows for the worker and returns them; `skipped` are rows locked by others. */
    method ClaimBatch(worker: WorkerId, limit: nat, leaseMs: int, now: Instant, skipped: set<EventId>)
      returns (claimed: Table)
      modifies this
      ensures Picks(old(events), now, limit, skipped, claimed.Keys)
      ensures events == Apply(old(events), Claim(worker, claimed.Keys, leaseMs, now))
      ensures forall id :: id in claimed ==> id in events && claimed[id] == events[id]
    {
      var picked := PickBatch(events, now, limit, skipped);
      events := map id | id in events :: if id in picked then Claimed(events[id], worker, leaseMs, now) else events[id];
      claimed := map id | id in picked :: events[id];
      assert claimed.Keys == picked;
    }

    method MarkPublished(id: EventId, worker: WorkerId, at: Instant) returns (updated: bool)
      modifies this
      ensures events == Apply(old(events), Publish(id, worker, at))
      ensures updated == (id in old(events) && HeldBy(old(events)[id], worker))
    {
      updated := id in events && events[id].lockedBy == Some(worker) && events[id].publishedAt.None?;
      if updated {
        events := events[id := events[id].(publishedAt := Some(at), lockedAt := None, lockedBy := None,
            leaseExpiresAt := None)];
      }
    }

    /** True when the event is published afterwards, whoever published it. */
    method Acknowledge(id: EventId, at: Instant) returns (published: bool)
      modifies this
      ensures events == Apply(old(events), Ack(id, at))
      ensures published == (id in events && events[id].publishedAt.Some?)
    {
      if id in events && events[id].publishedAt.None? {
        events := events[id := events[id].(publishedAt := Some(at), lockedAt := None, lockedBy := None,
            leaseExpiresAt := None)];
        return true;
      }
      published := id in events && events[id].publishedAt.Some?;
    }

    method MarkFailed(id: EventId, worker: WorkerId, error: string, nextAttemptAt: Instant) returns (updated: bool)
      modifies this
      ensures events == Apply(old(events), Fail(id, worker, error, nextAttemptAt))
      ensures updated == (id in old(events) && HeldBy(old(events)[id], worker))
    {
      updated := id in events && events[id].lockedBy == Some(worker) && events[id].publishedAt.None?;
      if updated {
        events := events[id := Failed(events[id], error, nextAttemptAt)];
      }
    }

    method ReleaseExpired(now: Instant) returns (released: set<EventId>)
      modifies this
      ensures events == Apply(old(events), Release(now))
      ensures released == set id | id in old(events) && Releasable(old(events)[id], now)
    {
      released := set id | id in events && Releasable(events[id], now);
      events := map id | id in events :: if id in released then Unlocked(events[id]) else events[id];
    }
  }

  // ----- runs

  datatype Op =
    | Insert(id: EventId, occurredAt: Instant, availableAt: Option<Instant>)
    | Claim(worker: WorkerId, picked: set<EventId>, leaseMs: int, now: Instant)
    | Publish(id: EventId, worker: WorkerId, at: Instant)
    | Ack(id: EventId, at: Instant)
    | Fail(id: EventId, worker: WorkerId, error: string, nextAttemptAt: Instant)
    | Release(now: Instant)

  /** The effect of an operation on one event of the table. */
  function OnEvent(id: EventId, e: Event, op: Op): Event {
    match op
    case Insert(_, _, _) => e
    case Claim(worker, picked, leaseMs, now) => if id in picked
        && Claimable(e, now) then Claimed(e, worker, leaseMs, now) else e
    case Publish(target, worker, at) => if target == id && HeldBy(e, worker) then Published(e, at) else e
    case Ack(target, at) => if target == id && e.publishedAt.None? then Published(e, at) else e
    case Fail(target, worker, error, next) => if target == id && HeldBy(e, worker) then Failed(e, error, next) else e
    case Release(now) => if Releasable(e, now) then Unlocked(e) else e
  }

  function Apply(table: Table, op: Op): Table {
    var updated := map id | id in table :: OnEvent(id, table[id], op);
    if op.Insert? && op.id !in table then updated[op.id := NewEvent(op.occurredAt, op.availableAt)] else updated
  }

  function Run(table: Table, ops: seq<Op>): Table {
    if ops == [] then table else Apply(Run(table, ops[..|ops| - 1]), ops[|ops| - 1])
  }

  /** Lock fields are all null or all set, and a published event holds none. */
  predicate Whole(e: Event) {
    && (e.lockedAt.Some? <==> e.lockedBy.Some?)
    && (e.lockedAt.Some? <==> e.leaseExpiresAt.Some?)
    && (e.publishedAt.Some? ==> e.lockedAt.None?)
  }

  predicate AllWhole(table: Table) {
    forall id :: id in table ==> Whole(table[id])
  }

  lemma {:induction false} RunKeepsEventsWhole(ops: seq<Op>)
    ensures AllWhole(Run(map[], ops))
  {
    if ops != [] {
      RunKeepsEventsWhole(ops[..|ops| - 1]);
    }
  }

  /** How many operations of the run claimed the event. */
  function ClaimsOf(ops: seq<Op>, id: EventId): nat {
    if ops == [] then 0
    else
      var before := Run(map[], ops[..|ops| - 1]);
      var op := ops[|ops| - 1];
      ClaimsOf(ops[..|ops| - 1], id)
      + (if op.Claim? && id in op.picked && id in before && Claimable(before[id], op.now) then 1 else 0)
  }

  /** `attempts` is the number of times the event was claimed. */
  lemma {:induction false} AttemptsCountClaims(ops: seq<Op>, id: EventId)
    ensures var table := Run(map[], ops);
            if id in table then table[id].attempts == ClaimsOf(ops, id) else ClaimsOf(ops, id) == 0
  {
    if ops != [] {
      AttemptsCountClaims(ops[..|ops| - 1], id);
    }
  }

  /** A published event never changes again, in particular is never claimed again. */
  lemma {:induction false} PublishedIsFinal(table: Table, ops: seq<Op>, id: EventId)
    requires AllWhole(table) && id in table && table[id].publishedAt.Some?
    ensures id in Run(table, ops) && Run(table, ops)[id] == table[id]
    ensures forall now :: !Claimable(Run(table, ops)[id], now)
  {
    if ops != [] {
      PublishedIsFinal(table, ops[..|ops| - 1], id);
    }
  }

  /** Operations that can end a lease early: its holder's marks and an acknowledgement. */
  predicate EndsLease(op: Op, id: EventId, holder: WorkerId) {
    || (op.Ack? && op.id == id)
    || ((op.Publish? || op.Fail?) && op.id == id && op.worker == holder)
  }

  /** Operations that read the clock at or after `expiry`. */
  predicate ReadsClockFrom(op: Op, expiry: Instant) {
    (op.Claim? || op.Release?) && op.now >= expiry
  }

  /**
   The lease: while no claim or release reads the clock at its expiry or later, nothing but the
   holder's own mark or an acknowledgement changes the event; every other worker's mark is idle.
   */
  lemma {:induction false} LeaseProtects(table: Table, ops: seq<Op>, id: EventId, holder: WorkerId, expiry: Instant)
    requires id in table && table[id].lockedBy == Some(holder) && table[id].lockedAt.Some?
             && table[id].leaseExpiresAt == Some(expiry)
    requires forall op :: op in ops ==> !EndsLease(op, id, holder) && !ReadsClockFrom(op, expiry)
    ensures id in Run(table, ops) && Run(table, ops)[id] == table[id]
  {
    if ops != [] {
      var n := |ops| - 1;
      assert ops[n] in ops;
      LeaseProtects(table, ops[..n], id, holder, expiry);
      assert !EndsLease(ops[n], id, holder) && !ReadsClockFrom(ops[n], expiry);
    }
  }

  predicate Marks(op: Op, id: EventId, worker: WorkerId) {
    (op.Publish? || op.Fail?) && op.id == id && op.worker == worker
  }

  predicate ClaimsFor(op: Op, id: EventId, worker: WorkerId) {
    op.Claim? && op.worker == worker && id in op.picked
  }

  /** Only a claim of its own gives a worker an event it does not hold. */
  lemma {:induction false} DisplacedStaysDisplaced(table: Table, ops: seq<Op>, id: EventId, worker: WorkerId)
    requires id in table && table[id].lockedBy != Some(worker)
    requires forall i :: 0 <= i < |ops| ==> !ClaimsFor(ops[i], id, worker)
    ensures id in Run(table, ops) && Run(table, ops)[id].lockedBy != Some(worker)
  {
    if ops != [] {
      DisplacedStaysDisplaced(table, ops[..|ops| - 1], id, worker);
      assert !ClaimsFor(ops[|ops| - 1], id, worker);
    }
  }

  /**
   Once a worker no longer holds an event, and until it claims the event again, its marks change
   nothing, whatever others do in between.
   */
  lemma {:induction false} DisplacedMarkIsIdle(table: Table, ops: seq<Op>, id: EventId, worker: WorkerId, mark: Op)
    requires id in table && table[id].lockedBy != Some(worker) && Marks(mark, id, worker)
    requires forall i :: 0 <= i < |ops| ==> !ClaimsFor(ops[i], id, worker)
    ensures Apply(Run(table, ops), mark) == Run(table, ops)
  {
    DisplacedStaysDisplaced(table, ops, id, worker);
    var later := Run(table, ops);
    assert forall other :: other in later ==> OnEvent(other, later[other], mark) == later[other];
  }

  /**
   The exact condition: a mark of either kind lands if and only if its worker holds the unpublished
   event, by whichever claim.
   */
  lemma MarkLandsExactly(table: Table, id: EventId, worker: WorkerId, mark: Op)
    requires id in table && Marks(mark, id, worker)
    ensures Apply(table, mark) != table <==> HeldBy(table[id], worker)
  {
    assert Apply(table, mark)[id] == OnEvent(id, table[id], mark);
    if !HeldBy(table[id], worker) {
      assert forall other :: other in table ==> OnEvent(other, table[other], mark) == table[other];
    }
  }

  /**
   The fence is the worker's id, not the claim: when the same worker claims an event a second time
   after its first lease ran out, a mark left over from the first claim publishes it.
   */
  lemma {:induction false} StaleMarkLands(worker: WorkerId, leaseMs: nat)
    ensures var table := Run(map[],
            [Insert(1, 0, None), Claim(worker, {1}, leaseMs, 0), Claim(worker, {1}, leaseMs, leaseMs)]);
            && 1 in table && table[1].attempts == 2
            && Apply(table, Publish(1, worker, leaseMs))[1].publishedAt == Some(leaseMs)
  {
    var insert, first, second := Insert(1, 0, None), Claim(worker, {1}, leaseMs, 0),
        Claim(worker, {1}, leaseMs, leaseMs);
    RunThree(map[], insert, first, second);
    var t1 := Apply(map[], insert);
    assert t1[1] == NewEvent(0, None);
    var t2 := Apply(t1, first);
    assert t2[1] == Claimed(t1[1], worker, leaseMs, 0);
    var t3 := Apply(t2, second);
    assert t3[1] == Claimed(t2[1], worker, leaseMs, leaseMs);
  }

  lemma {:induction false} RunThree(table: Table, a: Op, b: Op, c: Op)
    ensures Run(table, [a, b, c]) == Apply(Apply(Apply(table, a), b), c)
  {
    assert [a, b, c][..2] == [a, b] && [a, b][..1] == [a] && [a][..0] == [];
    assert Run(table, [a]) == Apply(table, a);
    assert Run(table, [a, b]) == Apply(Apply(table, a), b);
  }

  /**
   Releasing expired leases changes what a claim reading the clock at `reading` finds exactly for
   a released event that is available to it and whose lease had not run out by that reading. A
   reading that is no older than the release therefore finds what it would have found.
   */
  lemma ReleaseKeepsClaimable(table: Table, now: Instant, id: EventId, reading: Instant)
    requires id in table
    ensures var e := table[id];
            (Claimable(Apply(table, Release(now))[id], reading) <==> Claimable(e, reading))
            <==> !(Releasable(e, now) && e.availableAt <= reading < e.leaseExpiresAt.value)
    ensures reading >= now ==> (Claimable(Apply(table, Release(now))[id], reading) <==> Claimable(table[id], reading))
  {
    assert Apply(table, Release(now))[id] == OnEvent(id, table[id], Release(now));
  }

  /** When an event that is left alone becomes claimable. */
  function ClaimableFrom(e: Event): Instant {
    if e.leaseExpiresAt.Some? then Max(e.availableAt, e.leaseExpiresAt.value) else e.availableAt
  }

  /** No unpublished event is stuck: it can be claimed exactly from max(availableAt, lease expiry) on. */
  lemma {:induction false} EveryEventBecomesClaimable(ops: seq<Op>, id: EventId, now: Instant)
    requires id in Run(map[], ops) && Run(map[], ops)[id].publishedAt.None?
    ensures Claimable(Run(map[], ops)[id], now) <==> now >= ClaimableFrom(Run(map[], ops)[id])
  {
    RunKeepsEventsWhole(ops);
  }

  // ----- how long an operation lasts, in terms of the operation alone

  /**
   A claim lasts its lease: from the operation that took the event, and for as long as no later one
   reads the clock at `now + leaseMs` or beyond, acknowledges the event or is a mark of the worker
   itself, the worker holds it; a claim finds it exactly from `now + leaseMs` on, once it is available.
   */
  lemma {:induction false} ClaimLasts(
    table: Table, id: EventId, worker: WorkerId, picked: set<EventId>, leaseMs: int, now: Instant, ops: seq<Op>)
    requires id in table && id in picked && Claimable(table[id], now)
    requires forall op :: op in ops ==> !EndsLease(op, id, worker) && !ReadsClockFrom(op, now + leaseMs)
    ensures var later := Run(Apply(table, Claim(worker, picked, leaseMs, now)), ops);
            && id in later && HeldBy(later[id], worker) && later[id].lockedAt == Some(now)
            && forall reading :: Claimable(later[id], reading) <==>
                 reading >= now + leaseMs && reading >= table[id].availableAt
  {
    var claimed := Apply(table, Claim(worker, picked, leaseMs, now));
    assert claimed[id] == OnEvent(id, table[id], Claim(worker, picked, leaseMs, now));
    LeaseProtects(claimed, ops, id, worker, now + leaseMs);
  }

  /** Operations that take or settle an event nobody holds, before it is due. */
  predicate Disturbs(op: Op, id: EventId, due: Instant) {
    || (op.Ack? && op.id == id)
    || (op.Claim? && id in op.picked && op.now >= due)
  }

  lemma {:induction false} UnclaimedStays(table: Table, ops: seq<Op>, id: EventId)
    requires id in table && Whole(table[id]) && table[id].lockedAt.None?
    requires forall i :: 0 <= i < |ops| ==> !Disturbs(ops[i], id, table[id].availableAt)
    ensures id in Run(table, ops) && Run(table, ops)[id] == table[id]
  {
    if ops != [] {
      UnclaimedStays(table, ops[..|ops| - 1], id);
      assert !Disturbs(ops[|ops| - 1], id, table[id].availableAt);
    }
  }

  /**
   A failing mark of the holder reschedules: whatever others do, nobody holds the event and a claim
   finds it exactly from the given time on; the error is kept up to its first 2,000 characters.
   */
  lemma {:induction false} FailureReschedules(
    table: Table, id: EventId, worker: WorkerId, error: string, next: Instant, ops: seq<Op>)
    requires id in table && Whole(table[id]) && HeldBy(table[id], worker)
    requires forall i :: 0 <= i < |ops| ==> !Disturbs(ops[i], id, next)
    ensures var later := Run(Apply(table, Fail(id, worker, error, next)), ops);
            && id in later && later[id].attempts == table[id].attempts && (forall w :: !HeldBy(later[id], w))
            && (forall reading :: Claimable(later[id], reading) <==> reading >= next)
            && later[id].lastError.Some? && later[id].lastError.value <= error
            && |later[id].lastError.value| == Min(2_000, |error|)
  {
    var failed := Apply(table, Fail(id, worker, error, next));
    assert failed[id] == OnEvent(id, table[id], Fail(id, worker, error, next));
    UnclaimedStays(failed, ops, id);
  }

  /** A new event waits for the time it was given, or is due at once when it was given none. */
  lemma {:induction false} InsertedWaits(
    table: Table, id: EventId, occurredAt: Instant, availableAt: Option<Instant>, ops: seq<Op>)
    requires id !in table
    requires forall i :: 0 <= i < |ops| ==> !Disturbs(ops[i], id, DueFrom(occurredAt, availableAt))
    ensures var later := Run(Apply(table, Insert(id, occurredAt, availableAt)), ops);
            && id in later && later[id].occurredAt == occurredAt && later[id].attempts == 0
            && forall reading :: Claimable(later[id], reading) <==> reading >= DueFrom(occurredAt, availableAt)
  {
    UnclaimedStays(Apply(table, Insert(id, occurredAt, availableAt)), ops, id);
  }

  function DueFrom(occurredAt: Instant, availableAt: Option<Instant>): Instant {
    match availableAt case Some(at) => at case None => occurredAt
  }

  /** The operation publishes the event: an acknowledgement, or the mark of its holder. */
  predicate Publishes(table: Table, op: Op, id: EventId) {
    && id in table && table[id].publishedAt.None?
    && (|| (op.Ack? && op.id == id)
        || (op.Publish? && op.id == id && table[id].lockedBy == Some(op.worker)))
  }

  /** The first operation that publishes an event dates it for good, and ends its lock. */
  lemma {:induction false} FirstPublicationCounts(table: Table, op: Op, ops: seq<Op>, id: EventId)
    requires AllWhole(table) && Publishes(table, op, id)
    ensures var later := Run(Apply(table, op), ops);
            && id in later && later[id].publishedAt == Some(op.at) && later[id].lockedBy.None?
            && later[id].attempts == table[id].attempts
  {
    var published := Apply(table, op);
    assert published[id] == OnEvent(id, table[id], op);
    PublishedIsFinal(published, ops, id);
  }

  /** Nothing but such an operation publishes an event. */
  lemma {:induction false} OnlyMarksPublish(table: Table, op: Op, id: EventId)
    requires id in table && table[id].publishedAt.None? && !Publishes(table, op, id)
    ensures Apply(table, op)[id].publishedAt.None?
  {
    assert Apply(table, op)[id] == OnEvent(id, table[id], op);
  }

  /** Events are claimed oldest first: none is picked while an earlier one that could be is left. */
  lemma OldestFirst(
    table: Table, now: Instant, limit: nat, skipped: set<EventId>, picked: set<EventId>, id: EventId, older: EventId)
    requires Picks(table, now, limit, skipped, picked) && id in picked
    requires older in table && Claimable(table[older], now) && older !in skipped
    requires table[older].occurredAt < table[id].occurredAt
             || (table[older].occurredAt == table[id].occurredAt && older < id)
    ensures older in picked
  {
    assert !Precedes(table[id], id, table[older], older);
  }

  /** What a claim could take: unpublished, available, not leased, and not locked elsewhere. */
  function DueEvents(table: Table, now: Instant, skipped: set<EventId>): set<EventId> {
    set id | id in table && id !in skipped && table[id].publishedAt.None? && table[id].availableAt <= now
             && (table[id].leaseExpiresAt.None? || table[id].leaseExpiresAt.value <= now)
  }

  /** A claim takes as many of the due events as its limit allows, hence all of them when there is room. */
  lemma ClaimFillsItsLimit(table: Table, now: Instant, limit: nat, skipped: set<EventId>, picked: set<EventId>)
    requires forall id :: id in table ==> Whole(table[id])
    requires Picks(table, now, limit, skipped, picked)
    ensures picked <= DueEvents(table, now, skipped)
    ensures |DueEvents(table, now, skipped)| <= limit ==> picked == DueEvents(table, now, skipped)
    ensures |DueEvents(table, now, skipped)| >= limit ==> |picked| == limit
  {
    var due := DueEvents(table, now, skipped);
    assert picked <= due;
    if id :| id in due && id !in picked {
      assert Claimable(table[id], now);
      SubsetIsNoLarger(picked + {id}, due);
      assert |picked + {id}| == |picked| + 1;
    } else {
      assert picked == due;
    }
  }

  lemma {:induction false} FirstOf(table: Table, ids: set<EventId>) returns (first: EventId)
    requires ids != {} && forall id :: id in ids ==> id in table
    ensures first in ids && forall id :: id in ids && id != first ==> Precedes(table[first], first, table[id], id)
    decreases |ids|
  {
    first :| first in ids;
    if ids != {first} {
      var other := FirstOf(table, ids - {first});
      if !Precedes(table[first], first, table[other], other) {
        first := other;
      }
    }
  }

  /** There is always such a pick. */
  lemma {:induction false} PickExists(table: Table, now: Instant, limit: nat, skipped: set<EventId>)
    returns (picked: set<EventId>)
    requires forall id :: id in table ==> Whole(table[id])
    ensures Picks(table, now, limit, skipped, picked)
    ensures |DueEvents(table, now, skipped)| >= limit ==> |picked| == limit
  {
    var due := DueEvents(table, now, skipped);
    if limit == 0 {
      picked := {};
    } else {
      picked := PickExists(table, now, limit - 1, skipped);
      ClaimFillsItsLimit(table, now, limit - 1, skipped, picked);
      if picked != due {
        assert due - picked != {} by {
          assert due == (due - picked) + picked;
        }
        var first := FirstOf(table, due - picked);
        picked := picked + {first};
      }
    }
  }

  /** A release gives up a claim exactly from the end of its lease on. */
  lemma ReleasedExactly(
    table: Table, id: EventId, worker: WorkerId, picked: set<EventId>, leaseMs: int, now: Instant, reading: Instant)
    requires id in table && id in picked && Claimable(table[id], now)
    ensures var claimed := Apply(table, Claim(worker, picked, leaseMs, now));
            var released := Apply(claimed, Release(reading));
            && id in released && released[id].availableAt == table[id].availableAt
            && (released[id].lockedAt.None? <==> reading >= now + leaseMs)
            && (HeldBy(released[id], worker) <==> reading < now + leaseMs)
  {
    var claimed := Apply(table, Claim(worker, picked, leaseMs, now));
    assert claimed[id] == OnEvent(id, table[id], Claim(worker, picked, leaseMs, now));
    assert Apply(claimed, Release(reading))[id] == OnEvent(id, claimed[id], Release(reading));
  }
}
