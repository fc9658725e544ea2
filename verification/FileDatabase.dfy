/**
 The commission_files table with many files, and the scan events it emits. Each method is one
 statement as its caller wrote it; the database accepts the result or raises an error and stores
 nothing. Every method keeps every row within the checks and at most one scan event per file.
 */
module FileDatabase {
  import opened Common
  import opened FileSignature
  import opened FileRows
  import opened FileLifecycle
  import opened FileStatements

  type Rows = map<FileId, Row>
  type Events = seq<(FileId, Outcome)>

  /** What became of a statement: it stored a row, matched none, or was refused. */
  datatype Effect = Stored(row: Row) | NoMatch | Failed

  function EffectOf(rows: Rows, id: FileId, st: Statement): Effect {
    if id !in rows || Written(rows[id], st).None? then NoMatch
    else if Refused(rows[id], st) then Failed
    else Effect.Stored(Written(rows[id], st).value)
  }

  function Updated(rows: Rows, id: FileId, st: Statement): Rows {
    var effect := EffectOf(rows, id, st);
    if effect.Stored? then rows[id := effect.row] else rows
  }

  /** The scan events of one file, in order. */
  function EventsOf(events: Events, id: FileId): seq<Outcome> {
    if events == [] then []
    else
      var last := events[|events| - 1];
      EventsOf(events[..|events| - 1], id) + (if last.0 == id then [last.1] else [])
  }

  lemma {:induction false} EventsOfMore(events: Events, id: FileId, o: Outcome, other: FileId)
    ensures EventsOf(events + [(id, o)], other) == EventsOf(events, other) + (if other == id then [o] else [])
  {
    assert (events + [(id, o)])[..|events|] == events;
  }

  ghost predicate TableOk(rows: Rows, events: Events) {
    && (forall id :: id in rows ==> RowOk(rows[id]) && EventsFit(rows[id].state, EventsOf(events, id)))
    && (forall id :: id in rows ==> SizeFits(rows[id].context, rows[id].declaredBytes))
    && (forall id :: id !in rows ==> EventsOf(events, id) == [])
  }

  /** A table in order has emitted at most one scan event for each file. */
  lemma {:induction false} OneEventEach(rows: Rows, events: Events, id: FileId)
    requires TableOk(rows, events)
    ensures |EventsOf(events, id)| <= 1
  {
    if id in rows {
      assert EventsFit(rows[id].state, EventsOf(events, id));
    }
  }

  // ----- what one statement keeps

  lemma {:induction false} EventsStillFit(row: Row, st: Statement, events: seq<Outcome>)
    requires RowOk(row) && Fits(row, st) && !st.SettleTo? && EventsFit(row.state, events)
    ensures EventsFit(Executed(row, st).state, events)
  {
  }

  lemma {:induction false} StatementKeepsTable(rows: Rows, events: Events, id: FileId, st: Statement)
    requires TableOk(rows, events) && !st.SettleTo? && (id in rows ==> Fits(rows[id], st))
    ensures TableOk(Updated(rows, id, st), events)
    ensures EffectOf(rows, id, st).Stored? ==> GuardAllows(rows[id], Updated(rows, id, st)[id])
  {
    if id in rows {
      EventsStillFit(rows[id], st, EventsOf(events, id));
      ExecutedIsOk(rows[id], st);
    }
  }

  lemma {:induction false} SettledEventsFit(row: Row, claimed: Row, s: Settlement, at: Instant, events: seq<Outcome>)
    requires RowOk(row) && Fits(row, SettleTo(claimed, s, at)) && row.version == claimed.version
             && EventsFit(row.state, events)
    ensures EventsFit(Settle(row, claimed, s, at).value.state, events + SettlementEvents(s))
  {
  }

  /** The events a settlement adds: one for a final result that was stored. */
  function EventsAfter(events: Events, id: FileId, effect: Effect, s: Settlement): Events {
    if effect.Stored? && !s.Retry? then events + [(id, SettlementEvents(s)[0])] else events
  }

  lemma {:induction false} SettlementKeepsTable(
    rows: Rows, events: Events, id: FileId, claimed: Row, s: Settlement, at: Instant)
    requires TableOk(rows, events) && (id in rows ==> Fits(rows[id], SettleTo(claimed, s, at)))
    ensures var st := SettleTo(claimed, s, at);
            TableOk(Updated(rows, id, st), EventsAfter(events, id, EffectOf(rows, id, st), s))
  {
    var st := SettleTo(claimed, s, at);
    var effect := EffectOf(rows, id, st);
    if effect.Stored? {
      ExecutedIsOk(rows[id], st);
      SettledEventsFit(rows[id], claimed, s, at, EventsOf(events, id));
      SettlementAdds(events, id, effect, s);
      RowKeepsTable(rows, events, EventsAfter(events, id, effect, s), id, effect.row);
    }
  }

  lemma {:induction false} SettlementAdds(events: Events, id: FileId, effect: Effect, s: Settlement)
    requires effect.Stored?
    ensures var events' := EventsAfter(events, id, effect, s);
            && EventsOf(events', id) == EventsOf(events, id) + SettlementEvents(s)
            && forall other :: other != id ==> EventsOf(events', other) == EventsOf(events, other)
  {
    if !s.Retry? {
      forall other ensures EventsOf(EventsAfter(events, id, effect, s), other)
          == EventsOf(events, other) + (if other == id then SettlementEvents(s) else []) {
        EventsOfMore(events, id, SettlementEvents(s)[0], other);
      }
    }
  }

  lemma {:induction false} RowKeepsTable(rows: Rows, events: Events, events': Events, id: FileId, row: Row)
    requires TableOk(rows, events) && RowOk(row) && EventsFit(row.state, EventsOf(events', id))
    requires SizeFits(row.context, row.declaredBytes)
    requires forall other :: other != id ==> EventsOf(events', other) == EventsOf(events, other)
    ensures TableOk(rows[id := row], events')
  {
  }

  /** The values of the mark: each bucket's time where the earlier read needed it and it is still unset. */
  method PurgeValues(row: Row, file: Row, at: Instant) returns (after: Option<Row>)
    ensures after == MarkPurged(row, file, at)
  {
    var needsQuarantine := file.quarantinePurgedAt.None?;
    var needsClean := Terminal(file.state) && file.cleanPurgedAt.None?;
    var canMarkClean := needsClean
      && (!file.cleanCopyIntent || (file.endedAt.Some? && file.endedAt.value <= at - COPY_INTENT_CLOSURE_MS));
    if row.state != file.state || (needsQuarantine && row.quarantinePurgedAt.Some?)
        || (canMarkClean && row.cleanPurgedAt.Some?) {
      return None;
    }
    var values := row.(version := row.version + 1, updatedAt := if at > row.updatedAt then at else row.updatedAt);
    if needsQuarantine {
      values := values.(quarantinePurgedAt := Some(at));
    }
    if canMarkClean {
      values := values.(cleanPurgedAt := Some(at));
    }
    after := Some(values);
  }

  class FileTable {
    var rows: Rows
    var events: Events

    ghost predicate Valid()
      reads this
    {
      TableOk(rows, events)
    }

    constructor ()
      ensures Valid() && rows == map[] && events == []
    {
      rows, events := map[], [];
    }

    /** The insert of an upload; refused when the id is taken or the size is out of bounds. */
    method CreateUpload(id: FileId, context: Context, declaredBytes: nat, at: Instant) returns (inserted: bool)
      requires Valid()
      modifies this
      ensures Valid() && events == old(events)
      ensures inserted <==> id !in old(rows) && SizeFits(context, declaredBytes)
      ensures rows == if inserted then old(rows)[id := NewRow(context, declaredBytes, at)] else old(rows)
    {
      inserted := id !in rows && declaredBytes >= 1
        && declaredBytes <= if context == Submission then 262_144_000 else 26_214_400;
      if inserted {
        rows := rows[id := NewRow(context, declaredBytes, at)];
      }
    }

    /** The database's part of every update: its trigger and its checks decide. */
    method Store(id: FileId, after: Row) returns (effect: Effect)
      requires id in rows
      modifies this`rows
      ensures effect == if Accepted(old(rows)[id], after) then Effect.Stored(after) else Failed
      ensures rows == if effect.Stored? then old(rows)[id := after] else old(rows)
    {
      if !Accepted(rows[id], after) {
        return Failed;
      }
      rows := rows[id := after];
      effect := Effect.Stored(after);
    }

    method Claim(id: FileId, at: Instant) returns (effect: Effect)
      requires Valid()
      modifies this
      ensures Valid() && events == old(events)
      ensures effect == EffectOf(old(rows), id, TakeLease(at)) && !effect.Failed?
      ensures rows == Updated(old(rows), id, TakeLease(at))
      ensures effect.Stored? ==> GuardAllows(old(rows)[id], rows[id])
    {
      StatementKeepsTable(rows, events, id, TakeLease(at));
      if id !in rows { return NoMatch; }
      var row := rows[id];
      WorkerStatement(row, TakeLease(at));
      if row.state != Scanning { return NoMatch; }
      if row.nextScanAt.Some? && row.nextScanAt.value > at { return NoMatch; }
      if row.scanLeaseExpiresAt.Some? && row.scanLeaseExpiresAt.value > at { return NoMatch; }
      effect := Store(id, row.(scanLeaseExpiresAt := Some(at + SCAN_LEASE_MS), version := row.version + 1,
                               updatedAt := if at > row.updatedAt then at else row.updatedAt));
    }

    method CommitCopyIntent(id: FileId, claimed: Row, at: Instant) returns (effect: Effect)
      requires Valid() && (id in rows ==> Seen(rows[id], claimed))
      modifies this
      ensures Valid() && events == old(events)
      ensures effect == EffectOf(old(rows), id, CommitCopy(claimed, at)) && !effect.Failed?
      ensures rows == Updated(old(rows), id, CommitCopy(claimed, at))
      ensures effect.Stored? ==> GuardAllows(old(rows)[id], rows[id])
    {
      StatementKeepsTable(rows, events, id, CommitCopy(claimed, at));
      if id !in rows { return NoMatch; }
      var row := rows[id];
      WorkerStatement(row, CommitCopy(claimed, at));
      if row.version != claimed.version || row.state != Scanning { return NoMatch; }
      effect := Store(id, row.(cleanCopyIntent := true, version := claimed.version + 1,
                               updatedAt := if at > claimed.updatedAt then at else claimed.updatedAt));
    }

    /** One transaction: the fenced update and, for a final result, its single event. */
    method SettleScan(id: FileId, claimed: Row, s: Settlement, at: Instant) returns (effect: Effect)
      requires Valid() && (id in rows ==> Fits(rows[id], SettleTo(claimed, s, at)))
      modifies this
      ensures Valid()
      ensures effect == EffectOf(old(rows), id, SettleTo(claimed, s, at))
      ensures effect.Failed? <==> id in old(rows) && OneTooMany(old(rows)[id], SettleTo(claimed, s, at))
      ensures rows == Updated(old(rows), id, SettleTo(claimed, s, at))
      ensures events == EventsAfter(old(events), id, effect, s)
    {
      SettlementKeepsTable(rows, events, id, claimed, s, at);
      if id !in rows { return NoMatch; }
      var row := rows[id];
      SettleStatement(row, claimed, s, at);
      if row.version != claimed.version { return NoMatch; }
      var after := SettledValues(row, claimed, s).(scanLeaseExpiresAt := None, version := claimed.version + 1,
                                                   updatedAt := if at > claimed.updatedAt then at
                                                       else claimed.updatedAt);
      assert Written(row, SettleTo(claimed, s, at)) == Some(after);
      effect := Store(id, after);
      if effect.Stored? && !s.Retry? {
        events := events + [(id, SettlementEvents(s)[0])];
      }
    }

    method FinishUpload(id: FileId, at: Instant) returns (effect: Effect)
      requires Valid()
      modifies this
      ensures Valid() && events == old(events)
      ensures effect == EffectOf(old(rows), id, Finish(at))
      ensures effect.Failed? <==> id in old(rows) && BackDated(old(rows)[id], Finish(at))
      ensures rows == Updated(old(rows), id, Finish(at))
      ensures effect.Stored? ==> GuardAllows(old(rows)[id], rows[id])
    {
      StatementKeepsTable(rows, events, id, Finish(at));
      if id !in rows { return NoMatch; }
      var row := rows[id];
      OwnerStatement(row, Finish(at));
      if row.state != AwaitingUpload || at >= row.uploadExpiresAt { return NoMatch; }
      effect := Store(id, row.(state := Scanning, uploadedAt := Some(at), scanDeadlineAt := Some(at + SCAN_DEADLINE_MS),
                               version := row.version + 1,
                                   updatedAt := if at > row.updatedAt then at else row.updatedAt));
    }

    method DiscardFile(id: FileId, at: Instant) returns (effect: Effect)
      requires Valid()
      modifies this
      ensures Valid() && events == old(events)
      ensures effect == EffectOf(old(rows), id, EndFile(at)) && !effect.Failed?
      ensures rows == Updated(old(rows), id, EndFile(at))
      ensures effect.Stored? ==> GuardAllows(old(rows)[id], rows[id]) && Terminal(rows[id].state)
    {
      StatementKeepsTable(rows, events, id, EndFile(at));
      if id !in rows { return NoMatch; }
      var row := rows[id];
      OwnerStatement(row, EndFile(at));
      if row.state != AwaitingUpload && row.state != Scanning && row.state != Clean { return NoMatch; }
      effect := Store(id, row.(state := Discarded, endedAt := Some(at), nextScanAt := None, scanLeaseExpiresAt := None,
                               version := row.version + 1,
                                   updatedAt := if at > row.updatedAt then at else row.updatedAt));
    }

    /** The mark after the deletes of a purge visit, from the row the visit read earlier. */
    method MarkFilePurged(id: FileId, file: Row, at: Instant) returns (effect: Effect)
      requires Valid() && (id in rows ==> Fits(rows[id], MarkPurge(file, at)))
      modifies this
      ensures Valid() && events == old(events)
      ensures effect == EffectOf(old(rows), id, MarkPurge(file, at)) && !effect.Failed?
      ensures rows == Updated(old(rows), id, MarkPurge(file, at))
      ensures effect.Stored? ==> GuardAllows(old(rows)[id], rows[id])
    {
      StatementKeepsTable(rows, events, id, MarkPurge(file, at));
      if id !in rows { return NoMatch; }
      var row := rows[id];
      RefusedExactly(row, MarkPurge(file, at));
      var after := PurgeValues(row, file, at);
      if after.None? { return NoMatch; }
      effect := Store(id, after.value);
    }

    /** The select of a pass: the first matching rows in the order of their last update, up to the limit. */
    method SelectBatch(bulk: Bulk, at: Instant, limit: nat) returns (ids: set<FileId>)
      ensures Selects(rows, bulk, at, limit, ids)
    {
      ids := {};
      var todo := set id | id in rows && Matches(bulk, rows[id], at);
      while todo != {} && |ids| < limit
        invariant |ids| <= limit
        invariant forall id :: id in ids || id in todo <==> id in rows && Matches(bulk, rows[id], at)
        invariant forall id, other :: id in todo && other in ids ==> id != other && Precedes(rows, other, id)
        decreases |todo|
      {
        var id := FirstOf(rows, todo);
        ids, todo := ids + {id}, todo - {id};
      }
    }

    /** A pass of the sweep that nothing comes between: what it selects is what it changes. */
    method RunPass(bulk: Bulk, at: Instant, limit: nat) returns (changed: Option<set<FileId>>)
      requires Valid()
      modifies this
      ensures Valid() && events == old(events)
      ensures changed.None? ==> rows == old(rows) && bulk.RecoverLeases?
      ensures changed.Some? ==>
                Selects(old(rows), bulk, at, limit, changed.value) && Swept(old(rows), rows, changed.value, bulk, at)
    {
      var ids := SelectBatch(bulk, at, limit);
      changed := UpdateBatch(bulk, ids, at);
      if changed.Some? {
        assert MatchingIn(old(rows), ids, bulk, at) == ids;
      }
    }

    /**
     A bulk update of the sweep over ids read earlier. It changes exactly the listed rows that
     still satisfy the predicate; but it is one statement, so a single file with 1000 attempts
     among the leases to recover fails it for all of them.
     */
    method UpdateBatch(bulk: Bulk, ids: set<FileId>, at: Instant) returns (changed: Option<set<FileId>>)
      requires Valid()
      modifies this
      ensures Valid() && events == old(events)
      ensures changed.None? <==> Blocked(old(rows), ids, bulk, at)
      ensures changed.None? ==> rows == old(rows)
      ensures changed.Some? ==>
              changed.value == MatchingIn(old(rows), ids, bulk, at) && Swept(old(rows), rows, ids, bulk, at)
    {
      var before, todo, done: set<FileId> := rows, ids, {};
      ghost var seen: set<FileId> := {};
      while todo != {}
        invariant seen !! todo && seen + todo == ids && Valid() && events == old(events)
        invariant SweptSoFar(before, rows, seen, done, bulk, at)
      {
        var id :| id in todo;
        var effect := UpdateOne(bulk, id, at, before, seen, done);
        if effect.Failed? {
          rows := before;
          return None;
        }
        if effect.Stored? {
          done := done + {id};
        }
        todo, seen := todo - {id}, seen + {id};
      }
      assert seen == ids;
      changed := Some(done);
    }

    /** The bulk update's effect on one of its rows. */
    method UpdateOne(
      bulk: Bulk, id: FileId, at: Instant, ghost before: Rows, ghost seen: set<FileId>, ghost done: set<FileId>)
      returns (effect: Effect)
      requires Valid() && SweptSoFar(before, rows, seen, done, bulk, at) && id !in seen
      modifies this
      ensures Valid() && events == old(events)
      ensures effect.Failed? ==> id in before && OneTooMany(before[id], BulkUpdate(bulk, at))
      ensures !effect.Failed? ==>
              SweptSoFar(before, rows, seen + {id}, if effect.Stored? then done + {id} else done, bulk, at)
    {
      SweptStep(before, rows, seen, done, id, bulk, at);
      StatementKeepsTable(rows, events, id, BulkUpdate(bulk, at));
      if id !in rows || !Matches(bulk, rows[id], at) { return NoMatch; }
      BulkStatement(rows[id], bulk, at);
      effect := Store(id, BulkUpdated(bulk, rows[id], at));
    }
  }

  /** The order in which a pass takes rows: by their last update, then by id. */
  predicate Precedes(rows: Rows, a: FileId, b: FileId)
    requires a in rows && b in rows
  {
    rows[a].updatedAt < rows[b].updatedAt || (rows[a].updatedAt == rows[b].updatedAt && a < b)
  }

  /** The first of some rows in that order. */
  method FirstOf(rows: Rows, ids: set<FileId>) returns (first: FileId)
    requires ids != {} && ids <= rows.Keys
    ensures first in ids && forall id :: id in ids && id != first ==> Precedes(rows, first, id)
  {
    first :| first in ids;
    var rest := ids - {first};
    while rest != {}
      invariant rest <= ids && first in ids && first !in rest
      invariant forall id :: id in ids && id !in rest && id != first ==> Precedes(rows, first, id)
      decreases |rest|
    {
      var id :| id in rest;
      if Precedes(rows, id, first) {
        first := id;
      }
      rest := rest - {id};
    }
  }

  /** The first matching rows up to the limit: if one is left over, the limit is used up before it. */
  predicate Selects(rows: Rows, bulk: Bulk, at: Instant, limit: nat, ids: set<FileId>) {
    && |ids| <= limit
    && (forall id :: id in ids ==> id in rows && Matches(bulk, rows[id], at))
    && (forall id :: id in rows && Matches(bulk, rows[id], at) && id !in ids ==>
          |ids| == limit && forall other :: other in ids ==> Precedes(rows, other, id))
  }

  /** Exactly the listed rows went through the update; the others are as before. */
  ghost predicate Swept(before: Rows, rows: Rows, ids: set<FileId>, bulk: Bulk, at: Instant) {
    && rows.Keys == before.Keys
    && (forall id :: id in before ==>
       rows[id] == if id in ids then Executed(before[id], BulkUpdate(bulk, at)) else before[id])
  }

  /** One of the listed files has used up its attempts and is due another. */
  ghost predicate Blocked(rows: Rows, ids: set<FileId>, bulk: Bulk, at: Instant) {
    exists id :: id in ids && id in rows && OneTooMany(rows[id], BulkUpdate(bulk, at))
  }

  function MatchingIn(rows: Rows, ids: set<FileId>, bulk: Bulk, at: Instant): set<FileId> {
    set id | id in ids && id in rows && Matches(bulk, rows[id], at)
  }

  lemma {:induction false} BulkEffect(rows: Rows, id: FileId, bulk: Bulk, at: Instant)
    requires id in rows ==> RowOk(rows[id])
    ensures var st := BulkUpdate(bulk, at);
            && (EffectOf(rows, id, st).Failed? <==> id in rows && OneTooMany(rows[id], st))
            && (EffectOf(rows, id, st).NoMatch? <==> id !in rows || !Matches(bulk, rows[id], at))
            && Updated(rows, id, st) == if id in rows then rows[id := Executed(rows[id], st)] else rows
  {
    if id in rows {
      BulkStatement(rows[id], bulk, at);
      assert rows[id := rows[id]] == rows;
    }
  }

  /** The loop's progress: what was seen is updated, none of it blocked the statement, and `done` lists what changed. */
  ghost predicate SweptSoFar(before: Rows, rows: Rows, seen: set<FileId>, done: set<FileId>, bulk: Bulk, at: Instant) {
    Swept(before, rows, seen, bulk, at) && !Blocked(before, seen, bulk, at)
        && done == MatchingIn(before, seen, bulk, at)
  }

  lemma {:induction false} SweptStep(
    before: Rows, rows: Rows, seen: set<FileId>, done: set<FileId>, id: FileId, bulk: Bulk, at: Instant)
    requires SweptSoFar(before, rows, seen, done, bulk, at) && id !in seen && (id in rows ==> RowOk(rows[id]))
    ensures var effect := EffectOf(rows, id, BulkUpdate(bulk, at));
            if effect.Failed? then id in before && OneTooMany(before[id], BulkUpdate(bulk, at))
            else SweptSoFar(before, Updated(rows, id, BulkUpdate(bulk, at)), seen + {id},
                if effect.Stored? then done + {id} else done, bulk, at)
  {
    BulkEffect(rows, id, bulk, at);
    MoreSwept(before, rows, seen, id, bulk, at);
    MoreSeen(before, seen, id, bulk, at);
  }

  lemma {:induction false} MoreSwept(before: Rows, rows: Rows, seen: set<FileId>, id: FileId, bulk: Bulk, at: Instant)
    requires Swept(before, rows, seen, bulk, at) && id !in seen
    ensures Swept(before, if id in rows then rows[id := Executed(rows[id], BulkUpdate(bulk, at))] else rows,
            seen + {id}, bulk, at)
  {
  }

  lemma {:induction false} MoreSeen(before: Rows, seen: set<FileId>, id: FileId, bulk: Bulk, at: Instant)
    ensures MatchingIn(before, seen + {id}, bulk, at)
            == MatchingIn(before, seen, bulk, at) + (if id in before && Matches(bulk, before[id], at) then {id} else {})
    ensures Blocked(before, seen + {id}, bulk, at)
            <==> Blocked(before, seen, bulk, at) || (id in before && OneTooMany(before[id], BulkUpdate(bulk, at)))
  {
  }

  // ----- one file of the table

  /**
   The table does to a file exactly what the file's own life does: every step stores what the
   statement stores here.
   */
  lemma {:induction false} TableFollowsLifecycle(rows: Rows, id: FileId, w: World, a: Action)
    requires Inv(w) && id in rows && rows[id] == w.row && StatementOf(w, a).Some?
    ensures var st := StatementOf(w, a).value;
            && Fits(rows[id], st)
            && Updated(rows, id, st)[id] == Apply(w, a).row
            && forall other :: other in rows && other != id ==> Updated(rows, id, st)[other] == rows[other]
  {
    StatementFits(w, a);
    StepExecutesItsStatement(w, a);
  }
}
