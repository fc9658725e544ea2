/**
 Reordering the showcases of a page. An index keeps the positions of a page's active showcases
 distinct after every statement, so they are parked as removed, renumbered and brought back.
 */
module ShowcaseOrder {
  import opened Common

  type ShowcaseId = string

  datatype Showcase = Showcase(pageId: string, position: nat, removedAt: Option<Instant>)

  type Rows = map<ShowcaseId, Showcase>

  datatype Outcome = Done | PolicyViolation | VersionConflict

  predicate Active(row: Showcase, page: string) { row.pageId == page && row.removedAt.None? }

  function ActiveIds(rows: Rows, page: string): set<ShowcaseId> {
    set id | id in rows && Active(rows[id], page)
  }

  /** The unique index on (page, position) of active showcases. */
  ghost predicate IndexOk(rows: Rows) {
    forall a, b :: a in rows && b in rows && a != b && rows[a].removedAt.None? && Active(rows[b], rows[a].pageId)
      ==> rows[a].position != rows[b].position
  }

  predicate Distinct(ids: seq<ShowcaseId>) {
    forall i, j :: 0 <= i < j < |ids| ==> ids[i] != ids[j]
  }

  function IdSet(ids: seq<ShowcaseId>): set<ShowcaseId> { set id | id in ids }

  lemma {:induction false} DistinctSize(ids: seq<ShowcaseId>)
    requires Distinct(ids)
    ensures |IdSet(ids)| == |ids|
  {
    if ids != [] {
      var front, last := ids[..|ids| - 1], ids[|ids| - 1];
      DistinctSize(front);
      assert ids == front + [last];
      assert IdSet(ids) == IdSet(front) + {last};
      assert last !in IdSet(front);
    }
  }

  lemma {:induction false} SubsetOfSameSize(a: set<ShowcaseId>, b: set<ShowcaseId>)
    requires a <= b && |a| == |b|
    ensures a == b
    decreases |a|
  {
    if x :| x in a {
      SubsetOfSameSize(a - {x}, b - {x});
      assert a == a - {x} + {x} && b == b - {x} + {x};
    }
  }

  /**
   The check before the writes compares only the number of ids and that each active showcase is
   named; with distinct ids that already means that exactly the active showcases are named.
   */
  lemma NamedExactly(active: set<ShowcaseId>, ids: seq<ShowcaseId>)
    requires Distinct(ids)
    ensures |active| == |ids| && (forall id :: id in active ==> id in ids) <==> active == IdSet(ids)
  {
    DistinctSize(ids);
    if |active| == |ids| && (forall id :: id in active ==> id in ids) {
      SubsetOfSameSize(active, IdSet(ids));
    }
  }

  /** Exactly the named showcases get the positions 0..n-1, in the order given; nothing else changes. */
  ghost predicate Reordered(rows: Rows, now: Rows, ids: seq<ShowcaseId>) {
    && now.Keys == rows.Keys
    && (forall i :: 0 <= i < |ids| ==> ids[i] in rows && now[ids[i]] == rows[ids[i]].(position := i))
    && (forall id :: id in rows && id !in ids ==> now[id] == rows[id])
  }

  class ShowcaseTable {
    var rows: Rows

    constructor (rows: Rows)
      ensures this.rows == rows
    {
      this.rows := rows;
    }

    /** `update ... set removed_at` over the given ids where it has the expected value. */
    method SetRemoved(
      page: string, ids: set<ShowcaseId>, expected: Option<Instant>, removedAt: Option<Instant>)
      returns (changed: set<ShowcaseId>)
      modifies this
      ensures changed == set id | id in ids && id in old(rows) && old(rows)[id].pageId == page
              && old(rows)[id].removedAt == expected
      ensures rows.Keys == old(rows).Keys
      ensures forall id :: id in rows ==>
              rows[id] == if id in changed then old(rows)[id].(removedAt := removedAt) else old(rows)[id]
    {
      changed := set id | id in ids && id in rows && rows[id].pageId == page && rows[id].removedAt == expected;
      rows := map id | id in rows :: if id in changed then rows[id].(removedAt := removedAt) else rows[id];
    }

    /** Numbers the parked showcases one statement at a time; none of the statements can miss its row. */
    method NumberParked(page: string, ids: seq<ShowcaseId>, at: Instant)
      requires Distinct(ids) && IndexOk(rows)
      requires forall i :: 0 <= i < |ids| ==>
               ids[i] in rows && rows[ids[i]].pageId == page && rows[ids[i]].removedAt == Some(at)
      modifies this
      ensures Reordered(old(rows), rows, ids) && IndexOk(rows)
    {
      var position := 0;
      while position < |ids|
        invariant position <= |ids| && rows.Keys == old(rows).Keys
        invariant forall i :: 0 <= i < position ==> rows[ids[i]] == old(rows)[ids[i]].(position := i)
        invariant forall i :: position <= i < |ids| ==> rows[ids[i]] == old(rows)[ids[i]]
        invariant forall id :: id in rows && id !in ids ==> rows[id] == old(rows)[id]
        invariant IndexOk(rows)
      {
        var id := ids[position];
        if rows[id].pageId == page && rows[id].removedAt == Some(at) {
          rows := rows[id := rows[id].(position := position)];
        } else {
          assert false;
        }
        position := position + 1;
      }
    }

    /**
     Refused exactly when the ids are not the page's active showcases; the conflicts inside cannot
     happen, and the index holds after every statement.
     */
    method Reorder(page: string, ids: seq<ShowcaseId>, at: Instant) returns (outcome: Outcome)
      requires IndexOk(rows)
      modifies this
      ensures IndexOk(rows)
      ensures outcome == Done <==> Distinct(ids) && |ids| <= 12 && ActiveIds(old(rows), page) == IdSet(ids)
      ensures outcome == Done ==> Reordered(old(rows), rows, ids)
      ensures outcome != Done ==> outcome == PolicyViolation && rows == old(rows)
    {
      if |ids| > 12 || !Distinct(ids) { return PolicyViolation; }
      var active := ActiveIds(rows, page);
      NamedExactly(active, ids);
      if |active| != |ids| || exists id :: id in active && id !in ids { return PolicyViolation; }
      assert active == IdSet(ids);
      if |active| == 0 { return Done; }
      Renumber(page, active, ids, at);
      outcome := Done;
    }

    method Renumber(page: string, active: set<ShowcaseId>, ids: seq<ShowcaseId>, at: Instant)
      requires IndexOk(rows) && Distinct(ids) && active == ActiveIds(rows, page) == IdSet(ids)
      modifies this
      ensures Reordered(old(rows), rows, ids) && IndexOk(rows)
    {
      ghost var before := rows;
      forall i | 0 <= i < |ids| ensures ids[i] in active && ids[i] in before && Active(before[ids[i]], page) {
        assert ids[i] in IdSet(ids);
      }
      var deactivated := SetRemoved(page, active, None, Some(at));
      assert deactivated == active;
      ghost var parked := rows;
      NumberParked(page, ids, at);
      ghost var numbered := rows;
      var reactivated := SetRemoved(page, active, Some(at), None);
      BroughtBack(before, parked, numbered, rows, active, ids, at);
      Renumbered(before, rows, page, ids);
    }
  }

  /** Parking, numbering and bringing back amount to numbering in place. */
  lemma BroughtBack(
    before: Rows, parked: Rows, numbered: Rows, now: Rows, active: set<ShowcaseId>, ids: seq<ShowcaseId>,
    at: Instant)
    requires active == IdSet(ids) && (forall i :: 0 <= i < |ids| ==> ids[i] in before && before[ids[i]].removedAt.None?)
    requires parked.Keys == before.Keys == now.Keys
    requires forall id :: id in before ==>
             parked[id] == if id in active then before[id].(removedAt := Some(at)) else before[id]
    requires Reordered(parked, numbered, ids)
    requires forall id :: id in now ==>
             now[id] == if id in active then numbered[id].(removedAt := None) else numbered[id]
    ensures Reordered(before, now, ids)
  {
    forall i | 0 <= i < |ids| ensures now[ids[i]] == before[ids[i]].(position := i) {
      assert ids[i] in active;
    }
  }

  lemma Renumbered(before: Rows, now: Rows, page: string, ids: seq<ShowcaseId>)
    requires IndexOk(before) && Distinct(ids) && ActiveIds(before, page) == IdSet(ids) && Reordered(before, now, ids)
    ensures IndexOk(now)
  {
    forall a, b | a in now && b in now && a != b && now[a].removedAt.None? && Active(now[b], now[a].pageId)
      ensures now[a].position != now[b].position
    {
      assert a in ids <==> a in ActiveIds(before, page);
      assert b in ids <==> b in ActiveIds(before, page);
    }
  }

  /**
   After a reordering the showcases of the page that are not removed are exactly the ids, each at its own
   place in the list; removed ones, other pages and everything but positions are as they were.
   */
  lemma ReorderingIsExact(before: Rows, now: Rows, page: string, ids: seq<ShowcaseId>)
    requires Distinct(ids) && ActiveIds(before, page) == IdSet(ids) && Reordered(before, now, ids)
    ensures now.Keys == before.Keys
    ensures forall id :: id in now && now[id].pageId == page && now[id].removedAt.None? ==>
              now[id].position < |ids| && ids[now[id].position] == id
    ensures forall k :: 0 <= k < |ids| ==>
              ids[k] in now && now[ids[k]].pageId == page && now[ids[k]].removedAt.None? && now[ids[k]].position == k
    ensures forall id :: id in now ==> now[id] == before[id].(position := now[id].position)
    ensures forall id :: id in now && (now[id].pageId != page || now[id].removedAt.Some?) ==> now[id] == before[id]
  {
    assert forall i :: 0 <= i < |ids| ==> ids[i] in IdSet(ids);
    assert forall id :: id in before && id !in ids ==> id !in ActiveIds(before, page);
  }
}
