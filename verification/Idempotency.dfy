/**
 Idempotent commands. A command begins by claiming its (actor, scope, key) and completes by
 storing a reference to its result, in the same transaction as the change it makes.
 */
module Idempotency {
  import opened Common

  /** The unique index of the command table. */
  datatype Command = Command(actor: string, scope: string, keyHash: string)

  datatype Status = InProgress | Completed

  datatype Record = Record(fingerprint: string, status: Status, resultReference: Option<string>, expiresAt: Instant)

  type Table = map<Command, Record>

  datatype Begun =
    | Acquired
    | StillInProgress
    | Replay(resultReference: string)
    | Conflict
    | Expired
    | InvalidExpiry

  function BeginOutcome(table: Table, c: Command, fingerprint: string, expiresAt: Instant, now: Instant): Begun {
    if expiresAt <= now then InvalidExpiry
    else if c !in table then Acquired
    else if table[c].expiresAt <= now then Expired
    else if table[c].fingerprint != fingerprint then Conflict
    else if table[c].status == Completed && table[c].resultReference.Some? then Replay(table[c].resultReference.value)
    else StillInProgress
  }

  function BeginTable(table: Table, c: Command, fingerprint: string, expiresAt: Instant, now: Instant): Table {
    if BeginOutcome(table, c, fingerprint, expiresAt, now).Acquired?
        then table[c := Record(fingerprint, InProgress, None, expiresAt)] else table
  }

  predicate Completes(table: Table, c: Command, completedAt: Instant) {
    c in table && table[c].status == InProgress && table[c].expiresAt > completedAt
  }

  function CompleteTable(table: Table, c: Command, reference: string, completedAt: Instant): Table {
    if Completes(table, c, completedAt)
    then table[c := table[c].(status := Completed, resultReference := Some(reference))]
    else table
  }

  predicate CompleteOutcome(table: Table, c: Command, reference: string, completedAt: Instant) {
    Completes(table, c, completedAt) || (c in table && table[c].resultReference == Some(reference))
  }

  class CommandTable {
    var records: Table

    constructor ()
      ensures records == map[]
    {
      records := map[];
    }

    method Begin(c: Command, fingerprint: string, expiresAt: Instant, now: Instant) returns (begun: Begun)
      modifies this
      ensures begun == BeginOutcome(old(records), c, fingerprint, expiresAt, now)
      ensures records == BeginTable(old(records), c, fingerprint, expiresAt, now)
    {
      if expiresAt <= now {
        return InvalidExpiry;
      }
      if c !in records {
        records := records[c := Record(fingerprint, InProgress, None, expiresAt)];
        return Acquired;
      }
      var existing := records[c];
      if existing.expiresAt <= now { return Expired; }
      if existing.fingerprint != fingerprint { return Conflict; }
      if existing.status == Completed
          && existing.resultReference.Some? { return Replay(existing.resultReference.value); }
      return StillInProgress;
    }

    method Complete(c: Command, reference: string, completedAt: Instant) returns (completed: bool)
      modifies this
      ensures completed == CompleteOutcome(old(records), c, reference, completedAt)
      ensures records == CompleteTable(old(records), c, reference, completedAt)
    {
      if c in records && records[c].status == InProgress && records[c].expiresAt > completedAt {
        records := records[c := records[c].(status := Completed, resultReference := Some(reference))];
        return true;
      }
      completed := c in records && records[c].resultReference == Some(reference);
    }
  }

  // ----- transactions that begin and complete together

  /**
   One transaction. `result` is the reference its work would produce, None when the work fails
   and everything rolls back. Most callers roll back when completion is refused; one does not
   look (`checked` false) but completes at the instant it began.
   */
  datatype Request = Request(
    command: Command, fingerprint: string, now: Instant, expiresAt: Instant,
    result: Option<string>, completedAt: Instant, checked: bool)

  predicate WellFormed(r: Request) {
    r.checked || r.completedAt < r.expiresAt
  }

  datatype Applied = Applied(command: Command, fingerprint: string, result: string, expiresAt: Instant)

  /** The committed table and the changes applied so far. */
  datatype System = System(table: Table, log: seq<Applied>)

  predicate Applies(s: System, r: Request) {
    && BeginOutcome(s.table, r.command, r.fingerprint, r.expiresAt, r.now).Acquired?
    && r.result.Some?
    && var begun := BeginTable(s.table, r.command, r.fingerprint, r.expiresAt, r.now);
       (r.checked ==> CompleteOutcome(begun, r.command, r.result.value, r.completedAt))
  }

  function Execute(s: System, r: Request): System {
    if Applies(s, r) then
      var begun := BeginTable(s.table, r.command, r.fingerprint, r.expiresAt, r.now);
      System(CompleteTable(begun, r.command, r.result.value, r.completedAt),
             s.log + [Applied(r.command, r.fingerprint, r.result.value, r.expiresAt)])
    else s
  }

  function Run(s: System, requests: seq<Request>): System {
    if requests == [] then s else Execute(Run(s, requests[..|requests| - 1]), requests[|requests| - 1])
  }

  predicate AllWellFormed(requests: seq<Request>) {
    forall i :: 0 <= i < |requests| ==> WellFormed(requests[i])
  }

  /** The table is exactly the log: one completed record for each applied command, and no other. */
  ghost predicate Consistent(s: System) {
    && (forall i, j :: 0 <= i < j < |s.log| ==> s.log[i].command != s.log[j].command)
    && (forall i :: 0 <= i < |s.log| ==>
          s.log[i].command in s.table
          && s.table[s.log[i].command]
             == Record(s.log[i].fingerprint, Completed, Some(s.log[i].result), s.log[i].expiresAt))
    && (forall c :: c in s.table ==> exists i :: 0 <= i < |s.log| && s.log[i].command == c)
  }

  lemma ExecuteKeepsConsistent(s: System, r: Request)
    requires Consistent(s) && WellFormed(r)
    ensures Consistent(Execute(s, r))
  {
    if Applies(s, r) {
      assert Execute(s, r).table == s.table[r.command := Record(r.fingerprint, Completed, r.result, r.expiresAt)];
      EntryKeepsConsistent(s, Applied(r.command, r.fingerprint, r.result.value, r.expiresAt));
    }
  }

  lemma EntryKeepsConsistent(s: System, e: Applied)
    requires Consistent(s) && e.command !in s.table
    ensures Consistent(System(s.table[e.command := Record(e.fingerprint, Completed, Some(e.result), e.expiresAt)],
            s.log + [e]))
  {
    var log := s.log + [e];
    assert log[|s.log|].command == e.command;
    assert forall i :: 0 <= i < |s.log| ==> log[i] == s.log[i] && s.log[i].command != e.command;
  }

  lemma {:induction false} RunKeepsConsistent(s: System, requests: seq<Request>)
    requires Consistent(s) && AllWellFormed(requests)
    ensures Consistent(Run(s, requests))
  {
    if requests != [] {
      RunKeepsConsistent(s, requests[..|requests| - 1]);
      ExecuteKeepsConsistent(Run(s, requests[..|requests| - 1]), requests[|requests| - 1]);
    }
  }

  function TimesApplied(log: seq<Applied>, c: Command): nat {
    if log == [] then 0 else TimesApplied(log[..|log| - 1], c) + (if log[|log| - 1].command == c then 1 else 0)
  }

  lemma {:induction false} DistinctAppliesOnce(log: seq<Applied>, c: Command)
    requires forall i, j :: 0 <= i < j < |log| ==> log[i].command != log[j].command
    ensures TimesApplied(log, c) <= 1
    ensures (forall i :: 0 <= i < |log| ==> log[i].command != c) ==> TimesApplied(log, c) == 0
  {
    if log != [] {
      DistinctAppliesOnce(log[..|log| - 1], c);
    }
  }

  /** Over any history, each (actor, scope, key) changes anything at most once, ever. */
  lemma {:induction false} AppliedAtMostOnce(requests: seq<Request>, c: Command)
    requires AllWellFormed(requests)
    ensures TimesApplied(Run(System(map[], []), requests).log, c) <= 1
  {
    RunKeepsConsistent(System(map[], []), requests);
    DistinctAppliesOnce(Run(System(map[], []), requests).log, c);
  }

  /** No committed record is ever found half done. */
  lemma {:induction false} NeverInProgress(requests: seq<Request>, r: Request)
    requires AllWellFormed(requests)
    ensures var s := Run(System(map[], []), requests);
            !BeginOutcome(s.table, r.command, r.fingerprint, r.expiresAt, r.now).StillInProgress?
  {
    RunKeepsConsistent(System(map[], []), requests);
  }

  /** A committed record stays as it is. */
  lemma {:induction false} RecordsAreKept(s: System, requests: seq<Request>, c: Command)
    requires c in s.table
    ensures c in Run(s, requests).table && Run(s, requests).table[c] == s.table[c]
  {
    if requests != [] {
      RecordsAreKept(s, requests[..|requests| - 1], c);
    }
  }

  /**
   What a later request with the key of an applied one is told, whatever happened in between:
   the first result to a faithful retry before expiry, a conflict to a different request, and
   `expired` afterwards; in no case is the change made again.
   */
  lemma {:induction false} RetriesSeeTheFirstResult(s: System, first: Request, between: seq<Request>, retry: Request)
    requires Consistent(s) && WellFormed(first) && Applies(s, first)
    requires retry.command == first.command && retry.now < retry.expiresAt
    ensures var later := Run(Execute(s, first), between);
            && BeginOutcome(later.table, retry.command, retry.fingerprint, retry.expiresAt, retry.now)
               == (if retry.now >= first.expiresAt then Expired
                   else if retry.fingerprint != first.fingerprint then Conflict
                   else Replay(first.result.value))
            && Execute(later, retry) == later
  {
    RecordsAreKept(Execute(s, first), between, first.command);
  }

  /** A well-formed request is applied exactly when it is in time, its work succeeds and its key is new. */
  lemma {:induction false} AppliedExactly(requests: seq<Request>, r: Request)
    requires AllWellFormed(requests) && WellFormed(r)
    ensures var s := Run(System(map[], []), requests);
            Applies(s, r) <==>
              && r.now < r.expiresAt && r.completedAt < r.expiresAt && r.result.Some?
              && forall i :: 0 <= i < |s.log| ==> s.log[i].command != r.command
  {
    RunKeepsConsistent(System(map[], []), requests);
  }

  // ----- single statements, in any order

  /** One statement on the table; the two of a transaction need not follow each other. */
  datatype Statement =
    | BeginStatement(command: Command, fingerprint: string, expiresAt: Instant, now: Instant)
    | CompleteStatement(command: Command, reference: string, completedAt: Instant)

  function Executed(table: Table, st: Statement): Table {
    match st
    case BeginStatement(c, fingerprint, expiresAt, now) => BeginTable(table, c, fingerprint, expiresAt, now)
    case CompleteStatement(c, reference, completedAt) => CompleteTable(table, c, reference, completedAt)
  }

  function AfterStatements(statements: seq<Statement>): Table {
    if statements == [] then map[]
    else Executed(AfterStatements(statements[..|statements| - 1]), statements[|statements| - 1])
  }

  /** The first begin of the key that comes before its own expiry. */
  function FirstBegin(statements: seq<Statement>, c: Command): Option<Statement> {
    if statements == [] then None
    else
      var earlier, last := FirstBegin(statements[..|statements| - 1], c), statements[|statements| - 1];
      if earlier.Some? then earlier
      else if last.BeginStatement? && last.command == c && last.now < last.expiresAt then Some(last)
      else None
  }

  /** The first reference offered after that begin and before its expiry. */
  function FirstReference(statements: seq<Statement>, c: Command): Option<string> {
    if statements == [] then None
    else
      var front, last := statements[..|statements| - 1], statements[|statements| - 1];
      var begin := FirstBegin(front, c);
      if FirstReference(front, c).Some? then FirstReference(front, c)
      else if last.CompleteStatement? && last.command == c && begin.Some? && begin.value.BeginStatement?
              && last.completedAt < begin.value.expiresAt then Some(last.reference)
      else None
  }

  /** Whatever statements ran, a record is its key's first begin and the first reference in time after it. */
  lemma {:induction false} RecordIsItsHistory(statements: seq<Statement>, c: Command)
    ensures var begin := FirstBegin(statements, c);
            var reference := FirstReference(statements, c);
            var table := AfterStatements(statements);
            && (c in table <==> begin.Some?)
            && (c in table ==> begin.value.BeginStatement?)
            && (c in table ==>
                  table[c] == Record(begin.value.fingerprint, if reference.Some? then Completed else InProgress,
                                     reference, begin.value.expiresAt))
            && (begin.None? ==> reference.None?)
  {
    if statements != [] {
      RecordIsItsHistory(statements[..|statements| - 1], c);
    }
  }
}
