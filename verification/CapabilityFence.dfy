/**
 One creator's capability and published head under concurrent transactions. Capability writers
 lock the capability row and then the page row; publication commands lock only the page row and
 read the capability without a lock. A transaction's writes appear when it commits, and its
 locks are held until then.
 */
module CapabilityFence {
  import opened Common

  datatype Capability = Active | Suspended | Removed

  /** A capability command: a penalty sets any state, an owner suspends or reinstates. */
  datatype Change =
    | Penalty(target: Capability)
    | OwnerSuspend
    | OwnerReinstate

  function Target(change: Change): Capability {
    match change
    case Penalty(target) => target
    case OwnerSuspend => Suspended
    case OwnerReinstate => Active
  }

  /** Whether the command goes ahead on a capability in this state. */
  predicate Applicable(change: Change, state: Capability) {
    match change
    case Penalty(target) => state != target
    case OwnerSuspend => state == Active
    case OwnerReinstate => state == Suspended
  }

  /** A penalty clears the head when it ends an active capability; owner commands always do. */
  predicate ClearsHead(change: Change, state: Capability) {
    change.Penalty? ==> state == Active
  }

  type TxId = nat

  datatype Phase =
    | Idle
    | PublishLocked
    | PublishChecked
    | UnpublishLocked
    | UnpublishChecked
    | InitializeChecked
    | CapabilityLocked(change: Change)
    | Fenced(change: Change)
    | Cleared(change: Change, clears: bool)

  predicate IsPublication(phase: Phase) {
    phase.PublishLocked? || phase.PublishChecked? || phase.UnpublishLocked? || phase.UnpublishChecked?
  }

  predicate IsFenced(phase: Phase) { phase.Fenced? || phase.Cleared? }

  /** Committed values, lock holders and where each transaction stands. */
  datatype State = State(
    capability: Capability, page: bool, published: bool,
    capabilityLock: Option<TxId>, pageLock: Option<TxId>,
    phases: map<TxId, Phase>, guardFired: bool)

  function PhaseOf(s: State, t: TxId): Phase { if t in s.phases then s.phases[t] else Idle }

  datatype Action =
    | LockPageToPublish(t: TxId)
    | LockPageToUnpublish(t: TxId)
    | ReadCapability(t: TxId)
    | StartInitialize(t: TxId)
    | LockCapability(t: TxId, change: Change)
    | FencePage(t: TxId)
    | ClearPage(t: TxId)
    | Commit(t: TxId)
    | Rollback(t: TxId)

  function At(s: State, t: TxId, phase: Phase): State { s.(phases := s.phases[t := phase]) }

  /** The end of a transaction: its locks are released. */
  function Finished(s: State, t: TxId): State {
    At(s, t, Idle).(
      capabilityLock := if s.capabilityLock == Some(t) then None else s.capabilityLock,
      pageLock := if s.pageLock == Some(t) then None else s.pageLock)
  }

  predicate CanLockPage(s: State, t: TxId) { s.pageLock.None? || s.pageLock == Some(t) }

  /** One step; a step that is not enabled, or waits for a lock, changes nothing. */
  function Apply(s: State, a: Action): State {
    var phase := PhaseOf(s, a.t);
    match a
    case LockPageToPublish(t) =>
      if phase.Idle? && s.page && s.pageLock.None? then At(s, t, PublishLocked).(pageLock := Some(t)) else s
    case LockPageToUnpublish(t) =>
      if phase.Idle? && s.page && s.pageLock.None? then At(s, t, UnpublishLocked).(pageLock := Some(t)) else s
    case ReadCapability(t) =>
      if phase.PublishLocked? then
        if s.capability.Active? then At(s, t, PublishChecked) else Finished(s, t)
      else if phase.UnpublishLocked? then
        if s.capability.Active? && s.published then At(s, t, UnpublishChecked) else Finished(s, t)
      else s
    case StartInitialize(t) =>
      if phase.Idle? && !s.page && s.capability.Active? then At(s, t, InitializeChecked) else s
    case LockCapability(t, change) =>
      if phase.Idle? && s.capabilityLock.None? then At(s, t, CapabilityLocked(change)).(capabilityLock := Some(t))
          else s
    case FencePage(t) =>
      if !phase.CapabilityLocked? then s
      else if s.page && !CanLockPage(s, t) then s
      else if !Applicable(phase.change, s.capability) then Finished(s, t)
      else At(s, t, Fenced(phase.change)).(pageLock := if s.page then Some(t) else s.pageLock)
    case ClearPage(t) =>
      if !phase.Fenced? then s
      else if !ClearsHead(phase.change, s.capability) || !s.page then At(s, t, Cleared(phase.change, false))
      else if !CanLockPage(s, t) then s
      else if phase.change.OwnerReinstate? && s.published then Finished(s, t).(guardFired := true)
      else At(s, t, Cleared(phase.change, true)).(pageLock := Some(t))
    case Commit(t) =>
      if phase.PublishChecked? then Finished(s, t).(published := true)
      else if phase.UnpublishChecked? then Finished(s, t).(published := false)
      else if phase.InitializeChecked? then Finished(s, t).(page := true)
      else if phase.Cleared? then
        Finished(s, t).(capability := Target(phase.change), published := s.published && !phase.clears)
      else s
    case Rollback(t) => Finished(s, t)
  }

  function Run(s: State, actions: seq<Action>): State {
    if actions == [] then s else Apply(Run(s, actions[..|actions| - 1]), actions[|actions| - 1])
  }

  /** Nobody but an active creator has a published head, and reinstatement never found one. */
  predicate Safe(s: State) {
    (s.published ==> s.capability.Active?) && !s.guardFired
  }

  /** Committed state with no transaction under way; a head needs a page and an active capability. */
  predicate Quiet(s: State) {
    && s.capabilityLock.None? && s.pageLock.None? && s.phases == map[]
    && (s.published ==> s.page) && Safe(s)
  }

  // ----- the invariant, for a creator whose page row exists

  predicate PhaseOk(s: State, t: TxId, phase: Phase) {
    && (IsPublication(phase) || IsFenced(phase) ==> s.pageLock == Some(t))
    && (phase.CapabilityLocked? || IsFenced(phase) ==> s.capabilityLock == Some(t))
    && (phase.PublishChecked? || phase.UnpublishChecked? ==> s.capability.Active?)
    && (phase.UnpublishChecked? ==> s.published)
    && (IsFenced(phase) ==> Applicable(phase.change, s.capability))
    && (phase.Cleared? ==> phase.clears || !ClearsHead(phase.change, s.capability))
    && !phase.InitializeChecked?
  }

  ghost predicate Inv(s: State) {
    && s.page && Safe(s)
    && forall t :: t in s.phases ==> PhaseOk(s, t, s.phases[t])
  }

  /** At most one transaction is past the page lock, so no other phase depends on what it commits. */
  lemma {:induction false} CommitKeepsInv(s: State, t: TxId)
    requires Inv(s)
    ensures Inv(Apply(s, Commit(t)))
  {
    var s' := Apply(s, Commit(t));
    if s' != s && t in s.phases {
      assert PhaseOk(s, t, s.phases[t]);
      forall u | u in s'.phases ensures PhaseOk(s', u, s'.phases[u]) {
        if u != t {
          assert PhaseOk(s, u, s.phases[u]);
        }
      }
    }
  }

  lemma {:induction false} CapabilityStepKeepsInv(s: State, a: Action)
    requires Inv(s) && (a.LockCapability? || a.FencePage? || a.ClearPage?)
    ensures Inv(Apply(s, a))
  {
    var s' := Apply(s, a);
    assert a.t in s.phases ==> PhaseOk(s, a.t, s.phases[a.t]);
    forall u | u in s'.phases ensures PhaseOk(s', u, s'.phases[u]) {
      assert u in s.phases ==> PhaseOk(s, u, s.phases[u]);
    }
  }

  lemma {:induction false} PublicationStepKeepsInv(s: State, a: Action)
    requires Inv(s) && (a.LockPageToPublish? || a.LockPageToUnpublish? || a.ReadCapability? || a.StartInitialize?
             || a.Rollback?)
    ensures Inv(Apply(s, a))
  {
    var s' := Apply(s, a);
    assert a.t in s.phases ==> PhaseOk(s, a.t, s.phases[a.t]);
    forall u | u in s'.phases ensures PhaseOk(s', u, s'.phases[u]) {
      assert u in s.phases ==> PhaseOk(s, u, s.phases[u]);
    }
  }

  lemma {:induction false} RunKeepsInv(s: State, actions: seq<Action>)
    requires Inv(s)
    ensures Inv(Run(s, actions))
  {
    if actions != [] {
      var before, a := Run(s, actions[..|actions| - 1]), actions[|actions| - 1];
      RunKeepsInv(s, actions[..|actions| - 1]);
      if a.Commit? {
        CommitKeepsInv(before, a.t);
      } else if a.LockCapability? || a.FencePage? || a.ClearPage? {
        CapabilityStepKeepsInv(before, a);
      } else {
        PublicationStepKeepsInv(before, a);
      }
    }
  }

  /**
   For a creator whose page row exists, no interleaving of publish, unpublish, suspend, remove
   and reinstate leaves a published head without an active capability, and the reinstatement
   guard never fires.
   */
  lemma {:induction false} PagePresentIsSafe(s: State, actions: seq<Action>)
    requires Quiet(s) && s.page
    ensures Safe(Run(s, actions))
  {
    RunKeepsInv(s, actions);
  }

  // ----- without a page row the fence has nothing to lock

  lemma {:induction false} RunAppend(s: State, actions: seq<Action>, more: seq<Action>)
    ensures Run(s, actions + more) == Run(Run(s, actions), more)
  {
    if more == [] {
      assert actions + more == actions;
    } else {
      var all := actions + more;
      assert all[..|all| - 1] == actions + more[..|more| - 1];
      RunAppend(s, actions, more[..|more| - 1]);
    }
  }

  lemma {:induction false} RunThree(s: State, a: Action, b: Action, c: Action)
    ensures Run(s, [a, b, c]) == Apply(Apply(Apply(s, a), b), c)
  {
    assert [a, b, c][..2] == [a, b] && [a, b][..1] == [a] && [a][..0] == [];
    assert Run(s, [a]) == Apply(s, a);
    assert Run(s, [a, b]) == Apply(Apply(s, a), b);
  }

  /** A capability without a page can be made active. */
  lemma {:induction false} CanActivate(s: State) returns (actions: seq<Action>)
    requires Quiet(s) && !s.page
    ensures var s' := Run(s, actions);
            && s'.capability.Active? && !s'.page && !s'.published && s'.capabilityLock.None? && s'.pageLock.None?
            && PhaseOf(s', 1).Idle? && PhaseOf(s', 2).Idle? && Safe(s')
  {
    if s.capability.Active? {
      actions := [];
    } else {
      var change := Penalty(Active);
      var first, second := [LockCapability(1, change), FencePage(1), ClearPage(1)], [Commit(1)];
      actions := first + second;
      RunAppend(s, first, second);
      RunThree(s, LockCapability(1, change), FencePage(1), ClearPage(1));
      assert second[..0] == [];
    }
  }

  lemma {:induction false} SuspensionFindsNoPage(s: State)
    requires s.capability.Active? && !s.page && !s.published && s.capabilityLock.None? && s.pageLock.None?
             && PhaseOf(s, 1).Idle?
    ensures Run(s, [LockCapability(1, OwnerSuspend), FencePage(1), ClearPage(1)])
            == s.(capabilityLock := Some(1), phases := s.phases[1 := Cleared(OwnerSuspend, false)])
  {
    var s1 := Apply(s, LockCapability(1, OwnerSuspend));
    var s2 := Apply(s1, FencePage(1));
    assert s2.phases == s.phases[1 := Fenced(OwnerSuspend)];
    RunThree(s, LockCapability(1, OwnerSuspend), FencePage(1), ClearPage(1));
  }

  lemma {:induction false} PageAppears(s: State)
    requires s.capability.Active? && !s.page && s.pageLock.None? && s.capabilityLock == Some(1) && PhaseOf(s, 2).Idle?
    ensures Run(s, [StartInitialize(2), Commit(2), LockPageToPublish(2)])
            == s.(page := true, pageLock := Some(2), phases := s.phases[2 := PublishLocked])
  {
    RunThree(s, StartInitialize(2), Commit(2), LockPageToPublish(2));
  }

  lemma {:induction false} HeadOutlivesSuspension(s: State)
    requires s.capability.Active? && PhaseOf(s, 2).PublishLocked? && PhaseOf(s, 1) == Cleared(OwnerSuspend, false)
    ensures !Safe(Run(s, [ReadCapability(2), Commit(2), Commit(1)]))
  {
    RunThree(s, ReadCapability(2), Commit(2), Commit(1));
  }

  /** The page is created and published after the suspension has looked for it and before it commits. */
  lemma {:induction false} LatePageEscapes(s: State) returns (actions: seq<Action>)
    requires s.capability.Active? && !s.page && !s.published && s.capabilityLock.None? && s.pageLock.None?
    requires PhaseOf(s, 1).Idle? && PhaseOf(s, 2).Idle?
    ensures !Safe(Run(s, actions))
  {
    var suspend := [LockCapability(1, OwnerSuspend), FencePage(1), ClearPage(1)];
    var create := [StartInitialize(2), Commit(2), LockPageToPublish(2)];
    var publish := [ReadCapability(2), Commit(2), Commit(1)];
    SuspensionFindsNoPage(s);
    PageAppears(Run(s, suspend));
    HeadOutlivesSuspension(Run(Run(s, suspend), create));
    RunAppend(s, suspend, create);
    RunAppend(s, suspend + create, publish);
    actions := suspend + create + publish;
  }

  /** The exact condition: every run from a quiet state is safe if and only if the page row exists. */
  lemma {:induction false} SafeExactlyWithPage(s: State)
    requires Quiet(s)
    ensures (forall actions :: Safe(Run(s, actions))) <==> s.page
  {
    if s.page {
      forall actions ensures Safe(Run(s, actions)) {
        PagePresentIsSafe(s, actions);
      }
    } else {
      var first := CanActivate(s);
      var second := LatePageEscapes(Run(s, first));
      RunAppend(s, first, second);
      assert !Safe(Run(s, first + second));
    }
  }

  // ----- every interleaving is a serial order

  /** What a transaction is meant to do. */
  datatype Work = ToPublish | ToUnpublish | ToInitialize | ToChange(change: Change)

  datatype Value = Value(capability: Capability, page: bool, published: bool)

  function ValueOf(s: State): Value { Value(s.capability, s.page, s.published) }

  /** The transaction by itself, on committed values; None when it is refused. */
  function Alone(v: Value, work: Work): Option<Value> {
    match work
    case ToPublish => if v.page && v.capability == Active then Some(v.(published := true)) else None
    case ToUnpublish => if v.page && v.capability == Active && v.published then Some(v.(published := false)) else None
    case ToInitialize => if !v.page && v.capability == Active then Some(v.(page := true)) else None
    case ToChange(Penalty(to)) =>
      if v.capability == to then None
      else Some(Value(to, v.page, v.published && v.capability != Active))
    case ToChange(OwnerSuspend) =>
      if v.capability == Active then Some(Value(Suspended, v.page, false)) else None
    case ToChange(OwnerReinstate) =>
      if v.capability == Suspended && !v.published then Some(Value(Active, v.page, false)) else None
  }

  /** All of them one after the other, none refused. */
  function InTurn(v: Value, works: seq<Work>): Option<Value> {
    if works == [] then Some(v)
    else
      var before := InTurn(v, works[..|works| - 1]);
      if before.Some? then Alone(before.value, works[|works| - 1]) else None
  }

  /** What an action starts, if it is a first step. */
  function Starts(a: Action): Option<Work> {
    match a
    case LockPageToPublish(_) => Some(ToPublish)
    case LockPageToUnpublish(_) => Some(ToUnpublish)
    case StartInitialize(_) => Some(ToInitialize)
    case LockCapability(_, change) => Some(ToChange(change))
    case _ => None
  }

  /** What transaction t last started: the last first step of t that was not made to wait. */
  function Begun(s: State, actions: seq<Action>, t: TxId): Option<Work> {
    if actions == [] then None
    else
      var front, a := actions[..|actions| - 1], actions[|actions| - 1];
      if a.t == t && Starts(a).Some? && Run(s, actions) != Run(s, front) then Starts(a) else Begun(s, front, t)
  }

  /** The transactions that were committed, in the order of their commits. */
  function Committed(s: State, actions: seq<Action>): seq<Work> {
    if actions == [] then []
    else
      var front, a := actions[..|actions| - 1], actions[|actions| - 1];
      var work := Begun(s, front, a.t);
      if a.Commit? && work.Some? && Run(s, actions) != Run(s, front) then Committed(s, front) + [work.value]
      else Committed(s, front)
  }

  predicate Doing(phase: Phase, work: Option<Work>) {
    match phase
    case Idle => true
    case PublishLocked => work == Some(ToPublish)
    case PublishChecked => work == Some(ToPublish)
    case UnpublishLocked => work == Some(ToUnpublish)
    case UnpublishChecked => work == Some(ToUnpublish)
    case InitializeChecked => work == Some(ToInitialize)
    case CapabilityLocked(change) => work == Some(ToChange(change))
    case Fenced(change) => work == Some(ToChange(change))
    case Cleared(change, _) => work == Some(ToChange(change))
  }

  lemma {:induction false} PhasesTell(s: State, actions: seq<Action>, t: TxId)
    requires s.phases == map[]
    ensures Doing(PhaseOf(Run(s, actions), t), Begun(s, actions, t))
  {
    if actions != [] {
      PhasesTell(s, actions[..|actions| - 1], t);
    }
  }

  /**
   Serializability: with a page row, the committed values of every interleaved run are those of its committed
   transactions run one at a time in the order of their commits, and in that order none would be refused.
   */
  lemma {:induction false} RunIsSerial(s: State, actions: seq<Action>)
    requires Quiet(s) && s.page
    ensures InTurn(ValueOf(s), Committed(s, actions)) == Some(ValueOf(Run(s, actions)))
  {
    if actions != [] {
      var front, a := actions[..|actions| - 1], actions[|actions| - 1];
      RunIsSerial(s, front);
      RunKeepsInv(s, front);
      var before := Run(s, front);
      PhasesTell(s, front, a.t);
      assert a.t in before.phases ==> PhaseOk(before, a.t, before.phases[a.t]);
      if Committed(s, actions) != Committed(s, front) {
        assert Committed(s, actions)[..|Committed(s, front)|] == Committed(s, front);
      }
    }
  }

  /** The steps of a transaction that is not disturbed. */
  function StepsOf(work: Work, t: TxId): seq<Action> {
    match work
    case ToPublish => [LockPageToPublish(t), ReadCapability(t), Commit(t)]
    case ToUnpublish => [LockPageToUnpublish(t), ReadCapability(t), Commit(t)]
    case ToInitialize => [StartInitialize(t), Commit(t), Commit(t)]
    case ToChange(change) => [LockCapability(t, change), FencePage(t), ClearPage(t)] + [Commit(t)]
  }

  predicate Unlocked(s: State, t: TxId) { s.capabilityLock.None? && s.pageLock.None? && PhaseOf(s, t).Idle? }

  predicate Does(s: State, work: Work, s': State) {
    ValueOf(s') == if Alone(ValueOf(s), work).Some? then Alone(ValueOf(s), work).value else ValueOf(s)
  }

  lemma {:induction false} UndisturbedPublication(s: State, work: Work, t: TxId)
    requires Unlocked(s, t) && !work.ToChange?
    ensures Does(s, work, Run(s, StepsOf(work, t))) && Unlocked(Run(s, StepsOf(work, t)), t)
  {
    match work
    case ToPublish => RunThree(s, LockPageToPublish(t), ReadCapability(t), Commit(t));
    case ToUnpublish => RunThree(s, LockPageToUnpublish(t), ReadCapability(t), Commit(t));
    case ToInitialize => RunThree(s, StartInitialize(t), Commit(t), Commit(t));
  }

  lemma UndisturbedChange(s: State, change: Change, t: TxId)
    requires Safe(s) && (s.published ==> s.page) && Unlocked(s, t)
    ensures var cleared := Apply(Apply(Apply(s, LockCapability(t, change)), FencePage(t)), ClearPage(t));
            var s' := Apply(cleared, Commit(t));
            Does(s, ToChange(change), s') && Unlocked(s', t)
  {
    var s1 := Apply(s, LockCapability(t, change));
    var s2 := Apply(s1, FencePage(t));
    assert Applicable(change, s.capability) ==> PhaseOf(s2, t) == Fenced(change) && s2.capability == s.capability;
    assert !Applicable(change, s.capability) ==> s2 == Finished(s1, t);
  }

  /** Undisturbed, each transaction does exactly what it is meant to, page or no page, and releases its locks. */
  lemma {:induction false} UndisturbedExactly(s: State, work: Work, t: TxId)
    requires Safe(s) && (s.published ==> s.page) && Unlocked(s, t)
    ensures Does(s, work, Run(s, StepsOf(work, t))) && Unlocked(Run(s, StepsOf(work, t)), t)
  {
    if work.ToChange? {
      var first := [LockCapability(t, work.change), FencePage(t), ClearPage(t)];
      RunThree(s, LockCapability(t, work.change), FencePage(t), ClearPage(t));
      RunAppend(s, first, [Commit(t)]);
      assert [Commit(t)][..0] == [];
      UndisturbedChange(s, work.change, t);
    } else {
      UndisturbedPublication(s, work, t);
    }
  }
}
