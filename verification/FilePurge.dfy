/**
 What the quarantine's purge mark means. An upload grant that is used late can still write to the
 bucket, so the mark cannot promise that it is empty; it promises that whatever was uploaded before
 the purge began is gone for good.
 */
module FilePurge {
  import opened Common
  import opened FileSignature
  import opened FileRows
  import opened FileLifecycle
  import opened FileGuarantees
  import opened FileHistory

  /** A worker that won or a sweep starts to delete the versions it lists. */
  predicate Begins(a: Action) { a.BeginWinnerPurge? || a.BeginPurgeQuarantine? }

  /** Of what was uploaded by then, only versions still to be deleted are left. */
  predicate Left(uploaded: set<VersionId>, t: Store, todo: set<VersionId>) {
    forall v :: v in uploaded ==> v in t.uploads && (v in t.quarantine ==> v in todo)
  }

  ghost predicate Known(begun: set<set<VersionId>>, t: Store, todo: set<VersionId>) {
    exists uploaded :: uploaded in begun && Left(uploaded, t, todo)
  }

  ghost predicate WorkerKnown(begun: set<set<VersionId>>, t: Store, k: Worker) {
    && (k.Purging? ==> Known(begun, t, k.todo))
    && (k.Purged? ==> Known(begun, t, {}))
  }

  ghost predicate SweepKnown(begun: set<set<VersionId>>, t: Store, s: Sweep) {
    && (s.quarantine.Deleting? ==> Known(begun, t, s.quarantine.todo))
    && (s.quarantine.Done? ==> Known(begun, t, {}))
    && (s.quarantine.NotNeeded? ==> !NeedsQuarantine(s.file))
  }

  /** Whoever is deleting or has deleted began with a purge, and so did the mark. */
  ghost predicate Traced(begun: set<set<VersionId>>, w: World) {
    && (forall id :: id in w.workers ==> WorkerKnown(begun, w.store, w.workers[id]))
    && (forall id :: id in w.sweeps ==> SweepKnown(begun, w.store, w.sweeps[id]))
    && (w.row.quarantinePurgedAt.Some? ==> Known(begun, w.store, {}))
  }

  /** What was uploaded when each purge began. */
  ghost function Begun(w0: World, actions: seq<Action>): set<set<VersionId>> {
    if actions == [] then {}
    else
      var front, a := actions[..|actions| - 1], actions[|actions| - 1];
      Begun(w0, front) + if Begins(a) then {Run(w0, front).store.uploads.Keys} else {}
  }

  /** The store only gains uploads, and what left the quarantine bucket does not come back. */
  predicate MovesOn(t: Store, t': Store) {
    && t.uploads.Keys <= t'.uploads.Keys
    && forall v :: v in t.uploads && v in t'.quarantine ==> v in t.quarantine
  }

  lemma KnownMovesOn(
    begun: set<set<VersionId>>, begun': set<set<VersionId>>, t: Store, t': Store, todo: set<VersionId>)
    requires begun <= begun' && MovesOn(t, t') && Known(begun, t, todo)
    ensures Known(begun', t', todo)
  {
    var uploaded :| uploaded in begun && Left(uploaded, t, todo);
    assert Left(uploaded, t', todo);
  }

  lemma DeletedIsKnown(begun: set<set<VersionId>>, t: Store, todo: set<VersionId>)
    requires Known(begun, t, todo) && todo !! t.quarantine
    ensures Known(begun, t, {})
  {
    var uploaded :| uploaded in begun && Left(uploaded, t, todo);
    assert Left(uploaded, t, {});
  }

  /** A step of process `id`: everyone else stays, and `id`, if it is still there, is known. */
  lemma StepIsTraced(begun: set<set<VersionId>>, begun': set<set<VersionId>>, w: World, w': World, id: ProcessId)
    requires Traced(begun, w) && begun <= begun' && MovesOn(w.store, w'.store)
    requires forall u :: u in w'.workers && u != id ==> u in w.workers && w'.workers[u] == w.workers[u]
    requires forall u :: u in w'.sweeps && u != id ==> u in w.sweeps && w'.sweeps[u] == w.sweeps[u]
    requires id in w'.workers ==> WorkerKnown(begun', w'.store, w'.workers[id])
    requires id in w'.sweeps ==> SweepKnown(begun', w'.store, w'.sweeps[id])
    requires w'.row.quarantinePurgedAt.Some? ==> w.row.quarantinePurgedAt.Some? || Known(begun', w'.store, {})
    ensures Traced(begun', w')
  {
    forall todo | Known(begun, w.store, todo) ensures Known(begun', w'.store, todo) {
      KnownMovesOn(begun, begun', w.store, w'.store, todo);
    }
  }

  lemma KnownProcess(begun: set<set<VersionId>>, begun': set<set<VersionId>>, w: World, t': Store, id: ProcessId)
    requires Traced(begun, w) && begun <= begun' && MovesOn(w.store, t')
    ensures id in w.workers ==> WorkerKnown(begun', t', w.workers[id])
    ensures id in w.sweeps ==> SweepKnown(begun', t', w.sweeps[id])
  {
    forall todo | Known(begun, w.store, todo) ensures Known(begun', t', todo) {
      KnownMovesOn(begun, begun', w.store, t', todo);
    }
  }

  // ----- workers

  lemma WorkerLeavesQuarantine(w: World, a: Action, k: Worker)
    ensures ApplyWorker(w, a, k).store.quarantine == w.store.quarantine
  {
  }

  lemma OnlyPurgedMark(w: World, a: Action, k: Worker)
    requires w.row.quarantinePurgedAt.None? && ApplyWorker(w, a, k).row.quarantinePurgedAt.Some?
    ensures a.MarkWinnerPurge? && k.Purged?
  {
  }

  /** How a worker comes to delete and to have deleted. */
  lemma NextWorker(w: World, a: Action, k: Worker)
    requires OfProcess(a) && a.id in w.workers && w.workers[a.id] == k
    ensures var w' := ApplyWorker(w, a, k);
            a.id in w'.workers ==>
              var k' := w'.workers[a.id];
              && (k'.Purging? ==> k' == k || (a.BeginWinnerPurge? && k'.todo == w.store.quarantine))
              && (k'.Purged? ==> k' == k || (a.EndWinnerPurge? && k.Purging? && k.todo !! w.store.quarantine))
  {
  }

  lemma WorkerStepTraced(begun: set<set<VersionId>>, begun': set<set<VersionId>>, w: World, a: Action)
    requires Traced(begun, w) && OfProcess(a) && a.id in w.workers && begun <= begun'
    requires Begins(a) ==> w.store.uploads.Keys in begun'
    ensures Traced(begun', Apply(w, a))
  {
    var k, w' := w.workers[a.id], Apply(w, a);
    assert w' == ApplyWorker(w, a, k);
    WorkerLeavesQuarantine(w, a, k);
    WorkerLeavesUploads(w, a, k);
    if w.row.quarantinePurgedAt.None? && w'.row.quarantinePurgedAt.Some? {
      OnlyPurgedMark(w, a, k);
    }
    NextWorker(w, a, k);
    WorkerOnlyMoves(w, a);
    KnownProcess(begun, begun', w, w'.store, a.id);
    if a.id in w'.workers {
      if a.BeginWinnerPurge? {
        assert Left(w.store.uploads.Keys, w'.store, w.store.quarantine);
      } else if w'.workers[a.id].Purged? && k.Purging? {
        DeletedIsKnown(begun', w'.store, k.todo);
      }
    }
    StepIsTraced(begun, begun', w, w', a.id);
  }

  // ----- sweeps

  lemma SweepPhases(w: World, a: Action, s: Sweep)
    requires OfProcess(a) && a.id in w.sweeps && w.sweeps[a.id] == s
    ensures var w' := ApplySweep(w, a, s);
            && w'.store.uploads == w.store.uploads && w'.store.quarantine == w.store.quarantine
            && w'.workers == w.workers
            && (forall u :: u in w'.sweeps && u != a.id ==> u in w.sweeps && w'.sweeps[u] == w.sweeps[u])
            && (w'.row.quarantinePurgedAt.Some? ==>
                  w.row.quarantinePurgedAt.Some?
                  || ((s.quarantine.NotNeeded? || s.quarantine.Done?) && NeedsQuarantine(s.file)))
            && (a.id in w'.sweeps ==>
                  var s' := w'.sweeps[a.id];
                  && s'.file == s.file
                  && (s'.quarantine == s.quarantine
                      || (a.BeginPurgeQuarantine? && s'.quarantine == Deleting(w.store.quarantine))
                      || (s.quarantine.Deleting? && s.quarantine.todo !! w.store.quarantine && s'.quarantine.Done?)))
  {
  }

  lemma SweepStepTraced(begun: set<set<VersionId>>, begun': set<set<VersionId>>, w: World, a: Action)
    requires Traced(begun, w) && OfProcess(a) && a.id !in w.workers && a.id in w.sweeps && begun <= begun'
    requires Begins(a) ==> w.store.uploads.Keys in begun'
    ensures Traced(begun', Apply(w, a))
  {
    var s, w' := w.sweeps[a.id], Apply(w, a);
    assert w' == ApplySweep(w, a, s);
    SweepPhases(w, a, s);
    KnownProcess(begun, begun', w, w'.store, a.id);
    if a.id in w'.sweeps {
      if a.BeginPurgeQuarantine? {
        assert w'.store.quarantine <= w'.store.quarantine;
        assert Left(w.store.uploads.Keys, w'.store, w.store.quarantine);
      } else if s.quarantine.Deleting? && w'.sweeps[a.id].quarantine.Done? {
        DeletedIsKnown(begun', w'.store, s.quarantine.todo);
      }
    }
    StepIsTraced(begun, begun', w, w', a.id);
  }

  // ----- every step

  lemma OtherStepTraced(begun: set<set<VersionId>>, begun': set<set<VersionId>>, w: World, a: Action)
    requires Inv(w) && Traced(begun, w) && !OfProcess(a) && begun <= begun'
    ensures Traced(begun', Apply(w, a))
  {
    forall todo | Known(begun, w.store, todo) ensures Known(begun', Apply(w, a).store, todo) {
      KnownMovesOn(begun, begun', w.store, Apply(w, a).store, todo);
    }
  }

  lemma StartTraced(begun: set<set<VersionId>>, begun': set<set<VersionId>>, w: World, a: Action)
    requires Traced(begun, w) && begun <= begun' && OfProcess(a) && a.id !in w.workers && a.id !in w.sweeps
    ensures Traced(begun', Apply(w, a))
  {
    var w' := Apply(w, a);
    assert w' == ApplyStart(w, a);
    StepIsTraced(begun, begun', w, w', a.id);
  }

  lemma {:induction false} RunTraced(context: Context, declaredBytes: nat, at: Instant, actions: seq<Action>)
    ensures var w0 := Init(context, declaredBytes, at); Traced(Begun(w0, actions), Run(w0, actions))
  {
    if actions != [] {
      RunTraced(context, declaredBytes, at, actions[..|actions| - 1]);
      RunKeepsInv(context, declaredBytes, at, actions[..|actions| - 1]);
      var w0 := Init(context, declaredBytes, at);
      var begun, w, a := Begun(w0, actions[..|actions| - 1]), Run(w0, actions[..|actions| - 1]), actions[|actions| - 1];
      if !OfProcess(a) {
        OtherStepTraced(begun, Begun(w0, actions), w, a);
      } else if a.id in w.workers {
        WorkerStepTraced(begun, Begun(w0, actions), w, a);
      } else if a.id in w.sweeps {
        SweepStepTraced(begun, Begun(w0, actions), w, a);
      } else {
        StartTraced(begun, Begun(w0, actions), w, a);
      }
    }
  }

  lemma {:induction false} BegunByAnAction(w0: World, actions: seq<Action>, uploaded: set<VersionId>) returns (i: nat)
    requires uploaded in Begun(w0, actions)
    ensures i < |actions| && Begins(actions[i]) && uploaded == Run(w0, actions[..i]).store.uploads.Keys
  {
    var n := |actions| - 1;
    if Begins(actions[n]) && uploaded == Run(w0, actions[..n]).store.uploads.Keys {
      i := n;
    } else {
      i := BegunByAnAction(w0, actions[..n], uploaded);
      assert actions[..n][..i] == actions[..i];
    }
  }

  /**
   Over any run: once the quarantine is marked as purged, some purge of it had begun, and every version that
   is there now, or at any later time, was uploaded after that.
   */
  lemma {:induction false} OnlyLateUploadsSurvive(
    context: Context, declaredBytes: nat, at: Instant, actions: seq<Action>) returns (i: nat)
    requires Run(Init(context, declaredBytes, at), actions).row.quarantinePurgedAt.Some?
    ensures var w0 := Init(context, declaredBytes, at);
            && i < |actions| && Begins(actions[i])
            && Run(w0, actions[..i]).store.uploads.Keys !! Run(w0, actions).store.quarantine
  {
    var w0 := Init(context, declaredBytes, at);
    RunTraced(context, declaredBytes, at, actions);
    var uploaded :| uploaded in Begun(w0, actions) && Left(uploaded, Run(w0, actions).store, {});
    i := BegunByAnAction(w0, actions, uploaded);
  }
}
