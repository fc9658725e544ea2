/**
 The retention fence: advisory locks on public-media assets that every writer of an asset
 reference takes in sorted order, after its own rows and until it commits. Lock keys are taken
 as distinct for distinct assets.
 */
module RetentionFence {
  import opened Common

  // ----- asset ids

  predicate HexDigit(c: char) { '0' <= c <= '9' || 'a' <= c <= 'f' || 'A' <= c <= 'F' }

  predicate IsUuid(s: string) {
    && |s| == 36
    && (forall i :: 0 <= i < 36 ==> if i in {8, 13, 18, 23} then s[i] == '-' else HexDigit(s[i]))
    && '1' <= s[14] <= '8'
    && s[19] in {'8', '9', 'a', 'b', 'A', 'B'}
  }

  function LowerChar(c: char): char {
    if 'A' <= c <= 'Z' then c - 'A' + 'a' else c
  }

  function Lower(s: string): (r: string)
    ensures |r| == |s|
  {
    seq(|s|, i requires 0 <= i < |s| => LowerChar(s[i]))
  }

  // ----- the order of keys

  predicate Less(a: string, b: string) {
    b != [] && (a == [] || a[0] < b[0] || (a[0] == b[0] && Less(a[1..], b[1..])))
  }

  lemma {:induction false} LessIsTotal(a: string, b: string)
    ensures Less(a, b) || a == b || Less(b, a)
  {
    if a != [] && b != [] && a[0] == b[0] {
      LessIsTotal(a[1..], b[1..]);
      assert a == [a[0]] + a[1..] && b == [b[0]] + b[1..];
    }
  }

  lemma {:induction false} LessIsTransitive(a: string, b: string, c: string)
    requires Less(a, b) && Less(b, c)
    ensures Less(a, c)
  {
    if a != [] && a[0] == b[0] && b[0] == c[0] {
      LessIsTransitive(a[1..], b[1..], c[1..]);
    }
  }

  lemma {:induction false} LessIsStrict(a: string)
    ensures !Less(a, a)
  {
    if a != [] {
      LessIsStrict(a[1..]);
    }
  }

  ghost predicate Increasing(keys: seq<string>) {
    forall i, j :: 0 <= i < j < |keys| ==> Less(keys[i], keys[j])
  }

  // ----- the plan of a request

  ghost function Keys(ids: seq<string>): set<string> {
    set i | 0 <= i < |ids| :: Lower(ids[i])
  }

  predicate Admissible(ids: seq<string>) {
    1 <= |ids| <= 500 && forall i :: 0 <= i < |ids| ==> IsUuid(ids[i])
  }

  /** Where a key belongs in an increasing sequence. */
  method Place(keys: seq<string>, key: string) returns (at: nat)
    requires Increasing(keys)
    ensures at <= |keys|
    ensures forall i :: 0 <= i < at ==> Less(keys[i], key)
    ensures at < |keys| ==> keys[at] == key || Less(key, keys[at])
    ensures forall i :: at < i < |keys| ==> Less(key, keys[i])
  {
    at := 0;
    while at < |keys| && Less(keys[at], key)
      invariant at <= |keys|
      invariant forall i :: 0 <= i < at ==> Less(keys[i], key)
    {
      at := at + 1;
    }
    if at < |keys| {
      LessIsTotal(keys[at], key);
      forall i | at < i < |keys| ensures Less(key, keys[i]) {
        if keys[at] != key {
          LessIsTransitive(key, keys[at], keys[i]);
        }
      }
    }
  }

  lemma InsertKeepsOrder(keys: seq<string>, at: nat, key: string)
    requires Increasing(keys) && at <= |keys|
    requires forall i :: 0 <= i < at ==> Less(keys[i], key)
    requires forall i :: at <= i < |keys| ==> Less(key, keys[i])
    ensures Increasing(keys[..at] + [key] + keys[at..])
    ensures (set k | k in keys[..at] + [key] + keys[at..]) == (set k | k in keys) + {key}
  {
    var keys' := keys[..at] + [key] + keys[at..];
    assert keys == keys[..at] + keys[at..];
    forall i, j | 0 <= i < j < |keys'| ensures Less(keys'[i], keys'[j]) {
      if i < at && j > at {
        assert Less(keys[i], keys[j - 1]);
      }
    }
  }

  lemma KeysGrow(ids: seq<string>, i: nat)
    requires i < |ids|
    ensures Keys(ids[..i + 1]) == Keys(ids[..i]) + {Lower(ids[i])}
  {
    assert forall j :: 0 <= j < i ==> ids[..i + 1][j] == ids[..i][j];
    assert ids[..i + 1][i] == ids[i];
    forall k | k in Keys(ids[..i]) ensures k in Keys(ids[..i + 1]) {
      var j :| 0 <= j < i && k == Lower(ids[..i][j]);
      assert k == Lower(ids[..i + 1][j]);
    }
  }

  /**
   The fences a request takes, in order: None when the request is refused, otherwise each asset's
   key once, increasing, whatever the order, repetition or case of the ids.
   */
  method AcquireFences(ids: seq<string>) returns (plan: Option<seq<string>>)
    ensures plan.Some? <==> Admissible(ids)
    ensures plan.Some? ==> Increasing(plan.value) && (set k | k in plan.value) == Keys(ids)
  {
    if |ids| < 1 || |ids| > 500 {
      return None;
    }
    var keys: seq<string> := [];
    var i := 0;
    while i < |ids|
      invariant i <= |ids|
      invariant forall j :: 0 <= j < i ==> IsUuid(ids[j])
      invariant Increasing(keys)
      invariant (set k | k in keys) == Keys(ids[..i])
    {
      if !IsUuid(ids[i]) {
        return None;
      }
      var key := Lower(ids[i]);
      var at := Place(keys, key);
      KeysGrow(ids, i);
      if at == |keys| || keys[at] != key {
        InsertKeepsOrder(keys, at, key);
        keys := keys[..at] + [key] + keys[at..];
      }
      i := i + 1;
    }
    assert ids[..i] == ids;
    plan := Some(keys);
  }

  lemma HasKey(keys: seq<string>)
    ensures keys == [] || exists k :: k in keys
  {
    if keys != [] {
      assert keys[0] in keys;
    }
  }

  /** Two requests for the same assets take the same fences in the same order. */
  lemma {:induction false} PlanIsUnique(a: seq<string>, b: seq<string>)
    requires Increasing(a) && Increasing(b) && (forall k :: k in a <==> k in b)
    ensures a == b
  {
    if a == [] {
      HasKey(b);
    } else {
      assert a[0] in b && b != [];
      assert b[0] in a;
      var i, j :| 0 <= i < |b| && b[i] == a[0] && 0 <= j < |a| && a[j] == b[0];
      if i > 0 && j > 0 {
        LessIsTransitive(a[0], b[0], a[0]);
      }
      LessIsStrict(a[0]);
      assert a == [a[0]] + a[1..] && b == [b[0]] + b[1..];
      assert a[0] == b[0] && a[0] !in a[1..] && b[0] !in b[1..];
      assert forall k :: k in a[1..] <==> k in a && k != a[0];
      assert forall k :: k in b[1..] <==> k in b && k != b[0];
      PlanIsUnique(a[1..], b[1..]);
    }
  }

  // ----- locks and who takes them

  /** Everything locked in this protocol, in the order in which it is taken. */
  datatype Resource = AssetRow(id: string) | PageRow(id: string) | Fence(id: string)

  function Class(r: Resource): nat {
    if r.AssetRow? then 0 else if r.PageRow? then 1 else 2
  }

  predicate Before(a: Resource, b: Resource) {
    Class(a) < Class(b) || (Class(a) == Class(b) && Less(a.id, b.id))
  }

  lemma BeforeIsTransitive(a: Resource, b: Resource, c: Resource)
    requires Before(a, b) && Before(b, c)
    ensures Before(a, c)
  {
    if Class(a) == Class(c) {
      LessIsTransitive(a.id, b.id, c.id);
    }
  }

  lemma BeforeIsTotal(a: Resource, b: Resource)
    ensures Before(a, b) || a == b || Before(b, a)
    ensures !Before(a, a)
  {
    LessIsTotal(a.id, b.id);
    LessIsStrict(a.id);
  }

  ghost predicate Ordered(plan: seq<Resource>) {
    forall i, j :: 0 <= i < j < |plan| ==> Before(plan[i], plan[j])
  }

  function FencesOf(keys: seq<string>): seq<Resource> { seq(|keys|, i requires 0 <= i < |keys| => Fence(keys[i])) }

  function PagesOf(ids: seq<string>): seq<Resource> { seq(|ids|, i requires 0 <= i < |ids| => PageRow(ids[i])) }

  function AssetsOf(ids: seq<string>): seq<Resource> { seq(|ids|, i requires 0 <= i < |ids| => AssetRow(ids[i])) }

  /** A catalog writer locks its page and then its fences; a hold writer has no page. */
  lemma CatalogPlanIsOrdered(page: Option<string>, keys: seq<string>)
    requires Increasing(keys)
    ensures Ordered((if page.Some? then [PageRow(page.value)] else []) + FencesOf(keys))
  {
  }

  /** Cleanup locks asset rows, page rows and fences, each kind in order. */
  lemma CleanupPlanIsOrdered(assets: seq<string>, pages: seq<string>, keys: seq<string>)
    requires Increasing(assets) && Increasing(pages) && Increasing(keys)
    ensures Ordered(AssetsOf(assets) + PagesOf(pages) + FencesOf(keys))
  {
  }

  // ----- any number of concurrent transactions

  /** A transaction holds the first `held` locks of its plan until it commits. */
  datatype Writer = Writer(plan: seq<Resource>, held: nat, done: bool)

  predicate Holds(w: Writer, r: Resource) {
    !w.done && w.held <= |w.plan| && r in w.plan[..w.held]
  }

  predicate Free(writers: seq<Writer>, r: Resource) {
    forall j :: 0 <= j < |writers| ==> !Holds(writers[j], r)
  }

  predicate Waiting(w: Writer) { !w.done && w.held < |w.plan| }

  /** One writer takes its next lock if it is free, or commits when it has them all. */
  function Step(writers: seq<Writer>, i: nat): seq<Writer> {
    if i >= |writers| || writers[i].done then writers
    else if writers[i].held >= |writers[i].plan| then writers[i := writers[i].(done := true)]
    else if Free(writers, writers[i].plan[writers[i].held]) then writers[i := writers[i].(held := writers[i].held + 1)]
    else writers
  }

  function Run(writers: seq<Writer>, schedule: seq<nat>): seq<Writer>
    decreases |schedule|
  {
    if schedule == [] then writers else Run(Step(writers, schedule[0]), schedule[1..])
  }

  ghost predicate Inv(writers: seq<Writer>) {
    && (forall i :: 0 <= i < |writers| ==> writers[i].held <= |writers[i].plan| && Ordered(writers[i].plan))
    && (forall i, j, r :: 0 <= i < j < |writers| && Holds(writers[i], r) ==> !Holds(writers[j], r))
  }

  predicate Fresh(writers: seq<Writer>) {
    forall i :: 0 <= i < |writers| ==> writers[i].held == 0 && !writers[i].done
  }

  lemma {:induction false} StepKeepsInv(writers: seq<Writer>, i: nat)
    requires Inv(writers)
    ensures Inv(Step(writers, i)) && |Step(writers, i)| == |writers|
  {
    if i < |writers| && Waiting(writers[i]) && Free(writers, writers[i].plan[writers[i].held]) {
      var w, writers' := writers[i], Step(writers, i);
      assert w.plan[..w.held + 1] == w.plan[..w.held] + [w.plan[w.held]];
      forall j, k, r | 0 <= j < k < |writers'| && Holds(writers'[j], r) ensures !Holds(writers'[k], r) {
        assert j != i ==> writers'[j] == writers[j];
        assert k != i ==> writers'[k] == writers[k];
      }
    }
  }

  /** A lock has one holder at a time, in every run. */
  lemma {:induction false} RunKeepsInv(writers: seq<Writer>, schedule: seq<nat>)
    requires Inv(writers)
    ensures Inv(Run(writers, schedule)) && |Run(writers, schedule)| == |writers|
    decreases |schedule|
  {
    if schedule != [] {
      StepKeepsInv(writers, schedule[0]);
      RunKeepsInv(Step(writers, schedule[0]), schedule[1..]);
    }
  }

  function Next(w: Writer): Resource
    requires Waiting(w)
  {
    w.plan[w.held]
  }

  /** `i` waits for a lock that `j` holds. */
  predicate WaitsFor(writers: seq<Writer>, i: nat, j: nat) {
    i < |writers| && j < |writers| && Waiting(writers[i]) && Holds(writers[j], Next(writers[i]))
  }

  /** Along a chain of waits the awaited locks rise in the common order. */
  lemma WaitRises(writers: seq<Writer>, i: nat, j: nat)
    requires Inv(writers) && WaitsFor(writers, i, j) && Waiting(writers[j])
    ensures Before(Next(writers[i]), Next(writers[j]))
  {
    var r := Next(writers[i]);
    var k :| 0 <= k < writers[j].held && writers[j].plan[..writers[j].held][k] == r;
    assert writers[j].plan[k] == r;
  }

  ghost predicate WaitChain(writers: seq<Writer>, chain: seq<nat>) {
    && (forall k :: 0 <= k < |chain| ==> chain[k] < |writers| && Waiting(writers[chain[k]]))
    && (forall k :: 0 < k < |chain| ==> WaitsFor(writers, chain[k - 1], chain[k]))
  }

  lemma {:induction false} ChainRises(writers: seq<Writer>, chain: seq<nat>)
    requires Inv(writers) && WaitChain(writers, chain) && |chain| > 1
    ensures Before(Next(writers[chain[0]]), Next(writers[chain[|chain| - 1]]))
  {
    var last := |chain| - 1;
    WaitRises(writers, chain[last - 1], chain[last]);
    if last > 1 {
      var front := chain[..last];
      assert forall k :: 0 <= k < |front| ==> front[k] == chain[k];
      assert forall k :: 0 < k < |front| ==> WaitsFor(writers, front[k - 1], front[k]);
      ChainRises(writers, front);
      BeforeIsTransitive(Next(writers[chain[0]]), Next(writers[chain[last - 1]]), Next(writers[chain[last]]));
    }
  }

  /** Deadlock freedom: in no reachable state does a chain of waits come back to where it began. */
  lemma {:induction false} NoWaitCycle(writers: seq<Writer>, schedule: seq<nat>, chain: seq<nat>)
    requires Fresh(writers) && (forall i :: 0 <= i < |writers| ==> Ordered(writers[i].plan))
    requires WaitChain(Run(writers, schedule), chain) && |chain| > 1
    ensures chain[0] != chain[|chain| - 1]
  {
    RunKeepsInv(writers, schedule);
    var now := Run(writers, schedule);
    ChainRises(now, chain);
    BeforeIsTotal(Next(now[chain[0]]), Next(now[chain[|chain| - 1]]));
  }

  // ----- and so everyone finishes

  predicate AllDone(writers: seq<Writer>) {
    forall i :: 0 <= i < |writers| ==> writers[i].done
  }

  /** A waiting writer whose awaited lock is the last in order. */
  lemma {:induction false} HighestWaiting(writers: seq<Writer>, n: nat) returns (top: nat)
    requires n <= |writers| && exists i :: 0 <= i < n && Waiting(writers[i])
    ensures top < n && Waiting(writers[top])
    ensures forall i :: 0 <= i < n && Waiting(writers[i]) ==> !Before(Next(writers[top]), Next(writers[i]))
    decreases n
  {
    if exists i :: 0 <= i < n - 1 && Waiting(writers[i]) {
      top := HighestWaiting(writers, n - 1);
      if Waiting(writers[n - 1]) && Before(Next(writers[top]), Next(writers[n - 1])) {
        forall i | 0 <= i < n && Waiting(writers[i]) ensures !Before(Next(writers[n - 1]), Next(writers[i])) {
          BeforeIsTotal(Next(writers[n - 1]), Next(writers[i]));
          if Before(Next(writers[n - 1]), Next(writers[i])) {
            BeforeIsTransitive(Next(writers[top]), Next(writers[n - 1]), Next(writers[i]));
          }
        }
        top := n - 1;
      }
    } else {
      top := n - 1;
      BeforeIsTotal(Next(writers[top]), Next(writers[top]));
    }
  }

  /** While anyone is unfinished, someone can take a step. */
  lemma {:induction false} SomeoneCanMove(writers: seq<Writer>) returns (i: nat)
    requires Inv(writers) && !AllDone(writers)
    ensures i < |writers| && Step(writers, i) != writers
  {
    if k :| 0 <= k < |writers| && !writers[k].done && !Waiting(writers[k]) {
      i := k;
    } else {
      i := HighestWaiting(writers, |writers|);
      if !Free(writers, Next(writers[i])) {
        var j :| 0 <= j < |writers| && Holds(writers[j], Next(writers[i]));
        WaitRises(writers, i, j);
        assert false;
      }
    }
  }

  function Remaining(writers: seq<Writer>): nat {
    if writers == [] then 0
    else
      var w := writers[|writers| - 1];
      Remaining(writers[..|writers| - 1])
          + (if w.done then 0 else 1 + if w.held < |w.plan| then |w.plan| - w.held else 0)
  }

  lemma {:induction false} StepReduces(writers: seq<Writer>, i: nat, w: Writer)
    requires i < |writers| && !writers[i].done && writers[i].held <= |writers[i].plan|
    requires w == if Waiting(writers[i]) then writers[i].(held := writers[i].held + 1) else writers[i].(done := true)
    ensures Remaining(writers[i := w]) == Remaining(writers) - 1
  {
    var n := |writers| - 1;
    if i == n {
      assert writers[i := w][..n] == writers[..n];
    } else {
      assert writers[i := w][..n] == writers[..n][i := w];
      StepReduces(writers[..n], i, w);
    }
  }

  /** Every set of writers, from any reachable state, can run to completion, in as many steps as remain. */
  lemma {:induction false} EveryoneCanFinish(writers: seq<Writer>) returns (schedule: seq<nat>)
    requires Inv(writers)
    ensures AllDone(Run(writers, schedule)) && |schedule| <= Remaining(writers)
    decreases Remaining(writers)
  {
    if AllDone(writers) {
      schedule := [];
    } else {
      var i := SomeoneCanMove(writers);
      var next := Step(writers, i);
      StepReduces(writers, i, next[i]);
      StepKeepsInv(writers, i);
      assert next == writers[i := next[i]];
      var rest := EveryoneCanFinish(next);
      schedule := [i] + rest;
      assert schedule[1..] == rest;
    }
  }

  /** The order is what matters: two writers that take two fences in opposite orders can block each other for good. */
  lemma UnorderedWritersDeadlock(a: string, b: string)
    requires a != b
    ensures var writers := [Writer([Fence(a), Fence(b)], 0, false), Writer([Fence(b), Fence(a)], 0, false)];
            var stuck := Run(writers, [0, 1]);
            !AllDone(stuck) && forall i: nat :: Step(stuck, i) == stuck
  {
    var writers := [Writer([Fence(a), Fence(b)], 0, false), Writer([Fence(b), Fence(a)], 0, false)];
    var one := Step(writers, 0);
    assert one == [Writer([Fence(a), Fence(b)], 1, false), writers[1]];
    var two := Step(one, 1);
    assert [0, 1][1..] == [1] && [1][1..] == [];
    assert Run(writers, [0, 1]) == two by {
      assert Run(one, [1]) == Run(two, []);
    }
    assert Free(one, Fence(b));
    assert two == [one[0], Writer([Fence(b), Fence(a)], 1, false)];
    assert two[0].plan[..1] == [Fence(a)] && two[1].plan[..1] == [Fence(b)];
    assert Holds(two[0], Fence(a)) && Holds(two[1], Fence(b));
  }

  // ----- ids that name the same asset

  /** Two characters that differ at most in case. */
  predicate SameLetter(a: char, b: char) {
    || a == b
    || ('a' <= a <= 'z' && a as int == b as int + 32)
    || ('a' <= b <= 'z' && b as int == a as int + 32)
  }

  /** Two ids share a fence exactly when they differ at most in the case of their letters. */
  lemma SameFenceExactly(a: string, b: string)
    ensures Lower(a) == Lower(b) <==> |a| == |b| && forall i :: 0 <= i < |a| ==> SameLetter(a[i], b[i])
  {
    if Lower(a) == Lower(b) {
      assert |a| == |b|;
      forall i | 0 <= i < |a| ensures SameLetter(a[i], b[i]) {
        assert Lower(a)[i] == Lower(b)[i];
      }
    }
  }

  /** Case does not matter to what counts as an id. */
  lemma IdsIgnoreCase(s: string)
    ensures IsUuid(s) <==> IsUuid(Lower(s))
    ensures IsUuid(s) ==> forall i :: 0 <= i < 36 ==> Lower(s)[i] in "0123456789abcdef-"
  {
    if |s| == 36 {
      var t := Lower(s);
      assert forall i :: 0 <= i < 36 ==> t[i] == LowerChar(s[i]);
      assert forall i :: 0 <= i < 36 ==> (HexDigit(s[i]) <==> HexDigit(t[i])) && (s[i] == '-' <==> t[i] == '-');
      assert t[14] == LowerChar(s[14]) && t[19] == LowerChar(s[19]);
      if IsUuid(t) {
        assert forall i :: 0 <= i < 36 ==> if i in {8, 13, 18, 23} then t[i] == '-' else HexDigit(t[i]);
      }
    }
  }
}
