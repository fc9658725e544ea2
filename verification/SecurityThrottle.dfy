/** The per-subject attempt throttle: a fixed window with a block once the window is used up. */
module SecurityThrottle {
  import opened Common

  datatype Policy = Policy(windowMs: int, maximumAttempts: int, blockMs: int)

  predicate ValidPolicy(p: Policy) {
    p.windowMs > 0 && 0 < p.maximumAttempts <= MAX_SAFE_INTEGER && p.blockMs > 0
  }

  datatype Row = Row(attemptCount: nat, windowStartedAt: Instant, blockedUntil: Option<Instant>)

  datatype Risk = Normal | Elevated | ChallengeRequired

  datatype Answer = Answer(allowed: bool, attemptCount: nat, retryAt: Option<Instant>, risk: Risk)

  /** The row as the insert leaves it when there was none. */
  function Current(row: Option<Row>, now: Instant): Row {
    if row.Some? then row.value else Row(0, now, None)
  }

  function Recorded(p: Policy, row: Option<Row>, now: Instant): Row {
    var current := Current(row, now);
    var existingBlock := if current.blockedUntil.Some?
        && current.blockedUntil.value > now then current.blockedUntil else None;
    var windowExpired := current.windowStartedAt + p.windowMs <= now;
    var attemptCount := if windowExpired then 1 else current.attemptCount + 1;
    Row(attemptCount, if windowExpired then now else current.windowStartedAt,
        if existingBlock.Some? then existingBlock
        else if attemptCount > p.maximumAttempts then Some(now + p.blockMs) else None)
  }

  function AnswerOf(p: Policy, row: Row): Answer {
    Answer(row.blockedUntil.None?, row.attemptCount, row.blockedUntil,
           if row.blockedUntil.Some? then ChallengeRequired
               else if row.attemptCount >= p.maximumAttempts then Elevated else Normal)
  }

  class Throttle {
    var row: Option<Row>

    constructor ()
      ensures row == None
    {
      row := None;
    }

    /** One attempt; None for a policy that is refused before anything is written. */
    method RecordAttempt(p: Policy, now: Instant) returns (answer: Option<Answer>)
      modifies this
      ensures !ValidPolicy(p) ==> answer == None && row == old(row)
      ensures ValidPolicy(p) ==> row == Some(Recorded(p, old(row), now)) && answer == Some(AnswerOf(p, row.value))
    {
      if p.windowMs <= 0 || p.maximumAttempts <= 0 || p.blockMs <= 0 || p.maximumAttempts > MAX_SAFE_INTEGER {
        return None;
      }
      if row.None? {
        row := Some(Row(0, now, None));
      }
      var current := row.value;
      var retryAt := if current.blockedUntil.Some?
          && current.blockedUntil.value > now then current.blockedUntil else None;
      var windowExpired := current.windowStartedAt + p.windowMs <= now;
      var attemptCount := if windowExpired then 1 else current.attemptCount + 1;
      if retryAt.None? && attemptCount > p.maximumAttempts {
        retryAt := Some(now + p.blockMs);
      }
      var risk := if retryAt.Some? then ChallengeRequired else if attemptCount >= p.maximumAttempts then Elevated
          else Normal;
      row := Some(Row(attemptCount, if windowExpired then now else current.windowStartedAt, retryAt));
      answer := Some(Answer(retryAt.None?, attemptCount, retryAt, risk));
    }
  }

  // ----- runs: any sequence of attempts at nondecreasing times, never cleared

  predicate Nondecreasing(times: seq<Instant>) {
    forall i, j :: 0 <= i < j < |times| ==> times[i] <= times[j]
  }

  /** The row after each attempt. */
  function Rows(p: Policy, times: seq<Instant>): (rows: seq<Row>)
    ensures |rows| == |times|
  {
    if times == [] then []
    else
      var n := |times| - 1;
      var before := Rows(p, times[..n]);
      before + [Recorded(p, if n == 0 then None else Some(before[n - 1]), times[n])]
  }

  lemma {:induction false} RowAt(p: Policy, times: seq<Instant>, i: nat)
    requires i < |times|
    ensures Rows(p, times[..i]) == Rows(p, times)[..i]
    ensures Rows(p, times)[i] == Recorded(p, if i == 0 then None else Some(Rows(p, times)[i - 1]), times[i])
    decreases |times|
  {
    var n := |times| - 1;
    if i < n {
      RowAt(p, times[..n], i);
      assert times[..n][..i] == times[..i] && times[..n][i] == times[i];
    }
  }

  /** Attempts let through at a time in [from, to), of one window or of all of them. */
  function Allowed(rows: seq<Row>, times: seq<Instant>, window: Option<Instant>, from: Instant, to: Instant): nat
    requires |rows| == |times|
  {
    if rows == [] then 0
    else
      var n := |rows| - 1;
      Allowed(rows[..n], times[..n], window, from, to) + (if Counts(rows[n], times[n], window, from, to) then 1 else 0)
  }

  predicate Counts(row: Row, time: Instant, window: Option<Instant>, from: Instant, to: Instant) {
    row.blockedUntil.None? && from <= time < to && (window.Some? ==> row.windowStartedAt == window.value)
  }

  /** Each attempt falls in its window, and windows follow each other at least their length apart. */
  ghost predicate WindowsFit(p: Policy, times: seq<Instant>, rows: seq<Row>)
    requires |rows| == |times|
  {
    && (forall i :: 0 <= i < |rows| ==> InWindow(p, rows[i], times[i]))
    && (forall i, j :: 0 <= i < j < |rows| ==> Succeeds(p, rows[i], rows[j]))
  }

  predicate InWindow(p: Policy, row: Row, time: Instant) {
    row.windowStartedAt <= time < row.windowStartedAt + p.windowMs
  }

  predicate Succeeds(p: Policy, earlier: Row, later: Row) {
    later.windowStartedAt == earlier.windowStartedAt || later.windowStartedAt >= earlier.windowStartedAt + p.windowMs
  }

  lemma RecordedFits(p: Policy, row: Option<Row>, now: Instant)
    requires ValidPolicy(p) && (row.Some? ==> row.value.windowStartedAt <= now)
    ensures InWindow(p, Recorded(p, row, now), now)
    ensures row.Some? ==> Succeeds(p, row.value, Recorded(p, row, now))
  {
  }

  lemma {:induction false} RunsFitWindows(p: Policy, times: seq<Instant>)
    requires ValidPolicy(p) && Nondecreasing(times)
    ensures WindowsFit(p, times, Rows(p, times))
  {
    if times != [] {
      var n := |times| - 1;
      var before := Rows(p, times[..n]);
      RunsFitWindows(p, times[..n]);
      RecordedFits(p, if n == 0 then None else Some(before[n - 1]), times[n]);
      forall i | 0 <= i < n ensures InWindow(p, before[i], times[i]) && Succeeds(p, before[i], Rows(p, times)[n]) {
        assert InWindow(p, before[i], times[..n][i]);
        assert i < n - 1 ==> Succeeds(p, before[i], before[n - 1]);
      }
    }
  }

  /** What the counter of the latest window says about the attempts it let through. */
  predicate CounterFits(p: Policy, last: Row, window: Instant, from: Instant, allowed: nat) {
    && allowed <= p.maximumAttempts
    && (from > window ==> allowed <= p.maximumAttempts - 1)
    && (last.windowStartedAt < window ==> allowed == 0)
    && (last.windowStartedAt == window ==> last.attemptCount >= 1 && allowed <= last.attemptCount)
    && (last.windowStartedAt == window && from > window ==> allowed <= last.attemptCount - 1)
  }

  lemma CounterStep(p: Policy, last: Row, now: Instant, window: Instant, from: Instant, to: Instant, allowed: nat)
    requires ValidPolicy(p) && last.windowStartedAt <= now && CounterFits(p, last, window, from, allowed)
    ensures var row := Recorded(p, Some(last), now);
            CounterFits(p, row, window, from, allowed + (if Counts(row, now, Some(window), from, to) then 1 else 0))
  {
  }

  lemma CounterStarts(p: Policy, now: Instant, window: Instant, from: Instant, to: Instant)
    requires ValidPolicy(p)
    ensures var row := Recorded(p, None, now);
            CounterFits(p, row, window, from, if Counts(row, now, Some(window), from, to) then 1 else 0)
  {
  }

  lemma {:induction false} LastWindowStarted(p: Policy, times: seq<Instant>)
    requires ValidPolicy(p) && Nondecreasing(times) && times != []
    ensures Rows(p, times)[|times| - 1].windowStartedAt <= times[|times| - 1]
  {
    RunsFitWindows(p, times);
  }

  lemma {:induction false} LastAttempt(
    p: Policy, times: seq<Instant>, window: Option<Instant>, from: Instant, to: Instant) returns (row: Row)
    requires times != []
    ensures var n := |times| - 1;
            var front := times[..n];
            && row == Recorded(p, if n == 0 then None else Some(Rows(p, front)[n - 1]), times[n])
            && row == Rows(p, times)[n]
            && Allowed(Rows(p, times), times, window, from, to)
               == Allowed(Rows(p, front), front, window, from, to)
                   + (if Counts(row, times[n], window, from, to) then 1 else 0)
  {
    var n := |times| - 1;
    row := Rows(p, times)[n];
    assert Rows(p, times)[..n] == Rows(p, times[..n]);
  }

  lemma {:induction false} CounterBound(p: Policy, times: seq<Instant>, window: Instant, from: Instant, to: Instant)
    requires ValidPolicy(p) && Nondecreasing(times) && times != []
    ensures CounterFits(p, Rows(p, times)[|times| - 1], window, from,
            Allowed(Rows(p, times), times, Some(window), from, to))
  {
    var n := |times| - 1;
    var row := LastAttempt(p, times, Some(window), from, to);
    if n == 0 {
      CounterStarts(p, times[0], window, from, to);
    } else {
      var front := times[..n];
      assert front[n - 1] <= times[n];
      CounterBound(p, front, window, from, to);
      LastWindowStarted(p, front);
      CounterStep(p, Rows(p, front)[n - 1], times[n], window, from, to,
          Allowed(Rows(p, front), front, Some(window), from, to));
    }
  }

  /**
   In every stored window at most `maximumAttempts` attempts are let through, and at most one
   fewer after the instant the window started.
   */
  lemma {:induction false} WindowBound(p: Policy, times: seq<Instant>, window: Instant, from: Instant, to: Instant)
    requires ValidPolicy(p) && Nondecreasing(times)
    ensures Allowed(Rows(p, times), times, Some(window), from, to)
            <= p.maximumAttempts - (if from > window then 1 else 0)
  {
    if times != [] {
      CounterBound(p, times, window, from, to);
    }
  }

  /** If two windows account for every attempt of an interval, so do their allowances. */
  lemma {:induction false} TwoWindows(
    rows: seq<Row>, times: seq<Instant>, from: Instant, to: Instant, w1: Instant, w2: Instant)
    requires |rows| == |times|
    requires forall i :: 0 <= i < |rows| && from <= times[i] < to ==>
             rows[i].windowStartedAt == w1 || rows[i].windowStartedAt == w2
    ensures Allowed(rows, times, None, from, to) <= Allowed(rows, times, Some(w1), from, to)
            + Allowed(rows, times, Some(w2), from, to)
    ensures w1 == w2 ==> Allowed(rows, times, None, from, to) == Allowed(rows, times, Some(w1), from, to)
  {
    if rows != [] {
      TwoWindows(rows[..|rows| - 1], times[..|rows| - 1], from, to, w1, w2);
    }
  }

  /** An interval no longer than the window meets at most two windows, the earlier starting before it. */
  lemma {:induction false} IntervalMeetsTwoWindows(
    p: Policy, rows: seq<Row>, times: seq<Instant>, from: Instant) returns (w1: Instant, w2: Instant)
    requires |rows| == |times| && WindowsFit(p, times, rows) && p.windowMs > 0
    ensures forall i :: 0 <= i < |rows| && from <= times[i] < from + p.windowMs ==>
            rows[i].windowStartedAt == w1 || rows[i].windowStartedAt == w2
    ensures w1 == w2 || w1 < from
  {
    w1, w2 := 0, 0;
    if a :| 0 <= a < |rows| && from <= times[a] < from + p.windowMs {
      w1 := rows[a].windowStartedAt;
      w2 := w1;
      if b :| 0 <= b < |rows| && from <= times[b] < from + p.windowMs && rows[b].windowStartedAt != w1 {
        w2 := rows[b].windowStartedAt;
        Apart(p, times, rows, a, b);
        forall c | 0 <= c < |rows| && from <= times[c] < from + p.windowMs
          ensures rows[c].windowStartedAt == w1 || rows[c].windowStartedAt == w2
        {
          Apart(p, times, rows, a, c);
          Apart(p, times, rows, b, c);
        }
        if w2 < w1 {
          w1, w2 := w2, w1;
        }
      }
    }
  }

  lemma Apart(p: Policy, times: seq<Instant>, rows: seq<Row>, i: nat, j: nat)
    requires |rows| == |times| && WindowsFit(p, times, rows) && i < |rows| && j < |rows|
    ensures InWindow(p, rows[i], times[i]) && InWindow(p, rows[j], times[j])
    ensures var a, b := rows[i].windowStartedAt, rows[j].windowStartedAt;
            a == b || a >= b + p.windowMs || b >= a + p.windowMs
  {
    assert i < j ==> Succeeds(p, rows[i], rows[j]);
    assert j < i ==> Succeeds(p, rows[j], rows[i]);
  }

  /** The most that any half-open interval as long as the window can let through. */
  function MostPerInterval(p: Policy): int {
    if p.windowMs == 1 then p.maximumAttempts else 2 * p.maximumAttempts - 1
  }

  /** A window of one millisecond holds the attempts of one instant. */
  lemma {:induction false} InstantBound(p: Policy, times: seq<Instant>, from: Instant)
    requires ValidPolicy(p) && Nondecreasing(times) && p.windowMs == 1
    ensures Allowed(Rows(p, times), times, None, from, from + 1) <= p.maximumAttempts
  {
    RunsFitWindows(p, times);
    InstantWindows(p, Rows(p, times), times, from);
    TwoWindows(Rows(p, times), times, from, from + 1, from, from);
    WindowBound(p, times, from, from, from + 1);
  }

  lemma InstantWindows(p: Policy, rows: seq<Row>, times: seq<Instant>, from: Instant)
    requires |rows| == |times| && WindowsFit(p, times, rows) && p.windowMs == 1
    ensures forall i :: 0 <= i < |rows| && from <= times[i] < from + 1 ==> rows[i].windowStartedAt == from
  {
    forall i | 0 <= i < |rows| && from <= times[i] < from + 1 ensures rows[i].windowStartedAt == from {
      assert InWindow(p, rows[i], times[i]);
    }
  }

  /** A longer interval meets at most two windows, and misses the first attempt of the earlier one. */
  lemma {:induction false} WideBound(p: Policy, times: seq<Instant>, from: Instant)
    requires ValidPolicy(p) && Nondecreasing(times)
    ensures Allowed(Rows(p, times), times, None, from, from + p.windowMs) <= 2 * p.maximumAttempts - 1
  {
    RunsFitWindows(p, times);
    var w1, w2 := IntervalMeetsTwoWindows(p, Rows(p, times), times, from);
    TwoWindows(Rows(p, times), times, from, from + p.windowMs, w1, w2);
    WindowBound(p, times, w1, from, from + p.windowMs);
    WindowBound(p, times, w2, from, from + p.windowMs);
  }

  lemma {:induction false} IntervalBound(p: Policy, times: seq<Instant>, from: Instant)
    requires ValidPolicy(p) && Nondecreasing(times)
    ensures Allowed(Rows(p, times), times, None, from, from + p.windowMs) <= MostPerInterval(p)
  {
    if p.windowMs == 1 {
      InstantBound(p, times, from);
    } else {
      WideBound(p, times, from);
    }
  }

  // ----- and that many can be reached, under every policy

  /** Some attempts, the row they leave, and how many of them an interval from `from` let through. */
  ghost predicate Tally(p: Policy, times: seq<Instant>, last: Instant, row: Row, from: Instant, allowed: int) {
    && times != [] && Nondecreasing(times) && times[|times| - 1] == last
    && Rows(p, times)[|times| - 1] == row
    && Allowed(Rows(p, times), times, None, from, from + p.windowMs) == allowed
  }

  lemma {:induction false} OneMore(
    p: Policy, times: seq<Instant>, last: Instant, row: Row, from: Instant, allowed: int, now: Instant)
    requires Tally(p, times, last, row, from, allowed) && now >= last
    ensures var next := Recorded(p, Some(row), now);
            Tally(p, times + [now], now, next, from,
                allowed + if Counts(next, now, None, from, from + p.windowMs) then 1 else 0)
  {
    var more := times + [now];
    var next := LastAttempt(p, more, None, from, from + p.windowMs);
    assert more[..|more| - 1] == times;
  }

  lemma {:induction false} FirstAttempt(p: Policy)
    requires ValidPolicy(p)
    ensures Tally(p, [0], 0, Row(1, 0, None), p.windowMs - 1, if p.windowMs == 1 then 1 else 0)
  {
    var times: seq<Instant> := [0];
    assert times[..0] == [];
    var row := LastAttempt(p, times, None, p.windowMs - 1, 2 * p.windowMs - 1);
    assert row == Row(1, 0, None);
  }

  /** The first window: one attempt at its start, the others at its last millisecond. */
  lemma {:induction false} FirstBurst(p: Policy, k: nat) returns (times: seq<Instant>)
    requires ValidPolicy(p) && 0 < k <= p.maximumAttempts
    ensures Tally(p, times, if k == 1 then 0 else p.windowMs - 1, Row(k, 0, None), p.windowMs - 1,
            if p.windowMs == 1 then k else k - 1)
  {
    if k == 1 {
      times := [0];
      FirstAttempt(p);
    } else {
      var before := FirstBurst(p, k - 1);
      OneMore(p, before, if k == 2 then 0 else p.windowMs - 1, Row(k - 1, 0, None), p.windowMs - 1,
              if p.windowMs == 1 then k - 1 else k - 2, p.windowMs - 1);
      times := before + [p.windowMs - 1];
    }
  }

  /** The second window: all its attempts at its start. */
  lemma {:induction false} SecondBurst(p: Policy, j: nat) returns (times: seq<Instant>)
    requires ValidPolicy(p) && p.windowMs > 1 && 0 < j <= p.maximumAttempts
    ensures Tally(p, times, p.windowMs, Row(j, p.windowMs, None), p.windowMs - 1, p.maximumAttempts - 1 + j)
  {
    if j == 1 {
      var before := FirstBurst(p, p.maximumAttempts);
      OneMore(p, before, if p.maximumAttempts == 1 then 0 else p.windowMs - 1, Row(p.maximumAttempts, 0, None),
          p.windowMs - 1,
              p.maximumAttempts - 1, p.windowMs);
      times := before + [p.windowMs];
    } else {
      var before := SecondBurst(p, j - 1);
      OneMore(p, before, p.windowMs, Row(j - 1, p.windowMs, None), p.windowMs - 1, p.maximumAttempts - 2 + j,
          p.windowMs);
      times := before + [p.windowMs];
    }
  }

  /** The bound is exact: every valid policy has attempts that reach it. */
  lemma {:induction false} IntervalBoundIsTight(p: Policy) returns (times: seq<Instant>, from: Instant)
    requires ValidPolicy(p)
    ensures Nondecreasing(times)
    ensures Allowed(Rows(p, times), times, None, from, from + p.windowMs) == MostPerInterval(p)
  {
    from := p.windowMs - 1;
    if p.windowMs == 1 {
      times := FirstBurst(p, p.maximumAttempts);
    } else {
      times := SecondBurst(p, p.maximumAttempts);
    }
  }

  /** While a returned retryAt lies ahead every attempt is refused and answered with the same retryAt. */
  lemma {:induction false} BlocksHold(p: Policy, times: seq<Instant>, i: nat, j: nat)
    requires Nondecreasing(times) && i <= j < |times|
    requires Rows(p, times)[i].blockedUntil.Some? && times[j] < Rows(p, times)[i].blockedUntil.value
    ensures Rows(p, times)[j].blockedUntil == Rows(p, times)[i].blockedUntil
    ensures !AnswerOf(p, Rows(p, times)[j]).allowed
    decreases j
  {
    if i < j {
      BlocksHold(p, times, i, j - 1);
      RowAt(p, times, j);
    }
  }

  /** Once the block is over and the window too, the next attempt is let through. */
  lemma AllowedAgain(p: Policy, row: Row, now: Instant)
    requires ValidPolicy(p) && row.windowStartedAt + p.windowMs <= now
    ensures AnswerOf(p, Recorded(p, Some(row), now)).allowed <==>
            row.blockedUntil.None? || row.blockedUntil.value <= now
  {
  }

  // ----- how long a block lasts

  /** No block of an earlier attempt is in force at attempt i. */
  predicate Unblocked(p: Policy, times: seq<Instant>, i: nat)
    requires i < |times|
  {
    i == 0 || Rows(p, times)[i - 1].blockedUntil.None? || Rows(p, times)[i - 1].blockedUntil.value <= times[i]
  }

  /**
   The first refused attempt is told to come back `blockMs` later. Every refusal goes back to such
   an attempt, made before the time it is told.
   */
  lemma {:induction false} BlocksLast(p: Policy, times: seq<Instant>, i: nat) returns (first: nat)
    requires ValidPolicy(p) && i < |times| && !AnswerOf(p, Rows(p, times)[i]).allowed
    ensures first <= i && Unblocked(p, times, first)
    ensures AnswerOf(p, Rows(p, times)[i]).retryAt == Some(times[first] + p.blockMs)
    ensures Unblocked(p, times, i) ==> first == i
    ensures times[i] < times[first] + p.blockMs
  {
    RowAt(p, times, i);
    if Unblocked(p, times, i) {
      first := i;
    } else {
      first := BlocksLast(p, times, i - 1);
    }
  }

  /** How many of the rows belong to a window. */
  function CountIn(rows: seq<Row>, window: Instant): nat {
    if rows == [] then 0
    else CountIn(rows[..|rows| - 1], window) + (if rows[|rows| - 1].windowStartedAt == window then 1 else 0)
  }

  lemma {:induction false} NewWindowIsEmpty(rows: seq<Row>, window: Instant)
    requires forall i :: 0 <= i < |rows| ==> rows[i].windowStartedAt != window
    ensures CountIn(rows, window) == 0
  {
    if rows != [] {
      NewWindowIsEmpty(rows[..|rows| - 1], window);
    }
  }

  /** The counter is the number of attempts, refused ones included, in the window of the last one. */
  lemma {:induction false} CounterCounts(p: Policy, times: seq<Instant>)
    requires ValidPolicy(p) && Nondecreasing(times) && times != []
    ensures var last := Rows(p, times)[|times| - 1];
            last.attemptCount == CountIn(Rows(p, times), last.windowStartedAt)
  {
    var n := |times| - 1;
    var front := times[..n];
    RunsFitWindows(p, times);
    var rows := Rows(p, times);
    assert rows[..n] == Rows(p, front);
    if n > 0 {
      CounterCounts(p, front);
      assert Succeeds(p, rows[n - 1], rows[n]);
      if rows[n].windowStartedAt != rows[n - 1].windowStartedAt {
        forall i | 0 <= i < n ensures rows[i].windowStartedAt < rows[n].windowStartedAt {
          assert i < n - 1 ==> Succeeds(p, rows[i], rows[n - 1]);
          assert Succeeds(p, rows[i], rows[n]);
          assert InWindow(p, rows[i], times[i]) && InWindow(p, rows[n], times[n]);
        }
        NewWindowIsEmpty(rows[..n], rows[n].windowStartedAt);
      }
    } else {
      assert rows[..0] == [];
    }
  }

  /**
   When an attempt is let through: no earlier block is in force and its window holds no more than
   the maximum, itself included. The last one that fits is reported as elevated risk.
   */
  lemma {:induction false} AllowedExactly(p: Policy, times: seq<Instant>)
    requires ValidPolicy(p) && Nondecreasing(times) && times != []
    ensures var n := |times| - 1;
            var row := Rows(p, times)[n];
            var count := CountIn(Rows(p, times), row.windowStartedAt);
            && AnswerOf(p, row).attemptCount == count
            && (AnswerOf(p, row).allowed <==> Unblocked(p, times, n) && count <= p.maximumAttempts)
            && (AnswerOf(p, row).risk == ChallengeRequired <==> !AnswerOf(p, row).allowed)
            && (AnswerOf(p, row).risk == Elevated <==> AnswerOf(p, row).allowed && count == p.maximumAttempts)
            && (AnswerOf(p, row).allowed <==> AnswerOf(p, row).retryAt.None?)
  {
    CounterCounts(p, times);
    RowAt(p, times, |times| - 1);
  }
}
