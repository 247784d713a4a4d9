/**
 * The bounded retry wrapper that every step of `runTask` repeats inline:
 *
 *   retries := budget
 *   while retries > 0:
 *     try  { attempt; break }
 *     catch { retries--; if retries == 0 rethrow; pause 1000 ms }
 *
 * `ExecuteStep` is that loop once, for any step; the inline copies differ
 * only in their step and their budget (3, or 2).
 */
module Retry {
  import opened Session
  import opened Steps

  /** What one run of a step's retry loop did. */
  datatype StepRun = StepRun(
    outcome: Outcome,        // Done, or the error rethrown after the last attempt
    counter: nat,            // `screenshotCounter` when the loop is left
    tries: seq<Attempt>,     // the attempts, in order
    events: seq<Event>)      // their calls, with the pauses between them

  /** `screenshotCounter` at the start of attempt k, entered with `counter`. */
  function CounterAt(kind: Kind, counter: nat, k: nat): nat
  {
    if kind.Capture? then counter + k else counter
  }

  /** Attempt k of step `index` of pass `pass`, entered with `counter`, as it would go if it were made. */
  function TryAt(w: World, pass: nat, index: nat, kind: Kind, counter: nat, k: nat): Attempt
  {
    AttemptSpec(w, Site(pass, index, k), kind, CounterAt(kind, counter, k))
  }

  /** Attempts 0 .. n - 1 of a step, as each would go if it were made. */
  function Plan(w: World, pass: nat, index: nat, kind: Kind, counter: nat, n: nat): (p: seq<Attempt>)
    ensures |p| == n
  {
    if n == 0 then [] else Plan(w, pass, index, kind, counter, n - 1) + [TryAt(w, pass, index, kind, counter, n - 1)]
  }

  lemma {:induction false} PlanAt(w: World, pass: nat, index: nat, kind: Kind, counter: nat, n: nat, k: nat)
    requires k < n
    ensures Plan(w, pass, index, kind, counter, n)[k] == TryAt(w, pass, index, kind, counter, k)
  {
    if k < n - 1 {
      PlanAt(w, pass, index, kind, counter, n - 1, k);
    }
  }

  /**
   * The loop over the attempts `ts` still allowed, entered with
   * `screenshotCounter == counter`; `capture` says whether each attempt
   * advances the counter.  It stops at the first attempt that succeeds, and
   * an attempt that fails is followed by a pause and the next attempt unless
   * it was the last one allowed.
   */
  function Retry(ts: seq<Attempt>, capture: bool, counter: nat): StepRun
    decreases |ts|
  {
    if ts == [] then StepRun(Done, counter, [], [])
    else
      var a, c := ts[0], if capture then counter + 1 else counter;
      if a.outcome.Done? || |ts| == 1 then StepRun(a.outcome, c, [a], a.events)
      else
        var rest := Retry(ts[1..], capture, c);
        StepRun(rest.outcome, rest.counter, [a] + rest.tries, a.events + [Backoff] + rest.events)
  }

  /** Step number `index` of pass `pass`, entered with `screenshotCounter == counter`. */
  function StepSpec(w: World, pass: nat, index: nat, step: Step, counter: nat): StepRun
  {
    Retry(Plan(w, pass, index, step.kind, counter, step.budget), step.kind.Capture?, counter)
  }

  /** `run` preceded by attempts already made and calls already recorded. */
  function After(tries: seq<Attempt>, events: seq<Event>, run: StepRun): StepRun
  {
    StepRun(run.outcome, run.counter, tries + run.tries, events + run.events)
  }

  /** After a failed attempt with attempts to spare, the loop goes on with the next one, after a pause. */
  lemma RetryAdvance(ts: seq<Attempt>, capture: bool, counter: nat, whole: StepRun, tries: seq<Attempt>, events: seq<Event>)
    requires |ts| > 1 && ts[0].outcome.Threw?
    requires whole == After(tries, events, Retry(ts, capture, counter))
    ensures whole == After(tries + [ts[0]], events + ts[0].events + [Backoff],
                           Retry(ts[1..], capture, if capture then counter + 1 else counter))
  {
    var a, rest := ts[0], Retry(ts[1..], capture, if capture then counter + 1 else counter);
    assert tries + ([a] + rest.tries) == (tries + [a]) + rest.tries;
    assert events + (a.events + [Backoff] + rest.events) == (events + a.events + [Backoff]) + rest.events;
  }

  /** After a successful attempt, or the last one allowed, the loop is left. */
  lemma RetryLeave(ts: seq<Attempt>, capture: bool, counter: nat, whole: StepRun, tries: seq<Attempt>, events: seq<Event>)
    requires ts != [] && (ts[0].outcome.Done? || |ts| == 1)
    requires whole == After(tries, events, Retry(ts, capture, counter))
    ensures whole == StepRun(ts[0].outcome, if capture then counter + 1 else counter, tries + [ts[0]], events + ts[0].events)
  {
  }

  /** With no attempt left the loop is not entered. */
  lemma RetrySpent(capture: bool, counter: nat, whole: StepRun, tries: seq<Attempt>, events: seq<Event>)
    requires whole == After(tries, events, Retry([], capture, counter))
    ensures whole == StepRun(Done, counter, tries, events)
  {
    assert tries + [] == tries && events + [] == events;
  }

  /** Attempt k of a step, made with the counter it starts with. */
  method RunPlanned(w: World, pass: nat, index: nat, step: Step, counter: nat, k: nat, c: nat) returns (a: Attempt, c': nat)
    requires k < step.budget && c == CounterAt(step.kind, counter, k)
    ensures a == Plan(w, pass, index, step.kind, counter, step.budget)[k]
    ensures c' == CounterAt(step.kind, counter, k + 1)
  {
    a, c' := RunAttempt(w, Site(pass, index, k), step.kind, c);
    PlanAt(w, pass, index, step.kind, counter, step.budget, k);
  }

  /** The retry loop of one step. */
  method ExecuteStep(w: World, pass: nat, index: nat, step: Step, counter: nat) returns (r: StepRun)
    ensures r == StepSpec(w, pass, index, step, counter)
  {
    ghost var plan := Plan(w, pass, index, step.kind, counter, step.budget);
    ghost var whole := Retry(plan, step.kind.Capture?, counter);
    assert [] + whole.tries == whole.tries && [] + whole.events == whole.events;
    var retries: nat := step.budget;
    var c := counter;
    var tries: seq<Attempt> := [];
    var events: seq<Event> := [];
    while retries > 0
      invariant retries <= step.budget
      invariant c == CounterAt(step.kind, counter, step.budget - retries)
      invariant whole == After(tries, events, Retry(plan[step.budget - retries..], step.kind.Capture?, c))
      decreases retries
    {
      var k := step.budget - retries;
      ghost var ts := plan[k..];
      var a, c' := RunPlanned(w, pass, index, step, counter, k, c);
      assert a == ts[0];
      if a.outcome.Done? || retries == 1 {
        // success leaves the loop; the last attempt's error is rethrown
        RetryLeave(ts, step.kind.Capture?, c, whole, tries, events);
        return StepRun(a.outcome, c', tries + [a], events + a.events);
      }
      RetryAdvance(ts, step.kind.Capture?, c, whole, tries, events);
      assert ts[1..] == plan[k + 1..];
      c := c';
      tries := tries + [a];
      // the 1000 ms pause before the next attempt
      events := events + a.events + [Backoff];
      retries := retries - 1;
    }
    RetrySpent(step.kind.Capture?, c, whole, tries, events);
    r := StepRun(Done, c, tries, events);
  }

  /**
   * The loop makes at most one attempt per allowed one, and at least one
   * when any is allowed; the attempts it makes are the first ones allowed,
   * in order; each attempt of a capture step advances the counter by one.
   */
  lemma {:induction false} RetryCount(ts: seq<Attempt>, capture: bool, counter: nat)
    ensures var r := Retry(ts, capture, counter);
      && |r.tries| <= |ts|
      && (ts != [] ==> |r.tries| >= 1)
      && r.tries == ts[..|r.tries|]
      && r.counter == if capture then counter + |r.tries| else counter
    decreases |ts|
  {
    if ts != [] && !(ts[0].outcome.Done? || |ts| == 1) {
      var c := if capture then counter + 1 else counter;
      RetryCount(ts[1..], capture, c);
      var rest := Retry(ts[1..], capture, c);
      assert ts[..1 + |rest.tries|] == [ts[0]] + ts[1..][..|rest.tries|];
    }
  }

  /**
   * Every attempt but the last failed, so the loop stops right after the
   * first success; the loop ends as its last attempt did, so a failure is
   * rethrown only once every allowed attempt was made, and it is the last
   * attempt's error.
   */
  lemma {:induction false} RetryOutcome(ts: seq<Attempt>, capture: bool, counter: nat)
    requires ts != []
    ensures var r := Retry(ts, capture, counter);
      && 1 <= |r.tries| <= |ts|
      && (forall j :: 0 <= j < |r.tries| - 1 ==> r.tries[j].outcome.Threw?)
      && r.outcome == r.tries[|r.tries| - 1].outcome
      && (r.outcome.Threw? ==> |r.tries| == |ts|)
    decreases |ts|
  {
    if !(ts[0].outcome.Done? || |ts| == 1) {
      var c := if capture then counter + 1 else counter;
      RetryOutcome(ts[1..], capture, c);
      var rest := Retry(ts[1..], capture, c);
      var r := Retry(ts, capture, counter);
      assert r.tries == [ts[0]] + rest.tries;
      assert r.tries[|r.tries| - 1] == rest.tries[|rest.tries| - 1];
      forall j | 0 < j < |r.tries| - 1
        ensures r.tries[j].outcome.Threw?
      {
        assert r.tries[j] == rest.tries[j - 1];
      }
    }
  }

  /** The loop over `ts`, when attempt n is the first that succeeds and n is allowed. */
  lemma FirstSuccess(ts: seq<Attempt>, capture: bool, counter: nat, n: nat)
    requires n < |ts| && ts[n].outcome.Done?
    requires forall j :: 0 <= j < n ==> ts[j].outcome.Threw?
    ensures var r := Retry(ts, capture, counter);
      r.outcome.Done? && |r.tries| == n + 1
  {
    var r := Retry(ts, capture, counter);
    RetryOutcome(ts, capture, counter);
    RetryCount(ts, capture, counter);
    var last := |r.tries| - 1;
    assert r.tries[last] == ts[last];
    assert n <= last;
    assert r.tries[n] == ts[n];
  }

  /** If every one of the `budget` attempts fails, the step fails after exactly `budget` attempts with the last one's error. */
  lemma RetryExhausted(w: World, pass: nat, index: nat, step: Step, counter: nat)
    requires step.budget > 0
    requires forall k :: 0 <= k < step.budget ==> TryAt(w, pass, index, step.kind, counter, k).outcome.Threw?
    ensures var r := StepSpec(w, pass, index, step, counter);
      && |r.tries| == step.budget
      && r.outcome == TryAt(w, pass, index, step.kind, counter, step.budget - 1).outcome
  {
    var plan := Plan(w, pass, index, step.kind, counter, step.budget);
    var r := Retry(plan, step.kind.Capture?, counter);
    RetryOutcome(plan, step.kind.Capture?, counter);
    RetryCount(plan, step.kind.Capture?, counter);
    var last := |r.tries| - 1;
    PlanAt(w, pass, index, step.kind, counter, step.budget, last);
    assert r.tries[last] == plan[last];
  }

  /**
   * If attempt `k` is the first that would succeed, and it is within the
   * budget, the step succeeds after exactly k + 1 attempts: in particular a
   * step that fails budget - 1 times and then succeeds, succeeds.
   */
  lemma RetrySucceedsAtFirstSuccess(w: World, pass: nat, index: nat, step: Step, counter: nat, k: nat)
    requires k < step.budget
    requires TryAt(w, pass, index, step.kind, counter, k).outcome.Done?
    requires forall j :: 0 <= j < k ==> TryAt(w, pass, index, step.kind, counter, j).outcome.Threw?
    ensures var r := StepSpec(w, pass, index, step, counter);
      r.outcome.Done? && |r.tries| == k + 1
  {
    var plan := Plan(w, pass, index, step.kind, counter, step.budget);
    forall j | 0 <= j <= k
      ensures plan[j] == TryAt(w, pass, index, step.kind, counter, j)
    {
      PlanAt(w, pass, index, step.kind, counter, step.budget, j);
    }
    FirstSuccess(plan, step.kind.Capture?, counter, k);
  }

  /** The calls of the attempts joined by one pause each: no pause before the first or after the last. */
  function Interleave(tries: seq<Attempt>): seq<Event>
  {
    if |tries| == 0 then []
    else if |tries| == 1 then tries[0].events
    else tries[0].events + [Backoff] + Interleave(tries[1..])
  }

  /**
   * The loop pauses exactly between consecutive attempts: its calls are its
   * attempts' calls with one pause between each two, so it pauses one time
   * fewer than it attempts, and never after its final attempt.
   */
  lemma {:induction false} RetryPausesBetweenAttempts(ts: seq<Attempt>, capture: bool, counter: nat)
    requires forall j :: 0 <= j < |ts| ==> NoBackoff(ts[j].events)
    ensures var r := Retry(ts, capture, counter);
      && r.events == Interleave(r.tries)
      && Backoffs(r.events) == if r.tries == [] then 0 else |r.tries| - 1
    decreases |ts|
  {
    if ts != [] {
      var a := ts[0];
      NoBackoffCount(a.events);
      if !(a.outcome.Done? || |ts| == 1) {
        var c := if capture then counter + 1 else counter;
        RetryPausesBetweenAttempts(ts[1..], capture, c);
        RetryCount(ts[1..], capture, c);
        var rest := Retry(ts[1..], capture, c);
        assert ([a] + rest.tries)[1..] == rest.tries;
        BackoffsAppend(a.events + [Backoff], rest.events);
        BackoffsAppend(a.events, [Backoff]);
      }
    }
  }

  /** Two runs of consecutive screenshots separated by a pause make one run. */
  lemma ShotsAcrossPause(before: seq<Event>, after: seq<Event>, lo: nat, mid: nat, hi: nat)
    requires lo <= mid <= hi
    requires Shots(before) == Upto(lo + 1, mid + 1) && Shots(after) == Upto(mid + 1, hi + 1)
    ensures Shots(before + [Backoff] + after) == Upto(lo + 1, hi + 1)
  {
    ShotsAppend(before + [Backoff], after);
    ShotsAppend(before, [Backoff]);
    assert Shots([Backoff]) == [] + Shots([]);
    UptoAppend(lo + 1, mid + 1, hi + 1);
  }

  /**
   * The screenshots a capture loop takes are numbered consecutively from the
   * counter it was entered with, one per attempt, retries included; a loop
   * whose attempts take no screenshot leaves the counter alone.
   */
  lemma {:induction false} RetryShots(ts: seq<Attempt>, capture: bool, counter: nat)
    requires NumberedAttempts(ts, capture, counter)
    ensures var r := Retry(ts, capture, counter);
      && counter <= r.counter
      && Shots(r.events) == Upto(counter + 1, r.counter + 1)
    decreases |ts|
  {
    if ts != [] {
      var a, c := ts[0], if capture then counter + 1 else counter;
      assert Shots(a.events) == Upto(counter + 1, c + 1) by {
        assert Upto(c + 1, c + 1) == [];
      }
      if !(a.outcome.Done? || |ts| == 1) {
        RetryShots(ts[1..], capture, c);
        var rest := Retry(ts[1..], capture, c);
        ShotsAcrossPause(a.events, rest.events, counter, c, rest.counter);
      }
    }
  }

  /**
   * Attempt j of `ts` takes exactly one screenshot, numbered `counter + j + 1`,
   * when `capture` holds, and none otherwise.
   */
  predicate NumberedAttempts(ts: seq<Attempt>, capture: bool, counter: nat)
    decreases |ts|
  {
    ts != [] ==>
      && Shots(ts[0].events) == (if capture then [counter + 1] else [])
      && NumberedAttempts(ts[1..], capture, if capture then counter + 1 else counter)
  }

  /** The attempt-by-attempt statement of the numbering gives the recursive one. */
  lemma {:induction false} NumberedAttemptsFrom(ts: seq<Attempt>, capture: bool, counter: nat)
    requires forall j :: 0 <= j < |ts| ==> Shots(ts[j].events) == if capture then [counter + j + 1] else []
    ensures NumberedAttempts(ts, capture, counter)
    decreases |ts|
  {
    if ts != [] {
      var c := if capture then counter + 1 else counter;
      forall j | 0 <= j < |ts[1..]|
        ensures Shots(ts[1..][j].events) == if capture then [c + j + 1] else []
      {
        assert ts[1..][j] == ts[j + 1];
      }
      NumberedAttemptsFrom(ts[1..], capture, c);
    }
  }

  /** A step's own calls: browser calls and pauses only as above, and screenshots numbered from its entry counter. */
  lemma StepCalls(w: World, pass: nat, index: nat, step: Step, counter: nat)
    ensures var r := StepSpec(w, pass, index, step, counter);
      && r.events == Interleave(r.tries)
      && counter <= r.counter
      && Shots(r.events) == Upto(counter + 1, r.counter + 1)
  {
    var plan := Plan(w, pass, index, step.kind, counter, step.budget);
    forall j | 0 <= j < |plan|
      ensures NoBackoff(plan[j].events)
      ensures Shots(plan[j].events) == if step.kind.Capture? then [counter + j + 1] else []
    {
      PlanAt(w, pass, index, step.kind, counter, step.budget, j);
      AttemptCalls(w, Site(pass, index, j), step.kind, CounterAt(step.kind, counter, j));
    }
    RetryPausesBetweenAttempts(plan, step.kind.Capture?, counter);
    NumberedAttemptsFrom(plan, step.kind.Capture?, counter);
    RetryShots(plan, step.kind.Capture?, counter);
  }
}
