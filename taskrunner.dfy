/**
 * `runTask`: the steps of one pass, run in order, each through its own
 * retry loop.  `screenshotCounter` starts at 0 in every pass and is carried
 * from step to step; the first step whose loop rethrows ends the pass, and
 * the outer `catch` turns its error into `{ success: false, error: message }`.
 */
module TaskRunner {
  import opened Session
  import opened Steps
  import opened Retry

  /** The value `runTask` returns. */
  datatype TaskResult = Success | Failure(error: string)

  /** What one pass did. */
  datatype TaskRun = TaskRun(
    result: TaskResult,
    counter: nat,            // `screenshotCounter` when the pass ends
    runs: seq<StepRun>,      // the steps that ran, in order
    events: seq<Event>)      // all their calls and pauses, in order

  /** Steps `i` onwards of pass `pass`, entered with `screenshotCounter == counter`. */
  function RunFrom(w: World, pass: nat, steps: seq<Step>, i: nat, counter: nat): TaskRun
    requires i <= |steps|
    decreases |steps| - i
  {
    if i == |steps| then TaskRun(Success, counter, [], [])
    else
      var s := StepSpec(w, pass, i, steps[i], counter);
      if s.outcome.Threw? then TaskRun(Failure(s.outcome.message), s.counter, [s], s.events)
      else
        var rest := RunFrom(w, pass, steps, i + 1, s.counter);
        TaskRun(rest.result, rest.counter, [s] + rest.runs, s.events + rest.events)
  }

  /** Pass `pass` of the task: the counter starts at 0. */
  function TaskSpec(w: World, pass: nat, steps: seq<Step>): TaskRun
  {
    RunFrom(w, pass, steps, 0, 0)
  }

  /** `t` preceded by the steps already run and the calls already recorded. */
  function Behind(runs: seq<StepRun>, events: seq<Event>, t: TaskRun): TaskRun
  {
    TaskRun(t.result, t.counter, runs + t.runs, events + t.events)
  }

  /** A step that completes hands its counter on to the next step. */
  lemma TaskAdvance(w: World, pass: nat, steps: seq<Step>, i: nat, counter: nat, s: StepRun,
                    whole: TaskRun, runs: seq<StepRun>, events: seq<Event>)
    requires i < |steps| && s == StepSpec(w, pass, i, steps[i], counter) && s.outcome.Done?
    requires whole == Behind(runs, events, RunFrom(w, pass, steps, i, counter))
    ensures whole == Behind(runs + [s], events + s.events, RunFrom(w, pass, steps, i + 1, s.counter))
  {
    var rest := RunFrom(w, pass, steps, i + 1, s.counter);
    assert runs + ([s] + rest.runs) == (runs + [s]) + rest.runs;
    assert events + (s.events + rest.events) == (events + s.events) + rest.events;
  }

  /** A step that rethrows ends the pass with its error. */
  lemma TaskAbort(w: World, pass: nat, steps: seq<Step>, i: nat, counter: nat, s: StepRun,
                  whole: TaskRun, runs: seq<StepRun>, events: seq<Event>)
    requires i < |steps| && s == StepSpec(w, pass, i, steps[i], counter) && s.outcome.Threw?
    requires whole == Behind(runs, events, RunFrom(w, pass, steps, i, counter))
    ensures whole == TaskRun(Failure(s.outcome.message), s.counter, runs + [s], events + s.events)
  {
  }

  /** After the last step the pass succeeds. */
  lemma TaskEnd(w: World, pass: nat, steps: seq<Step>, counter: nat,
                whole: TaskRun, runs: seq<StepRun>, events: seq<Event>)
    requires whole == Behind(runs, events, RunFrom(w, pass, steps, |steps|, counter))
    ensures whole == TaskRun(Success, counter, runs, events)
  {
    assert runs + [] == runs && events + [] == events;
  }

  /** One pass of `runTask` over `steps`. */
  method RunTask(w: World, pass: nat, steps: seq<Step>) returns (t: TaskRun)
    ensures t == TaskSpec(w, pass, steps)
  {
    ghost var whole := TaskSpec(w, pass, steps);
    assert [] + whole.runs == whole.runs && [] + whole.events == whole.events;
    var screenshotCounter := 0;
    var runs: seq<StepRun> := [];
    var events: seq<Event> := [];
    var i := 0;
    while i < |steps|
      invariant i <= |steps|
      invariant whole == Behind(runs, events, RunFrom(w, pass, steps, i, screenshotCounter))
    {
      var s := ExecuteStep(w, pass, i, steps[i], screenshotCounter);
      if s.outcome.Threw? {
        // the rethrown error reaches the `catch` around all the steps
        TaskAbort(w, pass, steps, i, screenshotCounter, s, whole, runs, events);
        return TaskRun(Failure(s.outcome.message), s.counter, runs + [s], events + s.events);
      }
      TaskAdvance(w, pass, steps, i, screenshotCounter, s, whole, runs, events);
      screenshotCounter := s.counter;
      runs := runs + [s];
      events := events + s.events;
      i := i + 1;
    }
    TaskEnd(w, pass, steps, screenshotCounter, whole, runs, events);
    t := TaskRun(Success, screenshotCounter, runs, events);
  }

  /**
   * The steps run in order and the pass stops at the first one that fails:
   * every step that ran before the last one completed; the pass succeeds
   * exactly when every step ran and completed; a failed pass reports the
   * rethrown error of its last step; the counter a pass ends with is the
   * one its last step left.
   */
  lemma {:induction false} TaskOutcome(w: World, pass: nat, steps: seq<Step>, i: nat, counter: nat)
    requires i <= |steps|
    ensures var t := RunFrom(w, pass, steps, i, counter);
      && |t.runs| <= |steps| - i
      && (forall j :: 0 <= j < |t.runs| - 1 ==> t.runs[j].outcome.Done?)
      && (t.result.Success? <==> |t.runs| == |steps| - i && forall j :: 0 <= j < |t.runs| ==> t.runs[j].outcome.Done?)
      && (t.result.Failure? ==> |t.runs| >= 1 && t.runs[|t.runs| - 1].outcome == Threw(t.result.error))
      && t.counter == if t.runs == [] then counter else t.runs[|t.runs| - 1].counter
    decreases |steps| - i
  {
    if i < |steps| {
      var s := StepSpec(w, pass, i, steps[i], counter);
      if s.outcome.Done? {
        TaskOutcome(w, pass, steps, i + 1, s.counter);
        var rest := RunFrom(w, pass, steps, i + 1, s.counter);
        var t := RunFrom(w, pass, steps, i, counter);
        assert t.runs == [s] + rest.runs;
        forall j | 0 < j < |t.runs|
          ensures t.runs[j] == rest.runs[j - 1]
        {
        }
        assert (forall j :: 0 <= j < |t.runs| ==> t.runs[j].outcome.Done?)
           <==> (forall j :: 0 <= j < |rest.runs| ==> rest.runs[j].outcome.Done?) by {
          if forall j :: 0 <= j < |rest.runs| ==> rest.runs[j].outcome.Done? {
            forall j | 0 <= j < |t.runs|
              ensures t.runs[j].outcome.Done?
            {
              if j > 0 {
                assert rest.runs[j - 1].outcome.Done?;
              }
            }
          } else {
            var k :| 0 <= k < |rest.runs| && !rest.runs[k].outcome.Done?;
            assert t.runs[k + 1] == rest.runs[k];
          }
        }
      } else {
        assert RunFrom(w, pass, steps, i, counter).runs[0] == s;
      }
    }
  }

  /** The counter step `i + j` is entered with: the pass's, or the one the step before it left. */
  function EntryCounter(t: TaskRun, counter: nat, j: nat): nat
    requires j <= |t.runs|
  {
    if j == 0 then counter else t.runs[j - 1].counter
  }

  /** The j-th step that ran is step i + j, entered with the counter the step before it left. */
  lemma {:induction false} TaskRunAt(w: World, pass: nat, steps: seq<Step>, i: nat, counter: nat, j: nat)
    requires i <= |steps|
    requires j < |RunFrom(w, pass, steps, i, counter).runs|
    ensures i + j < |steps|
    ensures var t := RunFrom(w, pass, steps, i, counter);
      t.runs[j] == StepSpec(w, pass, i + j, steps[i + j], EntryCounter(t, counter, j))
    decreases j
  {
    var s := StepSpec(w, pass, i, steps[i], counter);
    if j > 0 {
      var rest := RunFrom(w, pass, steps, i + 1, s.counter);
      var t := RunFrom(w, pass, steps, i, counter);
      assert t.runs == [s] + rest.runs;
      TaskRunAt(w, pass, steps, i + 1, s.counter, j - 1);
      assert t.runs[j] == rest.runs[j - 1];
      assert EntryCounter(t, counter, j) == EntryCounter(rest, s.counter, j - 1);
    }
  }

  /** The screenshots of `t`, entered with `counter`, are numbered consecutively from `counter + 1` up to its final counter. */
  predicate NumberedFrom(t: TaskRun, counter: nat)
  {
    counter <= t.counter && Shots(t.events) == Upto(counter + 1, t.counter + 1)
  }

  /** One step of the induction below: step `i` keeps the numbering going. */
  lemma ShotsStep(w: World, pass: nat, steps: seq<Step>, i: nat, counter: nat)
    requires i < |steps|
    ensures var s := StepSpec(w, pass, i, steps[i], counter);
      (s.outcome.Threw? || NumberedFrom(RunFrom(w, pass, steps, i + 1, s.counter), s.counter))
        ==> NumberedFrom(RunFrom(w, pass, steps, i, counter), counter)
  {
    var s := StepSpec(w, pass, i, steps[i], counter);
    StepCalls(w, pass, i, steps[i], counter);
    if s.outcome.Done? {
      var rest := RunFrom(w, pass, steps, i + 1, s.counter);
      if NumberedFrom(rest, s.counter) {
        ShotsChain(s.events, rest.events, counter, s.counter, rest.counter);
      }
    }
  }

  /**
   * Within a pass the screenshots are numbered 1, 2, 3, ... with no gap and
   * no repeat, in the order they are taken, retries included, and the
   * counter ends at the number of the last one.
   */
  lemma {:induction false} TaskShotsFrom(w: World, pass: nat, steps: seq<Step>, i: nat, counter: nat)
    requires i <= |steps|
    ensures var t := RunFrom(w, pass, steps, i, counter);
      counter <= t.counter && Shots(t.events) == Upto(counter + 1, t.counter + 1)
    decreases |steps| - i
  {
    if i < |steps| {
      ShotsStep(w, pass, steps, i, counter);
      var s := StepSpec(w, pass, i, steps[i], counter);
      if s.outcome.Done? {
        TaskShotsFrom(w, pass, steps, i + 1, s.counter);
      }
    } else {
      assert Upto(counter + 1, counter + 1) == [];
    }
  }

  /** Two runs of consecutive screenshot numbers, one after the other, make one run. */
  lemma ShotsChain(first: seq<Event>, second: seq<Event>, lo: nat, mid: nat, hi: nat)
    requires lo <= mid <= hi
    requires Shots(first) == Upto(lo + 1, mid + 1) && Shots(second) == Upto(mid + 1, hi + 1)
    ensures Shots(first + second) == Upto(lo + 1, hi + 1)
  {
    ShotsAppend(first, second);
    UptoAppend(lo + 1, mid + 1, hi + 1);
  }

  /** Every pass numbers its screenshots from 1, since the counter restarts at 0. */
  lemma TaskShots(w: World, pass: nat, steps: seq<Step>)
    ensures var t := TaskSpec(w, pass, steps);
      Shots(t.events) == Upto(1, t.counter + 1) && |Shots(t.events)| == t.counter
  {
    var t := TaskSpec(w, pass, steps);
    TaskShotsFrom(w, pass, steps, 0, 0);
    UptoLength(1, t.counter + 1);
  }

  /** How many of steps `i` onwards capture. */
  function CaptureSteps(steps: seq<Step>, i: nat): nat
    decreases |steps| - i
  {
    if i >= |steps| then 0 else Captures(steps[i].kind) + CaptureSteps(steps, i + 1)
  }

  /**
   * When every step is allowed an attempt and the first attempt of every
   * step succeeds, whatever the counter, the pass succeeds with one attempt
   * per step, and the counter ends at the number of capture steps.
   */
  lemma {:induction false} FirstTryPass(w: World, pass: nat, steps: seq<Step>, i: nat, counter: nat)
    requires i <= |steps|
    requires forall j :: i <= j < |steps| ==> steps[j].budget > 0
    requires forall j, c :: i <= j < |steps| ==> TryAt(w, pass, j, steps[j].kind, c, 0).outcome.Done?
    ensures var t := RunFrom(w, pass, steps, i, counter);
      && t.result == Success
      && |t.runs| == |steps| - i
      && (forall j :: 0 <= j < |t.runs| ==> |t.runs[j].tries| == 1)
      && t.counter == counter + CaptureSteps(steps, i)
    decreases |steps| - i
  {
    if i < |steps| {
      var s := StepSpec(w, pass, i, steps[i], counter);
      RetrySucceedsAtFirstSuccess(w, pass, i, steps[i], counter, 0);
      var plan := Plan(w, pass, i, steps[i].kind, counter, steps[i].budget);
      RetryCount(plan, steps[i].kind.Capture?, counter);
      FirstTryPass(w, pass, steps, i + 1, s.counter);
      var rest := RunFrom(w, pass, steps, i + 1, s.counter);
      var t := RunFrom(w, pass, steps, i, counter);
      assert t.runs == [s] + rest.runs;
      forall j | 0 < j < |t.runs|
        ensures |t.runs[j].tries| == 1
      {
        assert t.runs[j] == rest.runs[j - 1];
      }
    }
  }

  /** The most attempts the capture steps among steps `i` onwards may make: the sum of their budgets. */
  function CaptureBudget(steps: seq<Step>, i: nat): nat
    decreases |steps| - i
  {
    if i >= |steps| then 0 else Captures(steps[i].kind) * steps[i].budget + CaptureBudget(steps, i + 1)
  }

  /**
   * `screenshotCounter` counts capture attempts, retries included: within a
   * pass it never decreases and it exceeds its entry value by at most the
   * budgets of the capture steps.
   */
  lemma {:induction false} TaskCounterBound(w: World, pass: nat, steps: seq<Step>, i: nat, counter: nat)
    requires i <= |steps|
    ensures var t := RunFrom(w, pass, steps, i, counter);
      counter <= t.counter <= counter + CaptureBudget(steps, i)
    decreases |steps| - i
  {
    if i < |steps| {
      var s := StepSpec(w, pass, i, steps[i], counter);
      var plan := Plan(w, pass, i, steps[i].kind, counter, steps[i].budget);
      RetryCount(plan, steps[i].kind.Capture?, counter);
      assert s.counter <= counter + Captures(steps[i].kind) * steps[i].budget;
      TaskCounterBound(w, pass, steps, i + 1, s.counter);
    }
  }
}
