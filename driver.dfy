/**
 * The top-level async function of each script: acquire a browser through
 * the stealth helper, run the task (three passes at most in the first
 * script, one in the second), then close the context and the browser if
 * they were assigned, swallowing close errors, and exit with 0 exactly when
 * `executionSuccess` is true.
 */
module Driver {
  import opened Session
  import opened Steps
  import opened TaskRunner

  /** What the stealth helper's acquisition did: assigned handles (truthy or not) or threw. */
  datatype Acquisition = Acquired(browser: bool, context: bool) | AcquireFailed(message: string)

  /** A close call made by the `finally` block. */
  datatype Release = CloseContext | CloseBrowser

  /** What one run of a script did. */
  datatype Execution = Execution(
    passes: seq<TaskRun>,        // the `runTask` calls made, in order
    executionSuccess: bool,      // the flag read by `process.exit`
    released: seq<Release>,      // the close calls made, in order
    exitCode: int)

  /** Passes `p` onwards of at most `loops`: the loop breaks after the first failed pass. */
  function Passes(w: World, steps: seq<Step>, p: nat, loops: nat): seq<TaskRun>
    decreases loops - p
  {
    if p >= loops then []
    else
      var t := TaskSpec(w, p, steps);
      if t.result.Failure? then [t] else [t] + Passes(w, steps, p + 1, loops)
  }

  /** `executionSuccess` after the passes: false before any pass, then the last pass's success. */
  predicate LastSucceeded(passes: seq<TaskRun>)
  {
    passes != [] && passes[|passes| - 1].result.Success?
  }

  /** The passes still to come after those already made. */
  lemma PassesAdvance(w: World, steps: seq<Step>, p: nat, loops: nat, t: TaskRun,
                      whole: seq<TaskRun>, done: seq<TaskRun>)
    requires p < loops && t == TaskSpec(w, p, steps) && t.result.Success?
    requires whole == done + Passes(w, steps, p, loops)
    ensures whole == (done + [t]) + Passes(w, steps, p + 1, loops)
  {
    assert done + ([t] + Passes(w, steps, p + 1, loops)) == (done + [t]) + Passes(w, steps, p + 1, loops);
  }

  /** The iteration loop of the first script: `for (taskLoop = 0; taskLoop < loops; taskLoop++)`. */
  method RunIterations(w: World, steps: seq<Step>, loops: nat) returns (executionSuccess: bool, passes: seq<TaskRun>)
    ensures passes == Passes(w, steps, 0, loops)
    ensures executionSuccess == LastSucceeded(passes)
  {
    ghost var whole := Passes(w, steps, 0, loops);
    executionSuccess := false;
    passes := [];
    var taskLoop := 0;
    while taskLoop < loops
      invariant taskLoop <= loops
      invariant whole == passes + Passes(w, steps, taskLoop, loops)
      invariant executionSuccess == LastSucceeded(passes)
    {
      var result := RunTask(w, taskLoop, steps);
      executionSuccess := result.result.Success?;
      if !executionSuccess {
        assert whole == passes + [result];
        passes := passes + [result];
        return;
      }
      PassesAdvance(w, steps, taskLoop, loops, result, whole, passes);
      passes := passes + [result];
      taskLoop := taskLoop + 1;
    }
    assert Passes(w, steps, taskLoop, loops) == [];
    assert whole == passes;
  }

  /**
   * The loop makes at most `loops` passes and at least one when `loops > 0`,
   * and every pass but the last succeeded.
   */
  lemma {:induction false} PassesShape(w: World, steps: seq<Step>, p: nat, loops: nat)
    requires p <= loops
    ensures var ps := Passes(w, steps, p, loops);
      && |ps| <= loops - p
      && (p < loops ==> |ps| >= 1)
      && (forall j :: 0 <= j < |ps| - 1 ==> ps[j].result.Success?)
    decreases loops - p
  {
    if p < loops {
      var t := TaskSpec(w, p, steps);
      if t.result.Success? {
        PassesShape(w, steps, p + 1, loops);
        var ps, rest := Passes(w, steps, p, loops), Passes(w, steps, p + 1, loops);
        assert ps == [t] + rest;
        forall j | 0 < j < |ps| - 1
          ensures ps[j].result.Success?
        {
          assert ps[j] == rest[j - 1];
        }
      }
    }
  }

  /** The last pass succeeded exactly when all `loops` passes ran and all succeeded. */
  lemma {:induction false} PassesSucceed(w: World, steps: seq<Step>, p: nat, loops: nat)
    requires p <= loops
    ensures var ps := Passes(w, steps, p, loops);
      LastSucceeded(ps) <==> p < loops && |ps| == loops - p && forall j :: 0 <= j < |ps| ==> ps[j].result.Success?
    decreases loops - p
  {
    PassesShape(w, steps, p, loops);
    if p < loops {
      var t := TaskSpec(w, p, steps);
      var ps := Passes(w, steps, p, loops);
      if t.result.Success? {
        PassesSucceed(w, steps, p + 1, loops);
        var rest := Passes(w, steps, p + 1, loops);
        assert ps == [t] + rest;
        if rest != [] {
          assert ps[|ps| - 1] == rest[|rest| - 1];
        }
        if forall j :: 0 <= j < |rest| ==> rest[j].result.Success? {
          forall j | 0 < j < |ps|
            ensures ps[j].result.Success?
          {
            assert ps[j] == rest[j - 1];
          }
        } else {
          var k :| 0 <= k < |rest| && !rest[k].result.Success?;
          assert ps[k + 1] == rest[k];
        }
      } else {
        assert ps == [t];
      }
    }
  }

  /** Pass j of the loop is `runTask` run afresh: its counter starts at 0 again. */
  lemma {:induction false} PassAt(w: World, steps: seq<Step>, p: nat, loops: nat, j: nat)
    requires j < |Passes(w, steps, p, loops)|
    ensures Passes(w, steps, p, loops)[j] == TaskSpec(w, p + j, steps)
    decreases j
  {
    if j > 0 {
      PassAt(w, steps, p + 1, loops, j - 1);
    }
  }

  /** The close calls of the `finally` block: the context if assigned, then the browser if assigned. */
  function Cleanup(acq: Acquisition): (r: seq<Release>)
    ensures CloseContext in r <==> acq.Acquired? && acq.context
    ensures CloseBrowser in r <==> acq.Acquired? && acq.browser
    ensures multiset(r)[CloseContext] <= 1 && multiset(r)[CloseBrowser] <= 1
    ensures forall i, j :: 0 <= i < j < |r| ==> r[i] == CloseContext && r[j] == CloseBrowser
  {
    var context := if acq.Acquired? && acq.context then [CloseContext] else [];
    var browser := if acq.Acquired? && acq.browser then [CloseBrowser] else [];
    context + browser
  }

  /** A whole run of a script that makes at most `loops` passes. */
  function Script(w: World, steps: seq<Step>, loops: nat, acq: Acquisition): Execution
  {
    match acq
    case AcquireFailed(_) => Execution([], false, Cleanup(acq), 1)
    case Acquired(_, _) =>
      var passes := Passes(w, steps, 0, loops);
      var success := LastSucceeded(passes);
      Execution(passes, success, Cleanup(acq), if success then 0 else 1)
  }

  /**
   * The first script's top level: acquisition, the iteration loop, the
   * guarded cleanup and the exit code.  A close error is caught and only
   * logged, so close outcomes do not enter the model.
   */
  method RunLooped(w: World, steps: seq<Step>, loops: nat, acq: Acquisition) returns (e: Execution)
    ensures e == Script(w, steps, loops, acq)
  {
    var browser, context := false, false;
    var executionSuccess := false;
    var passes: seq<TaskRun> := [];
    if acq.Acquired? {
      browser, context := acq.browser, acq.context;
      executionSuccess, passes := RunIterations(w, steps, loops);
    }
    var released: seq<Release> := [];
    if context {
      released := released + [CloseContext];
    }
    if browser {
      released := released + [CloseBrowser];
    }
    e := Execution(passes, executionSuccess, released, if executionSuccess then 0 else 1);
  }

  /** A loop of one pass makes exactly one `runTask` call, whatever its result. */
  lemma SinglePass(w: World, steps: seq<Step>)
    ensures Passes(w, steps, 0, 1) == [TaskSpec(w, 0, steps)]
  {
    assert Passes(w, steps, 1, 1) == [];
  }

  /**
   * The second script's top level: one `runTask` call whose success is
   * `executionSuccess`; it behaves as the loop with a single pass.
   */
  method RunOnce(w: World, steps: seq<Step>, acq: Acquisition) returns (e: Execution)
    ensures e == Script(w, steps, 1, acq)
  {
    var browser, context := false, false;
    var executionSuccess := false;
    var passes: seq<TaskRun> := [];
    if acq.Acquired? {
      browser, context := acq.browser, acq.context;
      var result := RunTask(w, 0, steps);
      executionSuccess := result.result.Success?;
      passes := [result];
      SinglePass(w, steps);
    }
    var released: seq<Release> := [];
    if context {
      released := released + [CloseContext];
    }
    if browser {
      released := released + [CloseBrowser];
    }
    e := Execution(passes, executionSuccess, released, if executionSuccess then 0 else 1);
  }

  /**
   * The exit code is 0 exactly when the browser was acquired, every one of
   * the `loops` passes ran, and each of them succeeded; a failed
   * acquisition runs no pass, closes nothing and exits with 1.
   */
  lemma ScriptExit(w: World, steps: seq<Step>, loops: nat, acq: Acquisition)
    ensures var e := Script(w, steps, loops, acq);
      && (e.exitCode == 0 <==> e.executionSuccess)
      && (e.exitCode == 0 || e.exitCode == 1)
      && (e.executionSuccess <==>
            acq.Acquired? && loops > 0 && |e.passes| == loops
            && forall j :: 0 <= j < |e.passes| ==> e.passes[j].result.Success?)
      && (acq.AcquireFailed? ==> e.passes == [] && e.released == [] && e.exitCode == 1)
  {
    if acq.Acquired? {
      PassesSucceed(w, steps, 0, loops);
    }
  }

  /** Every pass the loop makes is `runTask` with the counter restarted, so each numbers its screenshots from 1. */
  lemma PassShots(w: World, steps: seq<Step>, loops: nat, j: nat)
    requires j < |Passes(w, steps, 0, loops)|
    ensures var t := Passes(w, steps, 0, loops)[j];
      t == TaskSpec(w, j, steps) && Shots(t.events) == Upto(1, t.counter + 1)
  {
    PassAt(w, steps, 0, loops, j);
    TaskShots(w, j, steps);
  }
}
