/**
 * The two concrete scripts: the step lists their `runTask` bodies spell out
 * inline, each step with the initial value of its `retries_stepN`, and the
 * properties that follow for them from the generic engine.
 */
module Scripts {
  import opened Session
  import opened Steps
  import opened Retry
  import opened TaskRunner
  import opened Driver

  /** The e-mail field candidates of the first type step. */
  const EmailFields: seq<string> := ["#web-ui1", "#email", "input[type=\"email\"]"]

  /** The password field candidates of the second type step. */
  const PasswordFields: seq<string> := ["#web-ui2", "input[type=\"password\"]"]

  /** The candidates of the two register / login click steps. */
  const LoginButtons: seq<string> :=
    ["button[data-test='register-button']", "button:has-text(\"Login\")", "button:has-text(\"Sign In\")"]

  /**
   * The Duolingo script's steps 2 to 20 (step 1 only logs and is not part
   * of the model): list index i holds source step i + 2.
   */
  const DuolingoSteps: seq<Step> := [
    Step(Navigate("https://www.duolingo.com"), 3),                      // step 2
    Step(Wait(5000), 3),                                                // step 3
    Step(Capture, 3),                                                   // step 4
    Step(ClickElement(["[data-test='have-account']"], true, true), 3),  // step 5
    Step(Capture, 3),                                                   // step 6
    Step(Wait(2150), 3),                                                // step 7
    Step(TypeText(EmailFields, "2ggg@ggg.com"), 2),                     // step 8
    Step(Wait(3486), 3),                                                // step 9
    Step(TypeText(PasswordFields, "('12341234')"), 2),                  // step 10
    Step(Capture, 3),                                                   // step 11
    Step(Wait(1214), 3),                                                // step 12
    Step(ClickElement(LoginButtons, false, false), 2),                  // step 13
    Step(Wait(1214), 3),                                                // step 14
    Step(Capture, 3),                                                   // step 15
    Step(Wait(10000), 3),                                               // step 16
    Step(Capture, 3),                                                   // step 17
    Step(ClickElement(LoginButtons, false, false), 2),                  // step 18
    Step(Wait(11000), 3),                                               // step 19
    Step(Capture, 3)                                                    // step 20
  ]

  /** How many times the Duolingo script runs its task. */
  const DuolingoLoops: nat := 3

  /** The whatismyip script's three steps. */
  const WhatIsMyIpSteps: seq<Step> := [
    Step(Navigate("https://www.whatismyip.com/"), 3),
    Step(Wait(15000), 3),
    Step(Capture, 3)
  ]

  /** The Duolingo script: acquisition, up to three passes, cleanup, exit code. */
  method RunDuolingo(w: World, acq: Acquisition) returns (e: Execution)
    ensures e == Script(w, DuolingoSteps, DuolingoLoops, acq)
  {
    e := RunLooped(w, DuolingoSteps, DuolingoLoops, acq);
  }

  /** The whatismyip script: acquisition, one pass, cleanup, exit code. */
  method RunWhatIsMyIp(w: World, acq: Acquisition) returns (e: Execution)
    ensures e == Script(w, WhatIsMyIpSteps, 1, acq)
  {
    e := RunOnce(w, WhatIsMyIpSteps, acq);
  }

  /**
   * Every inline retry block of the Duolingo script is the one retry loop
   * with budget 3, except the two type steps and the two login clicks
   * (source steps 8, 10, 13 and 18), which have budget 2.
   */
  lemma DuolingoBudgets()
    ensures |DuolingoSteps| == 19
    ensures forall i :: 0 <= i < |DuolingoSteps| ==>
      DuolingoSteps[i].budget == if i == 6 || i == 8 || i == 11 || i == 16 then 2 else 3
  {
  }

  /** Six Duolingo steps capture, and their budgets add up to 18. */
  lemma DuolingoCaptures()
    ensures CaptureSteps(DuolingoSteps, 0) == 6
    ensures CaptureBudget(DuolingoSteps, 0) == 18
  {
    var d := DuolingoSteps;
    assert CaptureSteps(d, 18) == 1 && CaptureBudget(d, 18) == 3;
    assert CaptureSteps(d, 17) == 1 && CaptureBudget(d, 17) == 3;
    assert CaptureSteps(d, 16) == 1 && CaptureBudget(d, 16) == 3;
    assert CaptureSteps(d, 15) == 2 && CaptureBudget(d, 15) == 6;
    assert CaptureSteps(d, 14) == 2 && CaptureBudget(d, 14) == 6;
    assert CaptureSteps(d, 13) == 3 && CaptureBudget(d, 13) == 9;
    assert CaptureSteps(d, 12) == 3 && CaptureBudget(d, 12) == 9;
    assert CaptureSteps(d, 11) == 3 && CaptureBudget(d, 11) == 9;
    assert CaptureSteps(d, 10) == 3 && CaptureBudget(d, 10) == 9;
    assert CaptureSteps(d, 9) == 4 && CaptureBudget(d, 9) == 12;
    assert CaptureSteps(d, 8) == 4 && CaptureBudget(d, 8) == 12;
    assert CaptureSteps(d, 7) == 4 && CaptureBudget(d, 7) == 12;
    assert CaptureSteps(d, 6) == 4 && CaptureBudget(d, 6) == 12;
    assert CaptureSteps(d, 5) == 4 && CaptureBudget(d, 5) == 12;
    assert CaptureSteps(d, 4) == 5 && CaptureBudget(d, 4) == 15;
    assert CaptureSteps(d, 3) == 5 && CaptureBudget(d, 3) == 15;
    assert CaptureSteps(d, 2) == 6 && CaptureBudget(d, 2) == 18;
    assert CaptureSteps(d, 1) == 6 && CaptureBudget(d, 1) == 18;
    assert CaptureSteps(d, 0) == 6 && CaptureBudget(d, 0) == 18;
  }

  /**
   * Whatever the browser does, a Duolingo pass ends with the counter at most
   * 18, and its screenshots are numbered 1 up to it.
   */
  lemma DuolingoCounter(w: World, pass: nat)
    ensures var t := TaskSpec(w, pass, DuolingoSteps);
      t.counter <= 18 && Shots(t.events) == Upto(1, t.counter + 1)
  {
    DuolingoCaptures();
    TaskCounterBound(w, pass, DuolingoSteps, 0, 0);
    TaskShots(w, pass, DuolingoSteps);
  }

  /** Every step of the whatismyip script has budget 3; one step captures, at most three times. */
  lemma WhatIsMyIpShape()
    ensures |WhatIsMyIpSteps| == 3
    ensures forall i :: 0 <= i < |WhatIsMyIpSteps| ==> WhatIsMyIpSteps[i].budget == 3
    ensures CaptureSteps(WhatIsMyIpSteps, 0) == 1
    ensures CaptureBudget(WhatIsMyIpSteps, 0) == 3
  {
    var d := WhatIsMyIpSteps;
    assert CaptureSteps(d, 2) == 1 && CaptureBudget(d, 2) == 3;
    assert CaptureSteps(d, 0) == 1 && CaptureBudget(d, 0) == 3;
  }

  /**
   * A navigate step always completes on its first attempt: the rejection of
   * `goto` is swallowed, so the step never retries and never pauses.
   */
  lemma NavigateFirstTry(w: World, pass: nat, index: nat, url: string, budget: nat, counter: nat)
    requires budget > 0
    ensures var r := StepSpec(w, pass, index, Step(Navigate(url), budget), counter);
      && r.outcome == Done
      && r.tries == [Attempt(Done, [Browser(Goto(url))])]
      && r.events == [Browser(Goto(url))]
      && r.counter == counter
  {
    var step := Step(Navigate(url), budget);
    var plan := Plan(w, pass, index, step.kind, counter, budget);
    PlanAt(w, pass, index, step.kind, counter, budget, 0);
    RetrySucceedsAtFirstSuccess(w, pass, index, step, counter, 0);
    RetryCount(plan, false, counter);
    StepCalls(w, pass, index, step, counter);
  }

  /**
   * The whatismyip pass with its wait and its single capture succeeding at
   * the first attempt succeeds with `screenshotCounter` at exactly 1: the
   * counter starts at 0 and the one screenshot is number 1.
   */
  lemma WhatIsMyIpFirstCapture(w: World, pass: nat)
    requires w.answer(Site(pass, 1, 0), WaitForTimeout(15000)).Done?
    requires w.answer(Site(pass, 2, 0), Screenshot(1)).Done?
    ensures var t := TaskSpec(w, pass, WhatIsMyIpSteps);
      t.result == Success && t.counter == 1 && Shots(t.events) == [1]
  {
    var steps := WhatIsMyIpSteps;
    NavigateFirstTry(w, pass, 0, "https://www.whatismyip.com/", 3, 0);
    RetrySucceedsAtFirstSuccess(w, pass, 1, steps[1], 0, 0);
    RetryCount(Plan(w, pass, 1, steps[1].kind, 0, 3), false, 0);
    RetrySucceedsAtFirstSuccess(w, pass, 2, steps[2], 0, 0);
    RetryCount(Plan(w, pass, 2, steps[2].kind, 0, 3), true, 0);
    TaskShots(w, pass, steps);
    assert Upto(1, 2) == [1] by {
      assert Upto(2, 2) == [];
    }
  }

  /**
   * Whatever the browser does, a whatismyip pass ends with the counter
   * between 0 and 3, and its screenshots are numbered 1 up to it.
   */
  lemma WhatIsMyIpCounter(w: World, pass: nat)
    ensures var t := TaskSpec(w, pass, WhatIsMyIpSteps);
      t.counter <= 3 && Shots(t.events) == Upto(1, t.counter + 1)
  {
    WhatIsMyIpShape();
    TaskCounterBound(w, pass, WhatIsMyIpSteps, 0, 0);
    TaskShots(w, pass, WhatIsMyIpSteps);
  }

  /**
   * When the first attempt of every Duolingo step succeeds, a pass succeeds
   * with one attempt per step and six screenshots, and the script makes all
   * three passes and exits with 0 once the browser is acquired.
   */
  lemma DuolingoFirstTry(w: World, acq: Acquisition)
    requires acq.Acquired?
    requires forall p, j, c :: 0 <= j < |DuolingoSteps| ==> TryAt(w, p, j, DuolingoSteps[j].kind, c, 0).outcome.Done?
    ensures forall p :: TaskSpec(w, p, DuolingoSteps).result == Success && TaskSpec(w, p, DuolingoSteps).counter == 6
    ensures var e := Script(w, DuolingoSteps, DuolingoLoops, acq);
      |e.passes| == 3 && e.executionSuccess && e.exitCode == 0
  {
    DuolingoBudgets();
    DuolingoCaptures();
    forall p
      ensures TaskSpec(w, p, DuolingoSteps).result == Success && TaskSpec(w, p, DuolingoSteps).counter == 6
    {
      FirstTryPass(w, p, DuolingoSteps, 0, 0);
    }
    var ps := Passes(w, DuolingoSteps, 0, 3);
    assert ps == [TaskSpec(w, 0, DuolingoSteps), TaskSpec(w, 1, DuolingoSteps), TaskSpec(w, 2, DuolingoSteps)] by {
      assert Passes(w, DuolingoSteps, 3, 3) == [];
    }
  }
}
