# Verified model of the two task scripts' control engine

The repository holds generated browser-automation scripts. Each one opens a
stealth browser, runs `runTask` (a fixed list of steps), closes the context
and the browser, and exits with 0 on success and 1 otherwise. Two scripts are
modelled:

- `scripts/1771349586866603005.js` drives the Duolingo sign-in page. It has
  20 retried steps and runs the whole task up to three times. The first
  step only logs and is left out, so the model lists steps 2 to 20.
- `scripts/1771734403117376010.js` opens whatismyip.com, waits, and takes one
  screenshot, once.

Almost every line of the scripts is a Playwright call. What remains once
those calls are taken as given is a small sequential engine, and the model
proves properties of it:

- **Bounded retry wrapper.** Each step runs in
  `while (retries > 0) { try { …; break } catch { retries--; if (retries === 0) throw; pause 1000 ms } }`.
  The budget is 3, or 2 for four Duolingo steps.
- **Selector resolution.** Candidate selectors are probed in list order and
  the first visible one wins. A probe that throws counts as "not visible".
- **Click escalation.** A standard click is tried first. A forced click
  follows only if the standard click rejected, and the forced click's error
  is the one that propagates.
- **Task runner.** `screenshotCounter` starts at 0 in every pass and grows
  by one before every capture attempt, retries included. The first step that
  exhausts its budget ends the pass with `{ success: false, error }`.
- **Driver.** The iteration loop stops at the first failed pass. Cleanup
  closes the context and then the browser, each only if it was assigned and
  each at most once, and swallows close errors. The exit code is 0 exactly
  when `executionSuccess` holds.

Every Playwright call is answered by an oracle, `Session.World`. It says
which selectors `isVisible` reports and how every other awaited call
settles. The oracle is indexed by `Site(pass, step, attempt)`, so "attempt k
of step s fails" is a statement about the world.

The engine records what it did as a sequence of `Event`s: the browser calls,
in order, and the back-off pauses. Each loop of the scripts is a Dafny
method with a `while` loop. Each method is proved equal to a recursive
specification function, and the properties are lemmas about those functions:

| loop | method | specification function |
|---|---|---|
| selector loop | `Selectors.Resolve` | `FirstVisible` |
| retry loop | `Retry.ExecuteStep` | `Retry` / `StepSpec` |
| steps of `runTask` | `TaskRunner.RunTask` | `RunFrom` / `TaskSpec` |
| iteration loop | `Driver.RunIterations` | `Passes` |

Modules: `Session` (oracle and events), `Selectors`, `ClickStrategy`,
`Steps` (one attempt of each kind of step), `Retry`, `TaskRunner`, `Driver`
(top level, iteration loop, cleanup) and `Scripts` (the two concrete step
lists).

## Model

| member | source | states |
|---|---|---|
| Selectors.FirstVisible | scripts/1771349586866603005.js:120-133 | The chosen index is visible, and every candidate before it is not. No result means no candidate is visible. |
| Selectors.Resolve | scripts/1771349586866603005.js:233-245 | The `for…of` loop picks the first visible candidate, in list order. It probes exactly the candidates up to the winner, or all of them. A probe that is false or throws moves on to the next candidate. |
| Selectors.JoinAt | scripts/1771349586866603005.js:136 | `join` places every part, in order, at its offset in the joined string. |
| Selectors.JoinSepAt | scripts/1771349586866603005.js:136 | `join` puts exactly one separator after every part but the last. |
| Selectors.ClickNotFoundListsCandidates | scripts/1771349586866603005.js:135-139 | The not-found message starts with the fixed prefix and names candidate i at its offset in the list joined by ", ". The last candidate ends the message. |
| ClickStrategy.Escalate | scripts/1771349586866603005.js:152-165 | The standard click comes first. A forced click is made iff the standard click rejected, and at most once. The attempt succeeds iff either click succeeded. A failure carries the forced click's error. |
| Steps.AttemptCalls | scripts/1771349586866603005.js:84-101 | An attempt makes browser calls only. Only a capture attempt takes a screenshot: one screenshot, numbered with the counter already incremented. |
| Steps.TypeFillsFirstVisible | scripts/1771349586866603005.js:233-249 | A type attempt fills the first visible field with the text. If no field is visible, it fails with the fixed message and lists no candidate. |
| Steps.ClickFirstVisible | scripts/1771349586866603005.js:120-165 | A click attempt acts on the first visible candidate. With no visible candidate it fails with the joined list and clicks nothing. A rejected unguarded scroll fails the attempt before any click. Otherwise the attempt ends as the escalation does. |
| Steps.RunAttempt | scripts/1771349586866603005.js:114-166 | One `try` body of any step equals `AttemptSpec`. The counter grows by one exactly for a capture attempt. |
| Retry.ExecuteStep | scripts/1771349586866603005.js:39-62 | The inline `while (retries_stepN > 0)` loop, for any step and budget, equals `StepSpec`, the loop over that step's planned attempts. |
| Retry.RetryCount | scripts/1771349586866603005.js:224-261 | The loop makes at most its budget of attempts, and at least one when the budget is positive. The attempts are the first ones allowed, in order. The counter advances once per capture attempt. |
| Retry.RetryOutcome | scripts/1771349586866603005.js:253-259 | Every attempt but the last failed, so the loop stops right after the first success. The loop ends as its last attempt did. A failure is rethrown only after the whole budget, with the last attempt's error. |
| Retry.RetryExhausted | scripts/1771349586866603005.js:254-260 | If every attempt fails, the step fails after exactly `budget` attempts with the last attempt's error. |
| Retry.RetrySucceedsAtFirstSuccess | scripts/1771349586866603005.js:224-261 | If attempt k is the first that succeeds and k is within the budget, the step succeeds after exactly k + 1 attempts. |
| Retry.RetryPausesBetweenAttempts | scripts/1771349586866603005.js:254-260 | The step's calls are its attempts' calls with one pause between each two. So it pauses one time fewer than it attempts, never after the final attempt. |
| Retry.RetryShots | scripts/1771349586866603005.js:84-109 | A capture loop numbers its screenshots consecutively from its entry counter, one per attempt, retries included. |
| Retry.StepCalls | scripts/1771349586866603005.js:84-109 | For every step: the events are the attempts interleaved with pauses, and the screenshots are numbered consecutively from the entry counter. |
| TaskRunner.RunTask | scripts/1771349586866603005.js:10-635 | `runTask` runs its steps in order, carrying `screenshotCounter` from one step to the next, and equals `TaskSpec`. |
| TaskRunner.TaskOutcome | scripts/1771349586866603005.js:628-634 | Every step before the last one run completed. The pass succeeds iff every step ran and completed. A failure carries the last step's rethrown error. The final counter is the last step's. |
| TaskRunner.TaskRunAt | scripts/1771349586866603005.js:15-17 | The j-th step run is step j. It is entered with 0 (the first step) or with the counter the step before it left. |
| TaskRunner.TaskShotsFrom | scripts/1771349586866603005.js:328-331 | Screenshots taken from any step on are numbered consecutively from the entry counter, and the counter never decreases. |
| TaskRunner.TaskShots | scripts/1771349586866603005.js:15 | Every pass numbers its screenshots 1, 2, …, up to its final counter, because the counter restarts at 0. So the final counter is the number of screenshots the pass took. |
| TaskRunner.FirstTryPass | scripts/1771349586866603005.js:628-630 | When every first attempt succeeds, the pass succeeds with one attempt per step. The counter ends at the number of capture steps. |
| TaskRunner.TaskCounterBound | scripts/1771349586866603005.js:605-608 | The counter counts capture attempts. It never decreases and grows by at most the sum of the capture steps' budgets. |
| Driver.RunIterations | scripts/1771349586866603005.js:683-698 | The `for (taskLoop…)` loop equals `Passes`, the passes up to and including the first failure. `executionSuccess` is the last pass's success, or false if no pass ran. |
| Driver.PassesShape | scripts/1771349586866603005.js:683-692 | At most `loops` passes run, and at least one when `loops > 0`. Every pass but the last succeeded. |
| Driver.PassesSucceed | scripts/1771349586866603005.js:686-692 | The last pass succeeded, which is what `executionSuccess` holds, iff all `loops` passes ran and all succeeded. |
| Driver.PassAt | scripts/1771349586866603005.js:686 | Pass j is a fresh `runTask` call, pass number j. |
| Driver.PassShots | scripts/1771349586866603005.js:683-686 | Every pass of the loop numbers its screenshots from 1 again. |
| Driver.Cleanup | scripts/1771349586866603005.js:705-727 | The context is closed iff it was assigned, and so is the browser. Each is closed at most once, the context before the browser. |
| Driver.RunLooped | scripts/1771349586866603005.js:639-731 | The top level (acquire, loop, guarded cleanup, exit code) equals `Script`. |
| Driver.SinglePass | scripts/1771734403117376010.js:143-150 | A single call of `runTask` is the iteration loop with one pass, whatever its result. |
| Driver.RunOnce | scripts/1771734403117376010.js:100-178 | The one-call top level equals `Script` with one pass. |
| Driver.ScriptExit | scripts/1771734403117376010.js:106-176 | The exit code is 0 or 1, and 0 iff `executionSuccess` holds, iff the browser was acquired and every pass ran and succeeded. A failed acquisition runs no pass, closes nothing and exits with 1. |
| Scripts.RunDuolingo | scripts/1771349586866603005.js:683 | The Duolingo script is the looped top level over its 19 steps, with 3 loops. |
| Scripts.RunWhatIsMyIp | scripts/1771734403117376010.js:144 | The whatismyip script is the one-call top level over its 3 steps. |
| Scripts.DuolingoBudgets | scripts/1771349586866603005.js:38-612 | The model lists source steps 2–20, 19 retried steps. Each has budget 3, except source steps 8, 10, 13 and 18, which have budget 2. |
| Scripts.DuolingoCaptures | scripts/1771349586866603005.js:84-612 | Six steps capture, and their budgets add up to 18. |
| Scripts.DuolingoCounter | scripts/1771349586866603005.js:84-612 | Whatever the browser does, a Duolingo pass ends with the counter at most 18, and its screenshots are numbered 1 up to it. |
| Scripts.WhatIsMyIpShape | scripts/1771734403117376010.js:19-89 | There are three steps, each with budget 3. One of them captures. |
| Scripts.NavigateFirstTry | scripts/1771734403117376010.js:27-34 | A navigate step completes on its first attempt with a single `goto`, because the rejection is swallowed. It never retries or pauses, and the counter is unchanged. |
| Scripts.WhatIsMyIpFirstCapture | scripts/1771734403117376010.js:66-81 | With the wait and the capture succeeding at once, the pass succeeds with the counter at exactly 1 and one screenshot, number 1. |
| Scripts.WhatIsMyIpCounter | scripts/1771734403117376010.js:66-89 | Whatever the browser does, a pass ends with the counter at most 3, and its screenshots are numbered 1 up to the counter. |
| Scripts.DuolingoFirstTry | scripts/1771349586866603005.js:683-698 | When every first attempt succeeds, each pass succeeds with counter 6, and the script makes all three passes and exits with 0. |

## Left out

- Playwright behaviour itself is not modelled: `goto`, `locator().first()`, `waitFor`, `isVisible`, clicks, `fill`, `screenshot`, `waitForTimeout`, `scrollIntoViewIfNeeded` and `close`. Each call is an answer of the oracle.
- `createStealthBrowser` and its configuration are not modelled. The model only distinguishes an acquisition that assigns handles from one that throws (`Driver.Acquisition`).
- Clocks are not modelled: the 1000 ms pause is an event, and durations and probe timeouts are not. Screenshot file names keep only their counter; the ISO timestamp and `path.join` are dropped.
- `async`/`await` scheduling is not modelled. The code awaits every call in turn, so it runs sequentially.
- Console logging is not modelled. Only the thrown error messages are kept.
- `process.exit` is represented by the returned `exitCode`.
- The `pages` map, the `context` parameter of `runTask`, `currentPage` and the imported `humanClick`, `humanType` and `humanScroll` are not modelled. `currentPage` only ever holds `page`, and the other items are unused.
- Step 1 of the Duolingo script only logs and always leaves on its first attempt, so it is not modelled. The list index i holds source step i + 2, and `Site.step` counts in list indices.
- The `iterationError` and `taskError` catches and `executionError` are not modelled. `runTask` catches every error itself, so those catches cannot be reached.
- Close errors are not modelled. They are caught and only logged, so no result depends on them.
- A budget of 0 never occurs in the scripts. The model follows the code there: the loop is not entered and the step counts as completed with no attempt.
- Steps.TypeFillsFirstVisible, Steps.ClickFirstVisible: these state the first-visible behaviour only for candidate lists without an empty selector, which holds for every list in both scripts. `Steps.Chosen` models the source's `if (!selector)` test, which treats an empty selector as no selector.
- TaskRunner.FirstTryPass, Scripts.DuolingoFirstTry: these assume that every step's first attempt succeeds whatever the counter it is entered with. Only the attempts actually made matter to the source.
