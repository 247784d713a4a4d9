/**
 * The browser session as the two task scripts see it.
 *
 * Every Playwright call the scripts await is answered by an oracle, the
 * `World`: which selectors `isVisible` reports, and whether each other call
 * resolves or rejects.  The oracle is indexed by the `Site` of the call (the
 * pass of the iteration loop, the step of `runTask`, the attempt of that
 * step's retry loop), so that "attempt k of step s fails" is a statement
 * about the world.  What the engine did is recorded as a sequence of
 * `Event`s: the browser calls in the order they were made, and the 1000 ms
 * back-off pauses between attempts.
 */
module Session {

  datatype Option<T> = None | Some(value: T)

  /** How an awaited call settles: it resolves, or it rejects with an error carrying `message`. */
  datatype Outcome = Done | Threw(message: string)

  /** What probing one selector gives: `isVisible` yields true or false, or the probe throws. */
  datatype Probe = Visible | Hidden | ProbeFailed

  /** Where a call is made; every component counts from 0. */
  datatype Site = Site(pass: nat, step: nat, attempt: nat)

  /** The page and locator operations the scripts await. */
  datatype Call =
    | Goto(url: string)
    | WaitForTimeout(ms: nat)
    | Screenshot(counter: nat)                  // the file name carries `screenshot-<counter>-viewport-...`
    | WaitFor(selector: string)                 // `waitFor({state: 'visible'})`, its rejection dropped
    | IsVisible(selector: string)
    | ScrollIntoViewIfNeeded(selector: string)
    | Click(selector: string)                   // `click({timeout: 5000})`
    | ForceClick(selector: string)              // `click({force: true})`
    | Fill(selector: string, text: string)

  /** One observable thing the engine does: a browser call, or the pause before a retry. */
  datatype Event = Browser(call: Call) | Backoff

  /** The oracle answering every call. */
  datatype World = World(visible: (Site, string) -> Probe, answer: (Site, Call) -> Outcome)

  /** One attempt of one step: how it ended and the calls it made. */
  datatype Attempt = Attempt(outcome: Outcome, events: seq<Event>)

  predicate NoBackoff(evs: seq<Event>)
  {
    forall k :: 0 <= k < |evs| ==> evs[k].Browser?
  }

  /** Number of back-off pauses in `evs`. */
  function Backoffs(evs: seq<Event>): nat
  {
    if evs == [] then 0 else (if evs[0].Backoff? then 1 else 0) + Backoffs(evs[1..])
  }

  /** The counters of the screenshots taken in `evs`, in the order they were taken. */
  function Shots(evs: seq<Event>): seq<nat>
  {
    if evs == [] then []
    else (if evs[0].Browser? && evs[0].call.Screenshot? then [evs[0].call.counter] else []) + Shots(evs[1..])
  }

  /** The consecutive numbers lo, lo + 1, ..., hi - 1. */
  function Upto(lo: nat, hi: nat): (s: seq<nat>)
    decreases hi - lo
  {
    if lo >= hi then [] else [lo] + Upto(lo + 1, hi)
  }

  lemma {:induction false} ShotsAppend(a: seq<Event>, b: seq<Event>)
    ensures Shots(a + b) == Shots(a) + Shots(b)
  {
    if a != [] {
      assert (a + b)[1..] == a[1..] + b;
      ShotsAppend(a[1..], b);
    } else {
      assert a + b == b;
    }
  }

  lemma {:induction false} BackoffsAppend(a: seq<Event>, b: seq<Event>)
    ensures Backoffs(a + b) == Backoffs(a) + Backoffs(b)
  {
    if a != [] {
      assert (a + b)[1..] == a[1..] + b;
      BackoffsAppend(a[1..], b);
    } else {
      assert a + b == b;
    }
  }

  lemma {:induction false} NoBackoffCount(evs: seq<Event>)
    requires NoBackoff(evs)
    ensures Backoffs(evs) == 0
  {
    if evs != [] {
      NoBackoffCount(evs[1..]);
    }
  }

  lemma {:induction false} UptoLength(lo: nat, hi: nat)
    ensures |Upto(lo, hi)| == if lo <= hi then hi - lo else 0
    decreases hi - lo
  {
    if lo < hi {
      UptoLength(lo + 1, hi);
    }
  }

  /** Two runs of consecutive numbers that meet form one. */
  lemma {:induction false} UptoAppend(lo: nat, mid: nat, hi: nat)
    requires lo <= mid <= hi
    ensures Upto(lo, mid) + Upto(mid, hi) == Upto(lo, hi)
    decreases mid - lo
  {
    if lo < mid {
      UptoAppend(lo + 1, mid, hi);
      assert Upto(lo, mid) == [lo] + Upto(lo + 1, mid);
      assert Upto(lo, mid) + Upto(mid, hi) == [lo] + (Upto(lo + 1, mid) + Upto(mid, hi));
    } else {
      assert Upto(lo, mid) == [];
    }
  }
}
