/**
 * The step vocabulary of `runTask` and one attempt of each kind of step: the
 * body of the `try` block inside every `while (retries_stepN > 0)` loop.
 */
module Steps {
  import opened Session
  import opened Selectors
  import opened ClickStrategy

  /** What a step does; the candidate lists are tried in the order given. */
  datatype Kind =
    | Navigate(url: string)
    | Wait(ms: nat)
    | Capture
    | TypeText(fields: seq<string>, text: string)
    // `awaitVisible`: each probe first awaits `waitFor`; `scroll`: the element is scrolled into view before the click
    | ClickElement(targets: seq<string>, awaitVisible: bool, scroll: bool)

  /** A step and the initial value of its `retries_stepN` counter. */
  datatype Step = Step(kind: Kind, budget: nat)

  /** How much one attempt of the step advances `screenshotCounter`. */
  function Captures(kind: Kind): nat
  {
    if kind.Capture? then 1 else 0
  }

  /**
   * The selector the loop leaves in `clickSelector` / `typeSelector`, as the
   * test `if (!selector)` sees it: nothing found, or an empty string, which
   * JavaScript also takes for false, counts as no selector.
   */
  function Chosen(cands: seq<string>, found: Option<nat>): Option<string>
    requires found.Some? ==> found.value < |cands|
  {
    if found.Some? && cands[found.value] != "" then Some(cands[found.value]) else None
  }

  /** One attempt of a step of kind `kind` at `site`, entered with `screenshotCounter == counter`. */
  function AttemptSpec(w: World, site: Site, kind: Kind, counter: nat): Attempt
  {
    match kind
    case Navigate(url) =>
      Attempt(Done, [Browser(Goto(url))])
    case Wait(ms) =>
      Attempt(w.answer(site, WaitForTimeout(ms)), [Browser(WaitForTimeout(ms))])
    case Capture =>
      Attempt(w.answer(site, Screenshot(counter + 1)), [Browser(Screenshot(counter + 1))])
    case TypeText(fields, text) =>
      var found := FirstVisible(w, site, fields);
      var probes := ProbeTrace(fields[..Probed(found, |fields|)], false);
      (match Chosen(fields, found)
       case None => Attempt(Threw(FieldNotFound), probes)
       case Some(sel) => Attempt(w.answer(site, Fill(sel, text)), probes + [Browser(Fill(sel, text))]))
    case ClickElement(targets, awaitVisible, scroll) =>
      var found := FirstVisible(w, site, targets);
      var probes := ProbeTrace(targets[..Probed(found, |targets|)], awaitVisible);
      match Chosen(targets, found)
      case None => Attempt(Threw(ClickNotFound(targets)), probes)
      case Some(sel) =>
        var scrolled := if scroll then [Browser(ScrollIntoViewIfNeeded(sel))] else [];
        if scroll && w.answer(site, ScrollIntoViewIfNeeded(sel)).Threw? then
          Attempt(w.answer(site, ScrollIntoViewIfNeeded(sel)), probes + scrolled)
        else
          var ladder := Escalate(w, site, sel);
          Attempt(ladder.outcome, probes + scrolled + ladder.events)
  }

  lemma NoBackoffAppend(a: seq<Event>, b: seq<Event>)
    requires NoBackoff(a) && NoBackoff(b)
    ensures NoBackoff(a + b)
  {
    assert forall k :: 0 <= k < |a + b| ==> (a + b)[k] == if k < |a| then a[k] else b[k - |a|];
  }

  /**
   * An attempt makes browser calls only (the back-off pause belongs to the
   * retry loop), and the one screenshot it may take is the capture step's,
   * numbered with the incremented counter.
   */
  lemma AttemptCalls(w: World, site: Site, kind: Kind, counter: nat)
    ensures NoBackoff(AttemptSpec(w, site, kind, counter).events)
    ensures Shots(AttemptSpec(w, site, kind, counter).events) == if kind.Capture? then [counter + 1] else []
  {
    var a := AttemptSpec(w, site, kind, counter);
    match kind
    case Navigate(url) =>
    case Wait(ms) =>
    case Capture =>
    case TypeText(fields, text) =>
      var found := FirstVisible(w, site, fields);
      var probes := ProbeTrace(fields[..Probed(found, |fields|)], false);
      ProbeTraceCalls(fields[..Probed(found, |fields|)], false);
      match Chosen(fields, found) {
        case None =>
        case Some(sel) =>
          var fill := [Browser(Fill(sel, text))];
          assert Shots(fill) == [] + Shots(fill[1..]);
          ShotsAppend(probes, fill);
          NoBackoffAppend(probes, fill);
      }
    case ClickElement(targets, awaitVisible, scroll) =>
      var found := FirstVisible(w, site, targets);
      var probes := ProbeTrace(targets[..Probed(found, |targets|)], awaitVisible);
      ProbeTraceCalls(targets[..Probed(found, |targets|)], awaitVisible);
      match Chosen(targets, found)
      case None =>
      case Some(sel) =>
        var scrolled: seq<Event> := if scroll then [Browser(ScrollIntoViewIfNeeded(sel))] else [];
        assert Shots(scrolled) == [] by {
          if scroll {
            assert Shots(scrolled) == [] + Shots(scrolled[1..]);
          }
        }
        ShotsAppend(probes, scrolled);
        NoBackoffAppend(probes, scrolled);
        var ladder := Escalate(w, site, sel);
        ShotsAppend(probes + scrolled, ladder.events);
        NoBackoffAppend(probes + scrolled, ladder.events);
  }

  /**
   * A type attempt fills the first visible field of its list; when no field
   * is visible it fails with a fixed message that lists no candidate.
   */
  lemma TypeFillsFirstVisible(w: World, site: Site, fields: seq<string>, text: string, counter: nat)
    requires forall k :: 0 <= k < |fields| ==> fields[k] != ""
    ensures var a := AttemptSpec(w, site, TypeText(fields, text), counter);
      match FirstVisible(w, site, fields)
      case None =>
        a == Attempt(Threw(FieldNotFound), ProbeTrace(fields, false))
      case Some(i) =>
        && a.outcome == w.answer(site, Fill(fields[i], text))
        && a.events == ProbeTrace(fields[..i + 1], false) + [Browser(Fill(fields[i], text))]
  {
    assert fields[..|fields|] == fields;
  }

  /**
   * A click attempt clicks the first visible candidate, escalating to a
   * forced click only when the standard click rejects; with no candidate
   * visible it fails with the message listing all of them, and makes no
   * click.  In the step that scrolls first, a rejected scroll fails the
   * attempt before any click.
   */
  lemma ClickFirstVisible(w: World, site: Site, targets: seq<string>, awaitVisible: bool, scroll: bool, counter: nat)
    requires forall k :: 0 <= k < |targets| ==> targets[k] != ""
    ensures var a := AttemptSpec(w, site, ClickElement(targets, awaitVisible, scroll), counter);
      match FirstVisible(w, site, targets)
      case None =>
        a == Attempt(Threw(ClickNotFound(targets)), ProbeTrace(targets, awaitVisible))
      case Some(i) =>
        var sel, probes := targets[i], ProbeTrace(targets[..i + 1], awaitVisible);
        if scroll && w.answer(site, ScrollIntoViewIfNeeded(sel)).Threw? then
          a == Attempt(w.answer(site, ScrollIntoViewIfNeeded(sel)), probes + [Browser(ScrollIntoViewIfNeeded(sel))])
        else
          && a.outcome == Escalate(w, site, sel).outcome
          && a.events == probes + (if scroll then [Browser(ScrollIntoViewIfNeeded(sel))] else []) + Escalate(w, site, sel).events
  {
    assert targets[..|targets|] == targets;
  }

  /**
   * One attempt of a step, as the body of the retry loop's `try` block runs
   * it; returns the new value of `screenshotCounter`.
   */
  method RunAttempt(w: World, site: Site, kind: Kind, counter: nat) returns (a: Attempt, counter': nat)
    ensures a == AttemptSpec(w, site, kind, counter)
    ensures counter' == counter + Captures(kind)
  {
    counter' := counter;
    match kind {
      case Navigate(url) =>
        // `page.goto(...).catch(() => {})`: a rejected navigation is dropped
        a := Attempt(Done, [Browser(Goto(url))]);
      case Wait(ms) =>
        a := Attempt(w.answer(site, WaitForTimeout(ms)), [Browser(WaitForTimeout(ms))]);
      case Capture =>
        // the counter is incremented before the capture is tried
        counter' := counter + 1;
        a := Attempt(w.answer(site, Screenshot(counter')), [Browser(Screenshot(counter'))]);
      case TypeText(fields, text) =>
        var found, probes := Resolve(w, site, fields, false);
        var typeSelector := Chosen(fields, found);
        if typeSelector.None? {
          a := Attempt(Threw(FieldNotFound), probes);
        } else {
          var fill := Fill(typeSelector.value, text);
          a := Attempt(w.answer(site, fill), probes + [Browser(fill)]);
        }
      case ClickElement(targets, awaitVisible, scroll) =>
        var found, probes := Resolve(w, site, targets, awaitVisible);
        var clickSelector := Chosen(targets, found);
        if clickSelector.None? {
          a := Attempt(Threw(ClickNotFound(targets)), probes);
        } else {
          var sel := clickSelector.value;
          var events := probes;
          var scrolled := Done;
          if scroll {
            // not guarded: a rejected scroll fails the attempt
            events := events + [Browser(ScrollIntoViewIfNeeded(sel))];
            scrolled := w.answer(site, ScrollIntoViewIfNeeded(sel));
          }
          if scrolled.Threw? {
            a := Attempt(scrolled, events);
          } else {
            var ladder := Escalate(w, site, sel);
            a := Attempt(ladder.outcome, events + ladder.events);
          }
        }
    }
  }
}
