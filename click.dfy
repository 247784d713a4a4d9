/**
 * Click escalation inside one attempt of a click step: a standard click with
 * a 5 s timeout, and only when that rejects, one forced click.  The error
 * that leaves the attempt is the forced click's; the standard click's error
 * is only logged.
 */
module ClickStrategy {
  import opened Session

  function Escalate(w: World, site: Site, sel: string): (a: Attempt)
    ensures 1 <= |a.events| <= 2 && a.events[0] == Browser(Click(sel))
    ensures NoBackoff(a.events) && Shots(a.events) == []
    // the forced click is made exactly when the standard click rejected, and at most once
    ensures |a.events| == 2 <==> w.answer(site, Click(sel)).Threw?
    ensures |a.events| == 2 ==> a.events[1] == Browser(ForceClick(sel))
    ensures a.outcome.Done? <==> w.answer(site, Click(sel)).Done? || w.answer(site, ForceClick(sel)).Done?
    ensures a.outcome.Threw? ==> a.outcome == w.answer(site, ForceClick(sel))
  {
    if w.answer(site, Click(sel)).Done? then
      Attempt(Done, [Browser(Click(sel))])
    else
      var forced := [Browser(ForceClick(sel))];
      assert Shots(forced) == [] + Shots(forced[1..]);
      ShotsAppend([Browser(Click(sel))], forced);
      Attempt(w.answer(site, ForceClick(sel)), [Browser(Click(sel))] + forced)
  }
}
