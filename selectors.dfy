/**
 * Ordered multi-candidate selector resolution: the `for (const selector of
 * ...)` loops of the click and type steps.  Candidates are probed strictly
 * in list order and the first one that `isVisible` reports wins; a probe
 * that yields false or throws only moves on to the next candidate.
 */
module Selectors {
  import opened Session

  /** Message of the click step when no candidate is visible; the candidates follow it, joined by ", ". */
  const ClickNotFoundPrefix: string := "❌ فشل: لم يتم العثور على عنصر قابل للنقر بأي من المحددات: "

  /** Message of the type step when no field is visible; it names no candidate. */
  const FieldNotFound: string := "❌ لم يتم العثور على حقل الإدخال"

  /** Index of the first candidate that is visible at `site`, if any. */
  function FirstVisible(w: World, site: Site, cands: seq<string>): (r: Option<nat>)
    ensures r.Some? ==> r.value < |cands| && w.visible(site, cands[r.value]) == Visible
    ensures r.Some? ==> forall j :: 0 <= j < r.value ==> w.visible(site, cands[j]) != Visible
    ensures r.None? ==> forall j :: 0 <= j < |cands| ==> w.visible(site, cands[j]) != Visible
  {
    if cands == [] then None
    else if w.visible(site, cands[0]) == Visible then Some(0)
    else
      match FirstVisible(w, site, cands[1..])
      case None => None
      case Some(i) => Some(i + 1)
  }

  /** How many candidates get probed: up to and including the winner, or all of them. */
  function Probed(found: Option<nat>, n: nat): nat
  {
    if found.Some? then found.value + 1 else n
  }

  /** The calls probing one candidate makes; only the first click step awaits `waitFor` first. */
  function ProbeEvents(c: string, awaitVisible: bool): seq<Event>
  {
    if awaitVisible then [Browser(WaitFor(c)), Browser(IsVisible(c))] else [Browser(IsVisible(c))]
  }

  /** The calls probing `cands` one after the other makes. */
  function ProbeTrace(cands: seq<string>, awaitVisible: bool): seq<Event>
  {
    if cands == [] then []
    else ProbeTrace(cands[..|cands| - 1], awaitVisible) + ProbeEvents(cands[|cands| - 1], awaitVisible)
  }

  /** Probing makes browser calls only, and takes no screenshot. */
  lemma {:induction false} ProbeTraceCalls(cands: seq<string>, awaitVisible: bool)
    ensures NoBackoff(ProbeTrace(cands, awaitVisible))
    ensures Shots(ProbeTrace(cands, awaitVisible)) == []
  {
    if cands != [] {
      var init, last := cands[..|cands| - 1], cands[|cands| - 1];
      ProbeTraceCalls(init, awaitVisible);
      ShotsAppend(ProbeTrace(init, awaitVisible), ProbeEvents(last, awaitVisible));
      assert Shots(ProbeEvents(last, awaitVisible)) == [] by {
        var probe := [Browser(IsVisible(last))];
        assert Shots(probe) == [] + Shots(probe[1..]);
        if awaitVisible {
          assert ProbeEvents(last, awaitVisible) == [Browser(WaitFor(last))] + probe;
          ShotsAppend([Browser(WaitFor(last))], probe);
        }
      }
    }
  }

  /**
   * The resolution loop: probe each candidate in order and stop at the first
   * visible one.  Returns the winner's index and the probe calls made.
   */
  method Resolve(w: World, site: Site, cands: seq<string>, awaitVisible: bool)
    returns (found: Option<nat>, probes: seq<Event>)
    ensures found == FirstVisible(w, site, cands)
    ensures probes == ProbeTrace(cands[..Probed(found, |cands|)], awaitVisible)
  {
    found := None;
    probes := [];
    var i := 0;
    while i < |cands|
      invariant 0 <= i <= |cands|
      invariant forall j :: 0 <= j < i ==> w.visible(site, cands[j]) != Visible
      invariant probes == ProbeTrace(cands[..i], awaitVisible)
      invariant found == None
    {
      assert cands[..i + 1][..i] == cands[..i];
      probes := probes + ProbeEvents(cands[i], awaitVisible);
      if w.visible(site, cands[i]) == Visible {
        found := Some(i);
        break;
      }
      i := i + 1;
    }
    assert found.None? ==> cands[..i] == cands;
  }

  /** `parts.join(sep)`. */
  function Join(parts: seq<string>, sep: string): string
  {
    if |parts| == 0 then ""
    else if |parts| == 1 then parts[0]
    else parts[0] + sep + Join(parts[1..], sep)
  }

  /** The position at which `parts[i]` starts in `Join(parts, sep)`. */
  function Offset(parts: seq<string>, sep: string, i: nat): nat
    requires i < |parts|
  {
    if i == 0 then 0 else |parts[0]| + |sep| + Offset(parts[1..], sep, i - 1)
  }

  /** Consecutive parts are one separator apart. */
  lemma {:induction false} OffsetNext(parts: seq<string>, sep: string, i: nat)
    requires i + 1 < |parts|
    ensures Offset(parts, sep, i + 1) == Offset(parts, sep, i) + |parts[i]| + |sep|
  {
    if i > 0 {
      OffsetNext(parts[1..], sep, i - 1);
    }
  }

  /** The last part ends the joined string. */
  lemma {:induction false} JoinLength(parts: seq<string>, sep: string)
    requires |parts| > 0
    ensures |Join(parts, sep)| == Offset(parts, sep, |parts| - 1) + |parts[|parts| - 1]|
  {
    if |parts| > 1 {
      var rest := parts[1..];
      JoinLength(rest, sep);
      assert rest[|rest| - 1] == parts[|parts| - 1];
      assert Offset(parts, sep, |parts| - 1) == |parts[0]| + |sep| + Offset(rest, sep, |rest| - 1);
      assert Join(parts, sep) == parts[0] + sep + Join(rest, sep);
    }
  }

  /** A slice of `a + b` that lies inside `b`. */
  lemma SliceRight(a: string, b: string, lo: nat, hi: nat)
    requires |a| <= lo <= hi <= |a| + |b|
    ensures (a + b)[lo..hi] == b[lo - |a|..hi - |a|]
  {
  }

  /** A slice of `a + b` that lies inside `a`. */
  lemma SliceLeft(a: string, b: string, lo: nat, hi: nat)
    requires lo <= hi <= |a|
    ensures (a + b)[lo..hi] == a[lo..hi]
  {
  }

  /** The first part starts the joined string. */
  lemma JoinFirst(parts: seq<string>, sep: string)
    requires |parts| > 0
    ensures |parts[0]| <= |Join(parts, sep)| && Join(parts, sep)[..|parts[0]|] == parts[0]
  {
    if |parts| > 1 {
      SliceLeft(parts[0] + sep, Join(parts[1..], sep), 0, |parts[0]|);
      assert (parts[0] + sep)[..|parts[0]|] == parts[0];
    } else {
      assert parts[0][..|parts[0]|] == parts[0];
    }
  }

  /** `Join` lists every part, in order: part i sits at `Offset(parts, sep, i)`. */
  lemma {:induction false} JoinAt(parts: seq<string>, sep: string, i: nat)
    requires i < |parts|
    ensures Offset(parts, sep, i) + |parts[i]| <= |Join(parts, sep)|
    ensures Join(parts, sep)[Offset(parts, sep, i)..Offset(parts, sep, i) + |parts[i]|] == parts[i]
  {
    if i == 0 {
      JoinFirst(parts, sep);
    } else {
      var head, rest := parts[0] + sep, Join(parts[1..], sep);
      var o := Offset(parts[1..], sep, i - 1);
      JoinAt(parts[1..], sep, i - 1);
      assert parts[1..][i - 1] == parts[i];
      SliceRight(head, rest, |head| + o, |head| + o + |parts[i]|);
      assert Offset(parts, sep, i) == |head| + o;
      assert Join(parts, sep) == head + rest;
    }
  }

  /** A separator follows every part but the last. */
  lemma {:induction false} JoinSepAt(parts: seq<string>, sep: string, i: nat)
    requires i + 1 < |parts|
    ensures Offset(parts, sep, i) + |parts[i]| + |sep| <= |Join(parts, sep)|
    ensures Join(parts, sep)[Offset(parts, sep, i) + |parts[i]|..Offset(parts, sep, i) + |parts[i]| + |sep|] == sep
  {
    var head, rest := parts[0] + sep, Join(parts[1..], sep);
    assert Join(parts, sep) == head + rest;
    if i == 0 {
      SliceLeft(head, rest, |parts[0]|, |head|);
      assert head[|parts[0]|..] == sep;
    } else {
      JoinSepAt(parts[1..], sep, i - 1);
      var e := Offset(parts[1..], sep, i - 1) + |parts[i]|;
      assert parts[1..][i - 1] == parts[i];
      assert Offset(parts, sep, i) + |parts[i]| == |head| + e;
      SliceRight(head, rest, |head| + e, |head| + e + |sep|);
    }
  }

  /** The click step's error when no candidate is visible. */
  function ClickNotFound(targets: seq<string>): string
  {
    ClickNotFoundPrefix + Join(targets, ", ")
  }

  /** `prefix + Join(parts, sep)` holds part i right after the prefix, at its offset in the join. */
  lemma PrefixedJoinAt(prefix: string, parts: seq<string>, sep: string, i: nat)
    requires i < |parts|
    ensures var m, at := prefix + Join(parts, sep), |prefix| + Offset(parts, sep, i);
      && m[..|prefix|] == prefix
      && at + |parts[i]| <= |m|
      && m[at..at + |parts[i]|] == parts[i]
      && (i + 1 == |parts| ==> at + |parts[i]| == |m|)
  {
    JoinAt(parts, sep, i);
    if i + 1 == |parts| {
      JoinLength(parts, sep);
    }
    var j, o := Join(parts, sep), Offset(parts, sep, i);
    assert (prefix + j)[|prefix| + o..|prefix| + o + |parts[i]|] == j[o..o + |parts[i]|];
  }

  /**
   * The click step's not-found error names every candidate in list order:
   * candidate i stands after the fixed prefix at its offset in the joined
   * list, and the last candidate ends the message.
   */
  lemma ClickNotFoundListsCandidates(targets: seq<string>, i: nat)
    requires i < |targets|
    ensures var m, at := ClickNotFound(targets), |ClickNotFoundPrefix| + Offset(targets, ", ", i);
      && m[..|ClickNotFoundPrefix|] == ClickNotFoundPrefix
      && at + |targets[i]| <= |m|
      && m[at..at + |targets[i]|] == targets[i]
      && (i + 1 == |targets| ==> at + |targets[i]| == |m|)
  {
    PrefixedJoinAt(ClickNotFoundPrefix, targets, ", ", i);
  }
}
