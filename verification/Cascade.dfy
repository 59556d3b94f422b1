/** The note cascade (internal/client/session/cascade.go): tag an anchor event and
    let the tag spread outwards in four rounds of decaying radius. */
module Cascade {
  import opened Base
  import opened FocusEvents

  /** 60, 30, 15 and 7.5 minutes, in seconds. */
  const RADII: seq<nat> := [3600, 1800, 900, 450]

  /** Go's zero time, 1 January of year 1. */
  const ZERO_TIME: int := -62135596800

  datatype Source = Manual | Cascaded

  /** One event_tags row; its key is (event, tag). */
  datatype TagRow = TagRow(source: Source, cascadeFrom: Option<int>)

  type TagTable = map<(int, int), TagRow>

  // ----- The design: every newly tagged event spreads the tag by itself -----

  /** Everything tagged so far, and what the last round added. */
  datatype Wave = Wave(tagged: set<FocusEvent>, frontier: set<FocusEvent>)

  /** `e` starts within `r` seconds of `f`. */
  ghost predicate Near(f: FocusEvent, e: FocusEvent, r: nat) {
    f.startedAt - r <= e.startedAt <= f.End() + r
  }

  ghost predicate NearSome(frontier: set<FocusEvent>, e: FocusEvent, r: nat) {
    exists f :: f in frontier && Near(f, e, r)
  }

  /** An event the round may still tag: neither submitted nor tagged already. */
  ghost predicate Open(submitted: set<int>, w: Wave, e: FocusEvent) {
    e.id !in submitted && e !in w.tagged
  }

  ghost function Spread(events: set<FocusEvent>, submitted: set<int>, w: Wave, r: nat): Wave {
    var added := set e | e in events && Open(submitted, w, e) && NearSome(w.frontier, e, r);
    Wave(w.tagged + added, added)
  }

  /** The cascade of the design document after `k` rounds. */
  ghost function Propagate(events: set<FocusEvent>, submitted: set<int>, anchor: FocusEvent, k: nat): Wave
    requires k <= |RADII|
  {
    if k == 0 then Wave({anchor}, {anchor})
    else Spread(events, submitted, Propagate(events, submitted, anchor, k - 1), RADII[k - 1])
  }

  // ----- The code: one window per round, spanned by the whole frontier -----

  ghost predicate AboveLow(frontier: set<FocusEvent>, e: FocusEvent, r: nat) {
    exists f :: f in frontier && f.startedAt - r <= e.startedAt
  }

  /** The window's upper edge is the latest end, but never before the earliest start. */
  ghost predicate BelowHigh(frontier: set<FocusEvent>, e: FocusEvent, r: nat) {
    || (exists f :: f in frontier && e.startedAt <= f.End() + r)
    || (forall f :: f in frontier ==> e.startedAt <= f.startedAt + r)
  }

  ghost function SpreadBox(events: set<FocusEvent>, submitted: set<int>, w: Wave, r: nat): Wave {
    var added := set e | e in events && Open(submitted, w, e)
                         && AboveLow(w.frontier, e, r) && BelowHigh(w.frontier, e, r);
    Wave(w.tagged + added, added)
  }

  ghost function BoxCascade(events: set<FocusEvent>, submitted: set<int>, anchor: FocusEvent, k: nat): Wave
    requires k <= |RADII|
  {
    if k == 0 then Wave({anchor}, {anchor})
    else SpreadBox(events, submitted, BoxCascade(events, submitted, anchor, k - 1), RADII[k - 1])
  }

  // ----- The shortcut tags exactly what the design tags -----

  /** What makes the window safe: the frontier's starts lie in an interval whose
      unsubmitted events have all been tagged. */
  ghost predicate Saturated(events: set<FocusEvent>, submitted: set<int>, w: Wave, lo: int, hi: int) {
    && (forall e :: e in w.frontier ==> e in events && lo <= e.startedAt <= hi)
    && (forall e :: e in events && lo <= e.startedAt <= hi ==> !Open(submitted, w, e))
  }

  /** Either the frontier is one event, or it lies in a saturated interval. */
  ghost predicate Spreadable(events: set<FocusEvent>, submitted: set<int>, w: Wave) {
    || (exists f :: f in events && w.frontier == {f})
    || (exists lo, hi :: Saturated(events, submitted, w, lo, hi))
  }

  /** In one round the window reaches no event that a single frontier event misses. */
  lemma BoxRoundIsPerEvent(events: set<FocusEvent>, submitted: set<int>, w: Wave, r: nat, e: FocusEvent)
    requires EndsOrdered(events) && w.frontier <= events && Spreadable(events, submitted, w)
    requires e in events && Open(submitted, w, e)
    ensures AboveLow(w.frontier, e, r) && BelowHigh(w.frontier, e, r) <==> NearSome(w.frontier, e, r)
  {
  }

  /** A window round leaves a frontier that the next window round may use. */
  lemma SaturatesNext(events: set<FocusEvent>, submitted: set<int>, w: Wave, r: nat)
    requires EndsOrdered(events) && w.frontier <= events
    ensures Spreadable(events, submitted, SpreadBox(events, submitted, w, r))
  {
    var next := SpreadBox(events, submitted, w, r);
    if w.frontier == {} {
      assert Saturated(events, submitted, next, 1, 0);
    } else {
      var f := Earliest(w.frontier);
      var g := Latest(w.frontier);
      var lo, hi := f.startedAt - r, g.End() + r;
      forall e | e in next.frontier ensures lo <= e.startedAt <= hi {
        var f' :| f' in w.frontier && f'.startedAt - r <= e.startedAt;
        assert g.startedAt <= g.End();
      }
      assert Saturated(events, submitted, next, lo, hi);
    }
  }

  /** An event of a non-empty set with the earliest start. */
  lemma Earliest(s: set<FocusEvent>) returns (f: FocusEvent)
    requires s != {}
    ensures f in s && forall e :: e in s ==> f.startedAt <= e.startedAt
  {
    f :| f in s;
    if e :| e in s && e.startedAt < f.startedAt {
      assert e in s - {f};
      var g := Earliest(s - {f});
      f := g;
    }
  }

  /** An event of a non-empty set with the latest end. */
  lemma Latest(s: set<FocusEvent>) returns (f: FocusEvent)
    requires s != {}
    ensures f in s && forall e :: e in s ==> e.End() <= f.End()
  {
    f :| f in s;
    if e :| e in s && f.End() < e.End() {
      assert e in s - {f};
      var g := Latest(s - {f});
      f := g;
    }
  }

  lemma BoxRoundsAgree(events: set<FocusEvent>, submitted: set<int>, w: Wave, r: nat)
    requires EndsOrdered(events) && w.frontier <= events && Spreadable(events, submitted, w)
    ensures SpreadBox(events, submitted, w, r) == Spread(events, submitted, w, r)
  {
    hide AboveLow, BelowHigh, NearSome, Spreadable;
    forall e | e in events && Open(submitted, w, e)
      ensures AboveLow(w.frontier, e, r) && BelowHigh(w.frontier, e, r) <==> NearSome(w.frontier, e, r)
    {
      BoxRoundIsPerEvent(events, submitted, w, r, e);
    }
  }

  /** Round by round, the window cascade and the per-event cascade agree. */
  lemma {:induction false} BoxCascadeIsPropagate(
    events: set<FocusEvent>, submitted: set<int>, anchor: FocusEvent, k: nat)
    requires k <= |RADII| && anchor in events && EndsOrdered(events)
    ensures BoxCascade(events, submitted, anchor, k) == Propagate(events, submitted, anchor, k)
    ensures BoxCascade(events, submitted, anchor, k).frontier <= events
    ensures Spreadable(events, submitted, BoxCascade(events, submitted, anchor, k))
  {
    if k == 0 {
      assert BoxCascade(events, submitted, anchor, 0).frontier == {anchor};
    } else {
      BoxCascadeIsPropagate(events, submitted, anchor, k - 1);
      var w := BoxCascade(events, submitted, anchor, k - 1);
      BoxRoundsAgree(events, submitted, w, RADII[k - 1]);
      SaturatesNext(events, submitted, w, RADII[k - 1]);
    }
  }

  /** The two cascades agree on the store, whatever is submitted and however many rounds. */
  ghost predicate Agree(events: set<FocusEvent>, anchor: FocusEvent) {
    forall submitted: set<int>, k: nat :: k <= |RADII| ==>
      BoxCascade(events, submitted, anchor, k) == Propagate(events, submitted, anchor, k)
  }

  /** An anchor that ends before it starts has a window that reaches `x`, one radius after
      its start; the anchor itself does not. */
  lemma ReversedAnchorDiffers(events: set<FocusEvent>, anchor: FocusEvent, x: FocusEvent)
    requires anchor in events && anchor.End() < anchor.startedAt
    requires x in events && x.startedAt == anchor.startedAt + RADII[0]
    ensures !Agree(events, anchor)
  {
    var start := Wave({anchor}, {anchor});
    assert BoxCascade(events, {}, anchor, 0) == start == Propagate(events, {}, anchor, 0);
    assert x in SpreadBox(events, {}, start, RADII[0]).tagged && x !in Spread(events, {}, start, RADII[0]).tagged;
    assert BoxCascade(events, {}, anchor, 1) != Propagate(events, {}, anchor, 1);
  }

  /** Exactly when the windows are safe on a store, for every anchor in it and every
      further event it may get: no event in it ends before it starts. */
  lemma AgreesIffEndsOrdered(events: set<FocusEvent>)
    ensures EndsOrdered(events) <==>
            forall anchor: FocusEvent, x: FocusEvent ::
              anchor in events && x.startedAt <= x.End() && x.id !in Ids(events) ==>
              Agree(events + {x}, anchor)
  {
    if EndsOrdered(events) {
      forall anchor: FocusEvent, x: FocusEvent | anchor in events && x.startedAt <= x.End() && x.id !in Ids(events)
        ensures Agree(events + {x}, anchor)
      {
        forall submitted: set<int>, k: nat | k <= |RADII|
          ensures BoxCascade(events + {x}, submitted, anchor, k) == Propagate(events + {x}, submitted, anchor, k)
        {
          BoxCascadeIsPropagate(events + {x}, submitted, anchor, k);
        }
      }
    } else {
      var anchor :| anchor in events && anchor.End() < anchor.startedAt;
      var id := AboveAll(Ids(events));
      var x := FocusEvent(id, "", "", anchor.startedAt + RADII[0], None, None, false);
      ReversedAnchorDiffers(events + {x}, anchor, x);
    }
  }

  /** An example: an anchor whose recorded end precedes its start. */
  lemma BoxCascadeDiffersOnReversedEvents()
    ensures var anchor := FocusEvent(1, "app", "", 0, Some(-10000), None, false);
            var early := FocusEvent(2, "app", "", -3000, Some(-2000), None, false);
            && early in BoxCascade({anchor, early}, {}, anchor, 1).tagged
            && early !in Propagate({anchor, early}, {}, anchor, 1).tagged
  {
  }

  // ----- How far the tag can travel -----

  ghost function Radius(k: nat): nat
    requires k <= |RADII|
  {
    if k == 0 then 0 else Radius(k - 1) + RADII[k - 1]
  }

  lemma FullRadius()
    ensures Radius(|RADII|) == 6750
  {
    assert Radius(3) == Radius(2) + 900 && Radius(2) == Radius(1) + 1800 && Radius(1) == 3600;
  }

  ghost predicate Within(e: FocusEvent, anchor: FocusEvent, r: nat, slack: nat) {
    anchor.startedAt - r <= e.startedAt <= anchor.startedAt + r + slack
  }

  /** After `k` rounds the tag has travelled at most the sum of the radii backwards,
      and forwards at most that plus the length of `k` events. Apart from the anchor
      it has touched only stored, unsubmitted events. */
  lemma {:induction false} Reach(
    events: set<FocusEvent>, submitted: set<int>, anchor: FocusEvent, longest: nat, k: nat)
    requires k <= |RADII| && anchor in events
    requires forall e :: e in events ==> e.End() - e.startedAt <= longest
    ensures var w := BoxCascade(events, submitted, anchor, k);
            && anchor in w.tagged && w.frontier <= w.tagged <= events
            && (forall e :: e in w.tagged ==> Within(e, anchor, Radius(k), k * longest))
            && (forall e :: e in w.tagged && e != anchor ==> e.id !in submitted)
  {
    if k != 0 {
      Reach(events, submitted, anchor, longest, k - 1);
      var w := BoxCascade(events, submitted, anchor, k - 1);
      assert k * longest == (k - 1) * longest + longest;
      ReachRound(events, submitted, w, anchor, longest, Radius(k - 1), (k - 1) * longest, RADII[k - 1]);
    }
  }

  /** One round moves the bounds out by its radius, and by one event on the late side. */
  lemma ReachRound(events: set<FocusEvent>, submitted: set<int>, w: Wave, anchor: FocusEvent,
                   longest: nat, r: nat, slack: nat, step: nat)
    requires w.frontier <= w.tagged <= events
    requires forall e :: e in events ==> e.End() - e.startedAt <= longest
    requires forall e :: e in w.tagged ==> Within(e, anchor, r, slack)
    ensures forall e :: e in SpreadBox(events, submitted, w, step).tagged ==>
              Within(e, anchor, r + step, slack + longest)
  {
  }

  /** The whole cascade stays within 112.5 minutes of the anchor, plus four times the
      longest event on the late side. */
  lemma CascadeReach(events: set<FocusEvent>, submitted: set<int>, anchor: FocusEvent, longest: nat, e: FocusEvent)
    requires anchor in events
    requires forall e :: e in events ==> e.End() - e.startedAt <= longest
    requires e in BoxCascade(events, submitted, anchor, |RADII|).tagged
    ensures anchor.startedAt - 6750 <= e.startedAt <= anchor.startedAt + 6750 + 4 * longest
    ensures e == anchor || e.id !in submitted
  {
    Reach(events, submitted, anchor, longest, |RADII|);
    FullRadius();
    assert Within(e, anchor, Radius(|RADII|), 4 * longest);
  }

  // ----- Which gaps the tag crosses -----

  /** What the code tags. */
  ghost function Reached(events: set<FocusEvent>, submitted: set<int>, anchor: FocusEvent): set<FocusEvent> {
    BoxCascade(events, submitted, anchor, |RADII|).tagged
  }

  lemma {:induction false} TaggedGrows(
    events: set<FocusEvent>, submitted: set<int>, anchor: FocusEvent, j: nat, k: nat)
    requires j <= k <= |RADII|
    ensures BoxCascade(events, submitted, anchor, j).tagged <= BoxCascade(events, submitted, anchor, k).tagged
  {
    if j < k {
      TaggedGrows(events, submitted, anchor, j, k - 1);
    }
  }

  /** Whatever is tagged was once in the frontier. */
  lemma {:induction false} EnteredFrontier(
    events: set<FocusEvent>, submitted: set<int>, anchor: FocusEvent, k: nat, e: FocusEvent) returns (j: nat)
    requires k <= |RADII| && e in BoxCascade(events, submitted, anchor, k).tagged
    ensures j <= k && e in BoxCascade(events, submitted, anchor, j).frontier
  {
    if e in BoxCascade(events, submitted, anchor, k).frontier {
      j := k;
    } else {
      j := EnteredFrontier(events, submitted, anchor, k - 1, e);
    }
  }

  /** An event tagged after `k` rounds passes the tag on over the gap of the next round:
      if it was tagged sooner, it did so with a larger radius. */
  lemma CrossesGap(
    events: set<FocusEvent>, submitted: set<int>, anchor: FocusEvent, k: nat, f: FocusEvent, e: FocusEvent)
    requires k < |RADII| && f in BoxCascade(events, submitted, anchor, k).tagged && f.startedAt <= f.End()
    requires e in events && e.id !in submitted && Near(f, e, RADII[k])
    ensures e in BoxCascade(events, submitted, anchor, k + 1).tagged
  {
    var j := EnteredFrontier(events, submitted, anchor, k, f);
    assert RADII[k] <= RADII[j];
    TaggedGrows(events, submitted, anchor, j + 1, k + 1);
  }

  /** An hour, halved in every round. */
  function DesignRadius(round: nat): nat {
    if round == 0 then 3600 else DesignRadius(round - 1) / 2
  }

  /** A chain of unsubmitted events is tagged as far as each is near enough to the one
      before it: within 60, 30, 15 and 7.5 minutes. */
  lemma {:induction false} ChainIsReached(events: set<FocusEvent>, submitted: set<int>, s: seq<FocusEvent>, k: nat)
    requires EndsOrdered(events) && k < |s| && k <= |RADII| && s[0] in events
    requires forall i :: 0 < i <= k ==> s[i] in events && s[i].id !in submitted
    requires forall i :: 0 <= i < k ==> Near(s[i], s[i + 1], DesignRadius(i))
    ensures s[k] in BoxCascade(events, submitted, s[0], k).tagged && s[k] in Reached(events, submitted, s[0])
  {
    if k > 0 {
      hide BoxCascade, Near, DesignRadius;
      ChainIsReached(events, submitted, s, k - 1);
      DesignRadii();
      CrossesGap(events, submitted, s[0], k - 1, s[k - 1], s[k]);
    }
    TaggedGrows(events, submitted, s[0], k, |RADII|);
  }

  /** No event that starts by `late[j]` comes within a round's radius of one that starts
      after `late[j + 1]`. */
  ghost predicate Barrier(events: set<FocusEvent>, late: seq<int>) {
    && |late| == |RADII| + 1 && (forall j :: 0 <= j < |RADII| ==> late[j] <= late[j + 1])
    && forall j :: 0 <= j < |RADII| ==> Blocks(events, late[j], late[j + 1], RADII[j])
  }

  ghost predicate Blocks(events: set<FocusEvent>, from: int, to: int, r: nat) {
    forall f, e :: f in events && e in events && f.startedAt <= from && e.startedAt <= f.End() + r ==> e.startedAt <= to
  }

  /** The tag does not pass a barrier. */
  lemma {:induction false} StaysEarly(
    events: set<FocusEvent>, submitted: set<int>, anchor: FocusEvent, late: seq<int>, k: nat)
    requires EndsOrdered(events) && anchor in events && k <= |RADII| && Barrier(events, late)
    requires anchor.startedAt <= late[0]
    ensures var w := BoxCascade(events, submitted, anchor, k);
            w.frontier <= w.tagged <= events && forall e :: e in w.tagged ==> e.startedAt <= late[k]
  {
    if k > 0 {
      StaysEarly(events, submitted, anchor, late, k - 1);
      var w := BoxCascade(events, submitted, anchor, k - 1);
      hide BoxCascade;
      assert Blocks(events, late[k - 1], late[k], RADII[k - 1]);
      hide Barrier;
      RoundStaysEarly(events, submitted, w, RADII[k - 1], late[k - 1], late[k]);
      assert BoxCascade(events, submitted, anchor, k) == SpreadBox(events, submitted, w, RADII[k - 1]) by {
        NextRound(events, submitted, anchor, k);
      }
    }
  }

  lemma NextRound(events: set<FocusEvent>, submitted: set<int>, anchor: FocusEvent, k: nat)
    requires 0 < k <= |RADII|
    ensures BoxCascade(events, submitted, anchor, k)
            == SpreadBox(events, submitted, BoxCascade(events, submitted, anchor, k - 1), RADII[k - 1])
  {
  }

  lemma RoundStaysEarly(events: set<FocusEvent>, submitted: set<int>, w: Wave, r: nat, from: int, to: int)
    requires EndsOrdered(events) && Blocks(events, from, to, r) && from <= to
    requires w.frontier <= w.tagged <= events && forall e :: e in w.tagged ==> e.startedAt <= from
    ensures var next := SpreadBox(events, submitted, w, r);
            next.frontier <= next.tagged <= events && forall e :: e in next.tagged ==> e.startedAt <= to
  {
    forall e | e in SpreadBox(events, submitted, w, r).frontier ensures e.startedAt <= to {
      var f :| f in w.frontier && e.startedAt <= f.End() + r;
    }
  }

  /** The events follow one another. */
  ghost predicate InARow(s: seq<FocusEvent>) {
    && (forall i :: 0 <= i < |s| ==> s[i].startedAt <= s[i].End())
    && (forall i, j :: 0 <= i < j < |s| ==> s[i].End() <= s[j].startedAt)
  }

  /** The time between an event and the next. */
  function Gap(s: seq<FocusEvent>, i: nat): int
    requires i + 1 < |s|
  {
    s[i + 1].startedAt - s[i].End()
  }

  /** In a store of five events in a row and no other, the tag crosses gaps of an hour and
      its halves, and not a second more. */
  lemma RadiiAreExact(s: seq<FocusEvent>, k: nat)
    requires |s| == 5 && InARow(s) && k < 4
    requires forall i :: 0 <= i < k ==> Gap(s, i) == DesignRadius(i)
    ensures s[k + 1] in Reached(Elems(s), {}, s[0]) <==> Gap(s, k) <= DesignRadius(k)
  {
    hide DesignRadius, Reached;
    DesignRadii();
    if Gap(s, k) <= DesignRadius(k) {
      ChainIsReached(Elems(s), {}, s, k + 1);
    } else {
      TooWideAGap(s, k);
    }
  }

  lemma TooWideAGap(s: seq<FocusEvent>, k: nat)
    requires |s| == 5 && InARow(s) && k < 4 && Gap(s, k) > DesignRadius(k)
    requires forall i :: 0 <= i < k ==> Gap(s, i) == DesignRadius(i)
    ensures s[k + 1] !in Reached(Elems(s), {}, s[0])
  {
    hide Reached, Gap, DesignRadius, Blocks, BoxCascade;
    var late := [Late(s, k, 0), Late(s, k, 1), Late(s, k, 2), Late(s, k, 3), Late(s, k, 4)];
    LateStops(s, k);
    RoundIsBlocked(s, k, 0);
    RoundIsBlocked(s, k, 1);
    RoundIsBlocked(s, k, 2);
    RoundIsBlocked(s, k, 3);
    hide InARow, Late;
    assert Barrier(Elems(s), late);
    StaysEarly(Elems(s), {}, s[0], late, 4);
    NotReached(Elems(s), s[0], s[k + 1], late[4]);
  }

  lemma LateStops(s: seq<FocusEvent>, k: nat)
    requires |s| == 5 && InARow(s) && k < 4 && Gap(s, k) > DesignRadius(k)
    ensures EndsOrdered(Elems(s)) && Late(s, k, 0) == s[0].startedAt && Late(s, k, 4) < s[k + 1].startedAt
  {
  }

  /** The latest start the tag may have reached after `j` rounds, when gap `k` stops it. */
  function Late(s: seq<FocusEvent>, k: nat, j: nat): int
    requires |s| == 5 && k < 4
  {
    s[if j <= k then j else k].startedAt
  }

  lemma NotReached(events: set<FocusEvent>, anchor: FocusEvent, e: FocusEvent, latest: int)
    requires forall f :: f in BoxCascade(events, {}, anchor, |RADII|).tagged ==> f.startedAt <= latest
    requires latest < e.startedAt
    ensures e !in Reached(events, {}, anchor)
  {
  }

  lemma RoundIsBlocked(s: seq<FocusEvent>, k: nat, j: nat)
    requires |s| == 5 && InARow(s) && k < 4 && j < 4 && Gap(s, k) > DesignRadius(k)
    requires forall i :: 0 <= i < k ==> Gap(s, i) == DesignRadius(i)
    ensures Blocks(Elems(s), Late(s, k, j), Late(s, k, j + 1), RADII[j]) && Late(s, k, j) <= Late(s, k, j + 1)
  {
    var last, next := if j <= k then j else k, if j + 1 <= k then j + 1 else k;
    GapStops(s, k, j, last);
    assert s[last].startedAt <= s[next].startedAt;
    hide Gap, DesignRadius, InARow;
    BlockedBetween(s, last, next, RADII[j]);
  }

  lemma GapStops(s: seq<FocusEvent>, k: nat, j: nat, last: nat)
    requires |s| == 5 && k < 4 && j < 4 && Gap(s, k) > DesignRadius(k) && last == if j <= k then j else k
    requires forall i :: 0 <= i < k ==> Gap(s, i) == DesignRadius(i)
    ensures 0 < RADII[j] <= Gap(s, last) && (j >= k ==> RADII[j] < Gap(s, last))
  {
    hide DesignRadius, Gap;
    DesignRadii();
  }

  lemma BlockedBetween(s: seq<FocusEvent>, last: nat, next: nat, r: nat)
    requires InARow(s) && last + 1 < |s| && next < |s| && 0 < Gap(s, last)
    requires (next == last && r < Gap(s, last)) || (next == last + 1 && r <= Gap(s, last))
    ensures Blocks(Elems(s), s[last].startedAt, s[next].startedAt, r)
  {
    hide InARow, Gap;
    forall f, e | f in Elems(s) && e in Elems(s) && f.startedAt <= s[last].startedAt && e.startedAt <= f.End() + r
      ensures e.startedAt <= s[next].startedAt
    {
      var a :| 0 <= a < |s| && s[a] == f;
      var b :| 0 <= b < |s| && s[b] == e;
      NotAcross(s, last, next, r, a, b);
    }
  }

  /** What starts by event `last` does not pass `next`: that is the same event, and the
      radius is less than the gap after it, or the one after the gap. */
  lemma NotAcross(s: seq<FocusEvent>, last: nat, next: nat, r: nat, a: nat, b: nat)
    requires InARow(s) && last + 1 < |s| && a < |s| && b < |s| && 0 < Gap(s, last)
    requires (next == last && r < Gap(s, last)) || (next == last + 1 && r <= Gap(s, last))
    requires s[a].startedAt <= s[last].startedAt && s[b].startedAt <= s[a].End() + r
    ensures s[b].startedAt <= s[next].startedAt
  {
    StartsAfter(s, last);
    hide InARow;
    assert a <= last && s[a].End() <= s[last].End();
  }

  /** Where the other events stand relative to one of them. */
  lemma StartsAfter(s: seq<FocusEvent>, i: nat)
    requires InARow(s) && i < |s|
    ensures forall c :: 0 <= c <= i ==> s[c].startedAt <= s[i].startedAt && s[c].End() <= s[i].End()
    ensures forall c :: i < c < |s| ==>
              i + 1 < |s| && s[i].startedAt + Gap(s, i) <= s[i + 1].startedAt <= s[c].startedAt
  {
  }

  lemma DesignRadii()
    ensures RADII == [DesignRadius(0), DesignRadius(1), DesignRadius(2), DesignRadius(3)] == [3600, 1800, 900, 450]
  {
    assert DesignRadius(1) == 1800 && DesignRadius(2) == 900;
  }

  // ----- The event_tags table -----

  ghost function NewRow(id: int, anchor: int): TagRow {
    if id == anchor then TagRow(Manual, None) else TagRow(Cascaded, Some(anchor))
  }

  /** The table once every id in `ids` carries the tag: rows already there stay as
      they are (INSERT OR IGNORE). */
  ghost function TagAll(t: TagTable, ids: set<int>, anchor: int, tag: int): TagTable {
    map k | k in t.Keys + (set i | i in ids :: (i, tag)) :: if k in t then t[k] else NewRow(k.0, anchor)
  }

  lemma TagAllAddsOne(t: TagTable, ids: set<int>, id: int, anchor: int, tag: int)
    ensures var u := TagAll(t, ids, anchor, tag);
            TagAll(t, ids + {id}, anchor, tag)
            == if (id, tag) in u then u else u[(id, tag) := NewRow(id, anchor)]
  {
  }

  /** Running the same cascade again changes no row. */
  lemma TagAllTwice(t: TagTable, ids: set<int>, anchor: int, tag: int)
    ensures TagAll(TagAll(t, ids, anchor, tag), ids, anchor, tag) == TagAll(t, ids, anchor, tag)
    ensures forall k :: k in t ==> k in TagAll(t, ids, anchor, tag) && TagAll(t, ids, anchor, tag)[k] == t[k]
  {
  }

  ghost function Ids(s: set<FocusEvent>): set<int> {
    set e | e in s :: e.id
  }

  ghost predicate Has(events: seq<FocusEvent>, id: int) {
    exists e :: e in events && e.id == id
  }

  /** The stored event with the given id. */
  ghost function Anchor(events: seq<FocusEvent>, id: int): FocusEvent
    requires Has(events, id)
  {
    var e :| e in events && e.id == id;
    e
  }

  // ----- The stores and the algorithm -----

  class Store {
    var events: seq<FocusEvent>
    var submissionEvents: set<(int, int)>   // (submission, event)
    var eventTags: TagTable

    ghost predicate Valid()
      reads `events
    {
      DistinctIds(events)
    }

    ghost function Submitted(): set<int>
      reads `submissionEvents
    {
      set link | link in submissionEvents :: link.1
    }

    constructor (events: seq<FocusEvent>, submissionEvents: set<(int, int)>, eventTags: TagTable)
      requires DistinctIds(events)
      ensures Valid() && this.events == events
      ensures this.submissionEvents == submissionEvents && this.eventTags == eventTags
    {
      this.events, this.submissionEvents, this.eventTags := events, submissionEvents, eventTags;
    }

    method GetFocusEvent(id: int) returns (r: Option<FocusEvent>)
      ensures r.Some? ==> r.value in events && r.value.id == id
      ensures r.None? ==> forall e :: e in events ==> e.id != id
    {
      for i := 0 to |events|
        invariant forall e :: e in events[..i] ==> e.id != id
      {
        if events[i].id == id {
          return Some(events[i]);
        }
      }
      return None;
    }

    method IsEventSubmitted(id: int) returns (b: bool)
      ensures b <==> id in Submitted()
    {
      b := exists link :: link in submissionEvents && link.1 == id;
    }

    /** INSERT OR IGNORE INTO event_tags. */
    method ApplyTagToEvent(id: int, tag: int, row: TagRow)
      modifies this`eventTags
      ensures eventTags == if (id, tag) in old(eventTags) then old(eventTags)
                           else old(eventTags)[(id, tag) := row]
    {
      if (id, tag) !in eventTags {
        eventTags := eventTags[(id, tag) := row];
      }
    }
  }

  /** The earliest start, and the latest end but never before the first event's start. */
  method FrontierBounds(events: seq<FocusEvent>) returns (minT: int, maxT: int)
    ensures events != [] ==> IsWindow(events, minT, maxT)
    ensures events == [] ==> minT == maxT == ZERO_TIME
  {
    if |events| == 0 {
      return ZERO_TIME, ZERO_TIME;
    }
    minT, maxT := events[0].startedAt, events[0].startedAt;
    for i := 1 to |events|
      invariant exists e :: e in events[..i] && e.startedAt == minT
      invariant forall e :: e in events[..i] ==> minT <= e.startedAt
      invariant forall j :: 1 <= j < i ==> events[j].End() <= maxT
      invariant maxT == events[0].startedAt || exists e :: e in events && e.End() == maxT
      invariant events[0].startedAt <= maxT
    {
      assert events[..i + 1] == events[..i] + [events[i]];
      if events[i].startedAt < minT {
        minT := events[i].startedAt;
      }
      if events[i].End() > maxT {
        maxT := events[i].End();
      }
    }
    assert events[..|events|] == events;
    if events[0].endedAt.Some? && events[0].endedAt.value > maxT {
      maxT := events[0].endedAt.value;
    }
  }

  class Cascader {
    const store: Store

    constructor (store: Store)
      ensures this.store == store
    {
      this.store := store;
    }

    /** Tags the anchor and everything the cascade reaches, and returns the ids. */
    method Apply(anchorID: int, tagID: int) returns (r: Result<seq<int>, string>)
      requires store.Valid()
      modifies store`eventTags
      ensures r.Ok? <==> Has(store.events, anchorID)
      ensures r.Err? ==> store.eventTags == old(store.eventTags)
      ensures r.Ok? ==> Elems(r.value) == Ids(BoxCascade(
                Elems(store.events), store.Submitted(), Anchor(store.events, anchorID), |RADII|).tagged)
      ensures r.Ok? && EndsOrdered(Elems(store.events)) ==> Elems(r.value) == Ids(Propagate(
                Elems(store.events), store.Submitted(), Anchor(store.events, anchorID), |RADII|).tagged)
      ensures r.Ok? ==> forall i, j :: 0 <= i < j < |r.value| ==> r.value[i] != r.value[j]
      ensures r.Ok? ==> store.eventTags == TagAll(old(store.eventTags), Elems(r.value), anchorID, tagID)
      ensures r.Ok? ==> forall k :: k in store.eventTags && k !in old(store.eventTags) ==>
                && k.1 == tagID && k.0 in r.value
                && (k.0 == anchorID ==> store.eventTags[k] == TagRow(Manual, None))
                && (k.0 != anchorID ==> store.eventTags[k] == TagRow(Cascaded, Some(anchorID)))
    {
      var found := store.GetFocusEvent(anchorID);
      if found.None? {
        return Err("get anchor event");
      }
      var anchor := found.value;
      SameId(store.events, {Anchor(store.events, anchorID)}, anchor);
      ghost var events, submitted := Elems(store.events), store.Submitted();

      store.ApplyTagToEvent(anchorID, tagID, TagRow(Manual, None));
      TagAllAddsOne(old(store.eventTags), {}, anchorID, anchorID, tagID);
      assert TagAll(old(store.eventTags), {}, anchorID, tagID) == old(store.eventTags);
      assert {} + {anchorID} == {anchorID};
      var tagged := Rounds(anchor, tagID, old(store.eventTags));
      if EndsOrdered(events) {
        BoxCascadeIsPropagate(events, submitted, anchor, |RADII|);
      }
      var ids := Enumerate(tagged);
      r := Ok(ids);
    }

    /** The loop over cascadeSteps, entered with the anchor tagged. */
    method Rounds(anchor: FocusEvent, tagID: int, ghost table: TagTable) returns (tagged: set<int>)
      requires store.Valid() && anchor in store.events
      requires store.eventTags == TagAll(table, {anchor.id}, anchor.id, tagID)
      modifies store`eventTags
      ensures tagged == Ids(BoxCascade(Elems(store.events), store.Submitted(), anchor, |RADII|).tagged)
      ensures store.eventTags == TagAll(table, tagged, anchor.id, tagID)
    {
      ghost var events, submitted := Elems(store.events), store.Submitted();
      ghost var w := Wave({anchor}, {anchor});
      var frontier := [anchor];
      tagged := {anchor.id};
      assert Ids({anchor}) == {anchor.id};
      for k := 0 to |RADII|
        invariant w == BoxCascade(events, submitted, anchor, k)
        invariant anchor in w.tagged && w.tagged <= events
        invariant Elems(frontier) == w.frontier <= events && ByStart(frontier)
        invariant tagged == Ids(w.tagged)
        invariant store.eventTags == TagAll(table, tagged, anchor.id, tagID)
      {
        if |frontier| == 0 {
          assert w.frontier == {};
          EmptyFrontierStops(events, submitted, anchor, k, |RADII|);
          break;
        }
        tagged, frontier := Round(anchor.id, tagID, RADII[k], tagged, frontier, table, w);
        SpreadsWithin(events, submitted, w, RADII[k]);
        w := SpreadBox(events, submitted, w, RADII[k]);
      }
    }

    /** One pass of that loop. */
    method Round(anchorID: int, tagID: int, radius: nat, tagged: set<int>, frontier: seq<FocusEvent>,
                 ghost table: TagTable, ghost w: Wave)
      returns (tagged': set<int>, frontier': seq<FocusEvent>)
      requires store.Valid() && frontier != [] && ByStart(frontier)
      requires w.tagged <= Elems(store.events) && Elems(frontier) == w.frontier
      requires tagged == Ids(w.tagged) && anchorID in tagged
      requires store.eventTags == TagAll(table, tagged, anchorID, tagID)
      modifies store`eventTags
      ensures var next := SpreadBox(Elems(store.events), store.Submitted(), w, radius);
              tagged' == Ids(next.tagged) && Elems(frontier') == next.frontier && ByStart(frontier')
      ensures store.eventTags == TagAll(table, tagged', anchorID, tagID)
    {
      hide TagAll, SpreadBox, ListFocusEvents;
      var minT, maxT := FrontierBounds(frontier);
      var candidates := ListFocusEvents(store.events, minT - radius, maxT + radius);
      SelectedIsFrontier(store.events, store.Submitted(), w, frontier, minT, maxT, radius);
      tagged', frontier' := tagged, [];
      for i := 0 to |candidates|
        invariant frontier' == SelectOpen(candidates[..i], store.Submitted(), w)
        invariant tagged' == Ids(w.tagged + Elems(frontier')) && anchorID in tagged'
        invariant store.eventTags == TagAll(table, tagged', anchorID, tagID)
      {
        PrefixStep(candidates, i);
        tagged', frontier' := Visit(anchorID, tagID, candidates[i], tagged', frontier', table, w, candidates[..i]);
      }
      assert candidates[..|candidates|] == candidates;
    }

    /** The body of the loop over the candidates. */
    method Visit(anchorID: int, tagID: int, ev: FocusEvent, tagged: set<int>, frontier: seq<FocusEvent>,
                 ghost table: TagTable, ghost w: Wave, ghost seen: seq<FocusEvent>)
      returns (tagged': set<int>, frontier': seq<FocusEvent>)
      requires store.Valid() && ev in store.events && anchorID in tagged
      requires w.tagged <= Elems(store.events) && ByStart(seen) && Elems(seen) <= Elems(store.events)
      requires frontier == SelectOpen(seen, store.Submitted(), w)
      requires tagged == Ids(w.tagged + Elems(frontier))
      requires store.eventTags == TagAll(table, tagged, anchorID, tagID)
      modifies store`eventTags
      ensures frontier' == SelectOpen(seen + [ev], store.Submitted(), w)
      ensures tagged' == Ids(w.tagged + Elems(frontier')) && tagged <= tagged'
      ensures store.eventTags == TagAll(table, tagged', anchorID, tagID)
    {
      tagged', frontier' := tagged, frontier;
      assert (seen + [ev])[..|seen|] == seen;
      SelectedOpen(seen, store.Submitted(), w);
      assert Elems(frontier) <= Elems(store.events) by {
        forall e | e in Elems(frontier) ensures e in Elems(store.events) { assert e in Elems(seen); }
      }
      SameId(store.events, w.tagged + Elems(frontier), ev);
      if ev.id in tagged {
        return;
      }
      var submitted := store.IsEventSubmitted(ev.id);
      if submitted {
        return;
      }
      TagAllAddsOne(table, tagged, ev.id, anchorID, tagID);
      store.ApplyTagToEvent(ev.id, tagID, TagRow(Cascaded, Some(anchorID)));
      tagged' := tagged + {ev.id};
      ElemsAppend(frontier, ev);
      frontier' := frontier + [ev];
    }
  }

  /** The open events among the candidates are the next frontier. */
  lemma SelectedIsFrontier(events: seq<FocusEvent>, submitted: set<int>, w: Wave,
                           frontier: seq<FocusEvent>, minT: int, maxT: int, r: nat)
    requires IsWindow(frontier, minT, maxT) && ByStart(frontier) && Elems(frontier) == w.frontier
    ensures var selected := SelectOpen(ListFocusEvents(events, minT - r, maxT + r), submitted, w);
            && Elems(selected) == SpreadBox(Elems(events), submitted, w, r).frontier && ByStart(selected)
            && SpreadBox(Elems(events), submitted, w, r).tagged == w.tagged + Elems(selected)
  {
    var candidates := ListFocusEvents(events, minT - r, maxT + r);
    SelectedOpen(candidates, submitted, w);
    forall e ensures e in Elems(SelectOpen(candidates, submitted, w))
                     <==> e in SpreadBox(Elems(events), submitted, w, r).frontier
    {
      WindowIsBox(frontier, minT, maxT, r, e);
    }
  }

  lemma SpreadsWithin(events: set<FocusEvent>, submitted: set<int>, w: Wave, r: nat)
    requires w.tagged <= events
    ensures var next := SpreadBox(events, submitted, w, r);
            w.tagged <= next.tagged && next.tagged <= events && next.frontier <= events
  {
  }

  /** The candidates a round tags, in the order it meets them. */
  ghost function SelectOpen(s: seq<FocusEvent>, submitted: set<int>, w: Wave): seq<FocusEvent> {
    if s == [] then []
    else
      var rest, e := SelectOpen(s[..|s| - 1], submitted, w), s[|s| - 1];
      if Open(submitted, w, e) && e !in rest then rest + [e] else rest
  }

  lemma {:induction false} SelectedOpen(s: seq<FocusEvent>, submitted: set<int>, w: Wave)
    requires ByStart(s)
    ensures ByStart(SelectOpen(s, submitted, w))
    ensures forall e :: e in SelectOpen(s, submitted, w) <==> e in s && Open(submitted, w, e)
  {
    hide Open;
    if s != [] {
      var init, last := s[..|s| - 1], s[|s| - 1];
      SelectedOpen(init, submitted, w);
      assert forall e :: e in s <==> e in init || e == last;
      var rest := SelectOpen(init, submitted, w);
      forall i | 0 <= i < |rest| ensures rest[i].startedAt <= last.startedAt {
        assert rest[i] in rest;
        var j :| 0 <= j < |init| && init[j] == rest[i];
      }
    }
  }

  /** Ids tell stored events apart. */
  lemma SameId(events: seq<FocusEvent>, s: set<FocusEvent>, e: FocusEvent)
    requires DistinctIds(events) && s <= Elems(events) && e in events
    ensures e.id in Ids(s) <==> e in s
  {
  }

  /** Once a round adds nothing, no later round does. */
  lemma {:induction false} EmptyFrontierStops(
    events: set<FocusEvent>, submitted: set<int>, anchor: FocusEvent, k: nat, n: nat)
    requires k <= n <= |RADII| && BoxCascade(events, submitted, anchor, k).frontier == {}
    ensures BoxCascade(events, submitted, anchor, n) == BoxCascade(events, submitted, anchor, k)
    decreases n
  {
    if k < n {
      EmptyFrontierStops(events, submitted, anchor, k, n - 1);
    }
  }

  /** `minT` and `maxT` are the bounds of a frontier. */
  ghost predicate IsWindow(frontier: seq<FocusEvent>, minT: int, maxT: int) {
    && frontier != [] && frontier[0].startedAt <= maxT
    && (exists e :: e in frontier && e.startedAt == minT)
    && (forall e :: e in frontier ==> minT <= e.startedAt && e.End() <= maxT)
    && (maxT == frontier[0].startedAt || exists e :: e in frontier && e.End() == maxT)
  }

  /** The search window computed by FrontierBounds is the box of the specification. */
  lemma WindowIsBox(frontier: seq<FocusEvent>, minT: int, maxT: int, r: nat, x: FocusEvent)
    requires IsWindow(frontier, minT, maxT) && ByStart(frontier)
    ensures minT - r <= x.startedAt <= maxT + r
            <==> AboveLow(Elems(frontier), x, r) && BelowHigh(Elems(frontier), x, r)
  {
  }
}
