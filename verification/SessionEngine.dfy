/** The session engine (internal/client/session/engine.go): it turns focus changes and
    presence changes into focus events, and what it records can be trusted when it is
    aggregated. */
module SessionEngine {
  import opened Base
  import opened FocusEvents
  import opened Grouping
  import opened Aggregation

  datatype Presence = Tracking | Checking | Paused | Away

  /** The engine's fields and the event table it writes. Rows are only ever added, so a
      new row's id is the number of rows. No event is current when `current` is 0. */
  datatype State = State(current: nat, paused: bool, events: seq<FocusEvent>)

  /** What the engine handles, when, and whether the statements it leads to succeed. */
  datatype Input =
    | Focus(at: int, app: string, title: string, endOk: bool, insertOk: bool)
    | Change(at: int, presence: Presence, endOk: bool)
    | Stop(at: int, endOk: bool)

  /** UPDATE focus_events SET ended_at = ?, duration_s = ... WHERE id = ?. */
  function EndFocusEvent(events: seq<FocusEvent>, id: nat, at: int): (r: seq<FocusEvent>)
    ensures |r| == |events|
  {
    if 0 < id <= |events| then
      var e := events[id - 1];
      events[id - 1 := e.(endedAt := Some(at), durationS := Some(at - e.startedAt))]
    else events
  }

  function EndCurrent(s: State, at: int, endOk: bool): State {
    if s.current > 0 then
      s.(events := if endOk then EndFocusEvent(s.events, s.current, at) else s.events, current := 0)
    else s
  }

  function Step(s: State, i: Input): State {
    match i
    case Focus(at, app, title, endOk, insertOk) =>
      if s.paused then s
      else
        var ended := if s.current > 0 && endOk then EndFocusEvent(s.events, s.current, at) else s.events;
        if insertOk then
          var id := |ended| + 1;
          State(id, false, ended + [FocusEvent(id, app, title, at, None, None, false)])
        else s.(events := ended)
    case Change(at, presence, endOk) =>
      if presence == Away || presence == Paused then EndCurrent(s, at, endOk).(paused := true)
      else if presence == Tracking then s.(paused := false)
      else s
    case Stop(at, endOk) => EndCurrent(s, at, endOk)
  }

  /** A daemon run over a table that already holds the rows of earlier runs. */
  function Run(prior: seq<FocusEvent>, inputs: seq<Input>): State {
    if inputs == [] then State(0, false, prior)
    else Step(Run(prior, inputs[..|inputs| - 1]), inputs[|inputs| - 1])
  }

  // ----- What every run keeps -----

  /** A closed event's duration is the time between its start and its end. */
  ghost predicate Consistent(e: FocusEvent) {
    && e.startedAt <= e.End()
    && e.durationS == if e.endedAt.Some? then Some(e.End() - e.startedAt) else None
  }

  /** Consistent events one after another, none reaching past `now`. */
  ghost predicate Timeline(events: seq<FocusEvent>, now: int) {
    events == [] ||
    (var init, last := events[..|events| - 1], events[|events| - 1];
     Consistent(last) && last.End() <= now && Timeline(init, last.startedAt))
  }

  /** The earlier rows form a timeline up to the start, and inputs are handled from then
      on in timestamp order. */
  ghost predicate WellTimed(prior: seq<FocusEvent>, start: int, inputs: seq<Input>) {
    && Timeline(prior, start)
    && (forall i :: 0 <= i < |inputs| ==> start <= inputs[i].at)
    && (forall i, j :: 0 <= i < j < |inputs| ==> inputs[i].at <= inputs[j].at)
  }

  /** The time of the last input. */
  function Latest(start: int, inputs: seq<Input>): int {
    if inputs == [] then start else inputs[|inputs| - 1].at
  }

  ghost predicate Inv(s: State, now: int) {
    && Timeline(s.events, now)
    && (s.current == 0 || s.current == |s.events|)
    && (s.paused ==> s.current == 0)
  }

  lemma StepKeepsInv(s: State, i: Input, now: int)
    requires Inv(s, now) && now <= i.at
    ensures Inv(Step(s, i), i.at)
  {
  }

  /** Whatever statements fail, the events form a timeline, the current event is the last
      one, and there is none while paused. */
  lemma {:induction false} RunKeepsInv(prior: seq<FocusEvent>, start: int, inputs: seq<Input>)
    requires WellTimed(prior, start, inputs)
    ensures Inv(Run(prior, inputs), Latest(start, inputs))
  {
    if inputs != [] {
      var init, last := inputs[..|inputs| - 1], inputs[|inputs| - 1];
      RunKeepsInv(prior, start, init);
      StepKeepsInv(Run(prior, init), last, Latest(start, init));
    }
  }

  lemma {:induction false} TimelineOrdered(events: seq<FocusEvent>, now: int, i: nat, j: nat)
    requires Timeline(events, now) && i <= j < |events|
    ensures Consistent(events[i]) && events[j].End() <= now
    ensures i < j ==> events[i].End() <= events[j].startedAt
    decreases |events|
  {
    var init, last := events[..|events| - 1], events[|events| - 1];
    if j < |init| {
      TimelineOrdered(init, last.startedAt, i, j);
    } else if i < j {
      TimelineOrdered(init, last.startedAt, i, i);
    }
  }

  // ----- Main results -----

  /** The step lets go of a current event that is still open, and the statement that
      should end it fails. */
  predicate Loses(s: State, i: Input) {
    && 0 < s.current <= |s.events| && s.events[s.current - 1].endedAt.None? && !i.endOk
    && match i
       case Focus(_, _, _, _, insertOk) => !s.paused && insertOk
       case Change(_, presence, _) => presence == Away || presence == Paused
       case Stop(_, _) => true
  }

  /** No event is open from before, and no step loses one. */
  ghost predicate NothingLost(prior: seq<FocusEvent>, inputs: seq<Input>) {
    && (forall e :: e in prior ==> e.endedAt.Some?)
    && (forall n :: 0 <= n < |inputs| ==> !Loses(Run(prior, inputs[..n]), inputs[n]))
  }

  /** Only the current event is open. */
  ghost predicate OpenIsCurrent(s: State) {
    forall k :: 0 <= k < |s.events| && s.events[k].endedAt.None? ==> s.current == k + 1
  }

  lemma StepKeepsOpenIsCurrent(s: State, i: Input)
    requires s.current == 0 || s.current == |s.events|
    ensures OpenIsCurrent(Step(s, i)) <==> OpenIsCurrent(s) && !Loses(s, i)
  {
    var t := Step(s, i);
    assert forall k :: 0 <= k < |s.events| && k != s.current - 1 ==> t.events[k] == s.events[k];
    if s.current > 0 {
      var k := s.current - 1;
      assert t.events[k].endedAt.None? <==> s.events[k].endedAt.None? && t.events[..|s.events|] == s.events;
    }
  }

  /** Exactly when every event but the current one is closed: none was open before, and no
      step has lost one. A failed end does no harm if a later one makes it good. */
  lemma {:induction false} OpenIsCurrentIffNothingLost(prior: seq<FocusEvent>, start: int, inputs: seq<Input>)
    requires WellTimed(prior, start, inputs)
    ensures OpenIsCurrent(Run(prior, inputs)) <==> NothingLost(prior, inputs)
  {
    hide Loses, NothingLost, Step;
    if inputs == [] {
      NothingLostYet(prior);
    } else {
      var init, last := inputs[..|inputs| - 1], inputs[|inputs| - 1];
      OpenIsCurrentIffNothingLost(prior, start, init);
      RunKeepsInv(prior, start, init);
      StepKeepsOpenIsCurrent(Run(prior, init), last);
      NothingLostStep(prior, inputs);
    }
  }

  lemma NothingLostYet(prior: seq<FocusEvent>)
    ensures NothingLost(prior, []) <==> OpenIsCurrent(State(0, false, prior))
  {
    assert forall k :: 0 <= k < |prior| ==> prior[k] in prior;
  }

  lemma NothingLostStep(prior: seq<FocusEvent>, inputs: seq<Input>)
    requires inputs != []
    ensures var init, last := inputs[..|inputs| - 1], inputs[|inputs| - 1];
            NothingLost(prior, inputs) <==> NothingLost(prior, init) && !Loses(Run(prior, init), last)
  {
    hide Loses, Run;
    var init := inputs[..|inputs| - 1];
    forall n | 0 <= n < |init| ensures init[..n] == inputs[..n] && init[n] == inputs[n] {
    }
  }

  /** Events never overlap, whatever statements fail. If no event is lost, an open one is
      the last, it is the current one, and the engine is not paused; else some open event
      is not the current one. */
  lemma RecordedEventsAreDisjoint(prior: seq<FocusEvent>, start: int, inputs: seq<Input>, i: nat, j: nat)
    requires WellTimed(prior, start, inputs) && i <= j < |Run(prior, inputs).events|
    ensures var s := Run(prior, inputs);
            && s.events[j].startedAt <= s.events[j].End()
            && (i < j ==> s.events[i].startedAt <= s.events[i].End() <= s.events[j].startedAt)
            && (NothingLost(prior, inputs) && s.events[j].endedAt.None? ==>
                  s.current == j + 1 == |s.events| && !s.paused)
            && (!NothingLost(prior, inputs) ==>
                  exists k :: 0 <= k < |s.events| && s.events[k].endedAt.None? && s.current != k + 1)
  {
    RunKeepsInv(prior, start, inputs);
    OpenIsCurrentIffNothingLost(prior, start, inputs);
    hide NothingLost, WellTimed;
    TimelineOrdered(Run(prior, inputs).events, Latest(start, inputs), i, j);
    TimelineOrdered(Run(prior, inputs).events, Latest(start, inputs), j, j);
  }

  function Recorded(e: FocusEvent): int {
    if e.durationS.Some? then e.durationS.value else 0
  }

  lemma {:induction false} TimelineSum(events: seq<FocusEvent>, now: int)
    requires Timeline(events, now) && events != []
    ensures Sum(events, Recorded) <= now - events[0].startedAt
  {
    var init, last := events[..|events| - 1], events[|events| - 1];
    if init != [] {
      TimelineSum(init, last.startedAt);
    } else {
      assert Sum(init, Recorded) == 0;
    }
  }

  /** The recorded durations add up to no more than the time since the first event. */
  lemma {:induction false} RecordedTimeIsReal(prior: seq<FocusEvent>, start: int, inputs: seq<Input>)
    requires WellTimed(prior, start, inputs) && Run(prior, inputs).events != []
    ensures var events := Run(prior, inputs).events;
            Sum(events, Recorded) <= Latest(start, inputs) - events[0].startedAt
  {
    RunKeepsInv(prior, start, inputs);
    TimelineSum(Run(prior, inputs).events, Latest(start, inputs));
  }

  /** An example of a lost event: it stays open beside the new one. */
  lemma FailedEndLeavesTwoOpen()
    ensures var s := Run([], [Focus(0, "a", "", true, true), Focus(5, "b", "", false, true)]);
            |s.events| == 2 && s.events[0].endedAt.None? && s.events[1].endedAt.None?
  {
  }

  // ----- What is recorded -----

  /** The user goes away or pauses tracking. */
  predicate Pauses(i: Input) {
    i.Change? && (i.presence.Away? || i.presence.Paused?)
  }

  /** Recording is paused: tracking has not been resumed since the user went away or paused. */
  ghost predicate OnPause(inputs: seq<Input>) {
    exists i :: 0 <= i < |inputs| && Pauses(inputs[i]) && NotResumedSince(inputs, i)
  }

  ghost predicate NotResumedSince(inputs: seq<Input>, i: int) {
    forall j :: 0 <= i < j < |inputs| ==> !(inputs[j].Change? && inputs[j].presence.Tracking?)
  }

  lemma OneMoreInput(init: seq<Input>, last: Input)
    ensures OnPause(init + [last])
            <==> Pauses(last) || (OnPause(init) && !(last.Change? && last.presence.Tracking?))
  {
    var inputs := init + [last];
    if Pauses(last) {
      assert Pauses(inputs[|init|]) && NotResumedSince(inputs, |init|);
    } else if OnPause(init) && !(last.Change? && last.presence.Tracking?) {
      var i :| 0 <= i < |init| && Pauses(init[i]) && NotResumedSince(init, i);
      assert Pauses(inputs[i]) && NotResumedSince(inputs, i);
    }
    if i :| 0 <= i < |init| && Pauses(inputs[i]) && NotResumedSince(inputs, i) {
      assert inputs[|init|] == last;
      assert forall j :: i < j < |init| ==> init[j] == inputs[j];
      assert Pauses(init[i]) && NotResumedSince(init, i);
    }
  }

  /** The engine is paused exactly while recording is. */
  lemma {:induction false} PausedIff(prior: seq<FocusEvent>, inputs: seq<Input>)
    ensures Run(prior, inputs).paused <==> OnPause(inputs)
  {
    if inputs != [] {
      var init, last := inputs[..|inputs| - 1], inputs[|inputs| - 1];
      PausedIff(prior, init);
      OneMoreInput(init, last);
      hide OnPause;
      assert inputs == init + [last];
    }
  }

  /** A focus change while recording is on becomes the last event, and the current one, even
      if the event before it could not be ended. */
  lemma FocusBecomesCurrent(prior: seq<FocusEvent>, inputs: seq<Input>)
    requires inputs != [] && inputs[|inputs| - 1].Focus? && inputs[|inputs| - 1].insertOk
    requires !OnPause(inputs[..|inputs| - 1])
    ensures var s, i := Run(prior, inputs), inputs[|inputs| - 1];
            && 0 < s.current == |s.events|
            && s.events[s.current - 1] == FocusEvent(s.current, i.app, i.title, i.at, None, None, false)
  {
    PausedIff(prior, inputs[..|inputs| - 1]);
  }

  /** Input `j` is a focus change that arrives while recording. */
  ghost predicate Records(inputs: seq<Input>, j: int)
    requires 0 <= j < |inputs|
  {
    inputs[j].Focus? && !OnPause(inputs[..j])
  }

  /** Input `j` ends whatever is being recorded. */
  ghost predicate Cuts(inputs: seq<Input>, j: int)
    requires 0 <= j < |inputs|
  {
    inputs[j].Stop? || Pauses(inputs[j]) || Records(inputs, j)
  }

  ghost predicate UncutFrom(inputs: seq<Input>, i: int, j: int) {
    forall k :: 0 <= i < k < j <= |inputs| ==> !Cuts(inputs, k)
  }

  /** The event that input `i` is recorded as: its application, title and time, open until
      the next input that cuts, and closed at the time of that. */
  ghost predicate RecordOf(inputs: seq<Input>, i: int, e: FocusEvent)
    requires 0 <= i < |inputs| && inputs[i].Focus?
  {
    && e.appName == inputs[i].app && e.windowTitle == inputs[i].title && e.startedAt == inputs[i].at && !e.isIdle
    && (UncutFrom(inputs, i, |inputs|) ==> e.endedAt.None? && e.durationS.None?)
    && (forall j :: i < j < |inputs| && Cuts(inputs, j) && UncutFrom(inputs, i, j) ==>
          e.endedAt == Some(inputs[j].at) && e.durationS == Some(inputs[j].at - inputs[i].at))
  }

  ghost predicate AllSucceed(inputs: seq<Input>) {
    forall i :: 0 <= i < |inputs| ==> inputs[i].endOk && (inputs[i].Focus? ==> inputs[i].insertOk)
  }

  lemma SameBefore(inputs: seq<Input>, j: int)
    requires 0 <= j < |inputs| - 1
    ensures var init := inputs[..|inputs| - 1];
            Cuts(init, j) == Cuts(inputs, j) && init[j] == inputs[j] && init[..j] == inputs[..j]
  {
    assert inputs[..|inputs| - 1][..j] == inputs[..j];
  }

  lemma UncutBefore(inputs: seq<Input>, i: int, j: int)
    requires 0 <= i < j < |inputs|
    ensures UncutFrom(inputs, i, j) <==> UncutFrom(inputs[..|inputs| - 1], i, j)
  {
    var init := inputs[..|inputs| - 1];
    hide Cuts;
    if UncutFrom(inputs, i, j) {
      forall k | i < k < j ensures !Cuts(init, k) {
        SameBefore(inputs, k);
      }
    }
    if UncutFrom(init, i, j) {
      forall k | i < k < j ensures !Cuts(inputs, k) {
        SameBefore(inputs, k);
      }
    }
  }

  lemma UncutStep(inputs: seq<Input>, i: int, j: int)
    requires 0 <= i < j < |inputs|
    ensures UncutFrom(inputs, i, |inputs|) ==> UncutFrom(inputs, i, j) && !Cuts(inputs, j)
    ensures j == |inputs| - 1 ==> (UncutFrom(inputs, i, |inputs|) <==> UncutFrom(inputs, i, j) && !Cuts(inputs, j))
  {
    hide Cuts;
  }

  /** One more input closes the event if it is the first that cuts. */
  lemma RecordGrows(inputs: seq<Input>, i: int, e: FocusEvent)
    requires 0 <= i < |inputs| - 1 && inputs[i].Focus? && RecordOf(inputs[..|inputs| - 1], i, e)
    ensures RecordOf(inputs, i, AfterLast(inputs, i, e))
  {
    var n := |inputs| - 1;
    UncutBefore(inputs, i, n);
    UncutStep(inputs, i, n);
    assert inputs[..n][i] == inputs[i];
    var f := AfterLast(inputs, i, e);
    forall j | i < j < |inputs| && Cuts(inputs, j) && UncutFrom(inputs, i, j)
      ensures f.endedAt == Some(inputs[j].at) && f.durationS == Some(inputs[j].at - inputs[i].at)
    {
      ClosedAt(inputs, i, e, j);
    }
    hide Cuts, UncutFrom;
  }

  /** The event after the last input. */
  ghost function AfterLast(inputs: seq<Input>, i: int, e: FocusEvent): FocusEvent
    requires 0 <= i < |inputs| - 1
  {
    var n := |inputs| - 1;
    if Cuts(inputs, n) && UncutFrom(inputs[..n], i, n) then Closed(e, inputs[n].at) else e
  }

  lemma ClosedAt(inputs: seq<Input>, i: int, e: FocusEvent, j: int)
    requires 0 <= i < |inputs| - 1 && inputs[i].Focus? && RecordOf(inputs[..|inputs| - 1], i, e)
    requires i < j < |inputs| && Cuts(inputs, j) && UncutFrom(inputs, i, j)
    ensures var f := AfterLast(inputs, i, e);
            f.endedAt == Some(inputs[j].at) && f.durationS == Some(inputs[j].at - inputs[i].at)
  {
    var n := |inputs| - 1;
    hide Cuts, UncutFrom;
    assert inputs[..n][i] == inputs[i];
    UncutBefore(inputs, i, j);
    if j < n {
      SameBefore(inputs, j);
      UncutStep(inputs[..n], i, j);
    }
  }

  function Closed(e: FocusEvent, at: int): FocusEvent {
    e.(endedAt := Some(at), durationS := Some(at - e.startedAt))
  }

  /** What an input does to the `k`-th event, and whether that stays current. */
  lemma StepOnEvent(s: State, i: Input, k: nat)
    requires k < |s.events| && (s.current == 0 || s.current == |s.events|)
    requires i.endOk && (i.Focus? ==> i.insertOk)
    ensures var cuts, t := i.Stop? || Pauses(i) || (i.Focus? && !s.paused), Step(s, i);
            && k < |t.events|
            && t.events[k] == (if cuts && s.current == k + 1 then Closed(s.events[k], i.at) else s.events[k])
            && (t.current == k + 1 <==> s.current == k + 1 && !cuts)
            && (t.current == 0 || t.current == |t.events|)
  {
  }

  /** When no statement fails, every focus change that arrives while recording becomes an
      event of its own, which stays as recorded; the event is the current one until the
      next input that cuts. */
  lemma {:induction false} FocusIsRecorded(prior: seq<FocusEvent>, inputs: seq<Input>, i: nat)
    requires i < |inputs| && AllSucceed(inputs) && Records(inputs, i)
    ensures var s, k := Run(prior, inputs), |Run(prior, inputs[..i]).events|;
            && k < |s.events| && RecordOf(inputs, i, s.events[k])
            && (s.current == k + 1 <==> UncutFrom(inputs, i, |inputs|))
    decreases |inputs|
  {
    var n := |inputs| - 1;
    var init, last := inputs[..n], inputs[n];
    var k := |Run(prior, inputs[..i]).events|;
    PausedIff(prior, init);
    CurrentIsLast(prior, init);
    if i == n {
      assert inputs[..i] == init;
      hide OnPause;
    } else {
      SameBefore(inputs, i);
      FocusIsRecorded(prior, init, i);
      StepOnEvent(Run(prior, init), last, k);
      RecordGrows(inputs, i, Run(prior, init).events[k]);
      UncutBefore(inputs, i, n);
      UncutStep(inputs, i, n);
      hide OnPause, RecordOf, UncutFrom, Step;
      assert Run(prior, inputs) == Step(Run(prior, init), last);
    }
  }

  lemma {:induction false} CurrentIsLast(prior: seq<FocusEvent>, inputs: seq<Input>)
    ensures Run(prior, inputs).current == 0 || Run(prior, inputs).current == |Run(prior, inputs).events|
  {
    if inputs != [] {
      CurrentIsLast(prior, inputs[..|inputs| - 1]);
    }
  }

  ghost function Recordings(inputs: seq<Input>): nat {
    if inputs == [] then 0
    else
      var n := |inputs| - 1;
      Recordings(inputs[..n]) + if Records(inputs, n) && inputs[n].insertOk then 1 else 0
  }

  /** Nothing else is recorded, and earlier rows are left alone. */
  lemma {:induction false} NothingElseIsRecorded(prior: seq<FocusEvent>, inputs: seq<Input>)
    ensures var s := Run(prior, inputs);
            && |s.events| == |prior| + Recordings(inputs) && s.events[..|prior|] == prior
            && (s.current > 0 ==> |prior| < s.current <= |s.events|)
  {
    if inputs != [] {
      NothingElseIsRecorded(prior, inputs[..|inputs| - 1]);
      PausedIff(prior, inputs[..|inputs| - 1]);
    }
  }

  // ----- From recorded events to merged entries -----

  /** The entry carries the times of a closed event of the table. */
  ghost predicate FromClosedEvent(events: seq<FocusEvent>, x: TimesheetEntry) {
    exists e :: e in events && e.endedAt.Some? && x.startedAt == e.startedAt && x.endedAt == e.endedAt
                && e.durationS == Some(x.durationS)
  }

  ghost predicate Precedes(x: TimesheetEntry, y: TimesheetEntry) {
    x.endedAt.Some? && x.endedAt.value <= y.startedAt
  }

  /** Each entry spans its duration, and of two entries one precedes the other. */
  ghost predicate Apart(entries: seq<TimesheetEntry>) {
    && (forall x :: x in entries ==> x.endedAt.Some? && 0 <= x.durationS == x.endedAt.value - x.startedAt)
    && (forall x, y :: x in entries && y in entries && x != y ==> Precedes(x, y) || Precedes(y, x))
  }

  lemma EntriesAreApart(prior: seq<FocusEvent>, start: int, inputs: seq<Input>, entries: seq<TimesheetEntry>)
    requires WellTimed(prior, start, inputs) && DistinctKeys(multiset(entries), Start)
    requires forall x :: x in entries ==> FromClosedEvent(Run(prior, inputs).events, x)
    ensures Apart(entries)
  {
    var events, now := Run(prior, inputs).events, Latest(start, inputs);
    RunKeepsInv(prior, start, inputs);
    forall x | x in entries ensures x.endedAt.Some? && 0 <= x.durationS == x.endedAt.value - x.startedAt {
      var e :| e in events && e.endedAt.Some? && x.startedAt == e.startedAt && x.endedAt == e.endedAt
               && e.durationS == Some(x.durationS);
      var i :| 0 <= i < |events| && events[i] == e;
      TimelineOrdered(events, now, i, i);
    }
    forall x, y | x in entries && y in entries && x != y ensures Precedes(x, y) || Precedes(y, x) {
      assert x in multiset(entries) && y in multiset(entries) && Start(x) != Start(y);
      var e :| e in events && e.endedAt.Some? && x.startedAt == e.startedAt && x.endedAt == e.endedAt;
      var f :| f in events && f.endedAt.Some? && y.startedAt == f.startedAt && y.endedAt == f.endedAt;
      var i :| 0 <= i < |events| && events[i] == e;
      var j :| 0 <= j < |events| && events[j] == f;
      TimelineOrdered(events, now, if i <= j then i else j, if i <= j then j else i);
    }
  }

  /** Apart entries in start order follow one another, so their durations fit between
      the first start and the last end. */
  lemma {:induction false} SortedFits(q: seq<TimesheetEntry>)
    requires q != [] && Apart(q) && StrictBy(q, Start)
    ensures forall x :: x in q ==> x.endedAt.Some?
    ensures Sum(q, Duration) <= q[|q| - 1].endedAt.value - q[0].startedAt
    ensures forall x :: x in q ==> q[0].startedAt <= x.startedAt && x.endedAt.value <= q[|q| - 1].endedAt.value
  {
    var init, last := q[..|q| - 1], q[|q| - 1];
    LastFits(q);
    hide Apart, StrictBy;
    if init == [] {
      assert Sum(init, Duration) == 0 && q == [last];
    } else {
      SortedFits(init);
      assert forall x :: x in q <==> x in init || x == last;
    }
  }

  lemma LastFits(q: seq<TimesheetEntry>)
    requires q != [] && Apart(q) && StrictBy(q, Start)
    ensures var init, last := q[..|q| - 1], q[|q| - 1];
            && last.endedAt.Some? && 0 <= last.durationS == last.endedAt.value - last.startedAt
            && Apart(init) && StrictBy(init, Start) && (init != [] ==> Precedes(init[|init| - 1], last))
  {
    var init, last := q[..|q| - 1], q[|q| - 1];
    assert last in q;
    if init != [] {
      var prev := init[|init| - 1];
      assert prev in q && Start(prev) < Start(last);
    }
  }

  /** What the engine records aggregates soundly: when the entries of a submission come
      from its closed events and start at distinct seconds, every merged entry covers all
      events of its tag, and claims no more time than lies between its start and end. */
  lemma MergedEntriesAreReal(
    prior: seq<FocusEvent>, start: int, inputs: seq<Input>, entries: seq<TimesheetEntry>, result: seq<TimesheetEntry>,
    m: TimesheetEntry)
    requires WellTimed(prior, start, inputs) && DistinctKeys(multiset(entries), Start)
    requires forall x :: x in entries ==> FromClosedEvent(Run(prior, inputs).events, x)
    requires IsAggregate(ENTRIES, entries, result) && m in result
    ensures m.endedAt.Some? && m.durationS <= m.endedAt.value - m.startedAt
    ensures forall x :: x in entries && x.tag == m.tag ==>
              m.startedAt <= x.startedAt && x.endedAt.Some? && x.endedAt.value <= m.endedAt.value
  {
    EntriesAreApart(prior, start, inputs, entries);
    assert IsMerged(ENTRIES, entries, m);
    var q :| q != [] && IsSorting(Group(entries, Tag, m.tag), q, Start) && m == MergeEntries(m.tag, q);
    SortedGroup(entries, m.tag, q);
    SortedFits(q);
  }

  lemma SortedGroup(entries: seq<TimesheetEntry>, tag: string, q: seq<TimesheetEntry>)
    requires DistinctKeys(multiset(entries), Start) && Apart(entries)
    requires IsSorting(Group(entries, Tag, tag), q, Start)
    ensures StrictBy(q, Start) && Apart(q)
    ensures forall x :: x in q <==> x in entries && x.tag == tag
  {
    var group := Group(entries, Tag, tag);
    GroupIsSubset(entries, Tag, tag);
    DistinctSubset(multiset(entries), multiset(q), Start);
    SortedIsStrict(q, Start);
    hide DistinctKeys, StrictBy, SortedBy;
    GroupIsEmpty(entries, Tag, tag);
    forall x ensures x in q <==> x in entries && Tag(x) == tag {
      assert x in q <==> x in multiset(q);
      assert x in group <==> x in multiset(group);
    }
  }

  // ----- The code -----

  class Engine {
    var currentEventID: nat
    var paused: bool
    var events: seq<FocusEvent>

    ghost function Now(): State
      reads this
    {
      State(currentEventID, paused, events)
    }

    constructor (stored: seq<FocusEvent>)
      ensures Now() == Run(stored, [])
    {
      currentEventID, paused, events := 0, false, stored;
    }

    method HandleFocusChange(at: int, app: string, title: string, endOk: bool, insertOk: bool)
      modifies this
      ensures Now() == Step(old(Now()), Focus(at, app, title, endOk, insertOk))
    {
      if paused {
        return;
      }
      if currentEventID > 0 && endOk {
        events := EndFocusEvent(events, currentEventID, at);
      }
      if !insertOk {
        return;
      }
      var id := |events| + 1;
      events := events + [FocusEvent(id, app, title, at, None, None, false)];
      currentEventID := id;
    }

    method HandlePresenceChange(at: int, presence: Presence, endOk: bool)
      modifies this
      ensures Now() == Step(old(Now()), Change(at, presence, endOk))
    {
      match presence
      case Away =>
        EndCurrentEvent(at, endOk);
        paused := true;
      case Paused =>
        EndCurrentEvent(at, endOk);
        paused := true;
      case Tracking =>
        paused := false;
      case Checking =>
    }

    method EndCurrentEvent(at: int, endOk: bool)
      modifies this
      ensures Now() == Step(old(Now()), Stop(at, endOk))
    {
      if currentEventID > 0 {
        if endOk {
          events := EndFocusEvent(events, currentEventID, at);
        }
        currentEventID := 0;
      }
    }
  }
}
