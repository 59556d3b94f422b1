/** Automatic submission (internal/client/autosubmit/autosubmit.go): on a cadence, every
    finished event on a ticked tag that no submission holds yet is submitted. */
module AutoSubmit {
  import opened Base
  import opened FocusEvents

  const HOUR: int := 3600

  /** The row of auto_submit_config. */
  datatype Config = Config(hours: int, enabledAt: Option<int>, lastRun: Option<int>)
  {
    predicate Enabled() {
      hours > 0 && enabledAt.Some?
    }

    /** When the next run is due, if ever. */
    function NextRun(): Option<int> {
      if !Enabled() || lastRun.None? then None else Some(lastRun.value + hours * HOUR)
    }
  }

  /** The events linked to a submission, and whether a run or the user created it. */
  datatype Submission = Submission(events: set<int>, byRun: bool)

  /** The tables. `tags` holds the ids of existing tags, `ticked` the ticked ones,
      `eventTags` (event, tag) pairs. */
  datatype State = State(
    config: Option<Config>, ticked: set<int>, tags: set<int>,
    events: map<int, FocusEvent>, eventTags: set<(int, int)>, submissions: seq<Submission>)

  predicate ValidInterval(hours: int) {
    hours in {0, 1, 2, 4, 6, 8, 12, 24}
  }

  predicate Submitted(s: State, id: int) {
    exists i :: 0 <= i < |s.submissions| && id in s.submissions[i].events
  }

  /** The WHERE clause of eligibleEvents. */
  predicate Eligible(s: State, cutoff: int, id: int) {
    && id in s.events && !s.events[id].isIdle && s.events[id].endedAt.Some?
    && cutoff <= s.events[id].startedAt
    && (exists tag | tag in s.ticked :: (id, tag) in s.eventTags)
    && !Submitted(s, id)
  }

  ghost function EligibleEvents(s: State, cutoff: int): set<int> {
    set id | id in s.events && Eligible(s, cutoff, id)
  }

  predicate NoDuplicates(ids: seq<int>) {
    forall i, j :: 0 <= i < j < |ids| ==> ids[i] != ids[j]
  }

  /** One step: a save, a run, a submission by the user, or any change at all to the
      events and tags. Flags say whether statements succeed. */
  datatype Op =
    | Save(hours: int, tagIDs: seq<int>, now: int, ok: bool)
    | RunOnce(now: int, submitOk: bool, recordOk: bool)
    | ManualSubmit(ids: seq<int>, ok: bool)
    | Edit(tags: set<int>, events: map<int, FocusEvent>, eventTags: set<(int, int)>)

  /** A save goes through if the cadence is offered, the tags exist, none is listed
      twice, and the transaction commits. */
  predicate SaveSucceeds(s: State, op: Op)
    requires op.Save?
  {
    op.ok && ValidInterval(op.hours) && NoDuplicates(op.tagIDs) && forall t :: t in op.tagIDs ==> t in s.tags
  }

  /** The upsert of the config row. */
  function Upsert(was: Option<Config>, hours: int, now: int): Config {
    var start := if hours > 0 then Some(now) else None;
    if was.None? then Config(hours, start, start)
    else if hours == 0 then Config(0, None, None)
    else if was.value.enabledAt.None? then Config(hours, start, start)
    else Config(hours, was.value.enabledAt, was.value.lastRun)
  }

  /** A run gets past its checks: auto-submit is on, a tag is ticked, a run is due. */
  predicate RunIsDue(s: State, now: int) {
    && s.config.Some? && s.config.value.Enabled() && s.ticked != {}
    && (s.config.value.NextRun().Some? ==> s.config.value.NextRun().value <= now)
  }

  /** What the run submits. */
  ghost function Picks(s: State, now: int): set<int> {
    if RunIsDue(s, now) then EligibleEvents(s, s.config.value.enabledAt.value) else {}
  }

  /** The run goes as far as recording last_run. */
  ghost predicate Records(s: State, op: Op) {
    op.RunOnce? && RunIsDue(s, op.now) && op.recordOk && (Picks(s, op.now) != {} ==> op.submitOk)
  }

  ghost function Step(s: State, op: Op): State {
    match op
    case Save(hours, tagIDs, now, _) =>
      if SaveSucceeds(s, op) then
        s.(config := Some(Upsert(s.config, hours, now)), ticked := (set t | t in tagIDs))
      else s
    case RunOnce(now, submitOk, _) =>
      var picks := Picks(s, now);
      var submitted :=
        if picks != {} && submitOk then s.(submissions := s.submissions + [Submission(picks, true)]) else s;
      if Records(s, op) then submitted.(config := Some(s.config.value.(lastRun := Some(now)))) else submitted
    case ManualSubmit(ids, ok) =>
      if ok && NoDuplicates(ids) then s.(submissions := s.submissions + [Submission((set i | i in ids), false)]) else s
    case Edit(tags, events, eventTags) => s.(tags := tags, events := events, eventTags := eventTags)
  }

  ghost function Run(ops: seq<Op>): State {
    if ops == [] then State(None, {}, {}, map[], {}, []) else Step(Run(ops[..|ops| - 1]), ops[|ops| - 1])
  }

  // ----- No event is auto-submitted twice -----

  /** A submission made by a run shares no event with an earlier submission. */
  ghost predicate FreshPicks(subs: seq<Submission>) {
    forall i, j :: 0 <= i < j < |subs| && subs[j].byRun ==> subs[i].events !! subs[j].events
  }

  lemma {:induction false} RunKeepsFreshPicks(ops: seq<Op>)
    ensures FreshPicks(Run(ops).submissions)
  {
    if ops != [] {
      var s, op := Run(ops[..|ops| - 1]), ops[|ops| - 1];
      RunKeepsFreshPicks(ops[..|ops| - 1]);
      if op.RunOnce? {
        forall id, i | 0 <= i < |s.submissions| && id in s.submissions[i].events ensures id !in Picks(s, op.now) {
          assert Submitted(s, id);
        }
      }
    }
  }

  /** Over any run, no event is in two submissions made automatically; nor is one picked
      that the user had submitted before. */
  lemma {:induction false} NoEventAutoSubmittedTwice(ops: seq<Op>, i: nat, j: nat, id: int)
    requires i < j < |Run(ops).submissions| && Run(ops).submissions[j].byRun
    ensures !(id in Run(ops).submissions[i].events && id in Run(ops).submissions[j].events)
  {
    RunKeepsFreshPicks(ops);
  }

  // ----- Only what was recorded while auto-submit was on -----

  /** Auto-submit is on: the last successful save chose a cadence. */
  ghost predicate On(ops: seq<Op>) {
    ops != [] &&
    (var init, op := ops[..|ops| - 1], ops[|ops| - 1];
     if op.Save? && SaveSucceeds(Run(init), op) then op.hours > 0 else On(init))
  }

  /** The time of the most recent save that turned it on from off. */
  ghost function OnSince(ops: seq<Op>): int
    requires On(ops)
  {
    var init, op := ops[..|ops| - 1], ops[|ops| - 1];
    if op.Save? && SaveSucceeds(Run(init), op) && !On(init) then op.now else OnSince(init)
  }

  /** The config row records exactly that. */
  lemma {:induction false} ConfigTracksSwitch(ops: seq<Op>)
    ensures var c := Run(ops).config;
            && (On(ops) <==> c.Some? && c.value.Enabled())
            && (On(ops) ==> c.value.enabledAt == Some(OnSince(ops)) && c.value.lastRun.Some?)
            && (!On(ops) && c.Some? ==> c.value.enabledAt.None? && c.value.hours == 0)
  {
    if ops != [] {
      var init, op := ops[..|ops| - 1], ops[|ops| - 1];
      ConfigTracksSwitch(init);
      assert Run(ops) == Step(Run(init), op);
      assert op.Save? && SaveSucceeds(Run(init), op) ==> op.hours >= 0;
    }
  }

  /** Every event a run submits is finished, not idle, on a ticked tag, in no submission
      yet, and started at or after the save that turned auto-submit on. */
  lemma PicksAreLegitimate(ops: seq<Op>, now: int, id: int)
    requires id in Picks(Run(ops), now)
    ensures var s := Run(ops);
            && On(ops) && id in s.events && s.events[id].endedAt.Some? && !s.events[id].isIdle
            && OnSince(ops) <= s.events[id].startedAt
            && (exists tag :: tag in s.ticked && (id, tag) in s.eventTags) && !Submitted(s, id)
  {
    ConfigTracksSwitch(ops);
  }

  // ----- What a run does, from the history alone -----

  /** The cadence and the tags chosen by the last successful save. */
  ghost function Cadence(ops: seq<Op>): int {
    if ops == [] then 0
    else
      var init, op := ops[..|ops| - 1], ops[|ops| - 1];
      if op.Save? && SaveSucceeds(Run(init), op) then op.hours else Cadence(init)
  }

  ghost function Ticks(ops: seq<Op>): set<int> {
    if ops == [] then {}
    else
      var init, op := ops[..|ops| - 1], ops[|ops| - 1];
      if op.Save? && SaveSucceeds(Run(init), op) then Elems(op.tagIDs) else Ticks(init)
  }

  /** A run is due: auto-submit is on, a tag is ticked, and as many hours as chosen have
      passed since the last recorded run or, if later, since auto-submit was turned on. */
  ghost predicate DueBy(ops: seq<Op>, now: int)
    decreases |ops|, 1
  {
    On(ops) && Ticks(ops) != {} && LastRecorded(ops) + Cadence(ops) * 3600 <= now
  }

  ghost function LastRecorded(ops: seq<Op>): int
    requires On(ops)
    decreases |ops|, 0
  {
    var init, op := ops[..|ops| - 1], ops[|ops| - 1];
    if !On(init) then op.now
    else if op.RunOnce? && DueBy(init, op.now) && op.recordOk && (Picks(Run(init), op.now) != {} ==> op.submitOk) then
      op.now
    else LastRecorded(init)
  }

  /** The config row and the ticked tags are those of the history, so that runs are due just
      when it says. */
  lemma {:induction false} ConfigIsExact(ops: seq<Op>)
    ensures On(ops) ==> Run(ops).config == Some(Config(Cadence(ops), Some(OnSince(ops)), Some(LastRecorded(ops))))
    ensures Run(ops).ticked == Ticks(ops)
    ensures forall now :: RunIsDue(Run(ops), now) <==> DueBy(ops, now)
    decreases |ops|
  {
    ConfigTracksSwitch(ops);
    if ops != [] {
      var init, op := ops[..|ops| - 1], ops[|ops| - 1];
      ConfigIsExact(init);
      ConfigTracksSwitch(init);
      hide ValidInterval, NoDuplicates, EligibleEvents;
      assert Run(ops) == Step(Run(init), op);
      assert op.Save? ==> Elems(op.tagIDs) == set t | t in op.tagIDs;
    }
  }

  /** What a run has to submit: every finished, non-idle event on a ticked tag that started
      since auto-submit was turned on and that no submission holds. */
  ghost predicate Submittable(ops: seq<Op>, id: int)
    requires On(ops)
  {
    var s := Run(ops);
    && id in s.events && s.events[id].endedAt.Some? && !s.events[id].isIdle && OnSince(ops) <= s.events[id].startedAt
    && (exists tag :: tag in Ticks(ops) && (id, tag) in s.eventTags)
    && (forall i :: 0 <= i < |s.submissions| ==> id !in s.submissions[i].events)
  }

  /** A run that is due and meets no failure submits all of that and nothing else, as one
      submission if there is anything; a run that is not due submits nothing. */
  lemma RunSubmitsExactly(ops: seq<Op>, now: int, recordOk: bool)
    ensures var subs, more := Run(ops).submissions, Run(ops + [RunOnce(now, true, recordOk)]).submissions;
            if DueBy(ops, now) && exists id :: Submittable(ops, id) then
              && |more| == |subs| + 1 && more[..|subs|] == subs && more[|subs|].byRun
              && forall id :: id in more[|subs|].events <==> Submittable(ops, id)
            else more == subs
  {
    ConfigIsExact(ops);
    var op := RunOnce(now, true, recordOk);
    assert (ops + [op])[..|ops|] == ops && Run(ops + [op]) == Step(Run(ops), op);
    if DueBy(ops, now) {
      forall id ensures id in Picks(Run(ops), now) <==> Submittable(ops, id) {
        PickIsSubmittable(ops, now, id);
      }
    }
    hide Submittable, DueBy;
  }

  lemma PickIsSubmittable(ops: seq<Op>, now: int, id: int)
    requires DueBy(ops, now)
    ensures id in Picks(Run(ops), now) <==> Submittable(ops, id)
  {
    ConfigIsExact(ops);
  }

  // ----- The cadence -----

  /** Between steps i and j every successful save keeps the cadence at `hours`. */
  ghost predicate SameCadence(ops: seq<Op>, i: nat, j: nat, hours: int)
    requires i <= j <= |ops|
  {
    forall k :: i <= k < j && ops[k].Save? && SaveSucceeds(Run(ops[..k]), ops[k]) ==> ops[k].hours == hours
  }

  /** The config row says: on, with this cadence, last run at `t` or later. */
  ghost predicate RanSince(s: State, hours: int, t: int) {
    && s.config.Some? && s.config.value.hours == hours && s.config.value.Enabled()
    && s.config.value.lastRun.Some? && t <= s.config.value.lastRun.value
  }

  lemma StepKeepsRanSince(s: State, op: Op, hours: int, t: int)
    requires hours > 0 && RanSince(s, hours, t)
    requires op.Save? && SaveSucceeds(s, op) ==> op.hours == hours
    ensures RanSince(Step(s, op), hours, t)
  {
  }

  /** While the cadence is unchanged, the recorded time never moves back. */
  lemma {:induction false} LastRunAdvances(ops: seq<Op>, i: nat, j: nat, hours: int, t: int)
    requires i <= j <= |ops| && hours > 0
    requires RanSince(Run(ops[..i]), hours, t) && SameCadence(ops, i, j, hours)
    ensures RanSince(Run(ops[..j]), hours, t)
  {
    if i < j {
      assert ops[..j][..j - 1] == ops[..j - 1];
      LastRunAdvances(ops, i, j - 1, hours, t);
      StepKeepsRanSince(Run(ops[..j - 1]), ops[j - 1], hours, t);
    }
  }

  /** Two recorded runs at an unchanged cadence are at least the interval apart. */
  lemma RunsKeepTheirDistance(ops: seq<Op>, i: nat, j: nat, hours: int)
    requires i < j < |ops| && hours > 0
    requires Records(Run(ops[..i]), ops[i]) && Records(Run(ops[..j]), ops[j])
    requires Run(ops[..i]).config.value.hours == hours && SameCadence(ops, i, j, hours)
    ensures ops[i].now + hours * HOUR <= ops[j].now
  {
    assert ops[..i + 1][..i] == ops[..i];
    LastRunAdvances(ops, i + 1, j, hours, ops[i].now);
  }

  /** And the first one comes no sooner than an interval after auto-submit was turned on. */
  lemma FirstRunWaits(ops: seq<Op>, i: nat, j: nat)
    requires i < j < |ops| && ops[i].Save? && SaveSucceeds(Run(ops[..i]), ops[i]) && ops[i].hours > 0 && !On(ops[..i])
    requires Records(Run(ops[..j]), ops[j]) && SameCadence(ops, i, j, ops[i].hours)
    ensures ops[i].now + ops[i].hours * HOUR <= ops[j].now
  {
    assert ops[..i + 1][..i] == ops[..i];
    ConfigTracksSwitch(ops[..i]);
    LastRunAdvances(ops, i + 1, j, ops[i].hours, ops[i].now);
  }

  // ----- The code -----

  class Database {
    var config: Option<Config>
    var ticked: set<int>
    var tags: set<int>
    var events: map<int, FocusEvent>
    var eventTags: set<(int, int)>
    var submissions: seq<Submission>

    function Now(): State
      reads this
    {
      State(config, ticked, tags, events, eventTags, submissions)
    }

    constructor ()
      ensures Now() == Run([])
    {
      config, ticked, tags, events, eventTags, submissions := None, {}, {}, map[], {}, [];
    }

    method Save(hours: int, tagIDs: seq<int>, now: int, ok: bool) returns (err: bool)
      modifies this
      ensures var op := Op.Save(hours, tagIDs, now, ok);
              Now() == Step(old(Now()), op) && (err <==> !SaveSucceeds(old(Now()), op))
      ensures !err <==> ok && hours in {0, 1, 2, 4, 6, 8, 12, 24} && (forall t :: t in tagIDs ==> t in old(tags))
                        && forall i, j :: 0 <= i < j < |tagIDs| ==> tagIDs[i] != tagIDs[j]
    {
      if !ValidInterval(hours) {
        return true;
      }
      var newTicked: set<int> := {};
      for i := 0 to |tagIDs|
        invariant Now() == old(Now()) && newTicked == set t | t in tagIDs[..i]
        invariant NoDuplicates(tagIDs[..i]) && forall t :: t in tagIDs[..i] ==> t in tags
      {
        PrefixStep(tagIDs, i);
        if tagIDs[i] !in tags || tagIDs[i] in newTicked {
          RepeatedOrUnknown(Now(), Op.Save(hours, tagIDs, now, ok), i);
          return true;
        }
        newTicked := newTicked + {tagIDs[i]};
      }
      assert tagIDs[..|tagIDs|] == tagIDs;
      if !ok {
        return true;
      }
      config, ticked := Some(Upsert(config, hours, now)), newTicked;
      return false;
    }

    method EligibleEventIDs(cutoff: int) returns (ids: seq<int>)
      ensures Elems(ids) == EligibleEvents(Now(), cutoff) && NoDuplicates(ids)
    {
      var all := Enumerate(events.Keys);
      ids := [];
      for i := 0 to |all|
        invariant forall id :: id in ids <==> id in all[..i] && Eligible(Now(), cutoff, id)
        invariant NoDuplicates(ids)
      {
        PrefixStep(all, i);
        if Eligible(Now(), cutoff, all[i]) {
          assert all[i] !in all[..i];
          ids := ids + [all[i]];
        }
      }
      assert all[..|all|] == all;
      forall id ensures id in Elems(ids) <==> id in EligibleEvents(Now(), cutoff) {
        assert id in events <==> id in Elems(all);
      }
    }

    method CreateSubmission(ids: seq<int>, byRun: bool, ok: bool) returns (subID: int)
      modifies `submissions
      ensures ok && NoDuplicates(ids) ==>
                submissions == old(submissions) + [Submission(Elems(ids), byRun)] && subID == |submissions|
      ensures !(ok && NoDuplicates(ids)) ==> submissions == old(submissions) && subID == 0
    {
      if !ok || !NoDuplicates(ids) {
        return 0;
      }
      submissions := submissions + [Submission((set i | i in ids), byRun)];
      return |submissions|;
    }

    /** Returns the submission's id (0 for none), how many events it holds, and whether a
        statement failed. A run that is not due is no error. */
    method RunOnce(now: int, submitOk: bool, recordOk: bool) returns (subID: int, n: nat, err: bool)
      modifies this
      ensures Now() == Step(old(Now()), Op.RunOnce(now, submitOk, recordOk))
      ensures subID != 0 <==> Picks(old(Now()), now) != {} && submitOk
      ensures subID != 0 ==> subID == |submissions| && n == |Picks(old(Now()), now)|
      ensures err <==> RunIsDue(old(Now()), now) && !Records(old(Now()), Op.RunOnce(now, submitOk, recordOk))
    {
      if config.None? || !config.value.Enabled() || |ticked| == 0 {
        return 0, 0, false;
      }
      var next := config.value.NextRun();
      if next.Some? && now < next.value {
        return 0, 0, false;
      }
      var ids := EligibleEventIDs(config.value.enabledAt.value);
      DistinctCount(ids);
      subID := 0;
      if |ids| > 0 {
        assert ids[0] in Elems(ids);
        subID := CreateSubmission(ids, true, submitOk);
        if subID == 0 {
          return 0, 0, true;
        }
      }
      if !recordOk {
        return subID, |ids|, true;
      }
      config := Some(config.value.(lastRun := Some(now)));
      return subID, |ids|, false;
    }
  }

  lemma RepeatedOrUnknown(s: State, op: Op, i: nat)
    requires op.Save? && i < |op.tagIDs| && (op.tagIDs[i] !in s.tags || op.tagIDs[i] in op.tagIDs[..i])
    ensures !SaveSucceeds(s, op)
  {
    if op.tagIDs[i] !in s.tags {
      assert op.tagIDs[i] in op.tagIDs;
    } else {
      var j :| 0 <= j < i && op.tagIDs[j] == op.tagIDs[i];
    }
  }

  lemma {:induction false} DistinctCount(ids: seq<int>)
    requires NoDuplicates(ids)
    ensures |Elems(ids)| == |ids|
  {
    if ids != [] {
      var init, x := ids[..|ids| - 1], ids[|ids| - 1];
      assert x !in init && NoDuplicates(init);
      DistinctCount(init);
      hide NoDuplicates;
      assert ids == init + [x];
      ElemsAppend(init, x);
      assert x !in Elems(init);
    }
  }
}
