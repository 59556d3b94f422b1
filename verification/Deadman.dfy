/** The deadman's switch (internal/client/presence/deadman.go): after a while without a
    focus change it asks the user, and pauses tracking when no answer comes. Answers and
    focus changes wait in one-place channels. */
module Deadman {

  datatype Emitted = Tracking | Checking | Paused

  /** Where the loop stands: in its first select, in the countdown's, or in waitForResume. */
  datatype Phase = Waiting | Countdown | Resuming

  datatype State = State(phase: Phase, tier: nat, ack: bool, reset: bool, trace: seq<Emitted>)

  /** Calls from outside fill a channel; the loop takes a token or sees a timer fire. */
  datatype Step = Acknowledge | Reset | TakeAck | TakeReset | TimerFires | CountdownEnds

  /** What NewDeadman demands: at least one interval, and no duration that is not positive. */
  predicate ValidSchedule(intervals: seq<int>, countdown: int) {
    intervals != [] && (forall i :: 0 <= i < |intervals| ==> intervals[i] > 0) && countdown > 0
  }

  predicate Enabled(s: State, step: Step) {
    match step
    case Acknowledge => true
    case Reset => true
    case TakeAck => s.ack && !s.phase.Waiting?
    case TakeReset => s.reset
    case TimerFires => s.phase.Waiting?
    case CountdownEnds => s.phase.Countdown?
  }

  function Do(s: State, n: nat, step: Step): State
    requires Enabled(s, step)
  {
    match step
    case Acknowledge => s.(ack := true)
    case Reset => s.(reset := true)
    case TakeAck =>
      s.(phase := Waiting, ack := false, trace := s.trace + [Tracking],
         tier := if s.phase.Resuming? then 0 else if s.tier + 1 < n then s.tier + 1 else s.tier)
    case TakeReset => s.(phase := Waiting, reset := false, trace := s.trace + [Tracking], tier := 0)
    case TimerFires => s.(phase := Countdown, trace := s.trace + [Checking])
    case CountdownEnds => s.(phase := Resuming, trace := s.trace + [Paused])
  }

  ghost predicate IsRun(n: nat, steps: seq<Step>)
    decreases |steps|, 0
  {
    steps == [] || (IsRun(n, steps[..|steps| - 1]) && Enabled(After(n, steps[..|steps| - 1]), steps[|steps| - 1]))
  }

  ghost function After(n: nat, steps: seq<Step>): State
    requires IsRun(n, steps)
    decreases |steps|, 1
  {
    if steps == [] then State(Waiting, 0, false, false, [])
    else Do(After(n, steps[..|steps| - 1]), n, steps[|steps| - 1])
  }

  /** currentInterval. */
  function CurrentInterval(intervals: seq<int>, tier: nat): int
    requires intervals != []
  {
    if tier >= |intervals| then intervals[|intervals| - 1] else intervals[tier]
  }

  // ----- The traces -----

  predicate IsRound(r: seq<Emitted>) {
    r == [Tracking] || r == [Checking, Tracking] || r == [Checking, Paused, Tracking]
  }

  function Concat(rounds: seq<seq<Emitted>>): seq<Emitted> {
    if rounds == [] then [] else Concat(rounds[..|rounds| - 1]) + rounds[|rounds| - 1]
  }

  /** A sequence of whole rounds. */
  ghost predicate Rounds(t: seq<Emitted>) {
    exists rounds :: (forall r :: r in rounds ==> IsRound(r)) && t == Concat(rounds)
  }

  lemma AddRound(t: seq<Emitted>, r: seq<Emitted>)
    requires Rounds(t) && IsRound(r)
    ensures Rounds(t + r)
  {
    var rounds :| (forall r :: r in rounds ==> IsRound(r)) && t == Concat(rounds);
    assert (rounds + [r])[..|rounds|] == rounds;
    assert Concat(rounds + [r]) == t + r;
  }

  /** The part of a round the phase has already emitted. */
  function Unfinished(p: Phase): seq<Emitted> {
    match p
    case Waiting => []
    case Countdown => [Checking]
    case Resuming => [Checking, Paused]
  }

  /** Whole rounds, and then the unfinished one of the phase. */
  ghost predicate Traced(s: State) {
    exists whole :: Rounds(whole) && s.trace == whole + Unfinished(s.phase)
  }

  lemma StepKeepsTraced(s: State, n: nat, step: Step)
    requires Traced(s) && Enabled(s, step)
    ensures Traced(Do(s, n, step))
  {
    hide Rounds;
    var whole :| Rounds(whole) && s.trace == whole + Unfinished(s.phase);
    var t := Do(s, n, step);
    if step.TakeAck? || step.TakeReset? {
      var r := Unfinished(s.phase) + [Tracking];
      AddRound(whole, r);
      assert t.trace == (whole + r) + Unfinished(t.phase);
    } else {
      assert t.trace == whole + Unfinished(t.phase);
    }
  }

  /** Every trace is a sequence of whole rounds with at most one unfinished at the end. */
  lemma {:induction false} TracesAreRounds(n: nat, steps: seq<Step>)
    requires IsRun(n, steps)
    ensures Traced(After(n, steps))
    decreases |steps|
  {
    if steps != [] {
      TracesAreRounds(n, steps[..|steps| - 1]);
      StepKeepsTraced(After(n, steps[..|steps| - 1]), n, steps[|steps| - 1]);
    } else {
      assert Concat([]) == [];
      assert Rounds([]) && [] + Unfinished(Waiting) == After(n, steps).trace;
    }
  }

  /** What the steps announce: a check, a missed check, and tracking after an answer or a
      focus change. */
  ghost function Announced(steps: seq<Step>): seq<Emitted> {
    if steps == [] then []
    else
      Announced(steps[..|steps| - 1]) + match steps[|steps| - 1]
                                        case TimerFires => [Checking]
                                        case CountdownEnds => [Paused]
                                        case TakeAck => [Tracking]
                                        case TakeReset => [Tracking]
                                        case _ => []
  }

  lemma {:induction false} TraceIsAnnounced(n: nat, steps: seq<Step>)
    requires IsRun(n, steps)
    ensures After(n, steps).trace == Announced(steps)
    decreases |steps|
  {
    if steps != [] {
      TraceIsAnnounced(n, steps[..|steps| - 1]);
    }
  }

  // ----- The tiers -----

  /** Answers to a check since tracking last restarted from the first interval. */
  ghost function Escalations(n: nat, steps: seq<Step>): nat
    requires IsRun(n, steps)
  {
    if steps == [] then 0
    else
      var init, step := steps[..|steps| - 1], steps[|steps| - 1];
      if step.TakeReset? || (step.TakeAck? && After(n, init).phase.Resuming?) then 0
      else Escalations(n, init) + if step.TakeAck? then 1 else 0
  }

  lemma {:induction false} TierCountsEscalations(n: nat, steps: seq<Step>)
    requires n > 0 && IsRun(n, steps)
    ensures After(n, steps).tier == if Escalations(n, steps) < n then Escalations(n, steps) else n - 1
    decreases |steps|
  {
    if steps != [] {
      TierCountsEscalations(n, steps[..|steps| - 1]);
    }
  }

  /** The wait for the next check is the interval that belongs to the answers given since
      tracking last started over, or the last one if there are more answers than intervals. */
  lemma WaitIsByAnswers(intervals: seq<int>, steps: seq<Step>)
    requires intervals != [] && IsRun(|intervals|, steps)
    ensures var answers := Escalations(|intervals|, steps);
            CurrentInterval(intervals, After(|intervals|, steps).tier)
            == if answers < |intervals| then intervals[answers] else intervals[|intervals| - 1]
  {
    TierCountsEscalations(|intervals|, steps);
  }

  /** Step `k` starts tracking over from the first interval. */
  ghost predicate StartsOver(n: nat, steps: seq<Step>, k: nat)
    requires IsRun(n, steps) && k < |steps|
  {
    RunPrefix(n, steps, k);
    steps[k].TakeReset? || (steps[k].TakeAck? && After(n, steps[..k]).phase.Resuming?)
  }

  lemma {:induction false} RunPrefix(n: nat, steps: seq<Step>, k: nat)
    requires IsRun(n, steps) && k <= |steps|
    ensures IsRun(n, steps[..k])
    decreases |steps|
  {
    if k < |steps| {
      assert steps[..|steps| - 1][..k] == steps[..k];
      RunPrefix(n, steps[..|steps| - 1], k);
    } else {
      assert steps[..k] == steps;
    }
  }

  ghost predicate NonDecreasing(intervals: seq<int>) {
    forall i, j :: 0 <= i <= j < |intervals| ==> intervals[i] <= intervals[j]
  }

  /** With non-decreasing intervals, the wait for a check never gets shorter until
      tracking starts over. */
  lemma {:induction false} WaitsNeverShrink(intervals: seq<int>, steps: seq<Step>, i: nat)
    requires intervals != [] && NonDecreasing(intervals) && IsRun(|intervals|, steps) && i <= |steps|
    requires forall k :: i <= k < |steps| ==> !StartsOver(|intervals|, steps, k)
    requires IsRun(|intervals|, steps[..i])
    ensures CurrentInterval(intervals, After(|intervals|, steps[..i]).tier)
            <= CurrentInterval(intervals, After(|intervals|, steps).tier)
    decreases |steps|
  {
    var n := |intervals|;
    if i < |steps| {
      var init := steps[..|steps| - 1];
      assert init[..i] == steps[..i];
      forall k | i <= k < |init| ensures !StartsOver(n, init, k) {
        assert init[..k] == steps[..k] && !StartsOver(n, steps, k);
      }
      assert !StartsOver(n, steps, |steps| - 1);
      WaitsNeverShrink(intervals, init, i);
      TierCountsEscalations(n, init);
      TierCountsEscalations(n, steps);
    } else {
      assert steps[..i] == steps;
    }
  }

  // ----- Early answers -----

  /** Some answer so far has not been taken, nor any after it. */
  ghost predicate HasUntaken(steps: seq<Step>) {
    exists i :: 0 <= i < |steps| && steps[i].Acknowledge? && NoneTakenSince(steps, i)
  }

  ghost predicate NoneTakenSince(steps: seq<Step>, i: int) {
    forall j :: 0 <= i < j < |steps| ==> !steps[j].TakeAck?
  }

  lemma OneMoreAnswer(init: seq<Step>, step: Step)
    ensures HasUntaken(init + [step]) <==> step.Acknowledge? || (HasUntaken(init) && !step.TakeAck?)
  {
    var steps := init + [step];
    if step.Acknowledge? {
      assert steps[|init|].Acknowledge? && NoneTakenSince(steps, |init|);
    } else if HasUntaken(init) && !step.TakeAck? {
      var i :| 0 <= i < |init| && init[i].Acknowledge? && NoneTakenSince(init, i);
      assert steps[i].Acknowledge? && NoneTakenSince(steps, i);
    }
    if i :| 0 <= i < |steps| && steps[i].Acknowledge? && NoneTakenSince(steps, i) && i < |init| {
      assert init[i].Acknowledge? && steps[|init|] == step;
      assert forall j :: i < j < |init| ==> init[j] == steps[j];
      assert NoneTakenSince(init, i);
    }
  }

  lemma {:induction false} AnswerIsHeld(n: nat, steps: seq<Step>)
    requires IsRun(n, steps)
    ensures After(n, steps).ack <==> HasUntaken(steps)
    decreases |steps|
  {
    hide HasUntaken;
    if steps == [] {
      assert !HasUntaken([]) by { NoAnswerYet(); }
    } else {
      var init, step := steps[..|steps| - 1], steps[|steps| - 1];
      AnswerIsHeld(n, init);
      OneMoreAnswer(init, step);
      assert steps == init + [step];
    }
  }

  lemma NoAnswerYet()
    ensures !HasUntaken([])
  {
  }

  /** Exactly when a check that starts can be answered at once: an answer was given since
      the last one taken, however long before the check. */
  lemma EarlyAnswerIff(n: nat, steps: seq<Step>)
    requires IsRun(n, steps) && After(n, steps).phase.Waiting?
    ensures Enabled(Do(After(n, steps), n, TimerFires), TakeAck) <==> HasUntaken(steps)
  {
    AnswerIsHeld(n, steps);
  }

  /** An example: an answer given before any check escalates at the first one. */
  lemma EarlyAnswerIsKept(n: nat)
    requires n >= 2
    ensures IsRun(n, [Acknowledge, TimerFires, TakeAck]) && After(n, [Acknowledge, TimerFires, TakeAck]).tier == 1
  {
    var steps := [Acknowledge, TimerFires, TakeAck];
    assert steps[..2] == [Acknowledge, TimerFires] && steps[..2][..1] == [Acknowledge] && steps[..2][..1][..0] == [];
    assert IsRun(n, []) && After(n, []) == State(Waiting, 0, false, false, []);
    assert IsRun(n, steps[..2][..1]) && After(n, steps[..2][..1]) == State(Waiting, 0, true, false, []);
    assert IsRun(n, steps[..2]) && After(n, steps[..2]) == State(Countdown, 0, true, false, [Checking]);
  }

  // ----- The code -----

  /** Rejects a schedule that is empty or has a duration that is not positive. */
  method NewDeadman(intervals: seq<int>, countdown: int) returns (d: Switch?)
    ensures d != null <==> ValidSchedule(intervals, countdown)
    ensures d != null ==> fresh(d) && d.intervals == intervals && d.Now() == After(|intervals|, [])
  {
    if |intervals| == 0 {
      return null;
    }
    for i := 0 to |intervals|
      invariant forall j :: 0 <= j < i ==> intervals[j] > 0
    {
      if intervals[i] <= 0 {
        return null;
      }
    }
    if countdown <= 0 {
      return null;
    }
    d := new Switch(intervals);
  }

  class Switch {
    const intervals: seq<int>
    var phase: Phase
    var tier: nat
    var ack: bool
    var reset: bool
    var trace: seq<Emitted>

    function Now(): State
      reads this
    {
      State(phase, tier, ack, reset, trace)
    }

    constructor (intervals: seq<int>)
      ensures this.intervals == intervals && Now() == After(|intervals|, [])
    {
      this.intervals := intervals;
      phase, tier, ack, reset, trace := Waiting, 0, false, false, [];
    }

    /** A full channel drops the token. */
    method Acknowledge()
      modifies this
      ensures Now() == Do(old(Now()), |intervals|, Step.Acknowledge)
    {
      ack := true;
    }

    method Reset()
      modifies this
      ensures Now() == Do(old(Now()), |intervals|, Step.Reset)
    {
      reset := true;
    }

    method Emit(e: Emitted)
      modifies `trace
      ensures trace == old(trace) + [e]
    {
      trace := trace + [e];
    }

    /** The loop takes a focus change, in whichever select it stands. */
    method OnReset()
      requires Enabled(Now(), TakeReset)
      modifies this
      ensures Now() == Do(old(Now()), |intervals|, TakeReset)
    {
      reset := false;
      tier := 0;
      phase := Waiting;
      Emit(Tracking);
    }

    method OnTimer()
      requires Enabled(Now(), TimerFires)
      modifies this
      ensures Now() == Do(old(Now()), |intervals|, TimerFires)
    {
      Emit(Checking);
      phase := Countdown;
    }

    /** An answer escalates during the countdown, and starts over after a pause. */
    method OnAck()
      requires Enabled(Now(), TakeAck)
      modifies this
      ensures Now() == Do(old(Now()), |intervals|, TakeAck)
    {
      ack := false;
      if phase.Countdown? {
        if tier < |intervals| - 1 {
          tier := tier + 1;
        }
      } else {
        tier := 0;
      }
      phase := Waiting;
      Emit(Tracking);
    }

    method OnCountdownEnd()
      requires Enabled(Now(), CountdownEnds)
      modifies this
      ensures Now() == Do(old(Now()), |intervals|, CountdownEnds)
    {
      Emit(Paused);
      phase := Resuming;
    }
  }
}
