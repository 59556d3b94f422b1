/** The pomodoro timer (internal/client/pomodoro/timer.go): a state behind a mutex, and
    one goroutine per phase with its own stop channel. Goroutines of earlier phases may
    still be alive, and wake up at any moment. */
module Pomodoro {
  import opened Base

  datatype Phase = Idle | Work | Break | Done

  /** Stop channels are numbered in the order they are made. `alive` maps a goroutine,
      named by its channel, to the phase it times. `panicked` records the closing of a
      closed channel. */
  datatype State = State(
    phase: Phase, stopCh: Option<nat>, next: nat, closed: set<nat>, alive: map<nat, Phase>,
    changes: seq<(Phase, Phase)>, panicked: bool)

  const NEW: State := State(Idle, None, 0, {}, map[], [], false)

  datatype Step = Start | Cancel | Stopped(ch: nat) | Expires(ch: nat)

  function Close(s: State): State {
    if s.stopCh.None? then s
    else s.(closed := s.closed + {s.stopCh.value}, panicked := s.panicked || s.stopCh.value in s.closed)
  }

  /** transitionTo a timed phase: close the old channel, make a new one, start its
      goroutine. */
  function TransitionTo(s: State, phase: Phase): State {
    var t := Close(s);
    t.(phase := phase, changes := t.changes + [(s.phase, phase)],
       stopCh := Some(t.next), alive := t.alive[t.next := phase], next := t.next + 1)
  }

  /** A goroutine can end on its stop channel once that is closed, and can wake from its
      timer as long as it is alive, even if the channel is closed as well. */
  predicate Enabled(s: State, step: Step) {
    match step
    case Start => true
    case Cancel => true
    case Stopped(ch) => ch in s.alive && ch in s.closed
    case Expires(ch) => ch in s.alive
  }

  function Do(s: State, step: Step): State
    requires Enabled(s, step)
  {
    match step
    case Start => if s.phase.Idle? || s.phase.Done? then TransitionTo(s, Work) else s
    case Cancel => Close(s).(stopCh := None, phase := Idle, changes := s.changes + [(s.phase, Idle)])
    case Stopped(ch) => s.(alive := s.alive - {ch})
    case Expires(ch) =>
      var t := s.(alive := s.alive - {ch});
      if s.phase != s.alive[ch] then t
      else if s.phase.Work? then TransitionTo(t, Break)
      else t.(phase := Done, changes := t.changes + [(s.phase, Done)])
  }

  ghost predicate IsRun(steps: seq<Step>)
    decreases |steps|, 0
  {
    steps == [] || (IsRun(steps[..|steps| - 1]) && Enabled(After(steps[..|steps| - 1]), steps[|steps| - 1]))
  }

  ghost function After(steps: seq<Step>): State
    requires IsRun(steps)
    decreases |steps|, 1
  {
    if steps == [] then NEW else Do(After(steps[..|steps| - 1]), steps[|steps| - 1])
  }

  predicate Timed(p: Phase) {
    p.Work? || p.Break?
  }

  /** Start from idle or done, work, break, done; or back to idle from anywhere. */
  predicate Move(from: Phase, to: Phase) {
    to.Idle? || (to.Work? && (from.Idle? || from.Done?)) || (from.Work? && to.Break?) || (from.Break? && to.Done?)
  }

  /** The current channel is open and the newest; every other channel ever made and
      still watched is closed; reported changes are legal and end in the current phase. */
  ghost predicate Inv(s: State) {
    && !s.panicked
    && (s.stopCh.Some? ==> s.stopCh.value !in s.closed && s.stopCh.value < s.next)
    && (forall ch :: ch in s.closed ==> ch < s.next)
    && (forall ch :: ch in s.alive ==> ch < s.next && Timed(s.alive[ch]) && (ch in s.closed || s.stopCh == Some(ch)))
    && (Timed(s.phase) ==> s.stopCh.Some?)
    && (forall i :: 0 <= i < |s.changes| ==> Move(s.changes[i].0, s.changes[i].1))
    && (forall i :: 0 < i < |s.changes| ==> s.changes[i - 1].1 == s.changes[i].0)
    && s.phase == if s.changes == [] then Idle else s.changes[|s.changes| - 1].1
  }

  lemma TransitionKeepsInv(s: State, phase: Phase)
    requires Inv(s) && Timed(phase) && Move(s.phase, phase)
    ensures Inv(TransitionTo(s, phase))
  {
  }

  lemma StepKeepsInv(s: State, step: Step)
    requires Inv(s) && Enabled(s, step)
    ensures Inv(Do(s, step))
  {
    hide TransitionTo;
    if step.Start? && (s.phase.Idle? || s.phase.Done?) {
      TransitionKeepsInv(s, Work);
    }
    if step.Expires? && s.phase == s.alive[step.ch] && s.phase.Work? {
      TransitionKeepsInv(s.(alive := s.alive - {step.ch}), Break);
    }
  }

  lemma {:induction false} RunKeepsInv(steps: seq<Step>)
    requires IsRun(steps)
    ensures Inv(After(steps))
    decreases |steps|
  {
    if steps != [] {
      RunKeepsInv(steps[..|steps| - 1]);
      StepKeepsInv(After(steps[..|steps| - 1]), steps[|steps| - 1]);
    }
  }

  /** In every interleaving no channel is closed twice, at most one living goroutine has
      an open stop channel, and the phase only makes legal moves. */
  lemma ChannelsAreSafe(steps: seq<Step>, a: nat, b: nat, i: nat)
    requires IsRun(steps)
    ensures var s := After(steps);
            && !s.panicked
            && (a in s.alive && b in s.alive && a !in s.closed && b !in s.closed ==> a == b)
            && (i < |s.changes| ==> Move(s.changes[i].0, s.changes[i].1))
            && (i + 1 < |s.changes| ==> s.changes[i].1 == s.changes[i + 1].0)
  {
    RunKeepsInv(steps);
  }

  /** Left alone, a session started while idle or done is work, then a break, then done. */
  lemma SessionRunsThrough(steps: seq<Step>)
    requires IsRun(steps) && (After(steps).phase.Idle? || After(steps).phase.Done?)
    ensures var s := After(steps);
            var work := Do(s, Start);
            work.phase.Work? && work.stopCh.Some? && work.stopCh.value in work.alive &&
            var rest := Do(work, Expires(work.stopCh.value));
            rest.phase.Break? && rest.stopCh.Some? && rest.stopCh.value in rest.alive &&
            var done := Do(rest, Expires(rest.stopCh.value));
            done.phase.Done? && done.changes == s.changes + [(s.phase, Work), (Work, Break), (Break, Done)]
  {
    RunKeepsInv(steps);
  }

  /** Nothing but a cancel makes the timer idle, and nothing but a start ends that. */
  lemma IdleByCancelOnly(steps: seq<Step>, step: Step)
    requires IsRun(steps) && Enabled(After(steps), step)
    ensures var s := After(steps);
            && (step.Cancel? ==> Do(s, step).phase.Idle?)
            && (!s.phase.Idle? && Do(s, step).phase.Idle? ==> step.Cancel?)
            && (s.phase.Idle? && !Do(s, step).phase.Idle? ==> step.Start?)
  {
    RunKeepsInv(steps);
  }

  /** Exactly when a waking goroutine changes a phase that is not its own: its channel is
      closed, and the current phase has the name of the one it timed. */
  lemma StaleExpiryIff(steps: seq<Step>, ch: nat)
    requires IsRun(steps) && ch in After(steps).alive
    ensures var s := After(steps);
            Do(s, Expires(ch)).phase != s.phase && s.stopCh != Some(ch) <==> ch in s.closed && s.alive[ch] == s.phase
  {
    RunKeepsInv(steps);
  }

  /** A goroutine left over from a cancelled work phase can end the next one early: it
      compares only the phase's name. */
  lemma StaleGoroutineEndsNewPhase()
    ensures var steps := [Start, Cancel, Start, Expires(0)];
            IsRun(steps) && After(steps).phase == Break && 1 in After(steps).alive && 1 in After(steps).closed
  {
    var steps := [Start, Cancel, Start, Expires(0)];
    assert steps[..3] == [Start, Cancel, Start] && steps[..3][..2] == steps[..2] && steps[..2][..1] == steps[..1];
    assert steps[..1][..0] == [];
    var s1 := State(Work, Some(0), 1, {}, map[0 := Work], [(Idle, Work)], false);
    assert IsRun([]) && After([]) == NEW;
    assert IsRun(steps[..1]) && After(steps[..1]) == s1;
    var s2 := State(Idle, None, 1, {0}, map[0 := Work], [(Idle, Work), (Work, Idle)], false);
    assert IsRun(steps[..2]) && After(steps[..2]) == s2;
    var changes := [(Idle, Work), (Work, Idle), (Idle, Work)];
    var s3 := State(Work, Some(1), 2, {0}, map[0 := Work, 1 := Work], changes, false);
    assert IsRun(steps[..3]) && After(steps[..3]) == s3;
  }

  // ----- The code -----

  /** Each method runs with the mutex held. Closing a channel demands that it is open,
      so that no method can panic. */
  class Timer {
    var s: State

    constructor ()
      ensures s == NEW && Inv(s)
    {
      s := NEW;
    }

    method CloseStopCh()
      requires s.stopCh.Some? ==> s.stopCh.value !in s.closed
      modifies this
      ensures s == Close(old(s)) && s.panicked == old(s.panicked)
    {
      if s.stopCh.Some? {
        s := s.(closed := s.closed + {s.stopCh.value});
      }
    }

    method EnterPhase(phase: Phase)
      requires s.stopCh.Some? ==> s.stopCh.value !in s.closed
      modifies this
      ensures s == TransitionTo(old(s), phase)
    {
      var from := s.phase;
      CloseStopCh();
      s := s.(phase := phase, changes := s.changes + [(from, phase)]);
      var stopCh := s.next;
      s := s.(stopCh := Some(stopCh), next := s.next + 1);
      s := s.(alive := s.alive[stopCh := phase]);
    }

    method StartWork() returns (ok: bool)
      requires Inv(s)
      modifies this
      ensures Inv(s) && s == Do(old(s), Start) && (ok <==> old(s).phase.Idle? || old(s).phase.Done?)
    {
      StepKeepsInv(s, Start);
      if !s.phase.Idle? && !s.phase.Done? {
        return false;
      }
      EnterPhase(Work);
      return true;
    }

    method CancelTimer()
      requires Inv(s)
      modifies this
      ensures Inv(s) && s == Do(old(s), Cancel)
    {
      StepKeepsInv(s, Cancel);
      var from := s.phase;
      CloseStopCh();
      s := s.(stopCh := None, phase := Idle, changes := s.changes + [(from, Idle)]);
    }

    /** The timer branch of runPhase, after which the goroutine is gone. */
    method PhaseExpires(ch: nat)
      requires Inv(s) && ch in s.alive
      modifies this
      ensures Inv(s) && s == Do(old(s), Expires(ch))
    {
      StepKeepsInv(s, Expires(ch));
      var phase := s.alive[ch];
      s := s.(alive := s.alive - {ch});
      if s.phase != phase {
        return;
      }
      if phase.Work? {
        EnterPhase(Break);
      } else {
        s := s.(phase := Done, changes := s.changes + [(phase, Done)]);
      }
    }
  }
}
