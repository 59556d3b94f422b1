/** The spacing of the layout sync's retries (internal/client/layout/sync.go): over whole runs,
    with all that may happen in between, a row is sent again only after its wait. */
module LayoutRetries {
  import opened Base
  import opened Backoff
  import opened SnapshotStore
  import opened LayoutSync

  /** The time of the last pass or statement; the client's clock does not run backwards. */
  function Latest(start: int, steps: seq<Step>): int {
    if steps == [] then start
    else
      var last := steps[|steps| - 1];
      if last.Send? || last.Bump? then last.now else Latest(start, steps[..|steps| - 1])
  }

  ghost predicate Clocked(start: int, steps: seq<Step>) {
    forall i :: 0 <= i < |steps| && (steps[i].Send? || steps[i].Bump?) ==> Latest(start, steps[..i]) <= steps[i].now
  }

  /** The row is captured under an id that is not in flight. */
  ghost predicate FreshCapture(s: State, step: Step, id: int) {
    step.Capture? && step.id == id && !s.flight.Idle? ==> forall e :: e in s.flight.batch ==> e.id != id
  }

  ghost predicate FreshCaptures(log: seq<Op>, device: int, steps: seq<Step>, id: int)
    requires IsRun(log, device, steps)
    decreases |steps|
  {
    steps == [] ||
    (var init := steps[..|steps| - 1];
     FreshCaptures(log, device, init, id) && FreshCapture(After(log, device, init), steps[|steps| - 1], id))
  }

  /** The step records a failure for the row. */
  ghost predicate RecordsRetry(s: State, step: Step, id: int) {
    step.Bump? && step.ok && s.flight.Bumping? && s.flight.batch != [] && s.flight.batch[0].id == id && id in s.rows
  }

  /** The times of the failures recorded for the row since it was captured. */
  ghost function Retries(log: seq<Op>, device: int, steps: seq<Step>, id: int): seq<int>
    requires IsRun(log, device, steps)
    decreases |steps|
  {
    if steps == [] then []
    else
      var init, step := steps[..|steps| - 1], steps[|steps| - 1];
      NextRetries(After(log, device, init), step, id, Retries(log, device, init, id))
  }

  ghost function NextRetries(s: State, step: Step, id: int, times: seq<int>): seq<int> {
    if step.Capture? && step.id == id then []
    else if RecordsRetry(s, step, id) then times + [step.now]
    else times
  }

  /** The row counts its failures and remembers the last. */
  ghost predicate CountsRetries(r: LocalRow, times: seq<int>) {
    r.retryCount == |times| && r.lastRetry == if times == [] then None else Some(times[|times| - 1])
  }

  ghost predicate DistinctIds(batch: seq<Entry>) {
    forall i, j :: 0 <= i < j < |batch| ==> batch[i].id != batch[j].id
  }

  /** What a batch waiting for its reply or recording failures says of the row: unsynced,
      with the count it was read with, and due by now. */
  ghost predicate FlightFits(s: State, id: int, now: int) {
    s.flight.Waiting? || s.flight.Bumping? ==>
      && DistinctIds(s.flight.batch)
      && forall e :: e in s.flight.batch && e.id == id && id in s.rows ==>
           && s.rows[id].syncedAt.None? && s.rows[id].retryCount == e.retryCount
           && (s.rows[id].lastRetry.Some? ==> s.rows[id].lastRetry.value + BackoffFor(e.retryCount) <= now)
  }

  ghost predicate RetryInv(s: State, id: int, times: seq<int>, now: int) {
    && Spaced(times) && FlightFits(s, id, now)
    && (id in s.rows && s.rows[id].syncedAt.None? ==> CountsRetries(s.rows[id], times))
  }

  lemma BatchIsDistinct(rows: LocalTable, now: int, batch: seq<Entry>, n: nat)
    requires IsBatch(rows, now, n, batch)
    ensures DistinctIds(batch) && forall e :: e in batch ==> EntryOf(rows, e) && Due(rows[e.id], now)
  {
    hide Due, EntryOf, ByCapture;
    var due :| IsDueList(rows, now, due) && batch == if 0 < n < |due| then due[..n] else due;
    DueIsDistinct(rows, now, due);
    assert forall e :: e in batch ==> e in due;
  }

  lemma DueIsDistinct(rows: LocalTable, now: int, due: seq<Entry>)
    requires IsDueList(rows, now, due)
    ensures DistinctIds(due)
  {
    hide Due, ByCapture;
    forall i, j | 0 <= i < j < |due| ensures due[i].id != due[j].id {
      assert due[i] in due && due[j] in due;
      if due[i] == due[j] {
        RepeatedIsShort(due, i, j);
      }
    }
  }

  lemma RepeatedIsShort(s: seq<Entry>, i: nat, j: nat)
    requires i < j < |s| && s[i] == s[j]
    ensures |Elems(s)| < |s|
  {
    var rest := s[..j] + s[j + 1..];
    assert Elems(s) == Elems(rest) by {
      assert s == s[..j] + [s[j]] + s[j + 1..] && s[i] in s[..j];
    }
    FewElems(rest);
  }

  lemma {:induction false} FewElems(s: seq<Entry>)
    ensures |Elems(s)| <= |s|
  {
    if s != [] {
      var init, last := s[..|s| - 1], s[|s| - 1];
      FewElems(init);
      assert s == init + [last];
      ElemsAppend(init, last);
    }
  }

  lemma SendKeepsRetries(s: State, device: int, step: Step, id: int, times: seq<int>, now: int)
    requires RetryInv(s, id, times, now) && Enabled(s, step) && step.Send?
    ensures RetryInv(Do(s, device, step), id, times, step.now)
  {
    hide Spaced, IsBatch;
    var n: nat :| IsBatch(s.rows, step.now, n, step.batch);
    BatchIsDistinct(s.rows, step.now, step.batch, n);
  }

  lemma BumpKeepsRetries(s: State, device: int, step: Step, id: int, times: seq<int>, now: int)
    requires RetryInv(s, id, times, now) && Enabled(s, step) && step.Bump? && now <= step.now
    ensures RetryInv(Do(s, device, step), id, NextRetries(s, step, id, times), step.now)
  {
    hide Spaced, BackoffFor;
    var e, rest := s.flight.batch[0], s.flight.batch[1..];
    assert e in s.flight.batch && forall x :: x in rest ==> x in s.flight.batch && x.id != e.id;
    if RecordsRetry(s, step, id) {
      SpacedAppend(times, step.now);
    }
  }

  lemma OtherKeepsRetries(s: State, device: int, step: Step, id: int, times: seq<int>, now: int)
    requires RetryInv(s, id, times, now) && Enabled(s, step) && FreshCapture(s, step, id) && !step.Send? && !step.Bump?
    ensures RetryInv(Do(s, device, step), id, NextRetries(s, step, id, times), now)
  {
    hide Spaced, BackoffFor, Handle;
    assert Spaced([]) by { NoneSpaced(); }
  }

  lemma {:induction false} RunKeepsRetries(log: seq<Op>, device: int, start: int, steps: seq<Step>, id: int)
    requires IsRun(log, device, steps) && Clocked(start, steps) && FreshCaptures(log, device, steps, id)
    ensures RetryInv(After(log, device, steps), id, Retries(log, device, steps, id), Latest(start, steps))
    decreases |steps|
  {
    if steps == [] {
      NoneSpaced();
    } else {
      var init, step := steps[..|steps| - 1], steps[|steps| - 1];
      assert Clocked(start, init) by {
        assert forall i :: 0 <= i < |init| ==> init[..i] == steps[..i] && init[i] == steps[i];
      }
      assert step.Bump? ==> Latest(start, init) <= step.now;
      RunKeepsRetries(log, device, start, init, id);
      var s, times, now := After(log, device, init), Retries(log, device, init, id), Latest(start, init);
      hide RetryInv, Do, Enabled, FreshCapture;
      if step.Send? {
        SendKeepsRetries(s, device, step, id, times, now);
      } else if step.Bump? {
        BumpKeepsRetries(s, device, step, id, times, now);
      } else {
        OtherKeepsRetries(s, device, step, id, times, now);
      }
    }
  }

  /** The k-th and the next failure recorded for a row are at least 5, 15, and from the third
      on 60 minutes apart, and so N of them take at least 20 + 60 (N - 3) minutes. */
  lemma RowRetriesBackOff(log: seq<Op>, device: int, start: int, steps: seq<Step>, id: int, k: nat)
    requires IsRun(log, device, steps) && Clocked(start, steps) && FreshCaptures(log, device, steps, id)
    requires 1 <= k < |Retries(log, device, steps, id)|
    ensures var times := Retries(log, device, steps, id);
            && times[k - 1] + 60 * (if k == 1 then 5 else if k == 2 then 15 else 60) <= times[k]
            && (|times| >= 3 ==> times[|times| - 1] - times[0] >= 20 * 60 + 3600 * (|times| - 3))
  {
    RunKeepsRetries(log, device, start, steps, id);
    var times := Retries(log, device, steps, id);
    if |times| >= 3 {
      SpacedSpan(times, |times|);
    }
  }

  /** A permanent error delays nothing: what was sent can be sent again at once. */
  lemma PermanentErrorDelaysNothing(s: State, device: int, now: int, batch: seq<Entry>)
    requires Enabled(s, Send(now, batch))
    ensures var sent := Do(s, device, Send(now, batch));
            Enabled(sent, ReplyPermanent) && Enabled(Do(sent, device, ReplyPermanent), Send(now, batch))
  {
    hide IsBatch;
  }

  /** And a pending row is due again exactly after that wait. */
  lemma RowDueAgain(log: seq<Op>, device: int, start: int, steps: seq<Step>, id: int, now: int)
    requires IsRun(log, device, steps) && Clocked(start, steps) && FreshCaptures(log, device, steps, id)
    requires id in After(log, device, steps).rows && After(log, device, steps).rows[id].syncedAt.None?
    ensures var times := Retries(log, device, steps, id);
            var n := |times|;
            Due(After(log, device, steps).rows[id], now)
            <==> n == 0 || times[n - 1] + 60 * (if n == 1 then 5 else if n == 2 then 15 else 60) <= now
  {
    RunKeepsRetries(log, device, start, steps, id);
  }
}
