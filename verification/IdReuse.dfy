/** What a reused row id costs the layout sync: SQLite gives the id of a deleted newest row
    to the next one (internal/client/layout/store.go), and the client marks rows by id. */
module IdReuse {
  import opened Base
  import opened SnapshotStore
  import opened LayoutSync
  import opened LayoutDelivery
  import opened LayoutPass

  /** Exactly when a capture keeps the invariant whatever it captures: its id is not one
      that may yet be marked. */
  lemma CaptureKeepsInvIff(s: State, device: int, id: int)
    requires Inv(s, device) && IsNextId(s.rows, id)
    ensures (forall p :: Inv(Do(s, device, Capture(id, p)), device))
            <==> forall e :: e in s.flight.ToMark() ==> e.id != id
  {
    hide Delivered;
    if e :| e in s.flight.ToMark() && e.id == id {
      var p := e.payload.(capturedAt := e.payload.capturedAt + 1);
      assert !Inv(Do(s, device, Capture(id, p)), device);
    }
  }

  /** A batch under way was sent. */
  lemma {:induction false} WaitingIsSent(log: seq<Op>, device: int, steps: seq<Step>)
    requires IsRun(log, device, steps)
    ensures var s := After(log, device, steps);
            s.flight.Waiting? ==> s.flight.batch != [] && Payloads(s.flight.batch) in s.sent
    decreases |steps|
  {
    if steps != [] {
      hide Handle, IsBatch;
      var init, step := steps[..|steps| - 1], steps[|steps| - 1];
      WaitingIsSent(log, device, init);
      var s := After(log, device, init);
      assert Enabled(s, step) && After(log, device, steps) == Do(s, device, step);
    }
  }

  /** Every snapshot that reached the server was captured before `n`. */
  ghost predicate IngestedBefore(ops: seq<Op>, n: int) {
    forall i :: 0 <= i < |ops| && ops[i].Ingest? ==> ops[i].row.capturedAt < n
  }

  ghost predicate CapturedBefore(batch: seq<Payload>, n: int) {
    forall i :: 0 <= i < |batch| ==> batch[i].capturedAt < n
  }

  lemma NeverDelivered(log: seq<Op>, device: int, q: Payload)
    requires IngestedBefore(log, q.capturedAt)
    ensures !Delivered(log, device, q)
  {
  }

  /** A time later than everything the server and the batch know of. */
  lemma LaterThanAll(log: seq<Op>, batch: seq<Payload>) returns (n: int)
    ensures IngestedBefore(log, n) && CapturedBefore(batch, n)
  {
    var known := (set i | 0 <= i < |log| && log[i].Ingest? :: log[i].row.capturedAt)
                 + (set i | 0 <= i < |batch| :: batch[i].capturedAt);
    n := AboveAll(known);
    assert forall i :: 0 <= i < |log| && log[i].Ingest? ==> log[i].row.capturedAt in known;
    assert forall i :: 0 <= i < |batch| ==> batch[i].capturedAt in known;
  }

  /** A database that works lets the handler get through any batch of hashed payloads. */
  lemma {:induction false} SomeCompleteDelivery(t: Table, device: int, batch: seq<Payload>, n: int)
    returns (db: seq<Attempt>)
    requires CapturedBefore(batch, n) && forall i :: 0 <= i < |batch| ==> batch[i].hash != ""
    ensures var h := Handle(t, 0, device, batch, db);
            h.completed && IngestedBefore(h.ops, n)
    decreases |batch|
  {
    if batch == [] {
      db := [];
    } else {
      var id := AboveAll(t.Keys);
      var op := Ingest(0, id, ToSnapshot(device, batch[0]));
      var rest := SomeCompleteDelivery(Apply(t, op), device, batch[1..], n);
      db := [Attempt(id, true)] + rest;
      assert db[1..] == rest;
    }
  }

  lemma {:induction false} MarkFirstMarks(
    rows: LocalTable, batch: seq<Entry>, now: int, ok: nat -> bool, k: nat, id: int)
    requires k <= |batch| && id in rows && forall i :: ok(i)
    ensures var after := MarkFirst(rows, batch, now, ok, k);
            && id in after && after[id].payload == rows[id].payload
            && ((exists i :: 0 <= i < k && batch[i].id == id) ==> after[id].syncedAt.Some?)
  {
    if k > 0 {
      MarkFirstMarks(rows, batch, now, ok, k - 1, id);
    }
  }

  /** A row marked synced that the server never stored. */
  ghost predicate LosesRow(s: State, device: int, id: int, q: Payload) {
    && id in s.rows && s.rows[id].payload == q && s.rows[id].syncedAt.Some?
    && !Delivered(s.log, device, q)
  }

  /** From the `n`-th step on, no capture takes an id that may yet be marked. */
  ghost predicate ReusesNoMore(log: seq<Op>, device: int, steps: seq<Step>, n: nat)
    requires IsRun(log, device, steps)
    decreases |steps|
  {
    |steps| <= n ||
    (var init := steps[..|steps| - 1];
     ReusesNoMore(log, device, init, n) && NoReuse(After(log, device, init), steps[|steps| - 1]))
  }

  lemma {:induction false} NoCaptureNoReuse(log: seq<Op>, device: int, steps: seq<Step>, n: nat)
    requires IsRun(log, device, steps) && forall j :: n <= j < |steps| ==> !steps[j].Capture?
    ensures ReusesNoMore(log, device, steps, n)
    decreases |steps|
  {
    if |steps| > n {
      NoCaptureNoReuse(log, device, steps[..|steps| - 1], n);
    }
  }

  /** With no reuse from some point on, an invariant state stays one. */
  lemma {:induction false} KeepsInvFrom(log: seq<Op>, device: int, steps: seq<Step>, n: nat)
    requires IsRun(log, device, steps) && ReusesNoMore(log, device, steps, n) && n <= |steps|
    requires IsRun(log, device, steps[..n]) && Inv(After(log, device, steps[..n]), device)
    ensures Inv(After(log, device, steps), device)
    decreases |steps|
  {
    if |steps| > n {
      var init := steps[..|steps| - 1];
      assert init[..n] == steps[..n];
      KeepsInvFrom(log, device, init, n);
      StepKeepsInv(After(log, device, init), device, steps[|steps| - 1]);
    } else {
      assert steps[..n] == steps;
    }
  }

  /** The run continues with the capture of `q` under `id`, then without any reuse, and the
      new row ends up marked synced although the server never stored it. */
  ghost predicate Loses(log: seq<Op>, device: int, steps: seq<Step>, id: int, q: Payload, more: seq<Step>)
    requires IsRun(log, device, steps)
  {
    && more != [] && more[0] == Capture(id, q) && IsRun(log, device, steps + more)
    && ReusesNoMore(log, device, steps + more, |steps| + 1)
    && LosesRow(After(log, device, steps + more), device, id, q)
  }

  ghost predicate CanLose(log: seq<Op>, device: int, steps: seq<Step>, id: int)
    requires IsRun(log, device, steps)
  {
    exists q, more :: Loses(log, device, steps, id, q, more)
  }

  /** Exactly when the next capture can lose its row: its id is one that may yet be marked.
      While failures are being recorded a reused id does no harm. (The server refuses a
      batch with an empty hash, which the capturer never writes.) */
  lemma CanLoseIffToMark(log: seq<Op>, device: int, steps: seq<Step>, id: int)
    requires IsRun(log, device, steps) && NeverReuses(log, device, steps)
    requires IsNextId(After(log, device, steps).rows, id)
    requires forall e :: e in After(log, device, steps).flight.ToMark() ==> e.payload.hash != ""
    ensures CanLose(log, device, steps, id)
            <==> exists e :: e in After(log, device, steps).flight.ToMark() && e.id == id
  {
    hide IsRun, After, IsNextId, NeverReuses, Inv, ReusesNoMore;
    var s := After(log, device, steps);
    if exists e :: e in s.flight.ToMark() && e.id == id {
      ReuseLosesRow(log, device, steps, id);
    } else {
      RunKeepsInv(log, device, steps);
      forall q, more | Loses(log, device, steps, id, q, more) ensures false {
        SafeCaptureLosesNothing(log, device, steps, id, q, more);
      }
    }
  }

  lemma SafeCaptureLosesNothing(log: seq<Op>, device: int, steps: seq<Step>, id: int, q: Payload, more: seq<Step>)
    requires IsRun(log, device, steps) && Inv(After(log, device, steps), device)
    requires IsNextId(After(log, device, steps).rows, id)
    requires forall e :: e in After(log, device, steps).flight.ToMark() ==> e.id != id
    ensures !Loses(log, device, steps, id, q, more)
  {
    hide Handle, IsNextId, Delivered, NoReuse, LosesRow;
    if Loses(log, device, steps, id, q, more) {
      var s, all := After(log, device, steps), steps + more;
      CaptureKeepsInvIff(s, device, id);
      RunStep(log, device, steps, s, Capture(id, q), Do(s, device, Capture(id, q)));
      assert all[..|steps| + 1] == steps + [Capture(id, q)];
      hide IsRun, After, Inv, ReusesNoMore, Do;
      KeepsInvFrom(log, device, all, |steps| + 1);
      InvLosesNothing(After(log, device, all), device, id, q);
    }
  }

  lemma InvLosesNothing(s: State, device: int, id: int, q: Payload)
    requires Inv(s, device)
    ensures !LosesRow(s, device, id, q)
  {
    hide Delivered;
  }

  /** Whenever an id that may yet be marked is reused, the run can go on to mark the new row
      synced although the server never stored it. */
  lemma ReuseLosesRow(log: seq<Op>, device: int, steps: seq<Step>, id: int)
    requires IsRun(log, device, steps)
    requires var s := After(log, device, steps);
             && IsNextId(s.rows, id) && (exists e :: e in s.flight.ToMark() && e.id == id)
             && (forall e :: e in s.flight.ToMark() ==> e.payload.hash != "")
    ensures CanLose(log, device, steps, id)
  {
    hide Handle, IsNextId, Delivered, Run, IsRun, After, CanLose;
    var s := After(log, device, steps);
    var batch := s.flight.batch;
    var n := LaterThanAll(s.log, Payloads(batch));
    var q := Payload(n, "", "new");
    if s.flight.Waiting? {
      WaitingIsSent(log, device, steps);
      var db := SomeCompleteDelivery(Run(s.log), device, Payloads(batch), n);
      var marking := UpToMarking(log, device, steps, id, q, db);
      MarkingLosesRow(log, device, steps, id, q, marking);
    } else {
      RunStep(log, device, steps, s, Capture(id, q), Do(s, device, Capture(id, q)));
      MarkingLosesRow(log, device, steps, id, q, steps + [Capture(id, q)]);
    }
  }

  /** From a state that marks a batch with the reused id, marking it all loses the row. */
  lemma MarkingLosesRow(log: seq<Op>, device: int, steps: seq<Step>, id: int, q: Payload, marking: seq<Step>)
    requires IsRun(log, device, steps) && IsRun(log, device, marking)
    requires |marking| > |steps| && marking[..|steps|] == steps && marking[|steps|] == Capture(id, q)
    requires forall j :: |steps| < j < |marking| ==> !marking[j].Capture?
    requires var t := After(log, device, marking);
             && t.flight.Marking? && (exists e :: e in t.flight.batch && e.id == id)
             && id in t.rows && t.rows[id].payload == q && IngestedBefore(t.log, q.capturedAt)
    ensures CanLose(log, device, steps, id)
  {
    hide Delivered, MarkFirst, MarkSteps, IsRun, After;
    var t, all := After(log, device, marking), (i: nat) => true;
    var batch := t.flight.batch;
    var more := marking[|steps|..] + MarkSteps(0, all, |batch|);
    MarkingIsARun(log, device, marking, batch, 0, all, |batch|);
    assert steps + more == marking + MarkSteps(0, all, |batch|);
    MarkFirstMarks(t.rows, batch, 0, all, |batch|, id);
    NeverDelivered(t.log, device, q);
    NoCapturesAfter(marking, 0, all, |batch|, |steps| + 1);
    NoCaptureNoReuse(log, device, steps + more, |steps| + 1);
    hide ReusesNoMore;
    assert Loses(log, device, steps, id, q, more);
  }

  lemma {:induction false} NoCapturesAfter(steps: seq<Step>, now: int, ok: nat -> bool, k: nat, n: nat)
    requires forall j :: n <= j < |steps| ==> !steps[j].Capture?
    ensures var all := steps + MarkSteps(now, ok, k);
            forall j :: n <= j < |all| ==> !all[j].Capture?
  {
    if k > 0 {
      NoCapturesAfter(steps, now, ok, k - 1, n);
      assert steps + MarkSteps(now, ok, k) == (steps + MarkSteps(now, ok, k - 1)) + [Mark(now, ok(k - 1))];
    }
  }

  /** Capture under the reused id, deliver the batch, take the good reply. */
  lemma UpToMarking(log: seq<Op>, device: int, steps: seq<Step>, id: int, q: Payload, db: seq<Attempt>)
    returns (more: seq<Step>)
    requires IsRun(log, device, steps)
    requires var s := After(log, device, steps);
             && s.flight.Waiting? && IsNextId(s.rows, id) && Payloads(s.flight.batch) in s.sent
             && Handle(Run(s.log), 0, device, Payloads(s.flight.batch), db).completed
    ensures |more| > |steps| && more[..|steps|] == steps && more[|steps|] == Capture(id, q) && IsRun(log, device, more)
    ensures forall j :: |steps| < j < |more| ==> !more[j].Capture?
    ensures var s, t := After(log, device, steps), After(log, device, more);
            && t.flight == Marking(s.flight.batch) && t.rows == s.rows[id := LocalRow(q, None, 0, None)]
            && t.log == s.log + Handle(Run(s.log), 0, device, Payloads(s.flight.batch), db).ops
  {
    hide IsRun, After, Handle, IsNextId;
    var s := After(log, device, steps);
    var s1 := Do(s, device, Capture(id, q));
    RunStep(log, device, steps, s, Capture(id, q), s1);
    more := steps + [Capture(id, q)];
    var deliver := Deliver(0, Payloads(s.flight.batch), db);
    var s2 := Do(s1, device, deliver);
    RunStep(log, device, more, s1, deliver, s2);
    more := more + [deliver];
    RunStep(log, device, more, s2, ReplyOk, Do(s2, device, ReplyOk));
    more := more + [ReplyOk];
  }

  /** Such a state is reached when Prune deletes the newest row while it is in flight. */
  lemma ReusedIdLosesRow()
    ensures exists steps, id, q :: IsRun([], 7, steps) && LosesRow(After([], 7, steps), 7, id, q)
  {
    var p := Payload(0, "", "old");
    var e := Entry(1, p, 0);
    var s0 := State(map[], Idle, {}, {}, []);
    var s1 := s0.(rows := map[1 := LocalRow(p, None, 0, None)]);
    var s2 := s1.(flight := Waiting([e]), sent := {[p]});
    var s3 := s2.(rows := map[]);
    CaptureSendPrune(p, s0, s1, s2, s3);
    var r1 := [] + [Capture(1, p)];
    var r2 := r1 + [Send(0, [e])];
    var r3 := r2 + [PruneOld(p.capturedAt + 1)];
    hide Do, Enabled, LosesRow, ReusesNoMore;
    RunStep([], 7, [], s0, Capture(1, p), s1);
    hide IsRun, After;
    RunStep([], 7, r1, s1, Send(0, [e]), s2);
    RunStep([], 7, r2, s2, PruneOld(p.capturedAt + 1), s3);
    assert e in [e];
    ReuseLosesRow([], 7, r3, 1);
    var q, more :| Loses([], 7, r3, 1, q, more);
    assert IsRun([], 7, r3 + more) && LosesRow(After([], 7, r3 + more), 7, 1, q);
  }

  lemma CaptureSendPrune(p: Payload, s0: State, s1: State, s2: State, s3: State)
    requires s0 == State(map[], Idle, {}, {}, [])
    requires s1 == s0.(rows := map[1 := LocalRow(p, None, 0, None)])
    requires s2 == s1.(flight := Waiting([Entry(1, p, 0)]), sent := {[p]}) && s3 == s2.(rows := map[])
    ensures Enabled(s0, Capture(1, p)) && Do(s0, 7, Capture(1, p)) == s1
    ensures Enabled(s1, Send(0, [Entry(1, p, 0)])) && Do(s1, 7, Send(0, [Entry(1, p, 0)])) == s2
    ensures Do(s2, 7, PruneOld(p.capturedAt + 1)) == s3
  {
    var e := Entry(1, p, 0);
    assert Payloads([e]) == [p];
    assert IsBatch(s1.rows, 0, 0, [e]) by {
      assert forall x :: x in [e] <==> EntryOf(s1.rows, x) && Due(s1.rows[x.id], 0);
      assert Elems([e]) == {e};
      assert IsDueList(s1.rows, 0, [e]);
    }
  }
}
