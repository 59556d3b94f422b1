/** What the layout sync achieves over whole runs: rows marked synced were stored, once, and
    captured rows are not forgotten (internal/client/layout/sync.go, store.go,
    internal/server/api/layout_handlers.go). */
module LayoutDelivery {
  import opened Base
  import opened SnapshotStore
  import opened LookupSurvival
  import opened LayoutSync

  // ----- Deliveries -----

  lemma AcceptedStays(log: seq<Op>, more: seq<Op>, i: nat)
    requires Accepted(log, i)
    ensures Accepted(log + more, i) && SentAt(log + more, i) == SentAt(log, i)
  {
    assert (log + more)[..i] == log[..i];
  }

  lemma DeliveredStays(log: seq<Op>, more: seq<Op>, device: int, p: Payload)
    requires Delivered(log, device, p)
    ensures Delivered(log + more, device, p)
  {
    var i: nat :| Accepted(log, i) && SentAt(log, i) == (device, p.capturedAt, p.windows, p.hash);
    AcceptedStays(log, more, i);
  }

  lemma {:induction false} RunThenApply(log: seq<Op>, ops: seq<Op>)
    ensures Run(log + ops) == ApplyAll(Run(log), ops)
    decreases |ops|
  {
    if ops == [] {
      assert log + [] == log;
    } else {
      assert log + ops == (log + [ops[0]]) + ops[1..];
      assert (log + [ops[0]])[..|log|] == log;
      RunThenApply(log + [ops[0]], ops[1..]);
    }
  }

  /** A delivery that gets through the batch has delivered every payload in it. */
  lemma {:induction false} CompletedDelivers(log: seq<Op>, now: int, device: int, batch: seq<Payload>, db: seq<Attempt>)
    requires Handle(Run(log), now, device, batch, db).completed
    ensures forall p :: p in batch ==> Delivered(log + Handle(Run(log), now, device, batch, db).ops, device, p)
    decreases |batch|
  {
    if batch != [] {
      var op := Ingest(now, db[0].id, ToSnapshot(device, batch[0]));
      var log' := log + [op];
      assert log'[..|log|] == log;
      var rest := Handle(Run(log'), now, device, batch[1..], db[1..]);
      CompletedDelivers(log', now, device, batch[1..], db[1..]);
      assert log + ([op] + rest.ops) == log' + rest.ops;
      assert Accepted(log', |log|);
      assert SentAt(log', |log|) == (device, batch[0].capturedAt, batch[0].windows, batch[0].hash);
      DeliveredStays(log', rest.ops, device, batch[0]);
      assert forall p :: p in batch ==> p == batch[0] || p in batch[1..];
    }
  }

  // ----- What every run keeps -----

  /** Growing the server's log keeps the invariant. */
  lemma LogGrows(s: State, device: int, more: seq<Op>)
    requires Inv(s, device)
    ensures Inv(s.(log := s.log + more), device)
  {
    forall p | Delivered(s.log, device, p) ensures Delivered(s.log + more, device, p) {
      DeliveredStays(s.log, more, device, p);
    }
  }

  lemma PayloadsOf(batch: seq<Entry>, e: Entry)
    requires e in batch
    ensures e.payload in Payloads(batch)
  {
    var i :| 0 <= i < |batch| && batch[i] == e;
    assert Payloads(batch)[i] == e.payload;
  }

  lemma ClientStepKeepsInv(s: State, device: int, step: Step)
    requires Inv(s, device) && Enabled(s, step) && NoReuse(s, step)
    requires !step.Deliver? && !step.ServerSweep? && !step.ReplyOk? && !step.Send?
    ensures Inv(Do(s, device, step), device)
  {
  }

  lemma SendKeepsInv(s: State, device: int, step: Step)
    requires Inv(s, device) && Enabled(s, step) && step.Send?
    ensures Inv(Do(s, device, step), device)
  {
  }

  lemma ReplyOkKeepsInv(s: State, device: int, step: Step)
    requires Inv(s, device) && Enabled(s, step) && step.ReplyOk?
    ensures Inv(Do(s, device, step), device)
  {
    hide Delivered;
    forall e | e in s.flight.batch ensures Delivered(s.log, device, e.payload) {
      PayloadsOf(s.flight.batch, e);
    }
  }

  lemma ServerStepKeepsInv(s: State, device: int, step: Step)
    requires Inv(s, device) && Enabled(s, step) && (step.Deliver? || step.ServerSweep?)
    ensures Inv(Do(s, device, step), device)
  {
    hide Delivered;
    if step.Deliver? {
      var h := Handle(Run(s.log), step.now, device, step.payloads, step.db);
      LogGrows(s, device, h.ops);
      if h.completed {
        CompletedDelivers(s.log, step.now, device, step.payloads, step.db);
      }
    } else {
      LogGrows(s, device, [step.op]);
    }
  }

  lemma StepKeepsInv(s: State, device: int, step: Step)
    requires Inv(s, device) && Enabled(s, step) && NoReuse(s, step)
    ensures Inv(Do(s, device, step), device)
  {
    hide Inv, Do, Enabled, NoReuse;
    if step.Send? {
      SendKeepsInv(s, device, step);
    } else if step.ReplyOk? {
      ReplyOkKeepsInv(s, device, step);
    } else if step.Deliver? || step.ServerSweep? {
      ServerStepKeepsInv(s, device, step);
    } else {
      ClientStepKeepsInv(s, device, step);
    }
  }

  lemma {:induction false} RunKeepsInv(log: seq<Op>, device: int, steps: seq<Step>)
    requires IsRun(log, device, steps) && NeverReuses(log, device, steps)
    ensures Inv(After(log, device, steps), device)
    decreases |steps|
  {
    if steps != [] {
      RunKeepsInv(log, device, steps[..|steps| - 1]);
      StepKeepsInv(After(log, device, steps[..|steps| - 1]), device, steps[|steps| - 1]);
    }
  }

  // ----- Main results -----

  /** A row marked synced was stored by the server, and the server's lookup at its
      capture time still finds a snapshot less than an hour older, whatever sweeps ran. */
  lemma SyncedWasIngested(log: seq<Op>, device: int, steps: seq<Step>, id: int)
    requires IsRun(log, device, steps) && NeverReuses(log, device, steps)
    requires id in After(log, device, steps).rows && After(log, device, steps).rows[id].syncedAt.Some?
    ensures var s := After(log, device, steps);
            var p := s.rows[id].payload;
            && Delivered(s.log, device, p)
            && (exists r :: IsLatestAt(Run(s.log), device, p.capturedAt, r))
            && (forall r :: IsLatestAt(Run(s.log), device, p.capturedAt, r) ==>
                  p.capturedAt - 3600 < Run(s.log)[r].capturedAt)
  {
    RunKeepsInv(log, device, steps);
    var s := After(log, device, steps);
    var p := s.rows[id].payload;
    var i: nat :| Accepted(s.log, i) && SentAt(s.log, i) == (device, p.capturedAt, p.windows, p.hash);
    LookupSurvives(s.log, i, p.capturedAt, 3600);
  }

  /** However often batches are repeated, the server holds one row per snapshot. */
  lemma ServerNeverDuplicates(log: seq<Op>, device: int, steps: seq<Step>)
    requires IsRun(log, device, steps)
    ensures UniqueKeys(Run(After(log, device, steps).log))
  {
    RunKeepsUniqueKeys(After(log, device, steps).log);
  }

  /** A captured row stays in the client's table, unaltered, until Prune deletes it. */
  lemma {:induction false} CapturedIsKept(log: seq<Op>, device: int, steps: seq<Step>, k: nat)
    requires IsRun(log, device, steps) && k < |steps| && steps[k].Capture?
    requires forall j :: k < j < |steps| && steps[j].PruneOld? ==> steps[j].cutoff <= steps[k].p.capturedAt
    ensures var rows := After(log, device, steps).rows;
            steps[k].id in rows && rows[steps[k].id].payload == steps[k].p
    decreases |steps|
  {
    var init := steps[..|steps| - 1];
    if k < |steps| - 1 {
      hide Handle;
      CapturedIsKept(log, device, init, k);
      assert steps[k] == init[k];
      var s, step := After(log, device, init), steps[|steps| - 1];
      assert Enabled(s, step) && After(log, device, steps) == Do(s, device, step);
    }
  }

  /** Prune deletes just the rows captured before its cutoff. */
  lemma PruneDeletesOld(log: seq<Op>, device: int, steps: seq<Step>, id: int)
    requires IsRun(log, device, steps) && steps != [] && steps[|steps| - 1].PruneOld?
    ensures var before := After(log, device, steps[..|steps| - 1]).rows;
            var after := After(log, device, steps).rows;
            if id in before && before[id].payload.capturedAt >= steps[|steps| - 1].cutoff then
              id in after && after[id] == before[id]
            else id !in after
  {
    hide Enabled, IsBatch;
  }

  /** So a captured row that Prune has not deleted is still pending, or it was ingested. */
  lemma PendingOrIngested(log: seq<Op>, device: int, steps: seq<Step>, k: nat)
    requires IsRun(log, device, steps) && NeverReuses(log, device, steps)
    requires k < |steps| && steps[k].Capture?
    requires forall j :: k < j < |steps| && steps[j].PruneOld? ==> steps[j].cutoff <= steps[k].p.capturedAt
    ensures var s := After(log, device, steps);
            && steps[k].id in s.rows && s.rows[steps[k].id].payload == steps[k].p
            && (s.rows[steps[k].id].syncedAt.None? || Delivered(s.log, device, steps[k].p))
  {
    hide Delivered;
    CapturedIsKept(log, device, steps, k);
    RunKeepsInv(log, device, steps);
  }
}
