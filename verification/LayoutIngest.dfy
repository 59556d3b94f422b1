/** The server's ingest handler (internal/server/api/layout_handlers.go). */
module LayoutIngest {
  import opened SnapshotStore
  import opened LayoutSync

  /** What one turn of the handler's loop contributes. */
  lemma HandleOne(t: Table, now: int, device: int, batch: seq<Payload>, db: seq<Attempt>, i: nat)
    requires i <= |batch| && i <= |db|
    ensures var h := Handle(t, now, device, batch[i..], db[i..]);
            if i == |batch| then h == Handled([], true)
            else if batch[i].hash == "" || i == |db| || !db[i].ok then h == Handled([], false)
            else
              var op := Ingest(now, db[i].id, ToSnapshot(device, batch[i]));
              var rest := Handle(Apply(t, op), now, device, batch[i + 1..], db[i + 1..]);
              if Insert(t, op.id, op.row).1 == Failed then h == Handled([], false)
              else
                && h.completed == rest.completed && |h.ops| == |rest.ops| + 1
                && ApplyAll(t, h.ops) == ApplyAll(Apply(t, op), rest.ops)
    ensures ApplyAll(t, []) == t
  {
    hide Insert, Apply;
    if i < |batch| && i < |db| {
      assert batch[i..][1..] == batch[i + 1..] && db[i..][1..] == db[i + 1..];
    }
  }

  /** POST /api/v1/layout-snapshots, after authentication and device lookup. */
  class IngestHandler {
    const store: Store

    constructor (store: Store)
      ensures this.store == store
    {
      this.store := store;
    }

    /** Inserts the snapshots one by one; nothing is undone when one of them fails. */
    method Ingest(now: int, device: int, batch: seq<Payload>, db: seq<Attempt>)
      returns (status: int, received: nat, deduped: nat)
      modifies store
      ensures var h := Handle(old(store.rows), now, device, batch, db);
              && store.rows == ApplyAll(old(store.rows), h.ops) && received == |h.ops|
              && (status == 201 <==> batch != [] && h.completed)
      ensures |store.rows| == old(|store.rows|) + received - deduped
    {
      hide HasKey, Handle, ApplyAll;
      received, deduped := 0, 0;
      assert batch[0..] == batch && db[0..] == db;
      HandleOne(store.rows, now, device, batch, db, 0);
      if |batch| == 0 {
        return 400, 0, 0;
      }
      ghost var h := Handle(store.rows, now, device, batch, db);
      for i := 0 to |batch|
        invariant received == i <= |db| && deduped <= received
        invariant var rest := Handle(store.rows, now, device, batch[i..], db[i..]);
                  && h.completed == rest.completed && |h.ops| == i + |rest.ops|
                  && ApplyAll(old(store.rows), h.ops) == ApplyAll(store.rows, rest.ops)
        invariant |store.rows| == old(|store.rows|) + received - deduped
      {
        var p := batch[i];
        HandleOne(store.rows, now, device, batch, db, i);
        if p.hash == "" {
          return 400, received, deduped;
        }
        if i == |db| {
          return 500, received, deduped;
        }
        var attempt := db[i];
        var outcome := store.InsertSnapshot(attempt.id, device, p.capturedAt, p.windows, p.hash, attempt.ok);
        if outcome == Failed {
          return 500, received, deduped;
        }
        received := received + 1;
        if outcome == Deduped {
          deduped := deduped + 1;
        }
      }
      HandleOne(store.rows, now, device, batch, db, |batch|);
      return 201, received, deduped;
    }
  }
}
