/** One pass of the client over its pending rows (internal/client/layout/sync.go), and its
    place in the runs of the whole system. */
module LayoutPass {
  import opened Base
  import opened Backoff
  import opened SnapshotStore
  import opened LayoutSync

  /** The outcome of postBatch. */
  datatype Reply = Success | PermanentError | TransientError

  /** What a pass makes of the table after the first `k` statements on its batch; `ok`
      says which statements succeed, `clock` when they run. */
  ghost function MarkFirst(rows: LocalTable, batch: seq<Entry>, now: int, ok: nat -> bool, k: nat): LocalTable
    requires k <= |batch|
  {
    if k == 0 then rows
    else
      var before := MarkFirst(rows, batch, now, ok, k - 1);
      if ok(k - 1) then MarkSynced(before, batch[k - 1].id, now) else before
  }

  ghost function BumpFirst(rows: LocalTable, batch: seq<Entry>, clock: nat -> int, ok: nat -> bool, k: nat): LocalTable
    requires k <= |batch|
  {
    if k == 0 then rows
    else
      var before := BumpFirst(rows, batch, clock, ok, k - 1);
      if ok(k - 1) then BumpRetry(before, batch[k - 1].id, batch[k - 1].retryCount + 1, clock(k - 1)) else before
  }

  /** What a pass makes of the table, by the reply to its batch. */
  ghost function PassRows(
    rows: LocalTable, batch: seq<Entry>, reply: Reply, after: int, clock: nat -> int, ok: nat -> bool): LocalTable
  {
    match reply
    case Success => MarkFirst(rows, batch, after, ok, |batch|)
    case PermanentError => rows
    case TransientError => BumpFirst(rows, batch, clock, ok, |batch|)
  }

  /** Inserts an entry into a list kept oldest first. */
  function InsertByCapture(e: Entry, s: seq<Entry>): (r: seq<Entry>)
    requires ByCapture(s)
    ensures ByCapture(r) && |r| == |s| + 1 && forall x :: x in r <==> x == e || x in s
  {
    if s == [] || e.payload.capturedAt <= s[0].payload.capturedAt then [e] + s
    else
      var rest := InsertByCapture(e, s[1..]);
      ConsByCapture(s, rest, e);
      [s[0]] + rest
  }

  lemma ConsByCapture(s: seq<Entry>, rest: seq<Entry>, e: Entry)
    requires s != [] && ByCapture(s) && ByCapture(rest) && s[0].payload.capturedAt <= e.payload.capturedAt
    requires forall x :: x in rest <==> x == e || x in s[1..]
    ensures ByCapture([s[0]] + rest) && forall x :: x in [s[0]] + rest <==> x == e || x in s
  {
    forall i | 0 <= i < |rest| ensures s[0].payload.capturedAt <= rest[i].payload.capturedAt {
      assert rest[i] in rest;
      if rest[i] != e {
        var j :| 0 <= j < |s[1..]| && s[1..][j] == rest[i];
        assert s[j + 1] == rest[i];
      }
    }
    assert forall x :: x in s <==> x == s[0] || x in s[1..];
    assert forall x :: x in [s[0]] + rest <==> x == s[0] || x in rest;
  }

  /** `due` lists exactly the due rows among `ids`, each once, oldest first. */
  ghost predicate ListsDueOf(rows: LocalTable, now: int, ids: seq<int>, due: seq<Entry>) {
    && ByCapture(due) && |due| == |Elems(due)|
    && (forall e :: e in due <==> e.id in ids && EntryOf(rows, e) && Due(rows[e.id], now))
  }

  lemma DueOfOneMore(rows: LocalTable, now: int, ids: seq<int>, id: int, due: seq<Entry>)
    requires ListsDueOf(rows, now, ids, due) && id in rows && id !in ids
    ensures var r := rows[id];
            ListsDueOf(rows, now, ids + [id],
              if Due(r, now) then InsertByCapture(Entry(id, r.payload, r.retryCount), due) else due)
  {
    hide Due, ByCapture, BackoffFor;
    var e := Entry(id, rows[id].payload, rows[id].retryCount);
    if Due(rows[id], now) {
      var longer := InsertByCapture(e, due);
      assert e !in due;
      assert Elems(longer) == Elems(due) + {e};
    }
  }

  class Syncer {
    var rows: LocalTable

    constructor (rows: LocalTable)
      ensures this.rows == rows
    {
      this.rows := rows;
    }

    method ListDueSnapshots(now: int) returns (due: seq<Entry>)
      ensures IsDueList(rows, now, due)
    {
      var ids := Enumerate(rows.Keys);
      due := [];
      for k := 0 to |ids|
        invariant ListsDueOf(rows, now, ids[..k], due)
      {
        var r := rows[ids[k]];
        PrefixStep(ids, k);
        DueOfOneMore(rows, now, ids[..k], ids[k], due);
        if Due(r, now) {
          due := InsertByCapture(Entry(ids[k], r.payload, r.retryCount), due);
        }
      }
      assert ids[..|ids|] == ids;
    }

    /** One pass: list, post, and record the outcome row by row. The reply, the clock and
        the outcome of each statement are given; `batch` is what was posted. */
    method ProcessPending(now: int, batchSize: nat, reply: Reply, after: int, clock: nat -> int, ok: nat -> bool)
      returns (batch: seq<Entry>)
      modifies this
      ensures IsBatch(old(rows), now, batchSize, batch)
      ensures rows == PassRows(old(rows), batch, reply, after, clock, ok)
    {
      var due := ListDueSnapshots(now);
      batch := due;
      if 0 < batchSize < |due| {
        batch := due[..batchSize];
      }
      if reply.PermanentError? {
        return;
      }
      if reply.TransientError? {
        for k := 0 to |batch|
          invariant rows == BumpFirst(old(rows), batch, clock, ok, k)
        {
          if ok(k) {
            rows := BumpRetry(rows, batch[k].id, batch[k].retryCount + 1, clock(k));
          }
        }
        return;
      }
      for k := 0 to |batch|
        invariant rows == MarkFirst(old(rows), batch, after, ok, k)
      {
        if ok(k) {
          rows := MarkSynced(rows, batch[k].id, after);
        }
      }
    }
  }

  // ----- The code takes the steps of the runs -----

  function MarkSteps(now: int, ok: nat -> bool, k: nat): seq<Step> {
    if k == 0 then [] else MarkSteps(now, ok, k - 1) + [Mark(now, ok(k - 1))]
  }

  function BumpSteps(clock: nat -> int, ok: nat -> bool, k: nat): seq<Step> {
    if k == 0 then [] else BumpSteps(clock, ok, k - 1) + [Bump(clock(k - 1), ok(k - 1))]
  }

  /** After a good reply, the pass marks rows as an uninterrupted run of Mark steps does. */
  lemma {:induction false} MarkingIsARun(
    log: seq<Op>, device: int, steps: seq<Step>, batch: seq<Entry>, now: int, ok: nat -> bool, k: nat)
    requires IsRun(log, device, steps) && After(log, device, steps).flight == Marking(batch)
    requires batch != [] && k <= |batch|
    ensures IsRun(log, device, steps + MarkSteps(now, ok, k))
    ensures var s := After(log, device, steps);
            After(log, device, steps + MarkSteps(now, ok, k))
            == s.(rows := MarkFirst(s.rows, batch, now, ok, k),
                  flight := if k == |batch| then Idle else Marking(batch[k..]))
  {
    if k == 0 {
      assert steps + [] == steps && batch[0..] == batch;
    } else {
      MarkingIsARun(log, device, steps, batch, now, ok, k - 1);
      hide IsRun, After, Do, MarkFirst;
      var s, all := After(log, device, steps), steps + MarkSteps(now, ok, k - 1);
      assert steps + MarkSteps(now, ok, k) == all + [Mark(now, ok(k - 1))];
      MarkOne(s, device, batch, now, ok, k);
      var before := After(log, device, all);
      RunStep(log, device, all, before, Mark(now, ok(k - 1)), Do(before, device, Mark(now, ok(k - 1))));
    }
  }

  lemma MarkOne(s: State, device: int, batch: seq<Entry>, now: int, ok: nat -> bool, k: nat)
    requires 0 < k <= |batch|
    ensures var before := s.(rows := MarkFirst(s.rows, batch, now, ok, k - 1), flight := Marking(batch[k - 1..]));
            Do(before, device, Mark(now, ok(k - 1)))
            == s.(rows := MarkFirst(s.rows, batch, now, ok, k),
                  flight := if k == |batch| then Idle else Marking(batch[k..]))
  {
    assert batch[k - 1..][0] == batch[k - 1] && batch[k - 1..][1..] == batch[k..];
  }

  /** After a transient error, it records the retries as a run of Bump steps does. */
  lemma {:induction false} BumpingIsARun(
    log: seq<Op>, device: int, steps: seq<Step>, batch: seq<Entry>, clock: nat -> int, ok: nat -> bool, k: nat)
    requires IsRun(log, device, steps) && After(log, device, steps).flight == Bumping(batch)
    requires batch != [] && k <= |batch|
    ensures IsRun(log, device, steps + BumpSteps(clock, ok, k))
    ensures var s := After(log, device, steps);
            After(log, device, steps + BumpSteps(clock, ok, k))
            == s.(rows := BumpFirst(s.rows, batch, clock, ok, k),
                  flight := if k == |batch| then Idle else Bumping(batch[k..]))
  {
    if k == 0 {
      assert steps + [] == steps && batch[0..] == batch;
    } else {
      BumpingIsARun(log, device, steps, batch, clock, ok, k - 1);
      hide IsRun, After, Do, BumpFirst;
      var s, all := After(log, device, steps), steps + BumpSteps(clock, ok, k - 1);
      var step := Bump(clock(k - 1), ok(k - 1));
      assert steps + BumpSteps(clock, ok, k) == all + [step];
      BumpOne(s, device, batch, clock, ok, k);
      var before := After(log, device, all);
      RunStep(log, device, all, before, step, Do(before, device, step));
    }
  }

  lemma BumpOne(s: State, device: int, batch: seq<Entry>, clock: nat -> int, ok: nat -> bool, k: nat)
    requires 0 < k <= |batch|
    ensures var before := s.(rows := BumpFirst(s.rows, batch, clock, ok, k - 1), flight := Bumping(batch[k - 1..]));
            Do(before, device, Bump(clock(k - 1), ok(k - 1)))
            == s.(rows := BumpFirst(s.rows, batch, clock, ok, k),
                  flight := if k == |batch| then Idle else Bumping(batch[k..]))
  {
    assert batch[k - 1..][0] == batch[k - 1] && batch[k - 1..][1..] == batch[k..];
  }

  /** The steps a pass takes once it has its reply. */
  function PassSteps(batch: seq<Entry>, reply: Reply, after: int, clock: nat -> int, ok: nat -> bool): seq<Step> {
    match reply
    case Success => [ReplyOk] + MarkSteps(after, ok, |batch|)
    case PermanentError => [ReplyPermanent]
    case TransientError => [ReplyTransient] + BumpSteps(clock, ok, |batch|)
  }

  /** Every pass is a run of the system's steps. `steps` lead up to the reply, with whatever
      deliveries there were since the batch was sent; a good reply needs one that got through
      the batch. The run ends idle, with the table the pass leaves. */
  lemma PassIsARun(log: seq<Op>, device: int, steps: seq<Step>, batch: seq<Entry>, reply: Reply,
                   after: int, clock: nat -> int, ok: nat -> bool)
    requires IsRun(log, device, steps) && After(log, device, steps).flight == Waiting(batch) && batch != []
    requires reply.Success? ==> Payloads(batch) in After(log, device, steps).served
    ensures var s, all := After(log, device, steps), steps + PassSteps(batch, reply, after, clock, ok);
            && IsRun(log, device, all) && After(log, device, all).flight.Idle?
            && After(log, device, all).rows == PassRows(s.rows, batch, reply, after, clock, ok)
  {
    hide IsRun, After;
    var s := After(log, device, steps);
    match reply
    case Success =>
      RunStep(log, device, steps, s, ReplyOk, Do(s, device, ReplyOk));
      MarkingIsARun(log, device, steps + [ReplyOk], batch, after, ok, |batch|);
      assert steps + ([ReplyOk] + MarkSteps(after, ok, |batch|)) == (steps + [ReplyOk]) + MarkSteps(after, ok, |batch|);
    case PermanentError =>
      RunStep(log, device, steps, s, ReplyPermanent, Do(s, device, ReplyPermanent));
    case TransientError =>
      RunStep(log, device, steps, s, ReplyTransient, Do(s, device, ReplyTransient));
      BumpingIsARun(log, device, steps + [ReplyTransient], batch, clock, ok, |batch|);
      assert steps + ([ReplyTransient] + BumpSteps(clock, ok, |batch|))
          == (steps + [ReplyTransient]) + BumpSteps(clock, ok, |batch|);
  }
}
