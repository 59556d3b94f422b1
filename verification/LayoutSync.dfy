/** Sending the local window log to the server: the client's batching and retries
    (internal/client/layout/sync.go, store.go) against the server's ingest handler
    (internal/server/api/layout_handlers.go). Requests and replies may be lost or
    late, the handler may stop after any prefix of a batch, and the client's capture
    and prune loops run alongside. */
module LayoutSync {
  import opened Base
  import opened Backoff
  import opened SnapshotStore

  datatype Payload = Payload(capturedAt: int, windows: string, hash: string)

  /** A row of the client's layout_snapshots table. */
  datatype LocalRow = LocalRow(payload: Payload, syncedAt: Option<int>, retryCount: nat, lastRetry: Option<int>)

  type LocalTable = map<int, LocalRow>

  /** What listDueSnapshots reads of a row. */
  datatype Entry = Entry(id: int, payload: Payload, retryCount: nat)

  // ----- The ingest handler -----

  /** What the database does with one insert: the id it generates, and whether the
      statement succeeds. A list of attempts that is too short stands for a handler
      that never got further. */
  datatype Attempt = Attempt(id: int, ok: bool)

  datatype Handled = Handled(ops: seq<Op>, completed: bool)

  function ToSnapshot(device: int, p: Payload): Snapshot {
    Snapshot(device, p.capturedAt, p.windows, p.hash, Raw)
  }

  /** The inserts one delivery of a batch performs, and whether it got through it all. */
  ghost function Handle(t: Table, now: int, device: int, batch: seq<Payload>, db: seq<Attempt>): Handled
    decreases |batch|
  {
    if batch == [] then Handled([], true)
    else if batch[0].hash == "" || db == [] || !db[0].ok then Handled([], false)
    else
      var op := Ingest(now, db[0].id, ToSnapshot(device, batch[0]));
      if Insert(t, op.id, op.row).1 == Failed then Handled([], false)
      else
        var rest := Handle(Apply(t, op), now, device, batch[1..], db[1..]);
        Handled([op] + rest.ops, rest.completed)
  }

  ghost function ApplyAll(t: Table, ops: seq<Op>): Table
    decreases |ops|
  {
    if ops == [] then t else ApplyAll(Apply(t, ops[0]), ops[1..])
  }

  /** The server answered some request for this payload with success. */
  ghost predicate Delivered(log: seq<Op>, device: int, p: Payload) {
    exists i: nat :: Accepted(log, i) && SentAt(log, i) == (device, p.capturedAt, p.windows, p.hash)
  }

  ghost function SentAt(log: seq<Op>, i: nat): (int, int, string, string)
    requires Accepted(log, i)
  {
    (log[i].row.device, log[i].row.capturedAt, log[i].row.windows, log[i].row.hash)
  }

  // ----- The client -----

  predicate Due(r: LocalRow, now: int) {
    r.syncedAt.None? && (r.lastRetry.Some? ==> r.lastRetry.value + BackoffFor(r.retryCount) <= now)
  }

  ghost predicate EntryOf(rows: LocalTable, e: Entry) {
    e.id in rows && rows[e.id].payload == e.payload && rows[e.id].retryCount == e.retryCount
  }

  predicate ByCapture(s: seq<Entry>) {
    forall i, j :: 0 <= i < j < |s| ==> s[i].payload.capturedAt <= s[j].payload.capturedAt
  }

  /** `due` lists exactly the rows that are due, each once, oldest first. */
  ghost predicate IsDueList(rows: LocalTable, now: int, due: seq<Entry>) {
    && ByCapture(due) && |due| == |Elems(due)|
    && (forall e :: e in due <==> EntryOf(rows, e) && Due(rows[e.id], now))
  }

  /** `batch` is the part of a due list that a batch size (0 for none) lets through. */
  ghost predicate IsBatch(rows: LocalTable, now: int, batchSize: nat, batch: seq<Entry>) {
    exists due :: IsDueList(rows, now, due) &&
      batch == if 0 < batchSize < |due| then due[..batchSize] else due
  }

  /** MarkSynced; a row that is gone stays gone. */
  function MarkSynced(rows: LocalTable, id: int, now: int): LocalTable {
    if id in rows then rows[id := rows[id].(syncedAt := Some(now), lastRetry := None)] else rows
  }

  function BumpRetry(rows: LocalTable, id: int, retryCount: nat, now: int): LocalTable {
    if id in rows then rows[id := rows[id].(retryCount := retryCount, lastRetry := Some(now))] else rows
  }

  function Prune(rows: LocalTable, cutoff: int): LocalTable {
    map id | id in rows && rows[id].payload.capturedAt >= cutoff :: rows[id]
  }

  /** SQLite gives a new row the highest id plus one. */
  ghost predicate IsNextId(rows: LocalTable, id: int) {
    (forall i :: i in rows ==> i < id) && (if rows == map[] then id == 1 else id - 1 in rows)
  }

  // ----- Runs of the whole system -----

  /** Where the client stands with its current batch: waiting for the reply, or working
      through the batch after a good or a bad one. */
  datatype Flight = Idle | Waiting(batch: seq<Entry>) | Marking(batch: seq<Entry>) | Bumping(batch: seq<Entry>)
  {
    /** The rows that may yet be marked synced. */
    function ToMark(): seq<Entry> {
      if Waiting? || Marking? then batch else []
    }
  }

  /** `sent` holds every batch ever sent, `served` those a delivery got through, `log`
      everything done to the server's table. */
  datatype State = State(
    rows: LocalTable, flight: Flight, sent: set<seq<Payload>>, served: set<seq<Payload>>, log: seq<Op>)

  datatype Step =
    | Capture(id: int, p: Payload)
    | PruneOld(cutoff: int)
    | Send(now: int, batch: seq<Entry>)
    | Deliver(now: int, payloads: seq<Payload>, db: seq<Attempt>)
    | ReplyOk
    | ReplyPermanent
    | ReplyTransient
    | Mark(now: int, ok: bool)
    | Bump(now: int, ok: bool)
    | Crash
    | ServerSweep(op: Op)

  function Payloads(batch: seq<Entry>): seq<Payload> {
    seq(|batch|, i requires 0 <= i < |batch| => batch[i].payload)
  }

  /** When a step can happen. A batch once sent may be delivered at any later time, any
      number of times; a good reply needs a delivery that got through the batch. */
  ghost predicate Enabled(s: State, step: Step) {
    match step
    case Capture(id, _) => IsNextId(s.rows, id)
    case PruneOld(_) => true
    case Send(now, batch) => s.flight.Idle? && batch != [] && exists n: nat :: IsBatch(s.rows, now, n, batch)
    case Deliver(_, payloads, _) => payloads in s.sent
    case ReplyOk => s.flight.Waiting? && Payloads(s.flight.batch) in s.served
    case ReplyPermanent => s.flight.Waiting?
    case ReplyTransient => s.flight.Waiting?
    case Mark(_, _) => s.flight.Marking? && s.flight.batch != []
    case Bump(_, _) => s.flight.Bumping? && s.flight.batch != []
    case Crash => true
    case ServerSweep(op) => !op.Ingest?
  }

  ghost function Do(s: State, device: int, step: Step): State
    requires Enabled(s, step)
  {
    match step
    case Capture(id, p) => s.(rows := s.rows[id := LocalRow(p, None, 0, None)])
    case PruneOld(cutoff) => s.(rows := Prune(s.rows, cutoff))
    case Send(_, batch) => s.(flight := Waiting(batch), sent := s.sent + {Payloads(batch)})
    case Deliver(now, payloads, db) =>
      var h := Handle(Run(s.log), now, device, payloads, db);
      s.(log := s.log + h.ops, served := if h.completed then s.served + {payloads} else s.served)
    case ReplyOk => s.(flight := Marking(s.flight.batch))
    case ReplyPermanent => s.(flight := Idle)
    case ReplyTransient => s.(flight := Bumping(s.flight.batch))
    case Mark(now, ok) =>
      var e, rest := s.flight.batch[0], s.flight.batch[1..];
      s.(rows := if ok then MarkSynced(s.rows, e.id, now) else s.rows,
         flight := if rest == [] then Idle else Marking(rest))
    case Bump(now, ok) =>
      var e, rest := s.flight.batch[0], s.flight.batch[1..];
      s.(rows := if ok then BumpRetry(s.rows, e.id, e.retryCount + 1, now) else s.rows,
         flight := if rest == [] then Idle else Bumping(rest))
    case Crash => s.(flight := Idle)
    case ServerSweep(op) => s.(log := s.log + [op])
  }

  /** A new row does not take the id of a row that may yet be marked. An id can only be
      reused after Prune has deleted the newest row. */
  ghost predicate NoReuse(s: State, step: Step) {
    step.Capture? ==> forall e :: e in s.flight.ToMark() ==> e.id != step.id
  }

  /** A run from a fresh client, and a server that already has a history. */
  ghost predicate IsRun(log: seq<Op>, device: int, steps: seq<Step>)
    decreases |steps|, 0
  {
    steps == [] ||
    (var init := steps[..|steps| - 1];
     IsRun(log, device, init) && Enabled(After(log, device, init), steps[|steps| - 1]))
  }

  ghost function After(log: seq<Op>, device: int, steps: seq<Step>): State
    requires IsRun(log, device, steps)
    decreases |steps|, 1
  {
    if steps == [] then State(map[], Idle, {}, {}, log)
    else Do(After(log, device, steps[..|steps| - 1]), device, steps[|steps| - 1])
  }

  ghost predicate NeverReuses(log: seq<Op>, device: int, steps: seq<Step>)
    requires IsRun(log, device, steps)
    decreases |steps|
  {
    steps == [] ||
    (var init := steps[..|steps| - 1];
     NeverReuses(log, device, init) && NoReuse(After(log, device, init), steps[|steps| - 1]))
  }

  // ----- What every run keeps -----

  ghost predicate AllDelivered(log: seq<Op>, device: int, ps: seq<Payload>) {
    forall p :: p in ps ==> Delivered(log, device, p)
  }

  ghost predicate Inv(s: State, device: int) {
    && (forall id :: id in s.rows && s.rows[id].syncedAt.Some? ==> Delivered(s.log, device, s.rows[id].payload))
    && (forall e :: e in s.flight.ToMark() && e.id in s.rows ==> s.rows[e.id].payload == e.payload)
    && (forall b :: b in s.served ==> AllDelivered(s.log, device, b))
    && (s.flight.Marking? ==> forall e :: e in s.flight.batch ==> Delivered(s.log, device, e.payload))
  }

  /** Extends a run whose last state is known by one step. */
  lemma RunStep(log: seq<Op>, device: int, steps: seq<Step>, s: State, step: Step, s': State)
    requires IsRun(log, device, steps) && After(log, device, steps) == s
    requires Enabled(s, step) && Do(s, device, step) == s'
    ensures IsRun(log, device, steps + [step]) && After(log, device, steps + [step]) == s'
  {
  }
}
