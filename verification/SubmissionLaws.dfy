/** What the submission queue guarantees over whole runs (internal/client/sync/queue.go,
    internal/server/store/timesheets.go). */
module SubmissionLaws {
  import opened Base
  import opened Backoff
  import opened Grouping
  import opened Aggregation
  import opened SubmissionQueue

  // ----- A server id means a committed timesheet -----

  /** Step `i` sent submission `id`, and the server committed it then and there as timesheet
      `k`: the aggregate of the rows loaded in that attempt. */
  ghost predicate CommittedBy(ops: seq<Op>, i: nat, id: int, k: nat)
    requires IsRun(ops)
  {
    && i < |ops| && ops[i].Attempt? && ops[i].id == id && ops[i].env.reply.Success?
    && ops[i].env.loaded.Some? && IsRun(ops[..i]) && k == |After(ops[..i]).server| < |After(ops).server|
    && IsAggregate(ENTRIES, ops[i].env.loaded.value, After(ops).server[k])
  }

  lemma CommittedStays(ops: seq<Op>, i: nat, id: int, k: nat)
    requires ops != [] && IsRun(ops) && IsRun(ops[..|ops| - 1]) && CommittedBy(ops[..|ops| - 1], i, id, k)
    ensures CommittedBy(ops, i, id, k)
  {
    hide IsAggregate, BackoffFor;
    assert ops[..|ops| - 1][..i] == ops[..i];
    assert After(ops) == Step(After(ops[..|ops| - 1]), ops[|ops| - 1]);
  }

  /** A submission gets a server id only from an attempt whose whole timesheet, the
      aggregate of the rows loaded then, the server committed under that id. */
  lemma {:induction false} ServerIdIsCommitted(ops: seq<Op>, id: int)
    requires IsRun(ops) && id in After(ops).rows && After(ops).rows[id].serverID.Some?
    ensures exists i: nat :: CommittedBy(ops, i, id, After(ops).rows[id].serverID.value)
    decreases |ops|
  {
    hide IsAggregate;
    var init, op := ops[..|ops| - 1], ops[|ops| - 1];
    var before, after := After(init), After(ops);
    assert after == Step(before, op);
    if id in before.rows && before.rows[id].serverID == after.rows[id].serverID {
      ServerIdIsCommitted(init, id);
      var i: nat :| CommittedBy(init, i, id, before.rows[id].serverID.value);
      CommittedStays(ops, i, id, after.rows[id].serverID.value);
    } else {
      assert after.server[|before.server|] == op.env.sent;
      assert CommittedBy(ops, |ops| - 1, id, after.rows[id].serverID.value);
    }
  }

  /** A confirmed submission is never sent again, and stays as it is. */
  lemma {:induction false} ConfirmedIsFinal(ops: seq<Op>, n: nat, id: int)
    requires IsRun(ops) && n <= |ops| && IsRun(ops[..n])
    requires id in After(ops[..n]).rows && After(ops[..n]).rows[id].status.Confirmed?
    ensures id in After(ops).rows && After(ops).rows[id] == After(ops[..n]).rows[id]
    ensures forall j :: n <= j < |ops| && ops[j].Attempt? ==> ops[j].id != id
    decreases |ops|
  {
    if n < |ops| {
      var init := ops[..|ops| - 1];
      assert init[..n] == ops[..n];
      ConfirmedIsFinal(init, n, id);
      assert After(ops) == Step(After(init), ops[|ops| - 1]);
    } else {
      assert ops[..n] == ops;
    }
  }

  /** The attempt makes the server store a timesheet. */
  ghost predicate Stores(op: Op, id: int) {
    && op.Attempt? && op.id == id && op.env.loaded.Some? && op.env.loaded.value != [] && op.env.committed
  }

  /** The client learns of it, and records it. */
  ghost predicate Acknowledged(op: Op) {
    op.Attempt? && op.env.reply.Success? && op.env.writeOk
  }

  /** The attempt settles the submission: the server accepted it, or there was nothing to
      send, and that was recorded. */
  ghost predicate Settles(op: Op, id: int) {
    && op.Attempt? && op.id == id && op.env.loaded.Some? && op.env.writeOk
    && (op.env.loaded.value == [] || op.env.reply.Success?)
  }

  ghost predicate SomeSettles(ops: seq<Op>, id: int) {
    exists i :: 0 <= i < |ops| && Settles(ops[i], id)
  }

  ghost predicate SomeAcknowledged(ops: seq<Op>, id: int) {
    exists i :: 0 <= i < |ops| && Stores(ops[i], id) && Acknowledged(ops[i])
  }

  lemma OneMoreAttempt(init: seq<Op>, op: Op, id: int)
    ensures SomeSettles(init + [op], id) <==> SomeSettles(init, id) || Settles(op, id)
    ensures SomeAcknowledged(init + [op], id) <==> SomeAcknowledged(init, id) || (Stores(op, id) && Acknowledged(op))
  {
    hide Stores, Acknowledged, Settles;
    var ops := init + [op];
    assert ops[|init|] == op && forall i :: 0 <= i < |init| ==> ops[i] == init[i];
  }

  /** Exactly when a submission is confirmed, and exactly when it has a server id. */
  lemma {:induction false} StatusIsExact(ops: seq<Op>, id: int)
    requires IsRun(ops)
    ensures if id in After(ops).rows then
              && (After(ops).rows[id].status.Confirmed? <==> SomeSettles(ops, id))
              && (After(ops).rows[id].serverID.Some? <==> SomeAcknowledged(ops, id))
            else !SomeSettles(ops, id) && !SomeAcknowledged(ops, id)
    decreases |ops|
  {
    hide IsAggregate, BackoffFor;
    if ops != [] {
      var init, op := ops[..|ops| - 1], ops[|ops| - 1];
      StatusIsExact(init, id);
      OneMoreAttempt(init, op, id);
      assert ops == init + [op] && After(ops) == Step(After(init), op);
      hide SomeSettles, SomeAcknowledged;
    }
  }

  /** The server id is that of the acknowledged attempt, whatever came before and after. */
  lemma {:induction false} ServerIdNamesAttempt(ops: seq<Op>, id: int, i: nat)
    requires IsRun(ops) && i < |ops| && Stores(ops[i], id) && Acknowledged(ops[i])
    ensures id in After(ops).rows && After(ops).rows[id].status.Confirmed? && After(ops).rows[id].serverID.Some?
    ensures CommittedBy(ops, i, id, After(ops).rows[id].serverID.value)
    decreases |ops|
  {
    hide IsAggregate, BackoffFor;
    var init, op := ops[..|ops| - 1], ops[|ops| - 1];
    assert After(ops) == Step(After(init), op);
    if i < |ops| - 1 {
      ServerIdNamesAttempt(init, id, i);
      CommittedStays(ops, i, id, After(init).rows[id].serverID.value);
    } else {
      assert After(ops).server[|After(init).server|] == op.env.sent;
    }
  }

  // ----- Spacing of retries -----

  /** The attempt fails transiently and the failure is recorded. */
  ghost predicate RecordsFailure(op: Op, id: int) {
    && op.Attempt? && op.id == id && op.env.loaded.Some? && op.env.loaded.value != []
    && op.env.reply.TransientError? && op.env.writeOk
  }

  /** The times of the recorded transient failures of a submission. */
  ghost function Failures(ops: seq<Op>, id: int): seq<int> {
    if ops == [] then []
    else
      var before, op := Failures(ops[..|ops| - 1], id), ops[|ops| - 1];
      if RecordsFailure(op, id) then before + [op.env.now] else before
  }

  lemma {:induction false} NoFailuresBefore(ops: seq<Op>, id: int)
    requires IsRun(ops) && id !in After(ops).rows
    ensures Failures(ops, id) == []
    decreases |ops|
  {
    if ops != [] {
      assert After(ops) == Step(After(ops[..|ops| - 1]), ops[|ops| - 1]);
      NoFailuresBefore(ops[..|ops| - 1], id);
    }
  }

  /** The row counts its recorded failures and remembers the last one. */
  ghost predicate CountsFailures(r: Row, times: seq<int>) {
    && r.retryCount == |times| && Spaced(times)
    && r.lastRetry == if times == [] then None else Some(times[|times| - 1])
  }

  lemma {:induction false} FailuresAreCounted(ops: seq<Op>, id: int)
    requires IsRun(ops) && id in After(ops).rows
    ensures CountsFailures(After(ops).rows[id], Failures(ops, id))
    decreases |ops|
  {
    hide IsAggregate, Spaced, BackoffFor;
    var init, op := ops[..|ops| - 1], ops[|ops| - 1];
    assert After(ops) == Step(After(init), op);
    if id in After(init).rows {
      FailuresAreCounted(init, id);
      if RecordsFailure(op, id) {
        SpacedAppend(Failures(init, id), op.env.now);
      }
    } else {
      NoFailuresBefore(init, id);
      assert Spaced([]) by { NoneSpaced(); }
    }
  }

  /** The k-th and the next recorded failure are at least `BackoffFor(k)` apart, so N of
      them, from the third on, take at least 20 minutes and an hour for each after that. */
  lemma RetriesBackOff(ops: seq<Op>, id: int, k: nat)
    requires IsRun(ops) && id in After(ops).rows && 1 <= k < |Failures(ops, id)|
    ensures var times := Failures(ops, id);
            times[k - 1] + BackoffFor(k) <= times[k]
    ensures |Failures(ops, id)| >= 3 ==>
              var times := Failures(ops, id);
              times[|times| - 1] - times[0] >= 20 * 60 + 3600 * (|times| - 3)
  {
    FailuresAreCounted(ops, id);
    var times := Failures(ops, id);
    if |times| >= 3 {
      SpacedSpan(times, |times|);
    }
  }

  /** A pending submission is due again exactly 5, 15, and from the third failure on 60
      minutes after the last recorded failure. */
  lemma DueAgain(ops: seq<Op>, id: int, now: int)
    requires IsRun(ops) && id in After(ops).rows && After(ops).rows[id].status.Pending?
    ensures var times := Failures(ops, id);
            var n := |times|;
            Due(After(ops).rows[id], now)
            <==> n == 0 || times[n - 1] + 60 * (if n == 1 then 5 else if n == 2 then 15 else 60) <= now
  {
    FailuresAreCounted(ops, id);
  }

  /** The schedule's first entry, one minute, is never used: a remembered failure has
      already been counted, so the first retry waits five minutes. */
  lemma {:induction false} FirstRetryWaitsFiveMinutes(ops: seq<Op>, id: int)
    requires IsRun(ops) && id in After(ops).rows && After(ops).rows[id].lastRetry.Some?
    ensures var r := After(ops).rows[id];
            BackoffFor(r.retryCount) >= 300 && !Due(r, r.lastRetry.value + 299)
  {
    FailuresAreCounted(ops, id);
    assert BackoffFor(1) == 300;
    hide BackoffFor;
    BackoffGrows(1, After(ops).rows[id].retryCount);
  }

  // ----- At least once, and no more than that -----

  lemma OneEntryAggregates(e: TimesheetEntry)
    ensures IsAggregate(ENTRIES, [e], [e])
  {
    GroupOfDistinct([e], e);
    MergeOne(e);
    assert IsSorting(Group([e], Tag, e.tag), [e], Start);
    assert IsMerged(ENTRIES, [e], e);
  }

  /** How many timesheets the server gained from attempts on a submission. */
  ghost function Copies(ops: seq<Op>, id: int): int
    requires IsRun(ops)
    decreases |ops|
  {
    if ops == [] then 0
    else
      var init, op := ops[..|ops| - 1], ops[|ops| - 1];
      Copies(init, id) + if op.Attempt? && op.id == id then |After(ops).server| - |After(init).server| else 0
  }

  ghost predicate NoneStored(ops: seq<Op>, id: int) {
    forall i :: 0 <= i < |ops| ==> !Stores(ops[i], id)
  }

  ghost predicate NoneAcknowledged(ops: seq<Op>, id: int) {
    forall i :: 0 <= i < |ops| && Stores(ops[i], id) ==> !Acknowledged(ops[i])
  }

  ghost predicate AllAcknowledged(ops: seq<Op>, id: int) {
    forall i :: 0 <= i < |ops| && Stores(ops[i], id) ==> Acknowledged(ops[i])
  }

  /** How the copies relate to the row: none of those made while it is pending was
      acknowledged, and the one that gave it its server id was. */
  ghost predicate CopiesInv(ops: seq<Op>, id: int)
    requires IsRun(ops)
  {
    var rows, n := After(ops).rows, Copies(ops, id);
    && n >= 0 && (n == 0 <==> NoneStored(ops, id))
    && (id !in rows ==> n == 0)
    && (id in rows && rows[id].status.Pending? ==> rows[id].serverID.None? && NoneAcknowledged(ops, id))
    && (id in rows && rows[id].serverID.Some? ==> n >= 1 && (n == 1 <==> AllAcknowledged(ops, id)))
  }

  lemma {:induction false} RunKeepsCopies(ops: seq<Op>, id: int)
    requires IsRun(ops)
    ensures CopiesInv(ops, id)
    decreases |ops|
  {
    hide IsAggregate, BackoffFor;
    if ops != [] {
      var init, op := ops[..|ops| - 1], ops[|ops| - 1];
      RunKeepsCopies(init, id);
      assert After(ops) == Step(After(init), op);
      assert ops == init + [op];
      OneMoreStep(init, op, id);
      OneMoreCopy(ops, id);
    }
  }

  lemma OneMoreCopy(ops: seq<Op>, id: int)
    requires IsRun(ops) && ops != []
    ensures var init, op := ops[..|ops| - 1], ops[|ops| - 1];
            Copies(ops, id) == Copies(init, id) + if Stores(op, id) then 1 else 0
  {
    hide IsAggregate, BackoffFor;
    assert After(ops) == Step(After(ops[..|ops| - 1]), ops[|ops| - 1]);
  }

  lemma OneMoreStep(init: seq<Op>, op: Op, id: int)
    ensures var ops := init + [op];
            && (NoneStored(ops, id) <==> NoneStored(init, id) && !Stores(op, id))
            && (NoneAcknowledged(ops, id) <==> NoneAcknowledged(init, id) && (Stores(op, id) ==> !Acknowledged(op)))
            && (AllAcknowledged(ops, id) <==> AllAcknowledged(init, id) && (Stores(op, id) ==> Acknowledged(op)))
  {
    hide Stores, Acknowledged;
    var ops := init + [op];
    assert ops[|init|] == op && forall i :: 0 <= i < |init| ==> ops[i] == init[i];
  }

  /** A submission with a server id was stored exactly once if and only if every attempt
      that the server committed was acknowledged; otherwise it was stored more often. */
  lemma StoredOnceIffAcknowledged(ops: seq<Op>, id: int)
    requires IsRun(ops) && id in After(ops).rows && After(ops).rows[id].serverID.Some?
    ensures Copies(ops, id) >= 1
    ensures Copies(ops, id) == 1 <==> AllAcknowledged(ops, id)
  {
    RunKeepsCopies(ops, id);
  }

  /** Extends a run whose last state is known by one step. */
  lemma Extend(ops: seq<Op>, s: State, op: Op, s': State)
    requires IsRun(ops) && After(ops) == s && Enabled(s, op) && Step(s, op) == s'
    ensures IsRun(ops + [op]) && After(ops + [op]) == s'
  {
  }

  /** The same submission can be stored twice: the first reply is lost after the commit. */
  lemma LostReplyStoresTwice(e: TimesheetEntry) returns (ops: seq<Op>)
    ensures IsRun(ops) && After(ops).server == [[e], [e]]
  {
    OneEntryAggregates(e);
    hide IsAggregate;
    var lost := Env(Some([e]), [e], true, TransientError, 0, true);
    var good := Env(Some([e]), [e], true, Success, 300, true);
    var row := Row(0, Pending, None, 0, None);
    var s1 := State(map[1 := row], []);
    var failed := row.(retryCount := 1, lastRetry := Some(0));
    var s2 := State(map[1 := failed], [[e]]);
    var s3 := State(map[1 := failed.(status := Confirmed, serverID := Some(1))], [[e], [e]]);
    Extend([], State(map[], []), Create(1, 0), s1);
    var r1 := [] + [Create(1, 0)];
    hide IsRun, After;
    Extend(r1, s1, Attempt(1, 0, lost), s2);
    var r2 := r1 + [Attempt(1, 0, lost)];
    Extend(r2, s2, Attempt(1, 300, good), s3);
    ops := r2 + [Attempt(1, 300, good)];
  }
}
