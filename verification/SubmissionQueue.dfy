/** The queue that sends submissions to the server (internal/client/sync/queue.go) and
    the transaction that stores them there (internal/server/store/timesheets.go). The
    server does not deduplicate: a lost reply makes the client send again. */
module SubmissionQueue {
  import opened Base
  import opened Backoff
  import opened Grouping
  import opened Aggregation

  datatype Status = Pending | Confirmed

  /** A row of the submissions table. */
  datatype Row = Row(submittedAt: int, status: Status, serverID: Option<nat>, retryCount: nat, lastRetry: Option<int>)

  /** The client's submissions, and the timesheets the server has committed; a
      timesheet's id is its position. */
  datatype State = State(rows: map<int, Row>, server: seq<seq<TimesheetEntry>>)

  predicate Due(r: Row, now: int) {
    r.status.Pending? && (r.lastRetry.Some? ==> r.lastRetry.value + BackoffFor(r.retryCount) <= now)
  }

  datatype Reply = Success | PermanentError | TransientError

  /** What one attempt meets: the rows loaded (none if loading fails), the entries they
      were aggregated to, whether the server committed them, the reply, and the time and
      success of the closing statement. */
  datatype Env = Env(loaded: Option<seq<TimesheetEntry>>, sent: seq<TimesheetEntry>, committed: bool,
                     reply: Reply, now: int, writeOk: bool)

  /** A good reply comes only after a commit; what is sent aggregates what was loaded. */
  ghost predicate Possible(env: Env) {
    && (env.loaded.Some? ==> IsAggregate(ENTRIES, env.loaded.value, env.sent))
    && (env.reply.Success? ==> env.committed)
  }

  datatype Op =
    | Create(id: int, now: int)
    | Attempt(id: int, listedAt: int, env: Env)

  /** Attempts are made on rows listed as due, and their clock does not run backwards. */
  ghost predicate Enabled(s: State, op: Op) {
    match op
    case Create(id, _) => id !in s.rows
    case Attempt(id, listedAt, env) => id in s.rows && Due(s.rows[id], listedAt) && listedAt <= env.now && Possible(env)
  }

  /** processOne, with the retry count read when the row was listed. */
  function Process(s: State, id: int, retryCount: nat, env: Env): State
    requires id in s.rows
  {
    var r := s.rows[id];
    if env.loaded.None? then s
    else if env.loaded.value == [] then
      if env.writeOk then s.(rows := s.rows[id := r.(status := Confirmed, serverID := None)]) else s
    else
      var server := if env.committed then s.server + [env.sent] else s.server;
      var row := match env.reply
                 case Success => r.(status := Confirmed, serverID := Some(if env.committed then |s.server| else 0))
                 case PermanentError => r
                 case TransientError => r.(retryCount := retryCount + 1, lastRetry := Some(env.now));
      State(if env.writeOk then s.rows[id := row] else s.rows, server)
  }

  ghost function Step(s: State, op: Op): State
    requires Enabled(s, op)
  {
    match op
    case Create(id, now) => s.(rows := s.rows[id := Row(now, Pending, None, 0, None)])
    case Attempt(id, _, env) => Process(s, id, s.rows[id].retryCount, env)
  }

  ghost predicate IsRun(ops: seq<Op>)
    decreases |ops|, 0
  {
    ops == [] || (IsRun(ops[..|ops| - 1]) && Enabled(After(ops[..|ops| - 1]), ops[|ops| - 1]))
  }

  ghost function After(ops: seq<Op>): State
    requires IsRun(ops)
    decreases |ops|, 1
  {
    if ops == [] then State(map[], []) else Step(After(ops[..|ops| - 1]), ops[|ops| - 1])
  }

  // ----- The code -----

  class Server {
    var timesheets: seq<seq<TimesheetEntry>>

    constructor ()
      ensures timesheets == []
    {
      timesheets := [];
    }

    /** One transaction: the entries go in one by one, and a failure at any point, or at
        the commit, leaves nothing behind. */
    method CreateTimesheet(entries: seq<TimesheetEntry>, failAt: Option<nat>) returns (id: Option<nat>)
      modifies this
      ensures failAt.None? || failAt.value > |entries| ==>
                timesheets == old(timesheets) + [entries] && id == Some(|old(timesheets)|)
      ensures failAt.Some? && failAt.value <= |entries| ==> timesheets == old(timesheets) && id.None?
    {
      var inserted: seq<TimesheetEntry> := [];
      for i := 0 to |entries|
        invariant inserted == entries[..i] && timesheets == old(timesheets)
        invariant failAt.Some? ==> i <= failAt.value
      {
        if failAt == Some(i) {
          return None;
        }
        PrefixStep(entries, i);
        inserted := inserted + [entries[i]];
      }
      assert entries[..|entries|] == entries;
      if failAt == Some(|entries|) {
        return None;
      }
      timesheets := timesheets + [inserted];
      return Some(|timesheets| - 1);
    }
  }

  class Queue {
    var rows: map<int, Row>
    const server: Server

    constructor (server: Server)
      ensures this.server == server && rows == map[]
    {
      this.server, rows := server, map[];
    }

    ghost function Now(): State
      reads this, server
    {
      State(rows, server.timesheets)
    }

    method UpdateStatus(id: int, serverID: Option<nat>, ok: bool)
      requires id in rows
      modifies this
      ensures rows == if ok then old(rows)[id := old(rows)[id].(status := Confirmed, serverID := serverID)]
                      else old(rows)
    {
      if ok {
        rows := rows[id := rows[id].(status := Confirmed, serverID := serverID)];
      }
    }

    method BumpRetry(id: int, currentCount: nat, now: int, ok: bool)
      requires id in rows
      modifies this
      ensures rows == if ok then old(rows)[id := old(rows)[id].(retryCount := currentCount + 1, lastRetry := Some(now))]
                      else old(rows)
    {
      if ok {
        rows := rows[id := rows[id].(retryCount := currentCount + 1, lastRetry := Some(now))];
      }
    }

    /** One attempt. `failAt` is where the server's transaction fails, if it does;
        `reachesServer` and `replyArrives` say what becomes of the request and its reply,
        and `rejected` that the server refuses the key. */
    method ProcessOne(id: int, retryCount: nat, loaded: Option<seq<TimesheetEntry>>, reachesServer: bool,
                      rejected: bool, failAt: Option<nat>, replyArrives: bool, now: int, writeOk: bool)
      returns (ghost env: Env)
      requires id in rows
      modifies this, server
      ensures env.loaded == loaded && env.now == now && env.writeOk == writeOk && Possible(env)
      ensures Now() == Process(old(Now()), id, retryCount, env)
      ensures var sends := loaded.Some? && loaded.value != [] && reachesServer;
              && (env.committed <==> sends && !rejected && (failAt.None? || failAt.value > |env.sent|))
              && (env.reply.Success? <==> env.committed && replyArrives)
              && (env.reply.PermanentError? <==> sends && rejected && replyArrives)
    {
      env := Env(loaded, [], false, TransientError, now, writeOk);
      if loaded.None? {
        return;
      }
      var entries := Aggregate(loaded.value);
      env := env.(sent := entries);
      if |loaded.value| == 0 {
        UpdateStatus(id, None, writeOk);
        return;
      }
      var stored: Option<nat> := None;
      if reachesServer && !rejected {
        stored := server.CreateTimesheet(entries, failAt);
      }
      env := env.(committed := stored.Some?);
      if reachesServer && rejected && replyArrives {
        env := env.(reply := PermanentError);
        return;
      }
      if stored.None? || !replyArrives {
        BumpRetry(id, retryCount, now, writeOk);
        return;
      }
      env := env.(reply := Success);
      UpdateStatus(id, stored, writeOk);
    }

    /** The ids of the rows due at `now`, oldest submission first. */
    method ListDueSubmissions(now: int) returns (due: seq<int>)
      ensures forall id :: id in due <==> id in rows && Due(rows[id], now)
      ensures forall i, j :: 0 <= i < j < |due| ==> due[i] != due[j]
      ensures forall i, j :: 0 <= i < j < |due| && due[i] in rows && due[j] in rows ==>
                rows[due[i]].submittedAt <= rows[due[j]].submittedAt
    {
      var all := Enumerate(rows.Keys);
      var kept: seq<int> := [];
      for i := 0 to |all|
        invariant forall id :: id in kept <==> id in all[..i] && Due(rows[id], now)
        invariant Distinct(kept)
      {
        PrefixStep(all, i);
        assert all[i] in Elems(all);
        if Due(rows[all[i]], now) {
          assert all[i] !in all[..i];
          kept := kept + [all[i]];
        }
      }
      assert all[..|all|] == all;
      var table := rows;
      var key := (id: int) => if id in table then table[id].submittedAt else 0;
      due := SortBy(kept, key);
      DistinctPermuted(kept, due, x => x);
      forall id ensures id in due <==> id in rows && Due(rows[id], now) {
        assert id in due <==> id in multiset(due);
        assert id in kept <==> id in multiset(kept);
        assert id in rows <==> id in Elems(all);
      }
      forall i, j | 0 <= i < j < |due| && due[i] in rows && due[j] in rows
        ensures rows[due[i]].submittedAt <= rows[due[j]].submittedAt
      {
        assert key(due[i]) <= key(due[j]);
      }
    }
  }
}
