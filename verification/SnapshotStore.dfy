/** The server's layout_snapshots table (internal/server/store/layout_snapshots.go):
    idempotent inserts, an at-or-before lookup, and two downsampling statements. Each
    SQL statement is modelled by its effect on a map from id to row; ids are ordered,
    as UUIDs are. Times are whole UTC seconds. */
module SnapshotStore {
  import opened Base

  datatype Tier = Raw | TenMin | OneHour

  datatype Snapshot = Snapshot(device: int, capturedAt: int, windows: string, hash: string, tier: Tier)
  {
    /** The columns of the unique index. */
    function Key(): (int, int, string) {
      (device, capturedAt, hash)
    }
  }

  type Table = map<int, Snapshot>

  const DAY: int := 86400

  // ----- Insert -----

  datatype Outcome = Inserted | Deduped | Failed

  predicate HasKey(t: Table, key: (int, int, string)) {
    exists id | id in t :: t[id].Key() == key
  }

  /** INSERT ... ON CONFLICT (device_id, captured_at, windows_hash) DO NOTHING, with the
      id the database generated. A clash of ids is an error. */
  function Insert(t: Table, id: int, row: Snapshot): (r: (Table, Outcome)) {
    if HasKey(t, row.Key()) then (t, Deduped)
    else if id in t then (t, Failed)
    else (t[id := row.(tier := Raw)], Inserted)
  }

  ghost predicate UniqueKeys(t: Table) {
    forall i, j :: i in t && j in t && t[i].Key() == t[j].Key() ==> i == j
  }

  lemma InsertKeepsUniqueKeys(t: Table, id: int, row: Snapshot)
    requires UniqueKeys(t)
    ensures UniqueKeys(Insert(t, id, row).0)
    ensures Insert(t, id, row).1 != Failed <==> HasKey(Insert(t, id, row).0, row.Key())
  {
    var u := Insert(t, id, row).0;
    if Insert(t, id, row).1 == Inserted {
      assert u[id].Key() == row.Key();
    }
  }

  // ----- Lookup -----

  /** Row `id` is an answer to "the most recent snapshot of the device at or before t". */
  ghost predicate IsLatestAt(t: Table, device: int, at: int, id: int) {
    && id in t && t[id].device == device && t[id].capturedAt <= at
    && forall j :: j in t && t[j].device == device && t[j].capturedAt <= at ==> t[j].capturedAt <= t[id].capturedAt
  }

  // ----- Downsampling -----

  /** The parameters of the downsampling statement. */
  datatype Sweep = Sweep(from: Tier, to: Tier, age: nat, width: nat)

  const TO_10MIN := Sweep(Raw, TenMin, 7 * DAY, 600)
  const TO_1HR := Sweep(TenMin, OneHour, 37 * DAY, 3600)

  /** date_trunc('hour', captured_at). */
  function HourStart(at: int): int {
    at - at % 3600
  }

  /** The bucket expression of DownsampleTo10Min. */
  function TenMinuteStart(at: int): int {
    HourStart(at) + ((at % 3600) / 60 / 10) * 600
  }

  /** The two bucket expressions cut time at the multiples of 600 and 3600 seconds. */
  lemma BucketsAreMultiples(a: int, b: int)
    ensures TenMinuteStart(a) == TenMinuteStart(b) <==> a / 600 == b / 600
    ensures HourStart(a) == HourStart(b) <==> a / 3600 == b / 3600
  {
    StartsAre(a);
    StartsAre(b);
    hide HourStart, TenMinuteStart;
  }

  lemma StartsAre(a: int)
    ensures HourStart(a) == 3600 * (a / 3600) && TenMinuteStart(a) == 600 * (a / 600)
  {
    var q, r := a / 3600, a % 3600;
    assert a == 3600 * q + r;
    assert r / 60 / 10 == r / 600;
    assert a / 600 == 6 * q + r / 600;
  }

  predicate SamePart(width: nat, a: Snapshot, b: Snapshot)
    requires width > 0
  {
    a.device == b.device && a.capturedAt / width == b.capturedAt / width
  }

  predicate Selected(p: Sweep, now: int, r: Snapshot) {
    r.tier == p.from && r.capturedAt < now - p.age
  }

  /** ORDER BY captured_at ASC, id ASC. */
  predicate Ranks(t: Table, i: int, j: int)
    requires i in t && j in t
  {
    t[i].capturedAt < t[j].capturedAt || (t[i].capturedAt == t[j].capturedAt && i < j)
  }

  /** A selected row that is not the first of its partition. */
  predicate Loser(t: Table, p: Sweep, now: int, j: int)
    requires p.width > 0 && j in t
  {
    Selected(p, now, t[j])
    && exists i | i in t :: Selected(p, now, t[i]) && SamePart(p.width, t[i], t[j]) && Ranks(t, i, j)
  }

  /** The statement: promote the first row of each partition, delete the others. */
  function Swept(t: Table, p: Sweep, now: int): Table
    requires p.width > 0
  {
    map id | id in t && !Loser(t, p, now, id)
      :: if Selected(p, now, t[id]) then t[id].(tier := p.to) else t[id]
  }

  /** The first-ranked id of a non-empty set of ids. */
  lemma FirstRanked(t: Table, s: set<int>) returns (i: int)
    requires s != {} && s <= t.Keys
    ensures i in s && forall j :: j in s && j != i ==> Ranks(t, i, j)
  {
    var k := Pick(s);
    if s == {k} {
      i := k;
    } else {
      assert s - {k} != {} && s == (s - {k}) + {k};
      var first := FirstRanked(t, s - {k});
      i := if Ranks(t, k, first) then k else first;
      forall j | j in s && j != i ensures Ranks(t, i, j) {
        assert j == k || j == first || Ranks(t, first, j);
      }
    }
  }

  /** Every selected row leaves a promoted row of its partition behind, captured no
      later than itself. */
  lemma SurvivorOf(t: Table, p: Sweep, now: int, id: int) returns (i: int)
    requires p.width > 0 && id in t && Selected(p, now, t[id])
    ensures i in t && i in Swept(t, p, now) && Swept(t, p, now)[i] == t[i].(tier := p.to)
    ensures SamePart(p.width, t[i], t[id]) && t[i].capturedAt <= t[id].capturedAt
  {
    var part := set j | j in t && Selected(p, now, t[j]) && SamePart(p.width, t[j], t[id]);
    assert id in part;
    i := FirstRanked(t, part);
    assert forall j :: j in t && Selected(p, now, t[j]) && SamePart(p.width, t[j], t[i]) ==> j in part;
  }

  /** A partition keeps at most one of its selected rows. */
  lemma OneSurvivor(t: Table, p: Sweep, now: int, i: int, j: int)
    requires p.width > 0 && i in t && j in t && Selected(p, now, t[i]) && Selected(p, now, t[j])
    requires SamePart(p.width, t[i], t[j])
    requires i in Swept(t, p, now) && j in Swept(t, p, now)
    ensures i == j
  {
  }

  /** A row of the tier `from`, older than `age`. */
  predicate Old(r: Snapshot, from: Tier, before: int) {
    r.tier == from && r.capturedAt < before
  }

  /** The row is the first of the old rows of its device and bucket. */
  ghost predicate FirstOld(t: Table, id: int, from: Tier, before: int, width: nat)
    requires id in t && width > 0
  {
    forall j :: j in t && j != id && Old(t[j], from, before) && t[j].device == t[id].device
                && t[j].capturedAt / width == t[id].capturedAt / width ==>
      t[id].capturedAt < t[j].capturedAt || (t[id].capturedAt == t[j].capturedAt && id < j)
  }

  /** What a sweep makes of each row: old ones are kept only if they are the first of their
      bucket, and then in the tier above; all others stay as they are. */
  ghost predicate SweptTo(t: Table, u: Table, from: Tier, to: Tier, before: int, width: nat)
    requires width > 0
  {
    && u.Keys <= t.Keys
    && forall id :: id in t ==>
         if Old(t[id], from, before) then
           (id in u <==> FirstOld(t, id, from, before, width)) && (id in u ==> u[id] == t[id].(tier := to))
         else id in u && u[id] == t[id]
  }

  /** The two sweeps: raw rows older than seven days go to ten-minute rows, and those older
      than 37 days to one-hour rows. */
  lemma SweepsAreExact(t: Table, now: int)
    ensures SweptTo(t, Apply(t, Downsample10Min(now)), Raw, TenMin, now - 7 * 24 * 3600, 600)
    ensures SweptTo(t, Apply(t, Downsample1Hr(now)), TenMin, OneHour, now - 37 * 24 * 3600, 3600)
  {
    hide Swept, SweptTo;
    SweepIsExact(t, TO_10MIN, now);
    SweepIsExact(t, TO_1HR, now);
  }

  lemma SweepIsExact(t: Table, p: Sweep, now: int)
    requires p.width > 0
    ensures SweptTo(t, Swept(t, p, now), p.from, p.to, now - p.age, p.width)
  {
    forall id | id in t && Old(t[id], p.from, now - p.age)
      ensures Loser(t, p, now, id) <==> !FirstOld(t, id, p.from, now - p.age, p.width)
    {
      LoserIsNotFirst(t, p, now, id);
    }
    hide FirstOld;
    LosersAreSelected(t, p, now);
    hide Loser;
  }

  lemma LoserIsNotFirst(t: Table, p: Sweep, now: int, id: int)
    requires p.width > 0 && id in t && Old(t[id], p.from, now - p.age)
    ensures Loser(t, p, now, id) <==> !FirstOld(t, id, p.from, now - p.age, p.width)
  {
    if !FirstOld(t, id, p.from, now - p.age, p.width) {
      var j :| j in t && j != id && Old(t[j], p.from, now - p.age) && t[j].device == t[id].device
               && t[j].capturedAt / p.width == t[id].capturedAt / p.width
               && !(t[id].capturedAt < t[j].capturedAt || (t[id].capturedAt == t[j].capturedAt && id < j));
      assert Selected(p, now, t[j]) && SamePart(p.width, t[j], t[id]) && Ranks(t, j, id);
    }
  }

  lemma SweepKeepsUniqueKeys(t: Table, p: Sweep, now: int)
    requires p.width > 0 && UniqueKeys(t)
    ensures UniqueKeys(Swept(t, p, now))
  {
  }

  // ----- Runs -----

  /** A snapshot arriving at time `now`, or one downsampling statement. */
  datatype Op =
    | Ingest(now: int, id: int, row: Snapshot)
    | Downsample10Min(now: int)
    | Downsample1Hr(now: int)

  ghost function Apply(t: Table, op: Op): Table {
    match op
    case Ingest(_, id, row) => Insert(t, id, row).0
    case Downsample10Min(now) => Swept(t, TO_10MIN, now)
    case Downsample1Hr(now) => Swept(t, TO_1HR, now)
  }

  ghost function Run(ops: seq<Op>): Table {
    if ops == [] then map[] else Apply(Run(ops[..|ops| - 1]), ops[|ops| - 1])
  }

  /** Request `i` was answered with success: its snapshot was stored, or already there. */
  ghost predicate Accepted(ops: seq<Op>, i: nat) {
    && i < |ops| && ops[i].Ingest?
    && Insert(Run(ops[..i]), ops[i].id, ops[i].row).1 != Failed
  }

  /** The unique index holds after every run. */
  lemma {:induction false} RunKeepsUniqueKeys(ops: seq<Op>)
    ensures UniqueKeys(Run(ops))
  {
    if ops != [] {
      var init, last := ops[..|ops| - 1], ops[|ops| - 1];
      RunKeepsUniqueKeys(init);
      match last
      case Ingest(_, id, row) => InsertKeepsUniqueKeys(Run(init), id, row);
      case Downsample10Min(now) => SweepKeepsUniqueKeys(Run(init), TO_10MIN, now);
      case Downsample1Hr(now) => SweepKeepsUniqueKeys(Run(init), TO_1HR, now);
    }
  }

  // ----- The code -----

  class Store {
    var rows: Table

    constructor ()
      ensures rows == Run([])
    {
      rows := map[];
    }

    /** Returns whether a row was stored, was already there, or the insert failed. */
    method InsertSnapshot(id: int, device: int, capturedAt: int, windows: string, hash: string, dbOk: bool)
      returns (outcome: Outcome)
      modifies this
      ensures var row := Snapshot(device, capturedAt, windows, hash, Raw);
              (rows, outcome) == if dbOk then Insert(old(rows), id, row) else (old(rows), Failed)
    {
      if !dbOk {
        return Failed;
      }
      if HasKey(rows, (device, capturedAt, hash)) {
        return Deduped;
      }
      if id in rows {
        return Failed;
      }
      rows := rows[id := Snapshot(device, capturedAt, windows, hash, Raw)];
      return Inserted;
    }

    /** Scans the device's rows for the most recent one at or before `t`. */
    method GetSnapshotAt(device: int, t: int) returns (found: Option<int>)
      ensures found.Some? ==> IsLatestAt(rows, device, t, found.value)
      ensures found.None? ==> forall j :: j in rows && rows[j].device == device ==> t < rows[j].capturedAt
    {
      found := None;
      var ids := Enumerate(rows.Keys);
      for k := 0 to |ids|
        invariant found.Some? ==> found.value in rows && rows[found.value].device == device
                                  && rows[found.value].capturedAt <= t
        invariant forall j :: j in ids[..k] && rows[j].device == device && rows[j].capturedAt <= t ==>
                    found.Some? && rows[j].capturedAt <= rows[found.value].capturedAt
      {
        var r := rows[ids[k]];
        if r.device == device && r.capturedAt <= t
           && (found.None? || rows[found.value].capturedAt < r.capturedAt) {
          found := Some(ids[k]);
        }
      }
      assert forall j :: j in rows <==> j in Elems(ids);
    }

    /** The downsampling statement, in its steps: pick survivors and losers, promote the
        first, delete the second. A failed transaction changes nothing. */
    method Downsample(p: Sweep, now: int, commitOk: bool) returns (deleted: Result<int, string>)
      requires p.width > 0
      modifies this
      ensures commitOk ==> rows == Swept(old(rows), p, now) && deleted == Ok(|old(rows)| - |rows|)
      ensures !commitOk ==> rows == old(rows) && deleted.Err?
    {
      if !commitOk {
        return Err("commit downsample");
      }
      var bucketed := set i | i in rows && Selected(p, now, rows[i]);
      var losers := set i | i in bucketed && Loser(rows, p, now, i);
      var survivors := bucketed - losers;
      var promoted := map i | i in rows :: if i in survivors then rows[i].(tier := p.to) else rows[i];
      SweptInSteps(rows, p, now, bucketed, losers, promoted);
      rows := promoted - losers;
      deleted := Ok(|losers|);
    }

    method DownsampleTo10Min(now: int, commitOk: bool) returns (deleted: Result<int, string>)
      modifies this
      ensures commitOk ==> rows == Apply(old(rows), Downsample10Min(now)) && deleted == Ok(|old(rows)| - |rows|)
      ensures !commitOk ==> rows == old(rows) && deleted.Err?
    {
      deleted := Downsample(TO_10MIN, now, commitOk);
    }

    method DownsampleTo1Hr(now: int, commitOk: bool) returns (deleted: Result<int, string>)
      modifies this
      ensures commitOk ==> rows == Apply(old(rows), Downsample1Hr(now)) && deleted == Ok(|old(rows)| - |rows|)
      ensures !commitOk ==> rows == old(rows) && deleted.Err?
    {
      deleted := Downsample(TO_1HR, now, commitOk);
    }

    /** One firing of the hourly downsampler: both statements, with one shared `now`. A
        failure of the first does not stop the second. */
    method RunDownsampler(now: int, firstOk: bool, secondOk: bool)
      modifies this
      ensures var mid := if firstOk then Apply(old(rows), Downsample10Min(now)) else old(rows);
              rows == if secondOk then Apply(mid, Downsample1Hr(now)) else mid
    {
      var _ := DownsampleTo10Min(now, firstOk);
      var _ := DownsampleTo1Hr(now, secondOk);
    }
  }

  lemma SweptInSteps(t: Table, p: Sweep, now: int, bucketed: set<int>, losers: set<int>, promoted: Table)
    requires p.width > 0
    requires bucketed == set i | i in t && Selected(p, now, t[i])
    requires losers == set i | i in bucketed && Loser(t, p, now, i)
    requires promoted == map i | i in t :: if i in bucketed - losers then t[i].(tier := p.to) else t[i]
    ensures promoted - losers == Swept(t, p, now)
    ensures |promoted - losers| == |t| - |losers|
  {
    hide Loser, Selected;
    var u := promoted - losers;
    assert u.Keys == t.Keys - losers == Swept(t, p, now).Keys by {
      assert forall i :: i in t && Loser(t, p, now, i) ==> Selected(p, now, t[i]) by { LosersAreSelected(t, p, now); }
    }
    assert |t.Keys - losers| == |t.Keys| - |losers|;
  }

  lemma LosersAreSelected(t: Table, p: Sweep, now: int)
    requires p.width > 0
    ensures forall i :: i in t && Loser(t, p, now, i) ==> Selected(p, now, t[i])
  {
  }
}
