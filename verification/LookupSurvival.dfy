/** Downsampling deletes most rows, yet a lookup keeps finding a snapshot close to the
    one that was there (internal/server/store/layout_snapshots.go). */
module LookupSurvival {
  import Base
  import opened SnapshotStore

  /** The slot widths of interest: a second, ten minutes, an hour. */
  type Slot = w: nat | w == 1 || w == 600 || w == 3600 witness 1

  /** The start of the `w`-second slot that holds `at`. */
  function SlotStart(at: int, w: Slot): int {
    if w == 1 then at else if w == 600 then TenMinuteStart(at) else HourStart(at)
  }

  lemma SlotHolds(at: int, w: Slot)
    ensures SlotStart(at, w) <= at < SlotStart(at, w) + w
  {
  }

  /** Row `id` stands in for a snapshot of the device captured at `at`: captured no
      later, and in the same slot. */
  ghost predicate Covers(t: Table, id: int, device: int, at: int, w: Slot) {
    id in t && t[id].device == device && t[id].capturedAt <= at && SlotStart(t[id].capturedAt, w) == SlotStart(at, w)
  }

  ghost predicate Covered(t: Table, device: int, at: int, w: Slot) {
    exists id :: Covers(t, id, device, at, w)
  }

  /** A sweep cannot carry a snapshot out of its slot: its buckets subdivide the slot,
      or the whole slot is newer than its cutoff. */
  ghost predicate Spares(p: Sweep, now: int, at: int, w: Slot) {
    p.width <= w || now - p.age <= SlotStart(at, w)
  }

  ghost predicate OpSpares(op: Op, at: int, w: Slot) {
    match op
    case Ingest(_, _, _) => true
    case Downsample10Min(now) => Spares(TO_10MIN, now, at, w)
    case Downsample1Hr(now) => Spares(TO_1HR, now, at, w)
  }

  lemma SameBucketSameSlot(p: Sweep, a: Snapshot, b: Snapshot, w: Slot)
    requires (p == TO_10MIN || p == TO_1HR) && p.width <= w && SamePart(p.width, a, b)
    ensures SlotStart(a.capturedAt, w) == SlotStart(b.capturedAt, w)
  {
    var x, y := a.capturedAt, b.capturedAt;
    BucketsAreMultiples(x, y);
    if p == TO_10MIN {
      assert x / 600 == y / 600;
      assert x / 3600 == y / 3600;
    }
  }

  lemma SweepKeepsCovered(t: Table, p: Sweep, now: int, device: int, at: int, w: Slot)
    requires p == TO_10MIN || p == TO_1HR
    requires Covered(t, device, at, w) && Spares(p, now, at, w)
    ensures Covered(Swept(t, p, now), device, at, w)
  {
    var id :| Covers(t, id, device, at, w);
    if Selected(p, now, t[id]) {
      SlotHolds(t[id].capturedAt, w);
      var i := SurvivorOf(t, p, now, id);
      SameBucketSameSlot(p, t[i], t[id], w);
      assert Covers(Swept(t, p, now), i, device, at, w);
    } else {
      assert Covers(Swept(t, p, now), id, device, at, w);
    }
  }

  lemma OpKeepsCovered(t: Table, op: Op, device: int, at: int, w: Slot)
    requires Covered(t, device, at, w) && OpSpares(op, at, w)
    ensures Covered(Apply(t, op), device, at, w)
  {
    match op
    case Ingest(_, id, row) =>
      var k :| Covers(t, k, device, at, w);
      assert Covers(Insert(t, id, row).0, k, device, at, w);
    case Downsample10Min(now) => SweepKeepsCovered(t, TO_10MIN, now, device, at, w);
    case Downsample1Hr(now) => SweepKeepsCovered(t, TO_1HR, now, device, at, w);
  }

  /** Once accepted, a snapshot stays covered in every slot the later sweeps spare. */
  lemma {:induction false} AcceptedStaysCovered(ops: seq<Op>, i: nat, w: Slot)
    requires Accepted(ops, i)
    requires forall j :: i < j < |ops| ==> OpSpares(ops[j], ops[i].row.capturedAt, w)
    ensures Covered(Run(ops), ops[i].row.device, ops[i].row.capturedAt, w)
    decreases |ops|
  {
    var init, last := ops[..|ops| - 1], ops[|ops| - 1];
    if i == |ops| - 1 {
      var t, row := Run(init), last.row;
      if Insert(t, last.id, row).1 == Deduped {
        var k :| k in t && t[k].Key() == row.Key();
        assert Covers(t, k, row.device, row.capturedAt, w);
      } else {
        assert Covers(Run(ops), last.id, row.device, row.capturedAt, w);
      }
    } else {
      assert init[..i] == ops[..i];
      AcceptedStaysCovered(init, i, w);
      OpKeepsCovered(Run(init), last, ops[i].row.device, ops[i].row.capturedAt, w);
    }
  }

  /** Every row was once accepted: lookups never invent a capture time. */
  lemma {:induction false} RowsWereAccepted(ops: seq<Op>, id: int) returns (i: nat)
    requires id in Run(ops)
    ensures Accepted(ops, i) && Run(ops)[id] == ops[i].row.(tier := Run(ops)[id].tier)
    decreases |ops|
  {
    var init, last := ops[..|ops| - 1], ops[|ops| - 1];
    if id in Run(init) {
      i := RowsWereAccepted(init, id);
      assert init[..i] == ops[..i];
    } else {
      i := |ops| - 1;
    }
  }

  /** A non-empty set of the device's rows at or before `t` has a latest one. */
  lemma LatestExists(t: Table, device: int, at: int, s: set<int>) returns (id: int)
    requires s != {} && forall i :: i in s ==> i in t && t[i].device == device && t[i].capturedAt <= at
    ensures id in s && forall i :: i in s ==> t[i].capturedAt <= t[id].capturedAt
  {
    var k := Base.Pick(s);
    if s == {k} {
      id := k;
    } else {
      assert s - {k} != {} && s == (s - {k}) + {k};
      var best := LatestExists(t, device, at, s - {k});
      id := if t[best].capturedAt < t[k].capturedAt then k else best;
    }
  }

  /** The general bound: if every later sweep spares the snapshot's `w`-second slot, a
      lookup at or after its capture time succeeds with a row less than `w` seconds
      older than it. */
  lemma LookupSurvives(ops: seq<Op>, i: nat, t: int, w: Slot)
    requires Accepted(ops, i) && ops[i].row.capturedAt <= t
    requires forall j :: i < j < |ops| ==> OpSpares(ops[j], ops[i].row.capturedAt, w)
    ensures exists id :: IsLatestAt(Run(ops), ops[i].row.device, t, id)
    ensures forall id :: IsLatestAt(Run(ops), ops[i].row.device, t, id) ==>
              ops[i].row.capturedAt - w < Run(ops)[id].capturedAt
  {
    var device, at, table := ops[i].row.device, ops[i].row.capturedAt, Run(ops);
    AcceptedStaysCovered(ops, i, w);
    var c :| Covers(table, c, device, at, w);
    SlotHolds(table[c].capturedAt, w);
    SlotHolds(at, w);
    var s := set k | k in table && table[k].device == device && table[k].capturedAt <= t;
    assert c in s;
    var id := LatestExists(table, device, t, s);
    assert IsLatestAt(table, device, t, id);
  }

  /** `i` is a latest snapshot ever accepted for its device at or before `t`. */
  ghost predicate IsLatestAccepted(ops: seq<Op>, i: nat, t: int) {
    && Accepted(ops, i) && ops[i].row.capturedAt <= t
    && forall j: nat :: Accepted(ops, j) && ops[j].row.device == ops[i].row.device && ops[j].row.capturedAt <= t ==>
         ops[j].row.capturedAt <= ops[i].row.capturedAt
  }

  /** When the snapshot is the latest ever accepted at or before `t`, what the lookup
      finds is also no newer than it. */
  lemma LookupIsNotNewer(ops: seq<Op>, i: nat, t: int, id: int)
    requires IsLatestAccepted(ops, i, t) && IsLatestAt(Run(ops), ops[i].row.device, t, id)
    ensures Run(ops)[id].capturedAt <= ops[i].row.capturedAt
  {
    var j := RowsWereAccepted(ops, id);
  }

  /** Whatever the sweeps, the lookup succeeds and loses less than an hour. */
  lemma LookupWithinAnHour(ops: seq<Op>, i: nat, t: int)
    requires Accepted(ops, i) && ops[i].row.capturedAt <= t
    ensures exists id :: IsLatestAt(Run(ops), ops[i].row.device, t, id)
    ensures forall id :: IsLatestAt(Run(ops), ops[i].row.device, t, id) ==>
              ops[i].row.capturedAt - 3600 < Run(ops)[id].capturedAt
  {
    LookupSurvives(ops, i, t, 3600);
  }

  /** It loses less than ten minutes while the snapshot's whole ten-minute bucket is
      newer than 37 days at every one-hour sweep. */
  lemma LookupWithinTenMinutes(ops: seq<Op>, i: nat, t: int)
    requires Accepted(ops, i) && ops[i].row.capturedAt <= t
    requires forall j :: i < j < |ops| && ops[j].Downsample1Hr? ==>
               ops[j].now - 37 * DAY <= TenMinuteStart(ops[i].row.capturedAt)
    ensures forall id :: IsLatestAt(Run(ops), ops[i].row.device, t, id) ==>
              ops[i].row.capturedAt - 600 < Run(ops)[id].capturedAt
  {
    LookupSurvives(ops, i, t, 600);
  }

  /** It loses nothing while the snapshot is newer than 7 days at every sweep: when the
      snapshot is the latest accepted at or before `t`, its own capture time is found. */
  lemma LookupIsExact(ops: seq<Op>, i: nat, t: int)
    requires IsLatestAccepted(ops, i, t)
    requires forall j :: i < j < |ops| && !ops[j].Ingest? ==> ops[j].now - 7 * DAY <= ops[i].row.capturedAt
    ensures forall id :: IsLatestAt(Run(ops), ops[i].row.device, t, id) ==>
              Run(ops)[id].capturedAt == ops[i].row.capturedAt
  {
    LookupSurvives(ops, i, t, 1);
    forall id | IsLatestAt(Run(ops), ops[i].row.device, t, id)
      ensures Run(ops)[id].capturedAt <= ops[i].row.capturedAt
    {
      LookupIsNotNewer(ops, i, t, id);
    }
  }
}
