/** How much the downsampler leaves behind (internal/server/store/layout_snapshots.go,
    cmd/trasker-server/layout_downsampler.go): a device's bucket keeps at most one row more
    than there were cutoffs strictly inside the bucket. */
module StorageBound {
  import opened Base
  import opened SnapshotStore

  /** The rows of a tier in one device's bucket. */
  ghost function Part(t: Table, tier: Tier, width: nat, device: int, bucket: int): (s: set<int>)
    requires width > 0
    ensures s <= t.Keys
  {
    set id | id in t && t[id].tier == tier && t[id].device == device && t[id].capturedAt / width == bucket
  }

  lemma AtMostOne(s: set<int>)
    requires forall i, j :: i in s && j in s ==> i == j
    ensures |s| <= 1
  {
    if s != {} {
      var k := Pick(s);
      assert forall i :: i in s <==> i == k;
      assert s == {k};
    }
  }

  lemma Smaller(s: set<int>, t: set<int>)
    requires s <= t
    ensures |s| <= |t|
  {
    assert t == s + (t - s);
  }

  /** What one sweep adds to a bucket of its target tier is at most one row. */
  lemma PromotedAtMostOne(t: Table, p: Sweep, now: int, d: int, b: int)
    requires p.width > 0 && p.from != p.to
    ensures var u := Swept(t, p, now);
            && Part(u, p.to, p.width, d, b) - Part(t, p.to, p.width, d, b) <= u.Keys
            && |Part(u, p.to, p.width, d, b) - Part(t, p.to, p.width, d, b)| <= 1
  {
    var u := Swept(t, p, now);
    var added := Part(u, p.to, p.width, d, b) - Part(t, p.to, p.width, d, b);
    forall i, j | i in added && j in added ensures i == j {
      OneSurvivor(t, p, now, i, j);
    }
    AtMostOne(added);
  }

  // ----- Regular runs -----

  /** When each statement last ran, once it has. */
  datatype Clock = Clock(ten: Option<int>, hour: Option<int>)

  function Tick(c: Clock, op: Op): Clock {
    match op
    case Ingest(_, _, _) => c
    case Downsample10Min(now) => c.(ten := Some(now))
    case Downsample1Hr(now) => c.(hour := Some(now))
  }

  /** A regular step: no snapshot arrives more than 7 days old or before the last sweep;
      sweeps come in pairs with one `now`, `gap` seconds or more apart. */
  ghost predicate Regular(c: Clock, op: Op, gap: nat) {
    match op
    case Ingest(now, _, row) => now - 7 * DAY <= row.capturedAt && (c.ten.Some? ==> c.ten.value <= now)
    case Downsample10Min(now) =>
      || (c.ten.None? && c.hour.None?)
      || (c.ten.Some? && c.hour == c.ten && c.ten.value + gap <= now)
    case Downsample1Hr(now) =>
      c.ten == Some(now) && (c.hour.Some? ==> c.hour.value + gap <= now)
  }

  function ClockAfter(ops: seq<Op>): Clock {
    if ops == [] then Clock(None, None) else Tick(ClockAfter(ops[..|ops| - 1]), ops[|ops| - 1])
  }

  ghost predicate RegularRun(ops: seq<Op>, gap: nat) {
    forall i :: 0 <= i < |ops| ==> Regular(ClockAfter(ops[..i]), ops[i], gap)
  }

  lemma RegularPrefix(ops: seq<Op>, gap: nat)
    requires RegularRun(ops, gap) && ops != []
    ensures RegularRun(ops[..|ops| - 1], gap) && Regular(ClockAfter(ops[..|ops| - 1]), ops[|ops| - 1], gap)
  {
    var init := ops[..|ops| - 1];
    assert forall i :: 0 <= i < |init| ==> init[..i] == ops[..i];
  }

  /** The two downsampling statements. */
  predicate IsTierSweep(p: Sweep) {
    p == TO_10MIN || p == TO_1HR
  }

  /** The operation runs this statement. */
  predicate Runs(op: Op, p: Sweep) {
    (op.Downsample10Min? && p == TO_10MIN) || (op.Downsample1Hr? && p == TO_1HR)
  }

  /** The last cutoff of the statement. */
  function LastCutoff(c: Clock, p: Sweep): Option<int> {
    var last := if p == TO_10MIN then c.ten else c.hour;
    if last.Some? then Some(last.value - p.age) else None
  }

  /** What a sweep has not yet promoted lies at or after its last cutoff. */
  ghost predicate Unswept(t: Table, p: Sweep, c: Clock) {
    var cutoff := LastCutoff(c, p);
    cutoff.Some? ==> forall id :: id in t && t[id].tier == p.from ==> cutoff.value <= t[id].capturedAt
  }

  ghost predicate OrderInv(t: Table, c: Clock) {
    && Unswept(t, TO_10MIN, c) && Unswept(t, TO_1HR, c)
    && (c.hour.Some? ==> c.ten.Some? && c.hour.value <= c.ten.value)
  }

  lemma SweptRows(t: Table, p: Sweep, now: int)
    requires p.width > 0
    ensures var u := Swept(t, p, now);
            forall id :: id in u ==>
              && id in t
              && u[id] == if Selected(p, now, t[id]) then t[id].(tier := p.to) else t[id]
  {
  }

  lemma StepKeepsOrder(t: Table, c: Clock, op: Op)
    requires OrderInv(t, c) && Regular(c, op, 0)
    ensures OrderInv(Apply(t, op), Tick(c, op))
  {
    hide Swept;
    if op.Downsample10Min? {
      SweptRows(t, TO_10MIN, op.now);
    } else if op.Downsample1Hr? {
      SweptRows(t, TO_1HR, op.now);
    }
  }

  lemma {:induction false} RunKeepsOrder(ops: seq<Op>)
    requires RegularRun(ops, 0)
    ensures OrderInv(Run(ops), ClockAfter(ops))
  {
    if ops != [] {
      RegularPrefix(ops, 0);
      RunKeepsOrder(ops[..|ops| - 1]);
      StepKeepsOrder(Run(ops[..|ops| - 1]), ClockAfter(ops[..|ops| - 1]), ops[|ops| - 1]);
    }
  }

  // ----- Rows and cutoffs -----

  /** All cutoffs the statement has run with. */
  ghost function Cutoffs(ops: seq<Op>, p: Sweep): set<int> {
    set i | 0 <= i < |ops| && Runs(ops[i], p) :: ops[i].now - p.age
  }

  /** The cutoffs that fall strictly inside a bucket, not on its edge. */
  ghost function Inside(cutoffs: set<int>, width: nat, bucket: int): set<int>
    requires width > 0
  {
    set c | c in cutoffs && c / width == bucket && c % width != 0
  }

  lemma CutoffsGrow(ops: seq<Op>, p: Sweep)
    requires ops != []
    ensures var init, op := ops[..|ops| - 1], ops[|ops| - 1];
            Cutoffs(ops, p) == Cutoffs(init, p) + if Runs(op, p) then {op.now - p.age} else {}
  {
    var init, op := ops[..|ops| - 1], ops[|ops| - 1];
    forall c ensures c in Cutoffs(ops, p) <==> c in Cutoffs(init, p) || (Runs(op, p) && c == op.now - p.age) {
      if c in Cutoffs(init, p) {
        var i :| 0 <= i < |init| && Runs(init[i], p) && c == init[i].now - p.age;
        assert ops[i] == init[i];
      }
      if c in Cutoffs(ops, p) {
        var i :| 0 <= i < |ops| && Runs(ops[i], p) && c == ops[i].now - p.age;
        assert i < |init| ==> init[i] == ops[i];
      }
    }
  }

  /** No cutoff lies after the last one; the others lie `gap` or more apart. */
  lemma {:induction false} CutoffsSpaced(ops: seq<Op>, p: Sweep, gap: nat)
    requires RegularRun(ops, gap) && IsTierSweep(p)
    ensures var last := LastCutoff(ClockAfter(ops), p);
            forall c :: c in Cutoffs(ops, p) ==> last.Some? && c <= last.value
    ensures forall b, c :: b in Cutoffs(ops, p) && c in Cutoffs(ops, p) && b < c ==> b + gap <= c
  {
    if ops != [] {
      RegularPrefix(ops, gap);
      CutoffsSpaced(ops[..|ops| - 1], p, gap);
      CutoffsGrow(ops, p);
      hide Cutoffs, RegularRun;
    }
  }

  /** The bound that every regular run keeps: one row for each cutoff inside the bucket,
      and one more once a cutoff has passed its end. */
  ghost predicate Bounded(t: Table, p: Sweep, cutoffs: set<int>, last: Option<int>, d: int, b: int)
    requires p.width > 0
  {
    |Part(t, p.to, p.width, d, b)|
    <= |Inside(cutoffs, p.width, b)| + if last.Some? && b < last.value / p.width then 1 else 0
  }

  lemma DivideOrdered(a: int, b: int, width: nat)
    requires (width == 600 || width == 3600) && a <= b
    ensures a / width <= b / width
    ensures a < b && a / width == b / width ==> b % width != 0
  {
    if width == 600 {
      assert a / 600 <= b / 600;
    } else {
      assert a / 3600 <= b / 3600;
    }
  }

  /** A bucket gains a row only if it reaches past the cutoff before, and then the new
      cutoff is inside the bucket or has passed its end. */
  lemma OwnSweepKeepsBound(t: Table, p: Sweep, cutoffs: set<int>, last: Option<int>, now: int, d: int, b: int)
    requires IsTierSweep(p) && Bounded(t, p, cutoffs, last, d, b)
    requires last.Some? ==> last.value <= now - p.age
    requires last.Some? ==> forall id :: id in t && t[id].tier == p.from ==> last.value <= t[id].capturedAt
    requires forall x :: x in cutoffs ==> last.Some? && x <= last.value
    ensures Bounded(Swept(t, p, now), p, cutoffs + {now - p.age}, Some(now - p.age), d, b)
  {
    var cutoff := now - p.age;
    Smaller(Inside(cutoffs, p.width, b), Inside(cutoffs + {cutoff}, p.width, b));
    hide Swept, Part, Inside;
    if last.Some? {
      DivideOrdered(last.value, cutoff, p.width);
    }
    var gained := SweepGains(t, p, now, d, b);
    if gained.Some? {
      GainCrosses(cutoffs, last, t[gained.value].capturedAt, cutoff, p.width, b);
    }
  }

  /** A bucket gains at most one row from a sweep, one that was unswept and lies before
      the cutoff. */
  lemma SweepGains(t: Table, p: Sweep, now: int, d: int, b: int) returns (gained: Option<int>)
    requires IsTierSweep(p)
    ensures |Part(Swept(t, p, now), p.to, p.width, d, b)|
            <= |Part(t, p.to, p.width, d, b)| + if gained.Some? then 1 else 0
    ensures gained.Some? ==> var x := gained.value;
              x in t && t[x].tier == p.from && t[x].capturedAt / p.width == b && t[x].capturedAt < now - p.age
  {
    var before, after := Part(t, p.to, p.width, d, b), Part(Swept(t, p, now), p.to, p.width, d, b);
    PromotedAtMostOne(t, p, now, d, b);
    if x :| x in after - before {
      GainedRow(t, p, now, d, b, x);
      gained := Some(x);
      hide Swept, Part;
      Smaller(after, before + (after - before));
    } else {
      gained := None;
      assert forall x :: x in after ==> x !in after - before;
      Smaller(after, before);
    }
  }

  /** A time in the bucket between two cutoffs: the earlier has not passed the bucket's end,
      and the later is a new cutoff inside it, or has. */
  lemma GainCrosses(cutoffs: set<int>, last: Option<int>, at: int, cutoff: int, width: nat, b: int)
    requires (width == 600 || width == 3600) && at / width == b && at < cutoff && (last.Some? ==> last.value <= at)
    requires forall x :: x in cutoffs ==> last.Some? && x <= last.value
    ensures last.Some? ==> last.value / width <= b
    ensures b < cutoff / width || |Inside(cutoffs + {cutoff}, width, b)| == |Inside(cutoffs, width, b)| + 1
  {
    DivideOrdered(at, cutoff, width);
    if last.Some? {
      DivideOrdered(last.value, at, width);
    }
    if cutoff / width == b {
      assert cutoff !in cutoffs;
      assert Inside(cutoffs + {cutoff}, width, b) == Inside(cutoffs, width, b) + {cutoff};
    }
  }

  /** A row that a sweep adds to a bucket was unswept, and lies before the cutoff. */
  lemma GainedRow(t: Table, p: Sweep, now: int, d: int, b: int, x: int)
    requires IsTierSweep(p) && x in Part(Swept(t, p, now), p.to, p.width, d, b) && x !in Part(t, p.to, p.width, d, b)
    ensures x in t && t[x].tier == p.from && t[x].capturedAt / p.width == b && t[x].capturedAt < now - p.age
  {
    SweptRows(t, p, now);
  }

  /** A step that does not run the statement adds nothing to a bucket of its tier. */
  lemma OtherStepAddsNothing(t: Table, p: Sweep, op: Op, d: int, b: int)
    requires IsTierSweep(p) && !Runs(op, p)
    ensures |Part(Apply(t, op), p.to, p.width, d, b)| <= |Part(t, p.to, p.width, d, b)|
  {
    Smaller(Part(Apply(t, op), p.to, p.width, d, b), Part(t, p.to, p.width, d, b));
  }

  lemma {:induction false} RunKeepsBound(ops: seq<Op>, p: Sweep, d: int, b: int)
    requires RegularRun(ops, 0) && IsTierSweep(p)
    ensures Bounded(Run(ops), p, Cutoffs(ops, p), LastCutoff(ClockAfter(ops), p), d, b)
  {
    if ops == [] {
      assert Part(Run(ops), p.to, p.width, d, b) == {};
    } else {
      hide Bounded, RegularRun, Regular, Unswept, Cutoffs;
      var init, op := ops[..|ops| - 1], ops[|ops| - 1];
      RegularPrefix(ops, 0);
      RunKeepsBound(init, p, d, b);
      RunKeepsOrder(init);
      CutoffsSpaced(init, p, 0);
      CutoffsGrow(ops, p);
      StepKeepsBound(Run(init), p, Cutoffs(init, p), ClockAfter(init), op, d, b);
    }
  }

  lemma StepKeepsBound(t: Table, p: Sweep, cutoffs: set<int>, c: Clock, op: Op, d: int, b: int)
    requires Regular(c, op, 0) && IsTierSweep(p) && Unswept(t, p, c) && Bounded(t, p, cutoffs, LastCutoff(c, p), d, b)
    requires forall x :: x in cutoffs ==> LastCutoff(c, p).Some? && x <= LastCutoff(c, p).value
    ensures Bounded(Apply(t, op), p, cutoffs + if Runs(op, p) then {op.now - p.age} else {},
                    LastCutoff(Tick(c, op), p), d, b)
  {
    if Runs(op, p) {
      hide Swept, Bounded;
      OwnSweepKeepsBound(t, p, cutoffs, LastCutoff(c, p), op.now, d, b);
    } else {
      hide Swept, Part;
      assert cutoffs + {} == cutoffs;
      OtherStepAddsNothing(t, p, op, d, b);
    }
  }

  // ----- Main results -----

  /** However often the downsampler fires, a bucket holds at most one row more than there
      were cutoffs strictly inside it. */
  lemma RowsWithinCutoffs(ops: seq<Op>, p: Sweep, d: int, b: int)
    requires RegularRun(ops, 0) && IsTierSweep(p)
    ensures |Part(Run(ops), p.to, p.width, d, b)| <= 1 + |Inside(Cutoffs(ops, p), p.width, b)|
  {
    RunKeepsBound(ops, p, d, b);
  }

  lemma WeakerGap(ops: seq<Op>, gap: nat)
    requires RegularRun(ops, gap)
    ensures RegularRun(ops, 0)
  {
  }

  /** With firings an hour apart, a device has at most two ten-minute rows per ten-minute
      bucket and at most two one-hour rows per hour. */
  lemma AtMostTwoPerBucket(ops: seq<Op>, p: Sweep, d: int, b: int)
    requires RegularRun(ops, 3600) && IsTierSweep(p)
    ensures |Part(Run(ops), p.to, p.width, d, b)| <= 2
  {
    WeakerGap(ops, 3600);
    RowsWithinCutoffs(ops, p, d, b);
    CutoffsSpaced(ops, p, 3600);
    hide Cutoffs, Part, RegularRun;
    OneInside(Cutoffs(ops, p), p.width, b);
  }

  lemma OneInside(cutoffs: set<int>, width: nat, b: int)
    requires 0 < width <= 3600 && forall x, y :: x in cutoffs && y in cutoffs && x < y ==> x + 3600 <= y
    ensures |Inside(cutoffs, width, b)| <= 1
  {
    forall x, y | x in Inside(cutoffs, width, b) && y in Inside(cutoffs, width, b) ensures x == y {
      SameBucket(x, y, width);
      SameBucket(y, x, width);
    }
    AtMostOne(Inside(cutoffs, width, b));
  }

  lemma SameBucket(a: int, b: int, width: nat)
    requires 0 < width <= 3600 && a / width == b / width
    ensures b - a < 3600
  {
  }

  /** Every firing of the downsampler happens `offset` seconds into a bucket. The ages are
      whole buckets, so the cutoffs lie just there as well. */
  ghost predicate FiresAt(ops: seq<Op>, width: nat, offset: int)
    requires width > 0
  {
    forall i :: 0 <= i < |ops| && !ops[i].Ingest? ==> ops[i].now % width == offset
  }

  /** Firings on the edges of a tier's buckets keep one row per device and bucket in it. */
  lemma AlignedKeepsOneRow(ops: seq<Op>, p: Sweep, d: int, b: int)
    requires RegularRun(ops, 0) && IsTierSweep(p) && FiresAt(ops, p.width, 0)
    ensures |Part(Run(ops), p.to, p.width, d, b)| <= 1
  {
    RowsWithinCutoffs(ops, p, d, b);
    CutoffsAligned(ops, p);
    hide Part, RegularRun, Cutoffs;
    assert Inside(Cutoffs(ops, p), p.width, b) == {};
  }

  lemma CutoffsAligned(ops: seq<Op>, p: Sweep)
    requires IsTierSweep(p) && FiresAt(ops, p.width, 0)
    ensures forall c :: c in Cutoffs(ops, p) ==> c % p.width == 0
  {
  }

  function Promoted(p: Sweep, now: int, r: Snapshot): Snapshot {
    if Selected(p, now, r) then r.(tier := p.to) else r
  }

  /** Of two rows a sweep deletes none unless it selects both in one partition. */
  lemma SweepTwo(x: Snapshot, y: Snapshot, p: Sweep, now: int)
    requires p.width > 0 && !(Selected(p, now, x) && Selected(p, now, y) && SamePart(p.width, x, y))
    ensures Swept(map[1 := x, 2 := y], p, now) == map[1 := Promoted(p, now, x), 2 := Promoted(p, now, y)]
  {
    var t := map[1 := x, 2 := y];
    assert !Loser(t, p, now, 1) && !Loser(t, p, now, 2);
  }

  /** Extends a regular run whose last state and clock are known by one step. */
  lemma Extend(ops: seq<Op>, t: Table, c: Clock, op: Op, width: nat, offset: int)
    requires RegularRun(ops, 3600) && Run(ops) == t && ClockAfter(ops) == c && Regular(c, op, 3600)
    requires width > 0 && FiresAt(ops, width, offset) && (!op.Ingest? ==> op.now % width == offset)
    ensures var more := ops + [op];
            && RegularRun(more, 3600) && FiresAt(more, width, offset)
            && Run(more) == Apply(t, op) && ClockAfter(more) == Tick(c, op)
  {
    hide Regular, Apply;
    var more := ops + [op];
    assert more[..|ops|] == ops;
    assert forall i :: 0 <= i < |ops| ==> more[..i] == ops[..i] && more[i] == ops[i];
  }

  /** Two rows of a device in a new store, then one firing of both sweeps. */
  lemma TwoRowsAndAFiring(a: Snapshot, b: Snapshot, s: int, width: nat, offset: int) returns (ops: seq<Op>)
    requires 0 <= a.capturedAt && 0 <= b.capturedAt && a.capturedAt != b.capturedAt
    requires a.tier == Raw && b.tier == Raw && width > 0 && s % width == offset
    ensures RegularRun(ops, 3600) && FiresAt(ops, width, offset)
    ensures Run(ops) == Apply(Apply(map[1 := a, 2 := b], Downsample10Min(s)), Downsample1Hr(s))
    ensures ClockAfter(ops) == Clock(Some(s), Some(s))
  {
    var start, ticked := Clock(None, None), Clock(Some(s), None);
    var t := map[1 := a, 2 := b];
    assert Apply(map[], Ingest(a.capturedAt, 1, a)) == map[1 := a];
    assert Apply(map[1 := a], Ingest(b.capturedAt, 2, b)) == t;
    hide Apply;
    Extend([], map[], start, Ingest(a.capturedAt, 1, a), width, offset);
    ops := [] + [Ingest(a.capturedAt, 1, a)];
    hide Run, RegularRun, ClockAfter, FiresAt;
    Extend(ops, map[1 := a], start, Ingest(b.capturedAt, 2, b), width, offset);
    ops := ops + [Ingest(b.capturedAt, 2, b)];
    Extend(ops, t, start, Downsample10Min(s), width, offset);
    ops := ops + [Downsample10Min(s)];
    Extend(ops, Apply(t, Downsample10Min(s)), ticked, Downsample1Hr(s), width, offset);
    ops := ops + [Downsample1Hr(s)];
  }

  lemma TwoInBucket(x: Snapshot, y: Snapshot, tier: Tier, width: nat)
    requires 0 <= x.capturedAt < width && 0 <= y.capturedAt < width
    requires x.tier == tier && y.tier == tier && x.device == 1 && y.device == 1
    ensures Part(map[1 := x, 2 := y], tier, width, 1, 0) == {1, 2}
  {
  }

  /** Some regular run with firings at this offset leaves two rows in a bucket of the tier. */
  ghost predicate TwoReachable(p: Sweep, offset: int)
    requires p.width > 0
  {
    exists ops, d, b ::
      RegularRun(ops, 3600) && FiresAt(ops, p.width, offset) && |Part(Run(ops), p.to, p.width, d, b)| == 2
  }

  /** Any other offset splits a ten-minute bucket, and the two halves are swept an hour apart. */
  lemma TwoTenMinuteRows(offset: int)
    requires 0 < offset < 600
    ensures TwoReachable(TO_10MIN, offset)
  {
    var s := 7 * DAY + offset;
    var a, b := Snapshot(1, 0, "", "a", Raw), Snapshot(1, offset, "", "b", Raw);
    var ops := TwoRowsAndAFiring(a, b, s, 600, offset);
    var u, v := map[1 := a.(tier := TenMin), 2 := b], map[1 := a.(tier := TenMin), 2 := b.(tier := TenMin)];
    SplitTenMinutes(a, b, s, u, v);
    TwoInBucket(v[1], v[2], TenMin, 600);
    hide Apply, Run, RegularRun, FiresAt, ClockAfter, Part;
    Extend(ops, u, Clock(Some(s), Some(s)), Downsample10Min(s + 3600), 600, offset);
    ops := ops + [Downsample10Min(s + 3600)];
    assert |Part(Run(ops), TenMin, 600, 1, 0)| == |{1, 2}| == 2;
  }

  lemma SplitTenMinutes(a: Snapshot, b: Snapshot, s: int, u: Table, v: Table)
    requires 0 == a.capturedAt < s - 7 * DAY <= b.capturedAt < 600 && a.tier == b.tier == Raw
    requires u == map[1 := a.(tier := TenMin), 2 := b] && v == map[1 := a.(tier := TenMin), 2 := b.(tier := TenMin)]
    ensures Apply(map[1 := a, 2 := b], Downsample10Min(s)) == u
    ensures Apply(u, Downsample1Hr(s)) == u && Apply(u, Downsample10Min(s + 3600)) == v
  {
    hide Swept;
    SweepTwo(a, b, TO_10MIN, s);
    SweepTwo(u[1], u[2], TO_1HR, s);
    SweepTwo(u[1], u[2], TO_10MIN, s + 3600);
    assert u == map[1 := u[1], 2 := u[2]];
  }

  /** The same in the hourly tier. */
  lemma TwoHourlyRows(offset: int)
    requires 0 < offset < 3600
    ensures TwoReachable(TO_1HR, offset)
  {
    var s := 37 * DAY + offset;
    var a, b := Snapshot(1, 0, "", "a", Raw), Snapshot(1, 3599, "", "b", Raw);
    var ops := TwoRowsAndAFiring(a, b, s, 3600, offset);
    var v := map[1 := a.(tier := OneHour), 2 := b.(tier := TenMin)];
    var w := map[1 := a.(tier := OneHour), 2 := b.(tier := OneHour)];
    SplitHour(a, b, s, v, w);
    TwoInBucket(w[1], w[2], OneHour, 3600);
    hide Apply, Run, RegularRun, FiresAt, ClockAfter, Part;
    var c, d := Clock(Some(s), Some(s)), Clock(Some(s + 3600), Some(s));
    Extend(ops, v, c, Downsample10Min(s + 3600), 3600, offset);
    ops := ops + [Downsample10Min(s + 3600)];
    Extend(ops, v, d, Downsample1Hr(s + 3600), 3600, offset);
    ops := ops + [Downsample1Hr(s + 3600)];
    assert |Part(Run(ops), OneHour, 3600, 1, 0)| == |{1, 2}| == 2;
  }

  lemma SplitHour(a: Snapshot, b: Snapshot, s: int, v: Table, w: Table)
    requires 0 == a.capturedAt < s - 37 * DAY <= b.capturedAt == 3599 && a.tier == b.tier == Raw
    requires v == map[1 := a.(tier := OneHour), 2 := b.(tier := TenMin)]
    requires w == map[1 := a.(tier := OneHour), 2 := b.(tier := OneHour)]
    ensures Apply(Apply(map[1 := a, 2 := b], Downsample10Min(s)), Downsample1Hr(s)) == v
    ensures Apply(v, Downsample10Min(s + 3600)) == v && Apply(v, Downsample1Hr(s + 3600)) == w
  {
    hide Swept;
    SweepTwo(a, b, TO_10MIN, s);
    SweepTwo(a.(tier := TenMin), b.(tier := TenMin), TO_1HR, s);
    SweepTwo(a.(tier := OneHour), b.(tier := TenMin), TO_10MIN, s + 3600);
    SweepTwo(a.(tier := OneHour), b.(tier := TenMin), TO_1HR, s + 3600);
  }

  /** Exactly when a tier keeps one row per bucket: the firings fall on the edges of its
      buckets. At any other offset two rows, which is the bound, are reached. */
  lemma TwoReachableIffMisaligned(p: Sweep, offset: int)
    requires IsTierSweep(p) && 0 <= offset < p.width
    ensures TwoReachable(p, offset) <==> offset != 0
  {
    hide Part, Run, RegularRun, FiresAt;
    if offset == 0 {
      forall ops, d, b | RegularRun(ops, 3600) && FiresAt(ops, p.width, 0)
        ensures |Part(Run(ops), p.to, p.width, d, b)| <= 1
      {
        WeakerGap(ops, 3600);
        AlignedKeepsOneRow(ops, p, d, b);
      }
    } else if p == TO_10MIN {
      TwoTenMinuteRows(offset);
    } else {
      TwoHourlyRows(offset);
    }
  }
}
