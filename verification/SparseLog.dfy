/** The sparse window log (internal/client/layout/capturer.go): a row is written only
    when the canonical form of the window set has changed. */
module SparseLog {
  import opened Base
  import opened CanonicalForm
  import opened Lexical
  import opened Utf8

  // ----- What is stored of a window set -----

  /** A window after its strings went through JSON. */
  function StoredWindow(w: Window): Window {
    w.(appName := Sanitized(w.appName), windowTitle := Sanitized(w.windowTitle))
  }

  /** What a reader of the row's JSON text gets. */
  function Stored(ws: seq<Window>): (r: seq<Window>)
    ensures |r| == |ws|
  {
    seq(|ws|, i requires 0 <= i < |ws| => StoredWindow(ws[i]))
  }

  predicate AllWellFormed(ws: seq<Window>) {
    forall w :: w in ws ==> WellFormed(w.appName) && WellFormed(w.windowTitle)
  }

  lemma StoredKeepsWindow(w: Window)
    ensures StoredWindow(w) == w <==> WellFormed(w.appName) && WellFormed(w.windowTitle)
    ensures StoredWindow(StoredWindow(w)) == StoredWindow(w)
    ensures NulFree(StoredWindow(w)) <==> NulFree(w)
  {
    SanitizedIffWellFormed(w.appName);
    SanitizedIffWellFormed(w.windowTitle);
    SanitizedNul(w.appName, NUL);
    SanitizedNul(w.windowTitle, NUL);
  }

  /** The stored windows are the enumerated ones exactly when all strings are UTF-8. */
  lemma StoredIffWellFormed(ws: seq<Window>)
    ensures SameWindows(Stored(ws), ws) <==> AllWellFormed(ws)
    ensures AllWellFormed(ws) ==> Stored(ws) == ws
    ensures AllWellFormed(Stored(ws)) && (AllNulFree(Stored(ws)) <==> AllNulFree(ws))
  {
    hide Sanitized, WellFormed, StoredWindow;
    forall i | 0 <= i < |ws|
      ensures StoredWindow(ws[i]) == ws[i] <==> WellFormed(ws[i].appName) && WellFormed(ws[i].windowTitle)
      ensures StoredWindow(StoredWindow(ws[i])) == StoredWindow(ws[i])
      ensures NulFree(StoredWindow(ws[i])) <==> NulFree(ws[i])
      ensures WellFormed(Stored(ws)[i].appName) && WellFormed(Stored(ws)[i].windowTitle)
    {
      StoredKeepsWindow(ws[i]);
      StoredKeepsWindow(StoredWindow(ws[i]));
    }
    if SameWindows(Stored(ws), ws) {
      forall w | w in ws ensures w in Stored(ws) {
        assert w in multiset(ws);
        assert w in multiset(Stored(ws));
      }
      forall w | w in ws ensures WellFormed(w.appName) && WellFormed(w.windowTitle) {
        var i :| 0 <= i < |ws| && Stored(ws)[i] == w;
      }
    }
    if AllWellFormed(ws) {
      assert Stored(ws) == ws;
    }
    forall i | 0 <= i < |ws| && AllNulFree(Stored(ws)) ensures NulFree(ws[i]) {
      assert Stored(ws)[i] in Stored(ws);
    }
  }

  lemma StoredWithout(ws: seq<Window>, i: nat)
    requires i < |ws|
    ensures multiset(ws) == multiset(ws[..i] + ws[i + 1..]) + multiset{ws[i]}
    ensures multiset(Stored(ws)) == multiset(Stored(ws[..i] + ws[i + 1..])) + multiset{StoredWindow(ws[i])}
  {
    hide StoredWindow;
    var s, rest := Stored(ws), ws[..i] + ws[i + 1..];
    assert Stored(rest) == s[..i] + s[i + 1..];
    assert ws == ws[..i] + [ws[i]] + ws[i + 1..] && s == s[..i] + [s[i]] + s[i + 1..];
  }

  /** Stored windows do not depend on the order of enumeration. */
  lemma {:induction false} StoredPermuted(a: seq<Window>, b: seq<Window>)
    requires SameWindows(a, b)
    ensures SameWindows(Stored(a), Stored(b))
    decreases |a|
  {
    hide Stored, StoredWindow;
    if a == [] {
      assert |b| == |multiset(b)| == 0;
    } else {
      assert a[0] in multiset(b);
      var i :| 0 <= i < |b| && b[i] == a[0];
      var resta, restb := a[..0] + a[1..], b[..i] + b[i + 1..];
      StoredWithout(a, 0);
      StoredWithout(b, i);
      assert multiset(resta) == multiset(restb) by {
        Cancel(multiset(resta), multiset(restb), a[0]);
      }
      StoredPermuted(resta, restb);
    }
  }

  lemma Cancel<T>(m: multiset<T>, n: multiset<T>, x: T)
    requires m + multiset{x} == n + multiset{x}
    ensures m == n
  {
    assert m == (m + multiset{x}) - multiset{x} && n == (n + multiset{x}) - multiset{x};
  }

  // ----- Runs -----

  /** One row of the local layout_snapshots table: the windows are those its JSON text
      holds, the hash is taken of the windows as they were enumerated. */
  datatype Row = Row(capturedAt: int, windows: seq<Window>, hash: Bytes)

  /** The capturer's fields and the rows in its store. No hash is remembered before
      the first row: the empty string is not a digest. */
  datatype CaptureState = CaptureState(locked: bool, lastHash: Option<Bytes>, rows: seq<Row>)

  /** What reaches the capturer: a lock event, or a tick with the time, what the
      enumerator returned, and whether writing a row would succeed. */
  datatype Input =
    | Presence(away: bool)
    | Tick(now: int, windows: Option<seq<Window>>, insertOk: bool)

  /** The row a tick wants to write, if any. */
  function Change(s: CaptureState, t: Input): Option<Row>
    requires t.Tick?
  {
    if s.locked || t.windows.None? || s.lastHash == Some(Canonical(t.windows.value)) then None
    else Some(Row(t.now, Stored(t.windows.value), Canonical(t.windows.value)))
  }

  function Step(s: CaptureState, i: Input): CaptureState {
    match i
    case Presence(away) => s.(locked := away)
    case Tick(_, _, insertOk) =>
      var row := Change(s, i);
      if row.Some? && insertOk then s.(lastHash := Some(row.value.hash), rows := s.rows + [row.value]) else s
  }

  /** A daemon run over a store that already holds the rows of earlier runs. */
  function Run(prior: seq<Row>, inputs: seq<Input>): CaptureState {
    if inputs == [] then CaptureState(false, None, prior)
    else Step(Run(prior, inputs[..|inputs| - 1]), inputs[|inputs| - 1])
  }

  /** Ticks move forward in time, from after the earlier rows. */
  ghost predicate WellTimed(prior: seq<Row>, inputs: seq<Input>) {
    && (forall i, j :: 0 <= i < j < |inputs| && inputs[i].Tick? && inputs[j].Tick? ==> inputs[i].now < inputs[j].now)
    && (forall r, j :: r in prior && 0 <= j < |inputs| && inputs[j].Tick? ==> r.capturedAt < inputs[j].now)
  }

  /** Every window list the ticks enumerated. */
  ghost function Seen(inputs: seq<Input>): set<seq<Window>> {
    set i | 0 <= i < |inputs| && inputs[i].Tick? && inputs[i].windows.Some? :: inputs[i].windows.value
  }

  /** The enumerator reads C strings, which hold no NUL. They need not be UTF-8: a title
      may be Latin-1, or cut in the middle of a character. */
  ghost predicate CStrings(inputs: seq<Input>) {
    forall ws :: ws in Seen(inputs) ==> AllNulFree(ws)
  }

  /** The tick is not skipped and meets no error: it enumerates the windows, and any
      insert it needs succeeds. */
  ghost predicate CarriedOut(s: CaptureState, t: Input) {
    t.Tick? && !s.locked && t.windows.Some? && (Change(s, t).Some? ==> t.insertOk)
  }

  ghost predicate Completed(prior: seq<Row>, inputs: seq<Input>, k: nat)
    requires k < |inputs|
  {
    CarriedOut(Run(prior, inputs[..k]), inputs[k])
  }

  /** `r` is the answer to "the most recent row at or before t". */
  ghost predicate IsLatestAt(rows: seq<Row>, t: int, r: Row) {
    r in rows && r.capturedAt <= t && forall q :: q in rows && q.capturedAt <= t ==> q.capturedAt <= r.capturedAt
  }

  // ----- What every run keeps -----

  ghost predicate AllBefore(rows: seq<Row>, t: int) {
    forall r :: r in rows ==> r.capturedAt < t
  }

  /** The row was written for the window list `ws`. */
  ghost predicate WrittenFor(r: Row, ws: seq<Window>) {
    r.windows == Stored(ws) && r.hash == Canonical(ws)
  }

  /** The row was written for one of the lists in `seen`. */
  ghost predicate Honest(seen: set<seq<Window>>, r: Row) {
    exists ws :: ws in seen && WrittenFor(r, ws)
  }

  lemma HashTells(ws: seq<Window>, vs: seq<Window>)
    requires AllNulFree(ws) && AllNulFree(vs)
    ensures Canonical(ws) == Canonical(vs) <==> SameWindows(ws, vs)
  {
    hide Canonical;
    CanonicalFormIsExact(ws, vs);
  }

  /** A row with the hash of `vs` holds what is stored of `vs`, whichever permutation of
      it the row was written for. */
  lemma HashNamesWindows(r: Row, ws: seq<Window>, vs: seq<Window>)
    requires AllNulFree(ws) && AllNulFree(vs) && WrittenFor(r, ws) && r.hash == Canonical(vs)
    ensures SameWindows(r.windows, Stored(vs))
  {
    hide Canonical, Stored;
    HashTells(ws, vs);
    StoredPermuted(ws, vs);
  }

  lemma NewestIsHonest(seen: set<seq<Window>>, prior: seq<Row>, rows: seq<Row>)
    requires Chain(seen, prior, rows) && |rows| > |prior|
    ensures Honest(seen, rows[|rows| - 1])
  {
  }

  /** Each row of this run is later than all rows before it, was written for a list in
      `seen`, and differs in hash from the row this run wrote before it. */
  ghost predicate Chain(seen: set<seq<Window>>, prior: seq<Row>, rows: seq<Row>) {
    if |rows| <= |prior| then rows == prior
    else
      var init, last := rows[..|rows| - 1], rows[|rows| - 1];
      && Chain(seen, prior, init) && AllBefore(init, last.capturedAt)
      && Honest(seen, last) && (|init| > |prior| ==> init[|init| - 1].hash != last.hash)
  }

  /** The rows form a chain, and the newest one's hash is the remembered one. */
  ghost predicate LogInv(seen: set<seq<Window>>, prior: seq<Row>, s: CaptureState) {
    && |s.rows| >= |prior| && Chain(seen, prior, s.rows)
    && s.lastHash == if |s.rows| == |prior| then None else Some(s.rows[|s.rows| - 1].hash)
  }

  lemma StepKeepsLog(seen: set<seq<Window>>, prior: seq<Row>, s: CaptureState, i: Input)
    requires LogInv(seen, prior, s)
    requires i.Tick? ==> AllBefore(s.rows, i.now)
    requires i.Tick? && i.windows.Some? ==> i.windows.value in seen
    ensures LogInv(seen, prior, Step(s, i))
  {
    hide Canonical, Stored;
    if i.Tick? && Change(s, i).Some? && i.insertOk {
      var row := Change(s, i).value;
      assert WrittenFor(row, i.windows.value);
      assert (s.rows + [row])[..|s.rows|] == s.rows;
    }
  }

  /** Every tick of the run is earlier than `t`. */
  ghost predicate TicksBefore(inputs: seq<Input>, t: int) {
    forall i :: 0 <= i < |inputs| && inputs[i].Tick? ==> inputs[i].now < t
  }

  lemma {:induction false} RowsBefore(prior: seq<Row>, inputs: seq<Input>, t: int)
    requires TicksBefore(inputs, t) && AllBefore(prior, t)
    ensures AllBefore(Run(prior, inputs).rows, t)
  {
    if inputs != [] {
      RowsBefore(prior, inputs[..|inputs| - 1], t);
    }
  }

  /** In every run the rows of the run are in time order, each was written for a list
      that a tick enumerated, and the newest hash is the remembered one. */
  lemma {:induction false} RunKeepsLog(seen: set<seq<Window>>, prior: seq<Row>, inputs: seq<Input>)
    requires WellTimed(prior, inputs) && Seen(inputs) <= seen
    ensures LogInv(seen, prior, Run(prior, inputs))
  {
    hide Canonical, Stored;
    if inputs != [] {
      var init, last := inputs[..|inputs| - 1], inputs[|inputs| - 1];
      assert forall i :: 0 <= i < |init| ==> init[i] == inputs[i];
      RunKeepsLog(seen, prior, init);
      if last.Tick? {
        RowsBefore(prior, init, last.now);
      }
      StepKeepsLog(seen, prior, Run(prior, init), last);
    }
  }

  // ----- Main results -----

  lemma {:induction false} ChainDiffers(seen: set<seq<Window>>, prior: seq<Row>, rows: seq<Row>, j: nat)
    returns (v: seq<Window>, w: seq<Window>)
    requires Chain(seen, prior, rows) && |prior| < j < |rows| && forall ws :: ws in seen ==> AllNulFree(ws)
    ensures v in seen && WrittenFor(rows[j - 1], v) && w in seen && WrittenFor(rows[j], w) && !SameWindows(v, w)
    decreases |rows|
  {
    hide Canonical, Stored;
    var init := rows[..|rows| - 1];
    if j < |rows| - 1 {
      v, w := ChainDiffers(seen, prior, init, j);
    } else {
      NewestIsHonest(seen, prior, init);
      NewestIsHonest(seen, prior, rows);
      v :| v in seen && WrittenFor(rows[j - 1], v);
      w :| w in seen && WrittenFor(rows[j], w);
      HashTells(v, w);
    }
  }

  /** Two rows written one after the other were written for lists that differ as
      multisets; if every list enumerated is UTF-8, the rows themselves differ. */
  lemma ConsecutiveRowsDiffer(prior: seq<Row>, inputs: seq<Input>, j: nat)
    requires WellTimed(prior, inputs) && CStrings(inputs)
    requires |prior| < j < |Run(prior, inputs).rows|
    ensures var rows := Run(prior, inputs).rows;
            && (exists v, w :: v in Seen(inputs) && w in Seen(inputs) && !SameWindows(v, w)
                               && WrittenFor(rows[j - 1], v) && WrittenFor(rows[j], w))
            && ((forall ws :: ws in Seen(inputs) ==> AllWellFormed(ws)) ==>
                  !SameWindows(rows[j - 1].windows, rows[j].windows))
  {
    hide Canonical, Stored;
    RunKeepsLog(Seen(inputs), prior, inputs);
    var v, w := ChainDiffers(Seen(inputs), prior, Run(prior, inputs).rows, j);
    StoredIffWellFormed(v);
    StoredIffWellFormed(w);
  }

  /** The rows that two ticks leave in an empty store. */
  function TwoTicks(v: seq<Window>, w: seq<Window>): seq<Row> {
    Run([], [Tick(0, Some(v), true), Tick(60, Some(w), true)]).rows
  }

  lemma TwoTicksRows(v: seq<Window>, w: seq<Window>)
    requires AllNulFree(v) && AllNulFree(w) && !SameWindows(v, w)
    ensures TwoTicks(v, w) == [Row(0, Stored(v), Canonical(v)), Row(60, Stored(w), Canonical(w))]
  {
    hide Canonical, Stored;
    HashTells(v, w);
    var first, second := Tick(0, Some(v), true), Tick(60, Some(w), true);
    assert [first, second][..1] == [first] && [first][..0] == [];
    assert Run([], [first]) == Step(Run([], []), first);
  }

  /** Exactly when the rows tell a list apart from every UTF-8 list: it is UTF-8 itself.
      Any other list is stored just like some list that differs from it. */
  lemma RowsTellApartIffWellFormed(v: seq<Window>)
    requires AllNulFree(v)
    ensures AllWellFormed(v) <==>
            forall w :: AllNulFree(w) && AllWellFormed(w) && !SameWindows(v, w) ==>
              var rows := TwoTicks(v, w);
              |rows| == 2 && !SameWindows(rows[0].windows, rows[1].windows)
  {
    hide Canonical, Stored, TwoTicks, AllWellFormed, AllNulFree;
    StoredIffWellFormed(v);
    if AllWellFormed(v) {
      forall w | AllNulFree(w) && AllWellFormed(w) && !SameWindows(v, w)
        ensures var rows := TwoTicks(v, w);
                |rows| == 2 && !SameWindows(rows[0].windows, rows[1].windows)
      {
        TwoTicksRows(v, w);
        StoredIffWellFormed(w);
      }
    } else {
      var w := Stored(v);
      StoredIffWellFormed(w);
      TwoTicksRows(v, w);
    }
  }

  /** Such a collision between two Latin-1 titles: the capturer writes a second row, and
      both rows hold the same windows. */
  lemma LatinTitlesCollide(app: Bytes, x: int, y: int)
    requires NUL !in app
    ensures var v, w := Window(app, [0xE9], x, y, 1, 1), Window(app, [0xE8], x, y, 1, 1);
            |TwoTicks([v], [w])| == 2 && TwoTicks([v], [w])[0].windows == TwoTicks([v], [w])[1].windows
  {
    var v, w := Window(app, [0xE9], x, y, 1, 1), Window(app, [0xE8], x, y, 1, 1);
    assert v in multiset([v]) && v !in multiset([w]);
    TwoTicksRows([v], [w]);
    hide Canonical, TwoTicks;
    assert [0xE9][1..] == [] && [0xE8][1..] == [];
    assert Sanitized([0xE9]) == REPLACEMENT + Sanitized([]) == Sanitized([0xE8]);
  }

  /** In a chain whose newest row is not after `t`, that row alone answers for `t`. */
  lemma NewestIsLatest(seen: set<seq<Window>>, prior: seq<Row>, rows: seq<Row>, t: int)
    requires Chain(seen, prior, rows) && |rows| > |prior| && rows[|rows| - 1].capturedAt <= t
    ensures forall r :: IsLatestAt(rows, t, r) <==> r == rows[|rows| - 1]
  {
    hide Canonical;
    var init, last := rows[..|rows| - 1], rows[|rows| - 1];
    assert forall r :: r in rows <==> r in init || r == last;
  }

  /** Right after a tick carried out the newest row, and no other, answers for its time,
      and holds what is stored of the windows just enumerated. */
  lemma NewestRowIsCurrent(seen: set<seq<Window>>, prior: seq<Row>, s: CaptureState, t: Input)
    requires LogInv(seen, prior, s) && CarriedOut(s, t) && AllBefore(s.rows, t.now)
    requires t.windows.value in seen && forall ws :: ws in seen ==> AllNulFree(ws)
    ensures var rows := Step(s, t).rows;
            && |rows| > |prior| && SameWindows(rows[|rows| - 1].windows, Stored(t.windows.value))
            && forall r :: IsLatestAt(rows, t.now, r) <==> r == rows[|rows| - 1]
  {
    hide Canonical, Stored, AllNulFree;
    StepKeepsLog(seen, prior, s, t);
    var after := Step(s, t);
    assert after.lastHash == Some(Canonical(t.windows.value));
    var newest := after.rows[|after.rows| - 1];
    assert newest.capturedAt <= t.now by {
      assert newest in s.rows || newest.capturedAt == t.now;
    }
    NewestIsHonest(seen, prior, after.rows);
    NewestIsLatest(seen, prior, after.rows, t.now);
    var ws :| ws in seen && WrittenFor(newest, ws);
    HashNamesWindows(newest, ws, t.windows.value);
  }

  /** A row is found at or before the time, and whatever is found there holds what JSON
      keeps of `ws`, which is `ws` itself exactly when it is UTF-8. */
  ghost predicate Answers(rows: seq<Row>, at: int, ws: seq<Window>) {
    && (exists r :: IsLatestAt(rows, at, r))
    && (forall r :: IsLatestAt(rows, at, r) ==>
          SameWindows(r.windows, Stored(ws)) && (SameWindows(r.windows, ws) <==> AllWellFormed(ws)))
  }

  lemma NewestAnswers(rows: seq<Row>, at: int, ws: seq<Window>)
    requires rows != [] && SameWindows(rows[|rows| - 1].windows, Stored(ws))
    requires forall r :: IsLatestAt(rows, at, r) <==> r == rows[|rows| - 1]
    ensures Answers(rows, at, ws)
  {
    hide Stored, AllWellFormed, IsLatestAt;
    StoredIffWellFormed(ws);
    var r := rows[|rows| - 1];
    assert IsLatestAt(rows, at, r);
  }

  /** A later row does not change what is found at an earlier time. */
  lemma LaterRowIsInvisible(rows: seq<Row>, row: Row, at: int, ws: seq<Window>)
    requires at < row.capturedAt && Answers(rows, at, ws)
    ensures Answers(rows + [row], at, ws)
  {
    hide Stored, AllWellFormed;
    assert forall r :: IsLatestAt(rows + [row], at, r) <==> IsLatestAt(rows, at, r);
    var r :| IsLatestAt(rows, at, r);
    assert IsLatestAt(rows + [row], at, r);
  }

  /** The sparse log answers every completed tick as a log with one row per tick would. */
  lemma {:induction false} SparseLogAgreesWithDense(prior: seq<Row>, inputs: seq<Input>, k: nat)
    requires k < |inputs| && WellTimed(prior, inputs) && CStrings(inputs)
    requires Completed(prior, inputs, k)
    ensures Answers(Run(prior, inputs).rows, inputs[k].now, inputs[k].windows.value)
    decreases |inputs|
  {
    hide Canonical, Stored, AllWellFormed, Answers, IsLatestAt, AllNulFree;
    var init, last, seen := inputs[..|inputs| - 1], inputs[|inputs| - 1], Seen(inputs);
    assert forall i :: 0 <= i < |init| ==> init[i] == inputs[i];
    var before := Run(prior, init);
    assert Run(prior, inputs) == Step(before, last) && init[..k] == inputs[..k];
    if k == |inputs| - 1 {
      assert inputs[..k] == init;
      RunKeepsLog(seen, prior, init);
      RowsBefore(prior, init, last.now);
      NewestRowIsCurrent(seen, prior, before, last);
      NewestAnswers(Run(prior, inputs).rows, last.now, last.windows.value);
    } else {
      SparseLogAgreesWithDense(prior, init, k);
      if Run(prior, inputs).rows != before.rows {
        LaterRowIsInvisible(before.rows, Change(before, last).value, inputs[k].now, inputs[k].windows.value);
      }
    }
  }

  /** The last lock event so far was one that locked. */
  ghost predicate ScreenLocked(inputs: seq<Input>) {
    exists i :: 0 <= i < |inputs| && inputs[i] == Presence(true) && NoPresenceSince(inputs, i)
  }

  ghost predicate NoPresenceSince(inputs: seq<Input>, i: int) {
    forall j :: 0 <= i < j < |inputs| ==> !inputs[j].Presence?
  }

  lemma OneMoreInput(init: seq<Input>, last: Input)
    ensures ScreenLocked(init + [last]) <==> if last.Presence? then last.away else ScreenLocked(init)
  {
    var inputs := init + [last];
    if last == Presence(true) {
      assert inputs[|init|] == Presence(true) && NoPresenceSince(inputs, |init|);
    } else if last.Tick? && ScreenLocked(init) {
      var i :| 0 <= i < |init| && init[i] == Presence(true) && NoPresenceSince(init, i);
      assert inputs[i] == Presence(true) && NoPresenceSince(inputs, i);
    }
    if i :| 0 <= i < |init| && inputs[i] == Presence(true) && NoPresenceSince(inputs, i) {
      assert inputs[|init|] == last;
      assert forall j :: i < j < |init| ==> init[j] == inputs[j];
      assert init[i] == Presence(true) && NoPresenceSince(init, i);
    }
  }

  lemma {:induction false} LockFollowsPresence(prior: seq<Row>, inputs: seq<Input>)
    ensures Run(prior, inputs).locked <==> ScreenLocked(inputs)
  {
    if inputs != [] {
      var init, last := inputs[..|inputs| - 1], inputs[|inputs| - 1];
      LockFollowsPresence(prior, init);
      OneMoreInput(init, last);
      hide ScreenLocked, Change;
      assert inputs == init + [last];
    }
  }

  /** While the screen is locked a tick writes nothing. Otherwise a tick that enumerates and
      can write is answered for ever after by a row with the windows of that moment. */
  lemma TickHeedsLock(prior: seq<Row>, inputs: seq<Input>, k: nat)
    requires k < |inputs| && WellTimed(prior, inputs) && CStrings(inputs) && inputs[k].Tick?
    ensures ScreenLocked(inputs[..k]) ==> Run(prior, inputs[..k + 1]).rows == Run(prior, inputs[..k]).rows
    ensures !ScreenLocked(inputs[..k]) && inputs[k].windows.Some? && inputs[k].insertOk ==>
              Answers(Run(prior, inputs).rows, inputs[k].now, inputs[k].windows.value)
  {
    hide Answers, ScreenLocked, Canonical, Stored;
    LockFollowsPresence(prior, inputs[..k]);
    if ScreenLocked(inputs[..k]) {
      assert inputs[..k + 1][..k] == inputs[..k];
    } else if inputs[k].windows.Some? && inputs[k].insertOk {
      SparseLogAgreesWithDense(prior, inputs, k);
    }
  }

  /** Across a restart the log may repeat itself: a run's first tick always writes a row,
      and it has the hash of the newest row before exactly if the same windows, in any
      order, are open again. */
  lemma RestartRepeatsIffSame(prior: seq<Row>, v: seq<Window>, w: seq<Window>, now: int)
    requires prior != [] && WrittenFor(prior[|prior| - 1], v) && AllNulFree(v) && AllNulFree(w)
    ensures var rows, row := Run(prior, [Tick(now, Some(w), true)]).rows, Row(now, Stored(w), Canonical(w));
            && rows == prior + [row]
            && (row.hash == prior[|prior| - 1].hash <==> SameWindows(v, w))
  {
    hide Canonical, Stored;
    HashTells(v, w);
    assert [Tick(now, Some(w), true)][..0] == [];
    assert Run(prior, []) == CaptureState(false, None, prior);
  }

  // ----- The code -----

  class Capturer {
    var locked: bool
    var lastHash: Option<Bytes>
    var rows: seq<Row>

    ghost function State(): CaptureState
      reads this
    {
      CaptureState(locked, lastHash, rows)
    }

    constructor (stored: seq<Row>)
      ensures State() == Run(stored, [])
    {
      locked, lastHash, rows := false, None, stored;
    }

    /** The body of the lock subscriber. */
    method OnPresence(away: bool)
      modifies this
      ensures State() == Step(old(State()), Presence(away))
    {
      locked := away;
    }

    /** Marshalling the windows and inserting the row, which may fail. */
    method InsertSnapshot(row: Row, ok: bool)
      modifies `rows
      ensures rows == if ok then old(rows) + [row] else old(rows)
    {
      if ok {
        rows := rows + [row];
      }
    }

    /** The per-interval body. `windows` is null when the enumerator failed. */
    method OnTick(now: int, windows: array?<Window>, insertOk: bool)
      modifies this
      ensures State() == Step(old(State()),
                Tick(now, if windows == null then None else Some(old(windows[..])), insertOk))
    {
      if locked {
        return;
      }
      if windows == null {
        return;
      }
      var hash := HashWindows(windows);
      if lastHash == Some(hash) {
        return;
      }
      InsertSnapshot(Row(now, Stored(windows[..]), hash), insertOk);
      if !insertOk {
        return;
      }
      lastHash := Some(hash);
    }
  }
}
