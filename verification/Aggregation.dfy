/** The two aggregation functions of internal/client/sync/submit.go: timesheet entries
    are merged by tag before they are sent, and raw focus events are merged by tag for
    the submission preview, with a summary of the applications used. */
module Aggregation {
  import opened Base
  import opened Grouping

  // ----- Timesheet entries -----

  /** `endedAt` is missing for an event that is still open. */
  datatype TimesheetEntry = TimesheetEntry(
    tag: string, startedAt: int, endedAt: Option<int>, durationS: int, notes: string)

  function Tag(e: TimesheetEntry): string { e.tag }
  function Start(e: TimesheetEntry): int { e.startedAt }
  function Duration(e: TimesheetEntry): int { e.durationS }

  /** strings.Join of the non-empty notes, one a line. */
  function JoinNotes(q: seq<TimesheetEntry>): string {
    if q == [] then ""
    else
      var before, last := JoinNotes(q[..|q| - 1]), q[|q| - 1].notes;
      if last == "" then before else if before == "" then last else before + "\n" + last
  }

  /** mergeTimesheetEntries on a group already sorted by start. */
  function MergeEntries(tag: string, q: seq<TimesheetEntry>): TimesheetEntry {
    if q == [] then TimesheetEntry(tag, 0, None, 0, "")
    else TimesheetEntry(tag, q[0].startedAt, q[|q| - 1].endedAt, Sum(q, Duration), JoinNotes(q))
  }

  const ENTRIES: Pipeline<TimesheetEntry, TimesheetEntry> := Pipeline(Tag, Start, MergeEntries, Tag, Start)

  /** Aggregate, called on a submission's entries before they are sent. */
  method Aggregate(entries: seq<TimesheetEntry>) returns (result: seq<TimesheetEntry>)
    ensures IsAggregate(ENTRIES, entries, result)
    ensures Sum(result, Duration) == Sum(entries, Duration)
  {
    if |entries| == 0 {
      return entries;
    }
    result := AggregateBy(ENTRIES, entries);
    AggregateConserves(ENTRIES, entries, result, Duration, Duration);
  }

  /** One entry per tag, holding that tag's total time; no time is lost or made up. */
  lemma AggregateConservesTime(entries: seq<TimesheetEntry>, result: seq<TimesheetEntry>)
    requires IsAggregate(ENTRIES, entries, result)
    ensures forall m :: m in result ==> m.durationS == Sum(Group(entries, Tag, m.tag), Duration)
    ensures Sum(result, Duration) == Sum(entries, Duration)
    ensures forall t :: HasTag(entries, Tag, t) <==> HasTag(result, Tag, t)
  {
    AggregateConserves(ENTRIES, entries, result, Duration, Duration);
    forall t ensures HasTag(entries, Tag, t) <==> HasTag(result, Tag, t) {
      if HasTag(entries, Tag, t) {
        var e :| e in entries && Tag(e) == t;
      }
      if HasTag(result, Tag, t) {
        var m :| m in result && Tag(m) == t;
        var e := MergedFrom(ENTRIES, entries, m);
      }
    }
  }

  /** With distinct start times there is only one result, whatever order the entries,
      the map and the sorts come in. */
  lemma AggregateIsDeterministic(
    a: seq<TimesheetEntry>, b: seq<TimesheetEntry>, r: seq<TimesheetEntry>, r': seq<TimesheetEntry>)
    requires multiset(a) == multiset(b) && DistinctKeys(multiset(a), Start)
    requires IsAggregate(ENTRIES, a, r) && IsAggregate(ENTRIES, b, r')
    ensures r == r'
  {
    AggregateIsUnique(ENTRIES, a, b, r, r');
  }

  lemma MergeOne(m: TimesheetEntry)
    ensures MergeEntries(m.tag, [m]) == m
  {
    SumOne(m, Duration);
    assert [m][..0] == [];
    assert JoinNotes([]) == "";
  }

  lemma {:induction false} GroupOfDistinct(r: seq<TimesheetEntry>, m: TimesheetEntry)
    requires DistinctTags(ENTRIES, r) && m in r
    ensures Group(r, Tag, m.tag) == [m]
  {
    var init, last := r[..|r| - 1], r[|r| - 1];
    if m == last {
      GroupIsEmpty(init, Tag, m.tag);
    } else {
      GroupOfDistinct(init, m);
    }
  }

  /** Aggregating again changes nothing, and with distinct start times it can produce
      nothing else. */
  lemma AggregateTwice(entries: seq<TimesheetEntry>, r: seq<TimesheetEntry>, r': seq<TimesheetEntry>)
    requires IsAggregate(ENTRIES, entries, r)
    ensures IsAggregate(ENTRIES, r, r)
    ensures DistinctKeys(multiset(entries), Start) && IsAggregate(ENTRIES, r, r') ==> r' == r
  {
    forall m | m in r ensures IsMerged(ENTRIES, r, m) {
      GroupOfDistinct(r, m);
      MergeOne(m);
      assert IsSorting(Group(r, Tag, m.tag), [m], Start);
    }
    if DistinctKeys(multiset(entries), Start) && IsAggregate(ENTRIES, r, r') {
      ResultKeysDistinct(ENTRIES, entries, r);
      AggregateIsUnique(ENTRIES, r, r, r', r);
    }
  }

  // ----- What a merged entry says -----

  /** The notes that are not empty, in order. */
  ghost function Written(q: seq<TimesheetEntry>): seq<string> {
    if q == [] then [] else (if q[0].notes == "" then [] else [q[0].notes]) + Written(q[1..])
  }

  lemma {:induction false} WrittenAppend(q: seq<TimesheetEntry>, e: TimesheetEntry)
    ensures Written(q + [e]) == Written(q) + if e.notes == "" then [] else [e.notes]
  {
    if q == [] {
      assert [e][1..] == [];
    } else {
      WrittenAppend(q[1..], e);
      assert (q + [e])[1..] == q[1..] + [e];
    }
  }

  predicate StandsAt(s: string, line: string, i: int) {
    0 <= i <= i + |line| <= |s| && s[i..i + |line|] == line
  }

  lemma StandsLonger(s: string, more: string, line: string, i: int)
    requires StandsAt(s, line, i)
    ensures StandsAt(s + more, line, i)
  {
    assert (s + more)[i..i + |line|] == s[i..i + |line|];
  }

  /** Where the `k`-th line starts: after the lines before it, and a newline for each. */
  ghost function LineStart(lines: seq<string>, k: nat): nat
    requires k <= |lines|
  {
    if k == 0 then 0 else LineStart(lines, k - 1) + |lines[k - 1]| + 1
  }

  /** The line stands whole in its place, after a newline unless it is the first. */
  ghost predicate LineStands(s: string, lines: seq<string>, k: nat)
    requires k < |lines|
  {
    StandsAt(s, lines[k], LineStart(lines, k)) && (k > 0 ==> StandsAt(s, "\n", LineStart(lines, k) - 1))
  }

  /** All lines stand in their places, and there is nothing else. */
  ghost predicate AreLines(s: string, lines: seq<string>) {
    && (if lines == [] then s == "" else |s| + 1 == LineStart(lines, |lines|))
    && forall k :: 0 <= k < |lines| ==> LineStands(s, lines, k)
  }

  lemma {:induction false} LineStartStays(lines: seq<string>, line: string, k: nat)
    requires k <= |lines|
    ensures LineStart(lines + [line], k) == LineStart(lines, k)
  {
    if k > 0 {
      LineStartStays(lines, line, k - 1);
    }
  }

  lemma LinesAppend(s: string, lines: seq<string>, line: string)
    requires AreLines(s, lines) && lines != []
    ensures AreLines(s + "\n" + line, lines + [line])
  {
    hide LineStands;
    var t, more, n := s + "\n" + line, lines + [line], |lines|;
    LineStartStays(lines, line, n);
    LastLineStands(s, lines, line);
    forall k: nat | k <= n ensures LineStands(t, more, k) {
      if k < n {
        LineStillStands(s, lines, line, k);
      }
    }
  }

  lemma LastLineStands(s: string, lines: seq<string>, line: string)
    requires lines != [] && |s| + 1 == LineStart(lines, |lines|)
    ensures LineStands(s + "\n" + line, lines + [line], |lines|)
  {
    hide LineStart, StandsAt;
    LineStartStays(lines, line, |lines|);
    EndStands(s + "\n", line);
    EndStands(s, "\n");
    StandsLonger(s + "\n", line, "\n", |s|);
  }

  lemma EndStands(s: string, line: string)
    ensures StandsAt(s + line, line, |s|)
  {
  }

  lemma LineStillStands(s: string, lines: seq<string>, line: string, k: nat)
    requires k < |lines| && LineStands(s, lines, k)
    ensures LineStands(s + "\n" + line, lines + [line], k)
  {
    LineStartStays(lines, line, k);
    hide StandsAt, LineStart;
    assert s + "\n" + line == s + ("\n" + line);
    StandsLonger(s, "\n" + line, lines[k], LineStart(lines, k));
    if k > 0 {
      StandsLonger(s, "\n" + line, "\n", LineStart(lines, k) - 1);
    }
  }

  lemma OneLine(line: string)
    ensures AreLines(line, [line])
  {
    assert LineStart([line], 1) == LineStart([line], 0) + |line| + 1;
  }

  lemma {:induction false} JoinIsLines(q: seq<TimesheetEntry>)
    ensures AreLines(JoinNotes(q), Written(q)) && (JoinNotes(q) == "" <==> Written(q) == [])
  {
    if q == [] {
      assert AreLines("", []);
    } else {
      var init, last := q[..|q| - 1], q[|q| - 1];
      JoinIsLines(init);
      WrittenAppend(init, last);
      assert q == init + [last];
      hide AreLines, Written, LineStart, StandsAt;
      if last.notes == "" {
        assert Written(q) == Written(init);
      } else {
        if JoinNotes(init) == "" {
          OneLine(last.notes);
          assert Written(init) + [last.notes] == [last.notes];
        } else {
          LinesAppend(JoinNotes(init), Written(init), last.notes);
        }
      }
    }
  }

  /** What a merged entry says: it starts with the first entry of its tag and ends with the
      last, in some start order, and its notes are theirs, one a line in that order. */
  ghost predicate Tells(q: seq<TimesheetEntry>, m: TimesheetEntry) {
    && q != [] && m.startedAt == q[0].startedAt && m.endedAt == q[|q| - 1].endedAt
    && AreLines(m.notes, Written(q))
  }

  lemma MergedTellsAll(entries: seq<TimesheetEntry>, result: seq<TimesheetEntry>, m: TimesheetEntry)
    requires IsAggregate(ENTRIES, entries, result) && m in result
    ensures exists q :: IsSorting(Group(entries, Tag, m.tag), q, Start) && Tells(q, m)
  {
    assert IsMerged(ENTRIES, entries, m);
    var q :| q != [] && IsSorting(Group(entries, Tag, m.tag), q, Start) && m == MergeEntries(m.tag, q);
    JoinIsLines(q);
    assert Tells(q, m);
  }

  /** So every note of the tag stands whole in the merged notes, and that of an earlier entry
      on a line before. */
  lemma NotesStand(entries: seq<TimesheetEntry>, result: seq<TimesheetEntry>, m: TimesheetEntry,
                   x: TimesheetEntry, y: TimesheetEntry)
    requires IsAggregate(ENTRIES, entries, result) && m in result
    requires x in entries && x.tag == m.tag && x.notes != ""
    requires y in entries && y.tag == m.tag && y.notes != "" && x.startedAt < y.startedAt
    ensures exists i, j :: i + |x.notes| < j && StandsAt(m.notes, x.notes, i) && StandsAt(m.notes, y.notes, j)
  {
    hide IsAggregate, IsSorting, StandsAt, AreLines, Written, Group;
    MergedTellsAll(entries, result, m);
    var q :| IsSorting(Group(entries, Tag, m.tag), q, Start) && Tells(q, m);
    var a := IndexIn(entries, m.tag, q, x);
    var b := IndexIn(entries, m.tag, q, y);
    EarlierFirst(Group(entries, Tag, m.tag), q, a, b);
    OrderedNotesStand(q, m.notes, a, b);
  }

  lemma EarlierFirst(s: seq<TimesheetEntry>, q: seq<TimesheetEntry>, a: nat, b: nat)
    requires IsSorting(s, q, Start) && a < |q| && b < |q| && q[a].startedAt < q[b].startedAt
    ensures a < b
  {
    assert b < a ==> Start(q[b]) <= Start(q[a]);
  }

  lemma OrderedNotesStand(q: seq<TimesheetEntry>, s: string, a: nat, b: nat)
    requires AreLines(s, Written(q)) && a < b < |q| && q[a].notes != "" && q[b].notes != ""
    ensures exists i, j :: i + |q[a].notes| < j && StandsAt(s, q[a].notes, i) && StandsAt(s, q[b].notes, j)
  {
    PlacesOrdered(q, a, b);
    hide Written, PlaceOf, StandsAt, LineStart;
    var lines, k, l := Written(q), PlaceOf(q, a), PlaceOf(q, b);
    assert LineStands(s, lines, k) && LineStands(s, lines, l);
    hide AreLines;
    LinesOrdered(lines, k, l);
    assert StandsAt(s, q[a].notes, LineStart(lines, k)) && StandsAt(s, q[b].notes, LineStart(lines, l));
  }

  lemma IndexIn(entries: seq<TimesheetEntry>, tag: string, q: seq<TimesheetEntry>, x: TimesheetEntry) returns (a: nat)
    requires IsSorting(Group(entries, Tag, tag), q, Start) && x in entries && x.tag == tag
    ensures a < |q| && q[a] == x
  {
    GroupIsEmpty(entries, Tag, tag);
    assert x in multiset(Group(entries, Tag, tag));
    assert x in multiset(q);
    a :| 0 <= a < |q| && q[a] == x;
  }

  /** Which line the note of entry `a` is. */
  function PlaceOf(q: seq<TimesheetEntry>, a: nat): nat
    requires a < |q|
  {
    if a == 0 then 0 else PlaceOf(q[1..], a - 1) + if q[0].notes == "" then 0 else 1
  }

  lemma {:induction false} PlacesOrdered(q: seq<TimesheetEntry>, a: nat, b: nat)
    requires a < b < |q| && q[a].notes != "" && q[b].notes != ""
    ensures PlaceOf(q, a) < PlaceOf(q, b) < |Written(q)|
    ensures Written(q)[PlaceOf(q, a)] == q[a].notes && Written(q)[PlaceOf(q, b)] == q[b].notes
  {
    if a > 0 {
      PlacesOrdered(q[1..], a - 1, b - 1);
    } else {
      LaterPlace(q[1..], b - 1);
    }
  }

  lemma {:induction false} LaterPlace(q: seq<TimesheetEntry>, b: nat)
    requires b < |q| && q[b].notes != ""
    ensures PlaceOf(q, b) < |Written(q)| && Written(q)[PlaceOf(q, b)] == q[b].notes
  {
    if b > 0 {
      LaterPlace(q[1..], b - 1);
    }
  }

  lemma {:induction false} LinesOrdered(lines: seq<string>, k: nat, l: nat)
    requires k < l <= |lines|
    ensures LineStart(lines, k) + |lines[k]| < LineStart(lines, l)
  {
    if k + 1 < l {
      LinesOrdered(lines, k, l - 1);
    }
  }

  // ----- Raw focus events -----

  /** `note` is the formatted note line, when there is a note with a time. */
  datatype RawEvent = RawEvent(
    id: int, appName: string, startedAt: int, endedAt: int, durationS: int, tag: string, note: Option<string>)

  /** The aggregated entry without its application summary, which is computed apart. */
  datatype AggregatedEntry = AggregatedEntry(
    tag: string, startedAt: int, endedAt: int, durationS: int, notes: seq<string>, eventIDs: seq<int>)

  function RawTag(e: RawEvent): string { e.tag }
  function RawStart(e: RawEvent): int { e.startedAt }
  function RawDuration(e: RawEvent): int { e.durationS }
  function App(e: RawEvent): string { e.appName }
  function EntryTag(e: AggregatedEntry): string { e.tag }
  function EntryStart(e: AggregatedEntry): int { e.startedAt }
  function EntryDuration(e: AggregatedEntry): int { e.durationS }

  function Notes(q: seq<RawEvent>): seq<string> {
    if q == [] then []
    else Notes(q[..|q| - 1]) + if q[|q| - 1].note.Some? then [q[|q| - 1].note.value] else []
  }

  function EventIDs(q: seq<RawEvent>): seq<int> {
    if q == [] then [] else EventIDs(q[..|q| - 1]) + [q[|q| - 1].id]
  }

  function MergeEvents(tag: string, q: seq<RawEvent>): AggregatedEntry {
    if q == [] then AggregatedEntry(tag, 0, 0, 0, [], [])
    else AggregatedEntry(tag, q[0].startedAt, q[|q| - 1].endedAt, Sum(q, RawDuration), Notes(q), EventIDs(q))
  }

  const EVENTS: Pipeline<RawEvent, AggregatedEntry> := Pipeline(RawTag, RawStart, MergeEvents, EntryTag, EntryStart)

  method AggregateRawEvents(events: seq<RawEvent>) returns (result: seq<AggregatedEntry>)
    ensures IsAggregate(EVENTS, events, result)
  {
    result := AggregateBy(EVENTS, events);
  }

  function AllIDs(result: seq<AggregatedEntry>): seq<int> {
    if result == [] then [] else AllIDs(result[..|result| - 1]) + result[|result| - 1].eventIDs
  }

  function Occurs(id: int): RawEvent -> int {
    (e: RawEvent) => if e.id == id then 1 else 0
  }

  ghost function OccursIn(id: int): AggregatedEntry -> int {
    (m: AggregatedEntry) => multiset(m.eventIDs)[id]
  }

  lemma {:induction false} CountIDs(q: seq<RawEvent>, id: int)
    ensures multiset(EventIDs(q))[id] == Sum(q, Occurs(id))
  {
    if q != [] {
      CountIDs(q[..|q| - 1], id);
    }
  }

  lemma {:induction false} CountAllIDs(result: seq<AggregatedEntry>, id: int)
    ensures multiset(AllIDs(result))[id] == Sum(result, OccursIn(id))
  {
    if result != [] {
      CountAllIDs(result[..|result| - 1], id);
    }
  }

  /** The result mentions every event exactly as often as the input does, and keeps the
      total and the per-tag time. */
  lemma RawAggregateConserves(events: seq<RawEvent>, result: seq<AggregatedEntry>)
    requires IsAggregate(EVENTS, events, result)
    ensures multiset(AllIDs(result)) == multiset(EventIDs(events))
    ensures forall m :: m in result ==> m.durationS == Sum(Group(events, RawTag, m.tag), RawDuration)
    ensures Sum(result, EntryDuration) == Sum(events, RawDuration)
  {
    AggregateConserves(EVENTS, events, result, RawDuration, EntryDuration);
    forall id ensures multiset(AllIDs(result))[id] == multiset(EventIDs(events))[id] {
      forall t, q: seq<RawEvent> | q != [] ensures OccursIn(id)(MergeEvents(t, q)) == Sum(q, Occurs(id)) {
        CountIDs(q, id);
      }
      AggregateConserves(EVENTS, events, result, Occurs(id), OccursIn(id));
      CountIDs(events, id);
      CountAllIDs(result, id);
    }
  }

  /** The notes there are, in order. */
  ghost function RawWritten(q: seq<RawEvent>): seq<string> {
    if q == [] then [] else (if q[0].note.Some? then [q[0].note.value] else []) + RawWritten(q[1..])
  }

  lemma {:induction false} RawWrittenAppend(q: seq<RawEvent>, e: RawEvent)
    ensures RawWritten(q + [e]) == RawWritten(q) + if e.note.Some? then [e.note.value] else []
  {
    if q == [] {
      assert [e][1..] == [];
    } else {
      RawWrittenAppend(q[1..], e);
      assert (q + [e])[1..] == q[1..] + [e];
    }
  }

  lemma {:induction false} MergeEventsKeeps(q: seq<RawEvent>)
    ensures Notes(q) == RawWritten(q) && EventIDs(q) == seq(|q|, i requires 0 <= i < |q| => q[i].id)
  {
    if q != [] {
      MergeEventsKeeps(q[..|q| - 1]);
      RawWrittenAppend(q[..|q| - 1], q[|q| - 1]);
      assert q == q[..|q| - 1] + [q[|q| - 1]];
    }
  }

  /** What a merged entry of the preview says: it starts with the first event of its tag and
      ends with the last, in some start order, and lists their notes and ids in that order. */
  ghost predicate RawTells(q: seq<RawEvent>, m: AggregatedEntry) {
    && q != [] && m.startedAt == q[0].startedAt && m.endedAt == q[|q| - 1].endedAt
    && m.notes == RawWritten(q) && m.eventIDs == seq(|q|, i requires 0 <= i < |q| => q[i].id)
  }

  lemma RawMergedTellsAll(events: seq<RawEvent>, result: seq<AggregatedEntry>, m: AggregatedEntry)
    requires IsAggregate(EVENTS, events, result) && m in result
    ensures exists q :: IsSorting(Group(events, RawTag, m.tag), q, RawStart) && RawTells(q, m)
  {
    assert IsMerged(EVENTS, events, m);
    var q :| q != [] && IsSorting(Group(events, RawTag, m.tag), q, RawStart) && m == MergeEvents(m.tag, q);
    MergeEventsKeeps(q);
    assert RawTells(q, m);
  }

  // ----- The application summary -----

  /** "VS Code (72%)". */
  datatype Share = Share(name: string, pct: int)

  /** Go's integer division, which truncates towards zero. */
  function Div(a: int, b: int): int
    requires b != 0
  {
    if (a < 0) == (b < 0) then (if a < 0 then (-a) / (-b) else a / b) else if a < 0 then -((-a) / b) else -(a / (-b))
  }

  /** The percentage of the group's time an application took. */
  function Percent(q: seq<RawEvent>, app: string): int {
    var total := Sum(q, RawDuration);
    if total == 0 then 0 else Div(Sum(Group(q, App, app), RawDuration) * 100, total)
  }

  ghost predicate SortedByShare(shares: seq<Share>) {
    forall i, j :: 0 <= i < j < |shares| ==> shares[i].pct >= shares[j].pct
  }

  /** The applications with a positive percentage, each once, largest first. */
  ghost predicate IsSummary(q: seq<RawEvent>, shares: seq<Share>) {
    && SortedByShare(shares) && Distinct(shares)
    && (forall a :: a in shares <==> HasTag(q, App, a.name) && a.pct == Percent(q, a.name) && a.pct > 0)
  }

  function Pct(a: Share): int { a.pct }
  function PctDown(a: Share): int { -a.pct }

  function Positive(q: seq<RawEvent>, names: seq<string>): seq<Share> {
    if names == [] then []
    else
      var rest, n := Positive(q, names[..|names| - 1]), names[|names| - 1];
      if Percent(q, n) > 0 then rest + [Share(n, Percent(q, n))] else rest
  }

  ghost predicate ListsApps(q: seq<RawEvent>, names: seq<string>) {
    Distinct(names) && forall n :: n in names <==> HasTag(q, App, n)
  }

  lemma {:induction false} PositiveShares(q: seq<RawEvent>, names: seq<string>)
    requires Distinct(names)
    ensures Distinct(Positive(q, names))
    ensures forall a :: a in Positive(q, names) <==> a.name in names && a.pct == Percent(q, a.name) && a.pct > 0
  {
    if names != [] {
      var init, n := names[..|names| - 1], names[|names| - 1];
      PositiveShares(q, init);
      assert forall m :: m in names <==> m in init || m == n;
      assert n !in init;
      assert forall i :: 0 <= i < |Positive(q, init)| ==> Positive(q, init)[i] in Positive(q, init);
    }
  }

  /** The tally kept by the loop in aggregateGroup. */
  ghost predicate IsTally(q: seq<RawEvent>, total: int, durations: map<string, int>) {
    && total == Sum(q, RawDuration)
    && (forall n :: n in durations <==> HasTag(q, App, n))
    && (forall n :: n in durations ==> durations[n] == Sum(Group(q, App, n), RawDuration))
  }

  /** appDurations[name] += d. */
  function AddTo(durations: map<string, int>, name: string, d: int): map<string, int> {
    durations[name := (if name in durations then durations[name] else 0) + d]
  }

  lemma TallyOne(q: seq<RawEvent>, i: nat, total: int, durations: map<string, int>)
    requires i < |q| && IsTally(q[..i], total, durations)
    ensures IsTally(q[..i + 1], total + q[i].durationS, AddTo(durations, q[i].appName, q[i].durationS))
  {
    TallyStep(q, i);
    hide Group, Sum, HasTag;
  }

  method TallyApps(q: seq<RawEvent>) returns (total: int, durations: map<string, int>)
    ensures IsTally(q, total, durations)
  {
    total, durations := 0, map[];
    for i := 0 to |q|
      invariant IsTally(q[..i], total, durations)
    {
      TallyOne(q, i, total, durations);
      total, durations := total + q[i].durationS, AddTo(durations, q[i].appName, q[i].durationS);
    }
    assert q[..|q|] == q;
  }

  /** buildAppSummary, on the tally of a group. */
  method BuildAppSummary(ghost q: seq<RawEvent>, durations: map<string, int>, total: int) returns (shares: seq<Share>)
    requires IsTally(q, total, durations)
    ensures IsSummary(q, shares)
  {
    if total == 0 {
      return [];
    }
    var names := Enumerate(durations.Keys);
    assert forall n :: n in names <==> n in Elems(names);
    shares := [];
    for i := 0 to |names|
      invariant shares == Positive(q, names[..i])
    {
      assert names[..i + 1][..i] == names[..i];
      assert names[i] in Elems(names);
      var pct := Div(durations[names[i]] * 100, total);
      if pct > 0 {
        shares := shares + [Share(names[i], pct)];
      }
    }
    assert names[..|names|] == names;
    PositiveShares(q, names);
    ghost var unsorted := shares;
    shares := SortBy(shares, PctDown);
    SortedSummary(q, names, unsorted, shares);
  }

  lemma SortedSummary(q: seq<RawEvent>, names: seq<string>, unsorted: seq<Share>, shares: seq<Share>)
    requires ListsApps(q, names) && Distinct(unsorted) && IsSorting(unsorted, shares, PctDown)
    requires forall a :: a in unsorted <==> a.name in names && a.pct == Percent(q, a.name) && a.pct > 0
    ensures IsSummary(q, shares)
  {
    hide Percent;
    DistinctPermuted(unsorted, shares, x => x);
    assert forall a :: a in shares <==> a in multiset(shares);
    assert forall a :: a in unsorted <==> a in multiset(unsorted);
    assert forall i :: 0 <= i < |shares| ==> PctDown(shares[i]) == -shares[i].pct;
  }

  lemma TallyStep(q: seq<RawEvent>, i: nat)
    requires i < |q|
    ensures Sum(q[..i + 1], RawDuration) == Sum(q[..i], RawDuration) + q[i].durationS
    ensures forall n :: HasTag(q[..i + 1], App, n) <==> HasTag(q[..i], App, n) || n == q[i].appName
    ensures forall n :: Sum(Group(q[..i + 1], App, n), RawDuration)
              == Sum(Group(q[..i], App, n), RawDuration) + if n == q[i].appName then q[i].durationS else 0
    ensures !HasTag(q[..i], App, q[i].appName) ==> Sum(Group(q[..i], App, q[i].appName), RawDuration) == 0
  {
    assert q[..i + 1][..i] == q[..i];
    PrefixStep(q, i);
    forall n ensures HasTag(q[..i + 1], App, n) <==> HasTag(q[..i], App, n) || n == q[i].appName {
      assert forall e :: e in q[..i + 1] <==> e in q[..i] || e == q[i];
      assert App(q[i]) == q[i].appName;
    }
    forall n ensures Sum(Group(q[..i + 1], App, n), RawDuration)
                     == Sum(Group(q[..i], App, n), RawDuration) + if n == q[i].appName then q[i].durationS else 0
    {
      var g := Group(q[..i], App, n);
      assert (g + [q[i]])[..|g|] == g;
    }
    GroupIsEmpty(q[..i], App, q[i].appName);
  }

  function PercentOf(q: seq<RawEvent>): string -> int {
    (n: string) => Percent(q, n)
  }

  lemma {:induction false} SumPositive(q: seq<RawEvent>, names: seq<string>)
    requires forall n :: n in names ==> Percent(q, n) >= 0
    ensures Sum(Positive(q, names), Pct) == Sum(names, PercentOf(q))
  {
    if names != [] {
      var init, n := names[..|names| - 1], names[|names| - 1];
      SumPositive(q, init);
      var rest := Positive(q, init);
      assert (rest + [Share(n, Percent(q, n))])[..|rest|] == rest;
    }
  }

  lemma {:induction false} NonNegativeSum(q: seq<RawEvent>)
    requires forall e :: e in q ==> e.durationS >= 0
    ensures Sum(q, RawDuration) >= 0
  {
    if q != [] {
      NonNegativeSum(q[..|q| - 1]);
    }
  }

  lemma OneFloor(q: seq<RawEvent>, n: string, total: int)
    requires total == Sum(q, RawDuration) > 0 && forall e :: e in q ==> e.durationS >= 0
    ensures var d := Sum(Group(q, App, n), RawDuration);
            Percent(q, n) >= 0 && 100 * d - (total - 1) <= total * Percent(q, n) <= 100 * d
  {
    var d := Sum(Group(q, App, n), RawDuration);
    GroupIsEmpty(q, App, n);
    NonNegativeSum(Group(q, App, n));
    FloorBounds(d * 100, total);
  }

  lemma FloorBounds(x: int, t: int)
    requires x >= 0 && t > 0
    ensures 0 <= Div(x, t) && x - (t - 1) <= t * Div(x, t) <= x
  {
    var q, r := x / t, x % t;
    assert x == t * q + r && 0 <= r < t;
    Factor(t, q);
    assert Div(x, t) == q;
  }

  /** Each floor loses less than one percentage point. */
  lemma {:induction false} FloorsAddUp(q: seq<RawEvent>, names: seq<string>, total: int)
    requires total == Sum(q, RawDuration) > 0 && forall e :: e in q ==> e.durationS >= 0
    ensures forall n :: n in names ==> Percent(q, n) >= 0
    ensures 100 * SumGroups(q, App, names, RawDuration) - (total - 1) * |names|
            <= total * Sum(names, PercentOf(q)) <= 100 * SumGroups(q, App, names, RawDuration)
  {
    hide Percent, Group;
    if names != [] {
      var init, n := names[..|names| - 1], names[|names| - 1];
      FloorsAddUp(q, init, total);
      OneFloor(q, n, total);
      assert PercentOf(q)(n) == Percent(q, n);
      assert total * (Sum(init, PercentOf(q)) + Percent(q, n))
             == total * Sum(init, PercentOf(q)) + total * Percent(q, n);
      assert (total - 1) * (|init| + 1) == (total - 1) * |init| + (total - 1);
      assert forall m :: m in names <==> m in init || m == n;
    }
  }

  lemma SumShares(q: seq<RawEvent>, shares: seq<Share>, names: seq<string>)
    requires IsSummary(q, shares) && ListsApps(q, names) && forall n :: n in names ==> Percent(q, n) >= 0
    ensures Sum(shares, Pct) == Sum(names, PercentOf(q))
  {
    SumPositive(q, names);
    hide Percent;
    PositiveShares(q, names);
    NoRepeats(Positive(q, names));
    NoRepeats(shares);
    forall a ensures multiset(shares)[a] == multiset(Positive(q, names))[a] {
      assert a in shares <==> a in multiset(shares);
      assert a in Positive(q, names) <==> a in multiset(Positive(q, names));
    }
    SumPermuted(shares, Positive(q, names), Pct);
  }

  /** With non-negative durations and a positive total, the percentages shown add up to
      at most 100, and fall short of it by less than the number of applications. */
  lemma SummaryAddsUp(q: seq<RawEvent>, shares: seq<Share>, names: seq<string>)
    requires IsSummary(q, shares) && ListsApps(q, names)
    requires Sum(q, RawDuration) > 0 && forall e :: e in q ==> e.durationS >= 0
    ensures 100 - |names| < Sum(shares, Pct) <= 100
  {
    var total, sum := Sum(q, RawDuration), Sum(names, PercentOf(q));
    forall e | e in q ensures App(e) in names {
      assert HasTag(q, App, App(e));
    }
    GroupsPartition(q, App, names, RawDuration);
    FloorsAddUp(q, names, total);
    SumShares(q, shares, names);
    assert names != [] by {
      assert q[0] in q && App(q[0]) in names;
    }
    Bounds(total, sum, |names|);
  }

  lemma Factor(t: int, x: int)
    requires t > 0 && -t < t * x
    ensures 0 <= x
  {
  }

  lemma Bounds(total: int, sum: int, n: nat)
    requires total > 0 && n > 0
    requires 100 * total - (total - 1) * n <= total * sum <= 100 * total
    ensures 100 - n < sum <= 100
  {
    assert total * (100 - sum) == 100 * total - total * sum;
    Factor(total, 100 - sum);
    assert total * (sum - 101 + n) == total * sum - 101 * total + total * n;
    assert (total - 1) * n == total * n - n;
    Factor(total, sum - 101 + n);
  }
}
