/** The client's focus_events rows (internal/client/store/focus_events.go). Times
    are whole UTC seconds. */
module FocusEvents {
  import opened Base

  datatype FocusEvent = FocusEvent(
    id: int,
    appName: string,
    windowTitle: string,
    startedAt: int,
    endedAt: Option<int>,
    durationS: Option<int>,
    isIdle: bool)
  {
    /** The end of the event, or its start while it is still open. */
    function End(): int {
      if endedAt.Some? then endedAt.value else startedAt
    }
  }

  /** The primary key: no two rows share an id. */
  ghost predicate DistinctIds(events: seq<FocusEvent>) {
    forall i, j :: 0 <= i < j < |events| ==> events[i].id != events[j].id
  }

  /** Every closed event ends no earlier than it starts. */
  ghost predicate EndsOrdered(events: set<FocusEvent>) {
    forall e :: e in events ==> e.startedAt <= e.End()
  }

  predicate ByStart(s: seq<FocusEvent>) {
    forall i, j :: 0 <= i < j < |s| ==> s[i].startedAt <= s[j].startedAt
  }

  /** Inserts an event into a list kept in start order. */
  function InsertByStart(e: FocusEvent, s: seq<FocusEvent>): (r: seq<FocusEvent>)
    requires ByStart(s)
    ensures ByStart(r)
    ensures forall x :: x in r <==> x == e || x in s
  {
    if s == [] || e.startedAt <= s[0].startedAt then [e] + s
    else
      var rest := InsertByStart(e, s[1..]);
      assert forall x :: x in s <==> x == s[0] || x in s[1..];
      assert forall x :: x in [s[0]] + rest <==> x == s[0] || x in rest;
      assert forall x :: x in rest ==> s[0].startedAt <= x.startedAt by {
        forall x | x in s[1..] ensures s[0].startedAt <= x.startedAt {
          var j :| 0 <= j < |s[1..]| && s[1..][j] == x;
          assert s[j + 1] == x;
        }
      }
      assert forall i :: 0 <= i < |rest| ==> rest[i] in rest;
      [s[0]] + rest
  }

  /** SELECT ... WHERE started_at >= from AND started_at <= to ORDER BY started_at. */
  function ListFocusEvents(events: seq<FocusEvent>, from: int, to: int): (r: seq<FocusEvent>)
    ensures ByStart(r)
    ensures forall x :: x in r <==> x in events && from <= x.startedAt <= to
  {
    if events == [] then []
    else
      var rest := ListFocusEvents(events[1..], from, to);
      assert forall x :: x in events <==> x == events[0] || x in events[1..];
      if from <= events[0].startedAt <= to then InsertByStart(events[0], rest) else rest
  }

  lemma {:induction false} InsertedOnce(e: FocusEvent, s: seq<FocusEvent>)
    requires ByStart(s)
    ensures multiset(InsertByStart(e, s)) == multiset(s) + multiset{e}
  {
    if s != [] && s[0].startedAt < e.startedAt {
      InsertedOnce(e, s[1..]);
      assert s == [s[0]] + s[1..];
    }
  }

  /** A row in the range is listed as often as it is stored, any other not at all. */
  lemma {:induction false} ListedOnce(events: seq<FocusEvent>, from: int, to: int, x: FocusEvent)
    ensures multiset(ListFocusEvents(events, from, to))[x]
            == if from <= x.startedAt <= to then multiset(events)[x] else 0
  {
    if events != [] {
      var head, rest := events[0], ListFocusEvents(events[1..], from, to);
      ListedOnce(events[1..], from, to, x);
      InsertedOnce(head, rest);
      hide InsertByStart, ByStart;
      assert events == [head] + events[1..];
      assert multiset(events) == multiset{head} + multiset(events[1..]);
    }
  }
}
