/** Grouping rows by tag, merging each group in start order, and listing the results in
    start order: the shape shared by both aggregation functions of
    internal/client/sync/submit.go. Go's map order and its unstable sort are left open:
    the specification allows every group order and every sorted permutation. */
module Grouping {
  import opened Base

  // ----- Sums and permutations -----

  function Sum<T>(s: seq<T>, f: T -> int): int {
    if s == [] then 0 else Sum(s[..|s| - 1], f) + f(s[|s| - 1])
  }

  lemma {:induction false} SumAppend<T>(a: seq<T>, b: seq<T>, f: T -> int)
    ensures Sum(a + b, f) == Sum(a, f) + Sum(b, f)
  {
    if b == [] {
      assert a + b == a;
    } else {
      assert (a + b)[..|a + b| - 1] == a + b[..|b| - 1];
      SumAppend(a, b[..|b| - 1], f);
    }
  }

  lemma SumOne<T>(x: T, f: T -> int)
    ensures Sum([x], f) == f(x)
  {
  }

  lemma RemoveAt<T>(b: seq<T>, i: nat)
    requires i < |b|
    ensures multiset(b[..i] + b[i + 1..]) == multiset(b) - multiset{b[i]}
  {
    assert b == b[..i] + ([b[i]] + b[i + 1..]);
  }

  lemma SumFirst<T>(b: seq<T>, f: T -> int)
    requires b != []
    ensures Sum(b, f) == f(b[0]) + Sum(b[1..], f)
  {
    assert b == [b[0]] + b[1..];
    SumAppend([b[0]], b[1..], f);
    SumOne(b[0], f);
  }

  lemma SumRemoveAt<T>(b: seq<T>, i: nat, f: T -> int)
    requires i < |b|
    ensures Sum(b, f) == Sum(b[..i] + b[i + 1..], f) + f(b[i])
  {
    var l, m := b[..i], b[i..];
    assert b == l + m && m[1..] == b[i + 1..];
    hide Sum;
    SumAppend(l, m, f);
    SumFirst(m, f);
    SumAppend(l, b[i + 1..], f);
  }

  lemma {:induction false} SumPermuted<T>(a: seq<T>, b: seq<T>, f: T -> int)
    requires multiset(a) == multiset(b)
    ensures Sum(a, f) == Sum(b, f)
  {
    assert |a| == |multiset(a)| == |multiset(b)| == |b|;
    if a != [] {
      assert a[0] in multiset(b);
      var i :| 0 <= i < |b| && b[i] == a[0];
      RemoveHead(a);
      RemoveAt(b, i);
      SumPermuted(a[1..], b[..i] + b[i + 1..], f);
      SumFirst(a, f);
      SumRemoveAt(b, i, f);
    }
  }

  ghost predicate SortedBy<T>(s: seq<T>, key: T -> int) {
    forall i, j :: 0 <= i < j < |s| ==> key(s[i]) <= key(s[j])
  }

  /** `p` is one of the orders a sort of `s` by `key` may produce. */
  ghost predicate IsSorting<T>(s: seq<T>, p: seq<T>, key: T -> int) {
    SortedBy(p, key) && multiset(p) == multiset(s)
  }

  /** No element occurs twice, and no two have the same key. */
  ghost predicate DistinctKeys<T>(m: multiset<T>, key: T -> int) {
    && (forall x :: x in m ==> m[x] == 1)
    && (forall x, y :: x in m && y in m && key(x) == key(y) ==> x == y)
  }

  ghost predicate StrictBy<T>(s: seq<T>, key: T -> int) {
    forall i, j :: 0 <= i < j < |s| ==> key(s[i]) < key(s[j])
  }

  /** With distinct keys a sorted list is strictly sorted. */
  lemma SortedIsStrict<T>(s: seq<T>, key: T -> int)
    requires SortedBy(s, key) && DistinctKeys(multiset(s), key)
    ensures StrictBy(s, key)
  {
    forall i, j | 0 <= i < j < |s| ensures key(s[i]) < key(s[j]) {
      OccursTwice(s, i, j);
      assert s[i] in multiset(s) && s[j] in multiset(s);
    }
  }

  lemma OccursTwice<T>(s: seq<T>, i: nat, j: nat)
    requires i < j < |s|
    ensures s[i] == s[j] ==> multiset(s)[s[i]] >= 2
  {
    assert s == s[..j] + [s[j]] + s[j + 1..];
    assert s[..j][i] == s[i] && s[i] in multiset(s[..j]);
  }

  lemma SameHead<T>(a: seq<T>, b: seq<T>, key: T -> int)
    requires SortedBy(a, key) && SortedBy(b, key) && multiset(a) == multiset(b) && a != [] && b != []
    requires DistinctKeys(multiset(a), key)
    ensures a[0] == b[0]
  {
    assert a[0] in multiset(a) && b[0] in multiset(b);
    var i :| 0 <= i < |b| && b[i] == a[0];
    var j :| 0 <= j < |a| && a[j] == b[0];
    assert key(a[0]) <= key(a[j]) && key(b[0]) <= key(b[i]);
  }

  lemma DistinctSubset<T>(m: multiset<T>, n: multiset<T>, key: T -> int)
    requires n <= m && DistinctKeys(m, key)
    ensures DistinctKeys(n, key)
  {
  }

  lemma SameTails<T>(a: seq<T>, b: seq<T>, key: T -> int)
    requires SortedBy(a, key) && SortedBy(b, key) && multiset(a) == multiset(b) && a != [] && b != []
    requires DistinctKeys(multiset(a), key)
    ensures a[0] == b[0] && SortedBy(a[1..], key) && SortedBy(b[1..], key)
    ensures multiset(a[1..]) == multiset(b[1..]) && DistinctKeys(multiset(a[1..]), key)
  {
    SameHead(a, b, key);
    RemoveHead(a);
    RemoveHead(b);
    DistinctSubset(multiset(a), multiset(a[1..]), key);
  }

  lemma {:induction false} SortingIsUnique<T>(a: seq<T>, b: seq<T>, key: T -> int)
    requires SortedBy(a, key) && SortedBy(b, key) && multiset(a) == multiset(b)
    requires DistinctKeys(multiset(a), key)
    ensures a == b
  {
    hide DistinctKeys, SortedBy;
    assert |a| == |multiset(a)| == |multiset(b)| == |b|;
    if a != [] {
      SameTails(a, b, key);
      SortingIsUnique(a[1..], b[1..], key);
      assert a == [a[0]] + a[1..] && b == [b[0]] + b[1..];
    }
  }

  /** Inserts into a sorted list. */
  function InsertBy<T>(x: T, s: seq<T>, key: T -> int): (r: seq<T>)
    requires SortedBy(s, key)
    ensures SortedBy(r, key) && multiset(r) == multiset(s) + multiset{x}
  {
    if s == [] || key(x) <= key(s[0]) then [x] + s
    else
      var rest := InsertBy(x, s[1..], key);
      ConsSorted(x, s, rest, key);
      [s[0]] + rest
  }

  lemma ConsSorted<T>(x: T, s: seq<T>, rest: seq<T>, key: T -> int)
    requires s != [] && SortedBy(s, key) && SortedBy(rest, key) && key(s[0]) <= key(x)
    requires multiset(rest) == multiset(s[1..]) + multiset{x}
    ensures SortedBy([s[0]] + rest, key) && multiset([s[0]] + rest) == multiset(s) + multiset{x}
  {
    RemoveHead(s);
    forall i | 0 <= i < |rest| ensures key(s[0]) <= key(rest[i]) {
      assert rest[i] in multiset(rest);
      if rest[i] in multiset(s[1..]) {
        assert rest[i] in s[1..];
      }
    }
  }

  /** sort.Slice by a key: some sorted permutation. */
  method SortBy<T>(s: seq<T>, key: T -> int) returns (p: seq<T>)
    ensures IsSorting(s, p, key)
  {
    p := [];
    for i := 0 to |s|
      invariant IsSorting(s[..i], p, key)
    {
      PrefixStep(s, i);
      p := InsertBy(s[i], p, key);
    }
    assert s[..|s|] == s;
  }

  // ----- Groups -----

  /** The rows with tag `t`, in order. */
  function Group<T>(s: seq<T>, tag: T -> string, t: string): seq<T> {
    if s == [] then []
    else
      var rest, x := Group(s[..|s| - 1], tag, t), s[|s| - 1];
      if tag(x) == t then rest + [x] else rest
  }

  lemma {:induction false} GroupCounts<T>(s: seq<T>, tag: T -> string, t: string, x: T)
    ensures multiset(Group(s, tag, t))[x] == if tag(x) == t then multiset(s)[x] else 0
  {
    if s != [] {
      GroupCounts(s[..|s| - 1], tag, t, x);
      assert s == s[..|s| - 1] + [s[|s| - 1]];
    }
  }

  ghost predicate HasTag<T>(s: seq<T>, tag: T -> string, t: string) {
    exists x :: x in s && tag(x) == t
  }

  lemma GroupIsEmpty<T>(s: seq<T>, tag: T -> string, t: string)
    ensures Group(s, tag, t) == [] <==> !HasTag(s, tag, t)
    ensures forall x :: x in Group(s, tag, t) <==> x in s && tag(x) == t
  {
  }

  lemma GroupPermuted<T(!new)>(a: seq<T>, b: seq<T>, tag: T -> string, t: string)
    requires multiset(a) == multiset(b)
    ensures multiset(Group(a, tag, t)) == multiset(Group(b, tag, t))
  {
    forall x ensures multiset(Group(a, tag, t))[x] == multiset(Group(b, tag, t))[x] {
      GroupCounts(a, tag, t, x);
      GroupCounts(b, tag, t, x);
    }
  }

  /** What a list of tags accounts for: the sum of `f` over all their groups. */
  ghost function SumGroups<T>(s: seq<T>, tag: T -> string, tags: seq<string>, f: T -> int): int {
    if tags == [] then 0
    else SumGroups(s, tag, tags[..|tags| - 1], f) + Sum(Group(s, tag, tags[|tags| - 1]), f)
  }

  ghost predicate Distinct<T>(s: seq<T>) {
    forall i, j :: 0 <= i < j < |s| ==> s[i] != s[j]
  }

  lemma {:induction false} SumGroupsStep<T>(s: seq<T>, tag: T -> string, tags: seq<string>, f: T -> int)
    requires s != [] && Distinct(tags)
    ensures SumGroups(s, tag, tags, f)
            == SumGroups(s[..|s| - 1], tag, tags, f) + if tag(s[|s| - 1]) in tags then f(s[|s| - 1]) else 0
  {
    if tags != [] {
      var init, t, x := tags[..|tags| - 1], tags[|tags| - 1], s[|s| - 1];
      SumGroupsStep(s, tag, init, f);
      assert forall u :: u in tags <==> u in init || u == t;
      var g := Group(s[..|s| - 1], tag, t);
      if tag(x) == t {
        assert (g + [x])[..|g|] == g;
      }
    }
  }

  lemma {:induction false} SumGroupsEmpty<T>(tag: T -> string, tags: seq<string>, f: T -> int)
    ensures SumGroups([], tag, tags, f) == 0
  {
    if tags != [] {
      SumGroupsEmpty(tag, tags[..|tags| - 1], f);
    }
  }

  /** Distinct tags that cover the rows account for all of them, each once. */
  lemma {:induction false} GroupsPartition<T>(s: seq<T>, tag: T -> string, tags: seq<string>, f: T -> int)
    requires Distinct(tags) && forall x :: x in s ==> tag(x) in tags
    ensures SumGroups(s, tag, tags, f) == Sum(s, f)
  {
    if s == [] {
      SumGroupsEmpty(tag, tags, f);
    } else {
      GroupsPartition(s[..|s| - 1], tag, tags, f);
      SumGroupsStep(s, tag, tags, f);
    }
  }

  // ----- Aggregation -----

  /** How rows are grouped and merged: their tag and start, the merge of a group listed
      in start order, and the tag and start of the merged row. */
  datatype Pipeline<!T, !U> = Pipeline(
    tag: T -> string, start: T -> int, merge: (string, seq<T>) -> U, outTag: U -> string, outStart: U -> int)

  /** A merged row keeps the tag of its group and starts with the group's first row. */
  ghost predicate Lawful<T(!new), U(!new)>(p: Pipeline<T, U>) {
    forall t, q :: q != [] ==> p.outTag(p.merge(t, q)) == t && p.outStart(p.merge(t, q)) == p.start(q[0])
  }

  /** `u` merges the group of its tag, sorted in some way by start. */
  ghost predicate IsMerged<T(!new), U(!new)>(p: Pipeline<T, U>, s: seq<T>, u: U) {
    exists q :: q != [] && IsSorting(Group(s, p.tag, p.outTag(u)), q, p.start) && u == p.merge(p.outTag(u), q)
  }

  ghost predicate DistinctTags<T, U>(p: Pipeline<T, U>, r: seq<U>) {
    forall i, j :: 0 <= i < j < |r| ==> p.outTag(r[i]) != p.outTag(r[j])
  }

  /** What aggregation may return: one merged row per tag, in start order. */
  ghost predicate IsAggregate<T(!new), U(!new)>(p: Pipeline<T, U>, s: seq<T>, r: seq<U>) {
    && SortedBy(r, p.outStart) && DistinctTags(p, r)
    && (forall u :: u in r ==> IsMerged(p, s, u))
    && (forall x :: x in s ==> HasTag(r, p.outTag, p.tag(x)))
  }

  // ----- Conservation -----

  lemma {:induction false} SumOfMerged<T(!new), U(!new)>(
    p: Pipeline<T, U>, s: seq<T>, r: seq<U>, tags: seq<string>, f: T -> int, g: U -> int)
    requires |tags| == |r| && forall i :: 0 <= i < |r| ==> tags[i] == p.outTag(r[i])
    requires forall i :: 0 <= i < |r| ==> g(r[i]) == Sum(Group(s, p.tag, p.outTag(r[i])), f)
    ensures Sum(r, g) == SumGroups(s, p.tag, tags, f)
  {
    if r != [] {
      SumOfMerged(p, s, r[..|r| - 1], tags[..|r| - 1], f, g);
    }
  }

  /** If merging adds up a quantity, each result row holds its tag's total and the result
      holds the grand total. */
  lemma AggregateConserves<T(!new), U(!new)>(p: Pipeline<T, U>, s: seq<T>, r: seq<U>, f: T -> int, g: U -> int)
    requires IsAggregate(p, s, r)
    requires forall t, q :: q != [] ==> g(p.merge(t, q)) == Sum(q, f)
    ensures forall u :: u in r ==> g(u) == Sum(Group(s, p.tag, p.outTag(u)), f)
    ensures Sum(r, g) == Sum(s, f)
  {
    forall u | u in r ensures g(u) == Sum(Group(s, p.tag, p.outTag(u)), f) {
      assert IsMerged(p, s, u);
      var q :| q != [] && IsSorting(Group(s, p.tag, p.outTag(u)), q, p.start) && u == p.merge(p.outTag(u), q);
      SumPermuted(q, Group(s, p.tag, p.outTag(u)), f);
    }
    var tags := seq(|r|, i requires 0 <= i < |r| => p.outTag(r[i]));
    forall x | x in s ensures p.tag(x) in tags {
      var u :| u in r && p.outTag(u) == p.tag(x);
      var i :| 0 <= i < |r| && r[i] == u;
      assert tags[i] == p.tag(x);
    }
    SumOfMerged(p, s, r, tags, f, g);
    GroupsPartition(s, p.tag, tags, f);
  }

  // ----- Determinism -----

  lemma MergedIsUnique<T(!new), U(!new)>(p: Pipeline<T, U>, s: seq<T>, s': seq<T>, u: U, v: U)
    requires multiset(s) == multiset(s') && DistinctKeys(multiset(s), p.start)
    requires IsMerged(p, s, u) && IsMerged(p, s', v) && p.outTag(u) == p.outTag(v)
    ensures u == v
  {
    var t := p.outTag(u);
    var q :| q != [] && IsSorting(Group(s, p.tag, t), q, p.start) && u == p.merge(t, q);
    var q' :| q' != [] && IsSorting(Group(s', p.tag, t), q', p.start) && v == p.merge(t, q');
    GroupPermuted(s, s', p.tag, t);
    GroupIsSubset(s, p.tag, t);
    DistinctSubset(multiset(s), multiset(q), p.start);
    SortingIsUnique(q, q', p.start);
  }

  lemma GroupIsSubset<T(!new)>(s: seq<T>, tag: T -> string, t: string)
    ensures multiset(Group(s, tag, t)) <= multiset(s)
  {
    forall x ensures multiset(Group(s, tag, t))[x] <= multiset(s)[x] {
      GroupCounts(s, tag, t, x);
    }
  }

  /** A merged row comes from a row of its tag, whose start it keeps. */
  lemma MergedFrom<T(!new), U(!new)>(p: Pipeline<T, U>, s: seq<T>, u: U) returns (x: T)
    requires Lawful(p) && IsMerged(p, s, u)
    ensures x in s && p.tag(x) == p.outTag(u) && p.start(x) == p.outStart(u)
  {
    var q :| q != [] && IsSorting(Group(s, p.tag, p.outTag(u)), q, p.start) && u == p.merge(p.outTag(u), q);
    x := q[0];
    assert x in multiset(q);
    GroupIsEmpty(s, p.tag, p.outTag(u));
  }

  lemma ResultsInclude<T(!new), U(!new)>(p: Pipeline<T, U>, s: seq<T>, s': seq<T>, r: seq<U>, r': seq<U>)
    requires Lawful(p) && multiset(s) == multiset(s') && DistinctKeys(multiset(s), p.start)
    requires IsAggregate(p, s, r) && IsAggregate(p, s', r')
    ensures forall u :: u in r ==> u in r'
  {
    forall u | u in r ensures u in r' {
      var x := MergedFrom(p, s, u);
      assert x in multiset(s');
      var v :| v in r' && p.outTag(v) == p.tag(x);
      MergedIsUnique(p, s, s', u, v);
    }
  }

  lemma ResultKeysDistinct<T(!new), U(!new)>(p: Pipeline<T, U>, s: seq<T>, r: seq<U>)
    requires Lawful(p) && DistinctKeys(multiset(s), p.start) && IsAggregate(p, s, r)
    ensures DistinctKeys(multiset(r), p.outStart)
  {
    forall u, v | u in multiset(r) && v in multiset(r) && p.outStart(u) == p.outStart(v) ensures u == v {
      var x := MergedFrom(p, s, u);
      var y := MergedFrom(p, s, v);
      assert x in multiset(s) && y in multiset(s);
      var i :| 0 <= i < |r| && r[i] == u;
      var j :| 0 <= j < |r| && r[j] == v;
    }
    NoRepeats(r);
  }

  lemma {:induction false} NoRepeats<U>(r: seq<U>)
    requires forall i, j :: 0 <= i < j < |r| ==> r[i] != r[j]
    ensures forall u :: u in multiset(r) ==> multiset(r)[u] == 1
  {
    if r != [] {
      NoRepeats(r[1..]);
      RemoveHead(r);
      assert forall i :: 1 <= i < |r| ==> r[0] != r[i];
      assert r[0] !in r[1..];
      assert r == [r[0]] + r[1..];
    }
  }

  /** With distinct start times, the result depends only on which rows there are: not on
      their order, on map order, or on how the sorts break ties. */
  lemma AggregateIsUnique<T(!new), U(!new)>(p: Pipeline<T, U>, s: seq<T>, s': seq<T>, r: seq<U>, r': seq<U>)
    requires Lawful(p) && multiset(s) == multiset(s') && DistinctKeys(multiset(s), p.start)
    requires IsAggregate(p, s, r) && IsAggregate(p, s', r')
    ensures r == r'
  {
    ResultsInclude(p, s, s', r, r');
    ResultsInclude(p, s', s, r', r);
    ResultKeysDistinct(p, s, r);
    ResultKeysDistinct(p, s', r');
    SameMultiset(r, r', p.outStart);
    SortingIsUnique(r, r', p.outStart);
  }

  lemma SameMultiset<U(!new)>(r: seq<U>, r': seq<U>, key: U -> int)
    requires DistinctKeys(multiset(r), key) && DistinctKeys(multiset(r'), key)
    requires forall u :: u in r <==> u in r'
    ensures multiset(r) == multiset(r')
  {
    forall u ensures multiset(r)[u] == multiset(r')[u] {
      assert u in r <==> u in multiset(r);
      assert u in r' <==> u in multiset(r');
    }
  }

  // ----- The code -----

  /** Group into a map, merge each group, sort the results. */
  method AggregateBy<T(!new), U(!new)>(p: Pipeline<T, U>, s: seq<T>) returns (r: seq<U>)
    requires Lawful(p)
    ensures IsAggregate(p, s, r)
  {
    var groups: map<string, seq<T>> := map[];
    for i := 0 to |s|
      invariant forall t :: t in groups <==> Group(s[..i], p.tag, t) != []
      invariant forall t :: t in groups ==> groups[t] == Group(s[..i], p.tag, t)
    {
      var x := s[i];
      assert s[..i + 1][..i] == s[..i];
      groups := groups[p.tag(x) := (if p.tag(x) in groups then groups[p.tag(x)] else []) + [x]];
    }
    assert s[..|s|] == s;

    var tags := Enumerate(groups.Keys);
    var merged: seq<U> := [];
    for i := 0 to |tags|
      invariant |merged| == i
      invariant forall k :: 0 <= k < i ==> p.outTag(merged[k]) == tags[k] && IsMerged(p, s, merged[k])
    {
      assert tags[i] in Elems(tags);
      var q := SortBy(groups[tags[i]], p.start);
      assert q != [] by { assert |multiset(q)| == |multiset(groups[tags[i]])| == |groups[tags[i]]|; }
      var u := p.merge(tags[i], q);
      assert IsMerged(p, s, u);
      merged := merged + [u];
    }

    r := SortBy(merged, p.outStart);
    MergedAreAggregate(p, s, tags, merged, r);
  }

  lemma MergedAreAggregate<T(!new), U(!new)>(p: Pipeline<T, U>, s: seq<T>, tags: seq<string>, merged: seq<U>, r: seq<U>)
    requires |merged| == |tags| && Distinct(tags)
    requires forall t :: t in tags <==> Group(s, p.tag, t) != []
    requires forall k :: 0 <= k < |tags| ==> p.outTag(merged[k]) == tags[k] && IsMerged(p, s, merged[k])
    requires IsSorting(merged, r, p.outStart)
    ensures IsAggregate(p, s, r)
  {
    assert forall u :: u in r <==> u in multiset(r);
    assert forall u :: u in merged <==> u in multiset(merged);
    forall x | x in s ensures HasTag(r, p.outTag, p.tag(x)) {
      GroupIsEmpty(s, p.tag, p.tag(x));
      var k :| 0 <= k < |tags| && tags[k] == p.tag(x);
      assert merged[k] in r;
    }
    DistinctPermuted(merged, r, p.outTag);
  }

  /** Distinct keys stay distinct in another order. */
  lemma DistinctPermuted<T(!new), K>(a: seq<T>, b: seq<T>, key: T -> K)
    requires multiset(a) == multiset(b) && forall i, j :: 0 <= i < j < |a| ==> key(a[i]) != key(a[j])
    ensures forall i, j :: 0 <= i < j < |b| ==> key(b[i]) != key(b[j])
  {
    NoRepeats(a);
    forall i, j | 0 <= i < j < |b| ensures key(b[i]) != key(b[j]) {
      OccursTwice(b, i, j);
      assert b[i] in multiset(b) && b[j] in multiset(b);
      assert multiset(a)[b[i]] == multiset(b)[b[i]] == 1;
      var k :| 0 <= k < |a| && a[k] == b[i];
      var l :| 0 <= l < |a| && a[l] == b[j];
    }
  }
}
