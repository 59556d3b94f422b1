/** Patching a pre-built client (internal/server/builder/builder.go) and reading the
    values back at its start (cmd/trasker-client/main.go). Bytes are modelled as
    characters. */
module Patcher {
  import opened Base

  const SENTINEL_LEN: nat := 128
  const NUL: char := '\0'

  function Fill(n: nat): string {
    seq(n, _ => '_')
  }

  /** The common prefix, a name, and underscores up to 128 bytes. */
  function Sentinel(name: string): (s: string)
    requires |name| <= 111
    ensures |s| == SENTINEL_LEN
  {
    "TRASKER_SENTINEL_" + name + Fill(111 - |name|)
  }

  const SERVER_URL: string := Sentinel("SERVER_URL")
  const API_KEY: string := Sentinel("API_KEY")
  const VERSION: string := Sentinel("VERSION")

  /** What the proof needs of a sentinel: it starts with TR, any later T is followed by
      I, and it holds no NUL. */
  ghost predicate IsSentinel(s: string) {
    && |s| == SENTINEL_LEN && s[0] == 'T' && s[1] == 'R' && NUL !in s
    && forall i :: 0 < i < SENTINEL_LEN && s[i] == 'T' ==> i + 1 < SENTINEL_LEN && s[i + 1] == 'I'
  }

  lemma SentinelShape(name: string)
    requires |name| <= 111 && 'T' !in name && NUL !in name
    ensures IsSentinel(Sentinel(name))
  {
  }

  /** The three texts that are compiled into a generic client. */
  lemma SentinelTexts()
    ensures SERVER_URL == "TRASKER_SENTINEL_SERVER_URL_____" + Fill(96)
    ensures API_KEY == "TRASKER_SENTINEL_API_KEY________" + Fill(96)
    ensures VERSION == "TRASKER_SENTINEL_VERSION________" + Fill(96)
  {
  }

  lemma TheThreeSentinels()
    ensures IsSentinel(SERVER_URL) && IsSentinel(API_KEY) && IsSentinel(VERSION)
    ensures SERVER_URL != API_KEY && SERVER_URL != VERSION && API_KEY != VERSION
  {
    SentinelShape("SERVER_URL");
    SentinelShape("API_KEY");
    SentinelShape("VERSION");
    assert SERVER_URL[17] == 'S' && API_KEY[17] == 'A' && VERSION[17] == 'V';
  }

  // ----- Occurrences -----

  predicate Occurs(b: string, s: string, p: nat) {
    p + |s| <= |b| && b[p..p + |s|] == s
  }

  ghost predicate OccursOnlyAt(b: string, s: string, p: nat) {
    Occurs(b, s, p) && forall k: nat :: Occurs(b, s, k) ==> k == p
  }

  lemma OccursByByte(b: string, s: string, p: nat)
    ensures Occurs(b, s, p) <==> p + |s| <= |b| && forall j :: p <= j < p + |s| ==> b[j] == s[j - p]
  {
  }

  /** Occurrences of two different sentinels do not overlap. */
  lemma NoOverlap(b: string, s: string, t: string, p: nat, q: nat)
    requires IsSentinel(s) && IsSentinel(t) && Occurs(b, s, p) && Occurs(b, t, q) && s != t
    ensures p + SENTINEL_LEN <= q || q + SENTINEL_LEN <= p
  {
    OccursByByte(b, s, p);
    OccursByByte(b, t, q);
    assert b[p] == s[0] && b[p + 1] == s[1] && b[q] == t[0] && b[q + 1] == t[1];
    assert p != q;
  }

  function Splice(b: string, q: nat, slot: string): string
    requires q + |slot| <= |b|
  {
    b[..q] + slot + b[q + |slot|..]
  }

  /** The last `m` bytes of one and the first `m` of the other agree, one way or the other. */
  ghost predicate MeetsAt(slot: string, t: string, m: nat)
    requires |slot| == |t| == SENTINEL_LEN && 0 < m <= SENTINEL_LEN
  {
    slot[..m] == t[SENTINEL_LEN - m..] || slot[SENTINEL_LEN - m..] == t[..m]
  }

  /** An end of the padded value could be part of the sentinel. */
  ghost predicate Clashes(slot: string, t: string)
    requires |slot| == |t| == SENTINEL_LEN
  {
    exists m :: 0 < m <= SENTINEL_LEN && MeetsAt(slot, t, m)
  }

  /** Overwriting one sentinel leaves another where it is, and creates no new occurrence
      of it if the slot does not clash with it. */
  lemma SpliceKeepsOthers(b: string, s: string, q: nat, slot: string, t: string, r: nat)
    requires IsSentinel(s) && IsSentinel(t) && s != t && |slot| == SENTINEL_LEN && !Clashes(slot, t)
    requires Occurs(b, s, q) && OccursOnlyAt(b, t, r)
    ensures OccursOnlyAt(Splice(b, q, slot), t, r)
  {
    var c := Splice(b, q, slot);
    SpliceByByte(b, q, slot);
    NoOverlap(b, s, t, q, r);
    hide Splice, Clashes, IsSentinel;
    forall k: nat ensures Occurs(c, t, k) <==> k == r {
      OccursByByte(c, t, k);
      OccursByByte(b, t, k);
      if Occurs(c, t, k) && k < q + SENTINEL_LEN && q < k + SENTINEL_LEN {
        OverlapClashes(c, q, slot, t, k);
      }
    }
  }

  lemma OverlapClashes(c: string, q: nat, slot: string, t: string, k: nat)
    requires |slot| == |t| == SENTINEL_LEN && Occurs(c, slot, q) && Occurs(c, t, k)
    requires k < q + SENTINEL_LEN && q < k + SENTINEL_LEN
    ensures Clashes(slot, t)
  {
    OccursByByte(c, slot, q);
    OccursByByte(c, t, k);
    var m := if k <= q then k + SENTINEL_LEN - q else q + SENTINEL_LEN - k;
    assert MeetsAt(slot, t, m);
  }

  lemma SpliceByByte(b: string, q: nat, slot: string)
    requires q + |slot| <= |b|
    ensures var c := Splice(b, q, slot);
            && |c| == |b|
            && (forall j :: q <= j < q + |slot| ==> c[j] == slot[j - q])
            && (forall j :: 0 <= j < |b| && !(q <= j < q + |slot|) ==> c[j] == b[j])
  {
  }

  // ----- Values -----

  /** padToLen; none if the value is too long. */
  function PadToLen(s: string, n: nat): Option<string> {
    if |s| > n then None else Some(s + seq(n - |s|, _ => NUL))
  }

  /** strings.TrimRight(s, "\0"). */
  function TrimRight(s: string): string {
    if s != [] && s[|s| - 1] == NUL then TrimRight(s[..|s| - 1]) else s
  }

  lemma {:induction false} TrimPadding(v: string, k: nat)
    ensures TrimRight(v + seq(k, _ => NUL)) == TrimRight(v)
  {
    var padded := v + seq(k, _ => NUL);
    if k == 0 {
      assert padded == v;
    } else {
      TrimPadding(v, k - 1);
      assert padded[..|padded| - 1] == v + seq(k - 1, _ => NUL);
    }
  }

  /** Padding and trimming give a value back exactly when it does not end in a NUL. */
  lemma PadThenTrim(v: string, n: nat)
    requires |v| <= n
    ensures PadToLen(v, n) == Some(v + seq(n - |v|, _ => '\0'))
    ensures TrimRight(PadToLen(v, n).value) == v <==> v == [] || v[|v| - 1] != '\0'
  {
    TrimPadding(v, n - |v|);
    TrimmedEnd(v);
  }

  lemma {:induction false} TrimmedEnd(s: string)
    ensures TrimRight(s) == [] || TrimRight(s)[|TrimRight(s)| - 1] != NUL
  {
    if s != [] && s[|s| - 1] == NUL {
      TrimmedEnd(s[..|s| - 1]);
    }
  }

  // ----- Replacing -----

  /** `c` is `b` with the first occurrence of `s`, if there is one, overwritten. */
  ghost predicate IsReplaceOne(b: string, s: string, slot: string, c: string)
    requires |s| == |slot|
  {
    || ((forall k: nat :: !Occurs(b, s, k)) && c == b)
    || (exists q: nat :: Occurs(b, s, q) && (forall k: nat :: k < q ==> !Occurs(b, s, k)) && c == Splice(b, q, slot))
  }

  /** bytes.Replace(b, s, slot, 1). */
  method ReplaceOne(b: string, s: string, slot: string) returns (c: string)
    requires |s| == |slot|
    ensures IsReplaceOne(b, s, slot, c)
  {
    var k := 0;
    while k + |s| <= |b|
      invariant forall j: nat :: j < k ==> !Occurs(b, s, j)
    {
      if Occurs(b, s, k) {
        return Splice(b, k, slot);
      }
      k := k + 1;
    }
    return b;
  }

  datatype Target = Target(os: string, arch: string)
  datatype PatchRequest = PatchRequest(target: Target, apiKey: string, serverURL: string, version: string)

  /** A generic binary with each sentinel in one place. */
  ghost predicate Generic(b: string, url: nat, key: nat, ver: nat) {
    OccursOnlyAt(b, SERVER_URL, url) && OccursOnlyAt(b, API_KEY, key) && OccursOnlyAt(b, VERSION, ver)
  }

  ghost predicate InSlot(i: int, q: nat) {
    q <= i < q + SENTINEL_LEN
  }

  /** The result of patching: same length, the three slots hold the values, every other
      byte is as it was, and the client's start-up trimming recovers the values. */
  ghost predicate Patched(b: string, c: string, req: PatchRequest, url: nat, key: nat, ver: nat) {
    && |c| == |b| && url + SENTINEL_LEN <= |b| && key + SENTINEL_LEN <= |b| && ver + SENTINEL_LEN <= |b|
    && (forall i :: 0 <= i < |b| && !InSlot(i, url) && !InSlot(i, key) && !InSlot(i, ver) ==> c[i] == b[i])
    && TrimRight(c[url..url + SENTINEL_LEN]) == req.serverURL
    && TrimRight(c[key..key + SENTINEL_LEN]) == req.apiKey
    && TrimRight(c[ver..ver + SENTINEL_LEN]) == req.version
  }

  lemma ReplaceIsSplice(b: string, s: string, slot: string, c: string, q: nat)
    requires |s| == |slot| && IsReplaceOne(b, s, slot, c) && OccursOnlyAt(b, s, q)
    ensures q + |slot| <= |b| && c == Splice(b, q, slot)
  {
  }

  /** The three replacements of Patch. */
  ghost predicate IsPatch(b: string, req: PatchRequest, c: string)
    requires InLength(req)
  {
    exists c1, c2 :: IsReplaceOne(b, SERVER_URL, Slot(req.serverURL), c1)
                     && IsReplaceOne(c1, API_KEY, Slot(req.apiKey), c2)
                     && IsReplaceOne(c2, VERSION, Slot(req.version), c)
  }

  predicate InLength(req: PatchRequest) {
    |req.serverURL| <= SENTINEL_LEN && |req.apiKey| <= SENTINEL_LEN && |req.version| <= SENTINEL_LEN
  }

  ghost function Slot(v: string): (slot: string)
    requires |v| <= SENTINEL_LEN
    ensures |slot| == SENTINEL_LEN
  {
    PadToLen(v, SENTINEL_LEN).value
  }

  predicate EndsInNul(v: string) {
    v != [] && v[|v| - 1] == NUL
  }

  /** When Patch can carry a request: no value ends in NUL, and no value clashes with a
      sentinel that is replaced after it by something else. */
  ghost predicate Fits(req: PatchRequest)
    requires InLength(req)
  {
    && !EndsInNul(req.serverURL) && !EndsInNul(req.apiKey) && !EndsInNul(req.version)
    && (req.apiKey != API_KEY ==> !Clashes(Slot(req.serverURL), API_KEY))
    && (req.version != VERSION ==> !Clashes(Slot(req.serverURL), VERSION) && !Clashes(Slot(req.apiKey), VERSION))
  }

  lemma SpliceSelf(b: string, s: string, q: nat)
    requires Occurs(b, s, q)
    ensures q + |s| <= |b| && Splice(b, q, s) == b
  {
    assert b == b[..q] + b[q..q + |s|] + b[q + |s|..];
  }

  /** Overwriting a sentinel with itself changes nothing. */
  lemma ReplaceBySelf(b: string, s: string, c: string)
    requires IsReplaceOne(b, s, s, c)
    ensures c == b
  {
    if q: nat :| Occurs(b, s, q) && c == Splice(b, q, s) {
      SpliceSelf(b, s, q);
    }
  }

  lemma FullSlot(v: string)
    requires |v| == SENTINEL_LEN
    ensures Slot(v) == v
  {
    assert v + [] == v;
  }

  /** One replacement writes the value into its slot, even if the value is the sentinel
      itself and other occurrences of that have come up. */
  lemma ReplaceFills(b: string, s: string, v: string, c: string, q: nat)
    requires |v| <= |s| == SENTINEL_LEN && IsReplaceOne(b, s, Slot(v), c)
    requires Occurs(b, s, q) && (v != s ==> OccursOnlyAt(b, s, q))
    ensures q + SENTINEL_LEN <= |b| && c == Splice(b, q, Slot(v))
  {
    hide PadToLen, Slot, Splice, IsReplaceOne, OccursOnlyAt;
    if v == s {
      FullSlot(s);
      ReplaceBySelf(b, s, c);
      SpliceSelf(b, s, q);
    } else {
      ReplaceIsSplice(b, s, Slot(v), c, q);
    }
  }

  /** An occurrence of one sentinel outlives the replacement of another. */
  lemma OtherSurvives(b: string, s: string, slot: string, c: string, t: string, r: nat)
    requires IsSentinel(s) && IsSentinel(t) && s != t && |slot| == SENTINEL_LEN
    requires IsReplaceOne(b, s, slot, c) && Occurs(b, t, r)
    ensures Occurs(c, t, r)
  {
    if c != b {
      var q: nat :| Occurs(b, s, q) && c == Splice(b, q, slot);
      NoOverlap(b, s, t, q, r);
      SpliceByByte(b, q, slot);
      OccursByByte(b, t, r);
      OccursByByte(c, t, r);
    }
  }

  /** Patch and start-up are a round trip. */
  lemma PatchRoundTrip(b: string, req: PatchRequest, c: string, url: nat, key: nat, ver: nat)
    requires Generic(b, url, key, ver) && InLength(req) && Fits(req) && IsPatch(b, req, c)
    ensures Patched(b, c, req, url, key, ver)
  {
    hide Sentinel, IsReplaceOne, Splice, Clashes, PadToLen, IsSentinel, Slot, TrimRight;
    TheThreeSentinels();
    var u, k, v := Slot(req.serverURL), Slot(req.apiKey), Slot(req.version);
    var c1, c2 :|
      IsReplaceOne(b, SERVER_URL, u, c1) && IsReplaceOne(c1, API_KEY, k, c2) && IsReplaceOne(c2, VERSION, v, c);
    NoOverlap(b, SERVER_URL, API_KEY, url, key);
    NoOverlap(b, SERVER_URL, VERSION, url, ver);
    NoOverlap(b, API_KEY, VERSION, key, ver);
    ReplaceFills(b, SERVER_URL, req.serverURL, c1, url);
    StepKeeps(b, SERVER_URL, url, u, c1, API_KEY, key, req.apiKey);
    StepKeeps(b, SERVER_URL, url, u, c1, VERSION, ver, req.version);
    ReplaceFills(c1, API_KEY, req.apiKey, c2, key);
    StepKeeps(c1, API_KEY, key, k, c2, VERSION, ver, req.version);
    ReplaceFills(c2, VERSION, req.version, c, ver);
    ThreeSlots(b, url, key, ver, u, k, v);
    SlotTrims(req.serverURL);
    SlotTrims(req.apiKey);
    SlotTrims(req.version);
  }

  lemma SlotTrims(v: string)
    requires |v| <= SENTINEL_LEN && !EndsInNul(v)
    ensures TrimRight(Slot(v)) == v
  {
    PadThenTrim(v, SENTINEL_LEN);
  }

  /** What replacing `s` leaves for the later replacement of `t` by `value`. */
  lemma StepKeeps(b: string, s: string, q: nat, slot: string, c: string, t: string, r: nat, value: string)
    requires IsSentinel(s) && IsSentinel(t) && s != t && |slot| == SENTINEL_LEN
    requires Occurs(b, s, q) && c == Splice(b, q, slot) && Occurs(b, t, r)
    requires value != t ==> OccursOnlyAt(b, t, r) && !Clashes(slot, t)
    ensures Occurs(c, t, r) && (value != t ==> OccursOnlyAt(c, t, r))
  {
    if value != t {
      SpliceKeepsOthers(b, s, q, slot, t, r);
    }
    NoOverlap(b, s, t, q, r);
    SpliceByByte(b, q, slot);
    OccursByByte(b, t, r);
    OccursByByte(c, t, r);
  }

  /** Three splices at disjoint places do not disturb one another. */
  lemma ThreeSlots(b: string, url: nat, key: nat, ver: nat, u: string, k: string, v: string)
    requires |u| == |k| == |v| == SENTINEL_LEN
    requires url + SENTINEL_LEN <= |b| && key + SENTINEL_LEN <= |b| && ver + SENTINEL_LEN <= |b|
    requires url + SENTINEL_LEN <= key || key + SENTINEL_LEN <= url
    requires url + SENTINEL_LEN <= ver || ver + SENTINEL_LEN <= url
    requires key + SENTINEL_LEN <= ver || ver + SENTINEL_LEN <= key
    ensures var c := Splice(Splice(Splice(b, url, u), key, k), ver, v);
            && |c| == |b| && c[url..url + SENTINEL_LEN] == u && c[key..key + SENTINEL_LEN] == k
            && c[ver..ver + SENTINEL_LEN] == v
            && forall i :: 0 <= i < |b| && !InSlot(i, url) && !InSlot(i, key) && !InSlot(i, ver) ==> c[i] == b[i]
  {
    var c1 := Splice(b, url, u);
    SpliceByByte(b, url, u);
    var c2 := Splice(c1, key, k);
    SpliceByByte(c1, key, k);
    SpliceByByte(c2, ver, v);
    hide Splice;
    OccursByByte(Splice(c2, ver, v), u, url);
    OccursByByte(Splice(c2, ver, v), k, key);
    OccursByByte(Splice(c2, ver, v), v, ver);
  }

  // ----- What does not fit breaks some generic binary -----

  /** A binary with each of three sentinels once, in which a slot at `s` that meets `t`
      in `m` bytes completes a copy of `t` in front of the real one. */
  ghost function Trap(s: string, t: string, w: string, m: nat): string
    requires |t| == SENTINEL_LEN && 0 < m <= SENTINEL_LEN
  {
    t[..SENTINEL_LEN - m] + s + t[m..] + t + w
  }

  /** Where the three sentinels of the trap are. */
  ghost function First(m: nat): int { SENTINEL_LEN - m }
  ghost function Second(m: nat): int { 3 * SENTINEL_LEN - 2 * m }
  ghost function Third(m: nat): int { 4 * SENTINEL_LEN - 2 * m }

  lemma FiveParts(p: string, q: string, r: string, s: string, t: string)
    ensures var b := p + q + r + s + t;
            && (forall i :: 0 <= i < |p| ==> b[i] == p[i])
            && (forall i :: |p| <= i < |p + q| ==> b[i] == q[i - |p|])
            && (forall i :: |p + q| <= i < |p + q + r| ==> b[i] == r[i - |p + q|])
            && (forall i :: |p + q + r| <= i < |p + q + r + s| ==> b[i] == s[i - |p + q + r|])
            && (forall i :: |p + q + r + s| <= i < |b| ==> b[i] == t[i - |p + q + r + s|])
  {
  }

  ghost predicate IsTrap(b: string, s: string, t: string, w: string, m: nat)
    requires |s| == |t| == |w| == SENTINEL_LEN && 0 < m <= SENTINEL_LEN
  {
    && |b| == Third(m) + SENTINEL_LEN
    && (forall i :: 0 <= i < First(m) ==> b[i] == t[i])
    && (forall i :: First(m) <= i < First(m) + SENTINEL_LEN ==> b[i] == s[i - First(m)])
    && (forall i :: First(m) + SENTINEL_LEN <= i < Second(m) ==> b[i] == t[i - 2 * First(m)])
    && (forall i :: Second(m) <= i < Third(m) ==> b[i] == t[i - Second(m)])
    && (forall i :: Third(m) <= i < |b| ==> b[i] == w[i - Third(m)])
  }

  lemma TrapByByte(s: string, t: string, w: string, m: nat)
    requires |s| == |t| == |w| == SENTINEL_LEN && 0 < m <= SENTINEL_LEN
    ensures IsTrap(Trap(s, t, w, m), s, t, w, m)
    ensures var b := Trap(s, t, w, m);
            Occurs(b, s, First(m)) && Occurs(b, t, Second(m)) && Occurs(b, w, Third(m))
  {
    FiveParts(t[..SENTINEL_LEN - m], s, t[m..], t, w);
    assert IsTrap(Trap(s, t, w, m), s, t, w, m);
    TrapShows(Trap(s, t, w, m), s, t, w, m);
  }

  lemma TrapShows(b: string, s: string, t: string, w: string, m: nat)
    requires |s| == |t| == |w| == SENTINEL_LEN && 0 < m <= SENTINEL_LEN && IsTrap(b, s, t, w, m)
    ensures Occurs(b, s, First(m)) && Occurs(b, t, Second(m)) && Occurs(b, w, Third(m))
  {
    OccursByByte(b, s, First(m));
    OccursByByte(b, t, Second(m));
    OccursByByte(b, w, Third(m));
  }

  /** The trap holds no other sentinel. */
  lemma TrapIsGeneric(s: string, t: string, w: string, m: nat)
    requires IsSentinel(s) && IsSentinel(t) && IsSentinel(w) && 0 < m <= SENTINEL_LEN
    requires s != t && s != w && t != w
    ensures var b := Trap(s, t, w, m);
            OccursOnlyAt(b, s, First(m)) && OccursOnlyAt(b, t, Second(m)) && OccursOnlyAt(b, w, Third(m))
  {
    var b := Trap(s, t, w, m);
    TrapByByte(s, t, w, m);
    forall x: string, k: nat | IsSentinel(x) && Occurs(b, x, k)
      ensures (k == First(m) && x == s) || (k == Second(m) && x == t) || (k == Third(m) && x == w)
    {
      TrapHolds(s, t, w, m, x, k);
    }
  }

  lemma TrapHolds(s: string, t: string, w: string, m: nat, x: string, k: nat)
    requires IsSentinel(s) && IsSentinel(t) && IsSentinel(w) && 0 < m <= SENTINEL_LEN
    requires IsSentinel(x) && Occurs(Trap(s, t, w, m), x, k)
    ensures (k == First(m) && x == s) || (k == Second(m) && x == t) || (k == Third(m) && x == w)
  {
    var b := Trap(s, t, w, m);
    TrapByByte(s, t, w, m);
    hide Trap;
    OccursByByte(b, x, k);
    assert b[k] == 'T' && b[k + 1] == 'R';
    assert First(m) + 1 < |b| && b[First(m)] == 'T' && b[First(m) + 1] == 'R';
  }

  /** Once the slot is in the trap, there is an occurrence of `t` before the real one. */
  lemma TrapSprings(b: string, s: string, t: string, w: string, m: nat, slot: string) returns (p: nat)
    requires |s| == |t| == |w| == |slot| == SENTINEL_LEN && 0 < m <= SENTINEL_LEN && MeetsAt(slot, t, m)
    requires |b| == Third(m) + SENTINEL_LEN && b[..Third(m)] == Trap(s, t, w, m)[..Third(m)]
    ensures var c := Splice(b, First(m), slot);
            p + SENTINEL_LEN <= Second(m) && Occurs(c, t, p) && Occurs(c, t, Second(m))
  {
    var a, c := Trap(s, t, w, m), Splice(b, First(m), slot);
    TrapByByte(s, t, w, m);
    SpliceByByte(b, First(m), slot);
    hide Trap, Splice, MeetsAt;
    forall i | 0 <= i < Third(m) ensures b[i] == a[i] {
      assert b[i] == b[..Third(m)][i] && a[i] == a[..Third(m)][i];
    }
    OccursByByte(c, t, Second(m));
    p := SpringAt(c, t, m, slot);
  }

  lemma SpringAt(c: string, t: string, m: nat, slot: string) returns (p: nat)
    requires |t| == |slot| == SENTINEL_LEN && 0 < m <= SENTINEL_LEN && MeetsAt(slot, t, m)
    requires |c| == Third(m) + SENTINEL_LEN
    requires forall i :: 0 <= i < First(m) ==> c[i] == t[i]
    requires forall i :: First(m) <= i < First(m) + SENTINEL_LEN ==> c[i] == slot[i - First(m)]
    requires forall i :: First(m) + SENTINEL_LEN <= i < Second(m) ==> c[i] == t[i - 2 * First(m)]
    ensures p + SENTINEL_LEN <= Second(m) && Occurs(c, t, p)
  {
    if slot[..m] == t[SENTINEL_LEN - m..] {
      p := 0;
      SpringsFront(c, t, m, slot);
    } else {
      p := 2 * First(m);
      SpringsBack(c, t, m, slot);
    }
  }

  lemma SpringsFront(c: string, t: string, m: nat, slot: string)
    requires |t| == |slot| == SENTINEL_LEN && 0 < m <= SENTINEL_LEN && slot[..m] == t[SENTINEL_LEN - m..]
    requires |c| >= First(m) + SENTINEL_LEN
    requires forall i :: 0 <= i < First(m) ==> c[i] == t[i]
    requires forall i :: First(m) <= i < First(m) + SENTINEL_LEN ==> c[i] == slot[i - First(m)]
    ensures Occurs(c, t, 0)
  {
    forall i | First(m) <= i < SENTINEL_LEN ensures c[i] == t[i] {
      assert slot[..m][i - First(m)] == t[SENTINEL_LEN - m..][i - First(m)];
    }
    OccursByByte(c, t, 0);
  }

  lemma SpringsBack(c: string, t: string, m: nat, slot: string)
    requires |t| == |slot| == SENTINEL_LEN && 0 < m <= SENTINEL_LEN && slot[SENTINEL_LEN - m..] == t[..m]
    requires |c| >= Second(m)
    requires forall i :: First(m) <= i < First(m) + SENTINEL_LEN ==> c[i] == slot[i - First(m)]
    requires forall i :: First(m) + SENTINEL_LEN <= i < Second(m) ==> c[i] == t[i - 2 * First(m)]
    ensures Occurs(c, t, 2 * First(m))
  {
    var p := 2 * First(m);
    forall i | p <= i < First(m) + SENTINEL_LEN ensures c[i] == t[i - p] {
      assert slot[SENTINEL_LEN - m..][i - p] == t[..m][i - p];
    }
    OccursByByte(c, t, p);
  }

  /** With an earlier occurrence in front of it, the real sentinel is not replaced. */
  lemma LaterSurvives(b: string, t: string, slot: string, c: string, p: nat, r: nat)
    requires |t| == |slot| == SENTINEL_LEN && IsReplaceOne(b, t, slot, c)
    requires Occurs(b, t, p) && Occurs(b, t, r) && p + SENTINEL_LEN <= r
    ensures Occurs(c, t, r)
  {
    var q: nat :| Occurs(b, t, q) && (forall k: nat :: k < q ==> !Occurs(b, t, k)) && c == Splice(b, q, slot);
    assert q <= p;
    SpliceByByte(b, q, slot);
    OccursByByte(b, t, r);
    OccursByByte(c, t, r);
  }

  lemma SomeReplacement(b: string, s: string, slot: string) returns (c: string)
    requires |s| == |slot|
    ensures IsReplaceOne(b, s, slot, c)
  {
    if k: nat :| Occurs(b, s, k) {
      var q := FirstOccurrence(b, s, k);
      c := Splice(b, q, slot);
    } else {
      c := b;
    }
  }

  lemma FirstOccurrence(b: string, s: string, k: nat) returns (q: nat)
    requires Occurs(b, s, k)
    ensures Occurs(b, s, q) && forall j: nat :: j < q ==> !Occurs(b, s, j)
  {
    q := k;
    if j: nat :| j < k && Occurs(b, s, j) {
      q := FirstOccurrence(b, s, j);
    }
  }

  /** The patched binary still shows a sentinel where a value should be. */
  ghost predicate Broken(b: string, req: PatchRequest, c: string, url: nat, key: nat, ver: nat)
    requires InLength(req)
  {
    Generic(b, url, key, ver) && IsPatch(b, req, c) && !Patched(b, c, req, url, key, ver)
  }

  /** Some generic binary does not round-trip the request. */
  ghost predicate CanBreak(req: PatchRequest)
    requires InLength(req)
  {
    exists b, c, url: nat, key: nat, ver: nat :: Broken(b, req, c, url, key, ver)
  }

  lemma SentinelStays(c: string, t: string, r: nat)
    requires IsSentinel(t) && Occurs(c, t, r)
    ensures TrimRight(c[r..r + SENTINEL_LEN]) == t
  {
    assert t[SENTINEL_LEN - 1] in t;
  }

  /** A sentinel that is still in its slot breaks the round trip. */
  lemma StillShows(b: string, req: PatchRequest, c1: string, c2: string, c: string, url: nat, key: nat, ver: nat)
    requires InLength(req) && Generic(b, url, key, ver)
    requires IsReplaceOne(b, SERVER_URL, Slot(req.serverURL), c1) && IsReplaceOne(c1, API_KEY, Slot(req.apiKey), c2)
    requires IsReplaceOne(c2, VERSION, Slot(req.version), c)
    requires (Occurs(c, API_KEY, key) && req.apiKey != API_KEY) || (Occurs(c, VERSION, ver) && req.version != VERSION)
    ensures CanBreak(req)
  {
    hide IsReplaceOne, Sentinel, Slot, PadToLen, TrimRight, Generic, IsSentinel;
    TheThreeSentinels();
    if Occurs(c, API_KEY, key) {
      SentinelStays(c, API_KEY, key);
    }
    if Occurs(c, VERSION, ver) {
      SentinelStays(c, VERSION, ver);
    }
    assert Broken(b, req, c, url, key, ver);
  }

  lemma UrlClashesWithKey(req: PatchRequest, m: nat)
    requires InLength(req) && req.apiKey != API_KEY
    requires 0 < m <= SENTINEL_LEN && MeetsAt(Slot(req.serverURL), API_KEY, m)
    ensures CanBreak(req)
  {
    hide Sentinel, IsReplaceOne, Splice, PadToLen, Slot, TrimRight, Trap, MeetsAt, IsSentinel;
    TheThreeSentinels();
    var b, url, key, ver := Trap(SERVER_URL, API_KEY, VERSION, m), First(m), Second(m), Third(m);
    TrapByByte(SERVER_URL, API_KEY, VERSION, m);
    TrapIsGeneric(SERVER_URL, API_KEY, VERSION, m);
    var c1 := SomeReplacement(b, SERVER_URL, Slot(req.serverURL));
    var c2 := SomeReplacement(c1, API_KEY, Slot(req.apiKey));
    var c := SomeReplacement(c2, VERSION, Slot(req.version));
    ReplaceIsSplice(b, SERVER_URL, Slot(req.serverURL), c1, url);
    var p := TrapSprings(b, SERVER_URL, API_KEY, VERSION, m, Slot(req.serverURL));
    LaterSurvives(c1, API_KEY, Slot(req.apiKey), c2, p, key);
    OtherSurvives(c2, VERSION, Slot(req.version), c, API_KEY, key);
    StillShows(b, req, c1, c2, c, url, key, ver);
  }

  lemma UrlClashesWithVersion(req: PatchRequest, m: nat)
    requires InLength(req) && req.version != VERSION
    requires 0 < m <= SENTINEL_LEN && MeetsAt(Slot(req.serverURL), VERSION, m)
    ensures CanBreak(req)
  {
    hide Sentinel, IsReplaceOne, Splice, PadToLen, Slot, TrimRight, Trap, MeetsAt, IsSentinel;
    TheThreeSentinels();
    var b, url, ver, key := Trap(SERVER_URL, VERSION, API_KEY, m), First(m), Second(m), Third(m);
    TrapByByte(SERVER_URL, VERSION, API_KEY, m);
    TrapIsGeneric(SERVER_URL, VERSION, API_KEY, m);
    var c1 := SomeReplacement(b, SERVER_URL, Slot(req.serverURL));
    var c2 := SomeReplacement(c1, API_KEY, Slot(req.apiKey));
    var c := SomeReplacement(c2, VERSION, Slot(req.version));
    ReplaceIsSplice(b, SERVER_URL, Slot(req.serverURL), c1, url);
    var p := TrapSprings(b, SERVER_URL, VERSION, API_KEY, m, Slot(req.serverURL));
    OtherSurvives(c1, API_KEY, Slot(req.apiKey), c2, VERSION, p);
    OtherSurvives(c1, API_KEY, Slot(req.apiKey), c2, VERSION, ver);
    LaterSurvives(c2, VERSION, Slot(req.version), c, p, ver);
    StillShows(b, req, c1, c2, c, url, key, ver);
  }

  /** Bytes beyond an occurrence do not make an earlier one. */
  lemma FrontDecides(b: string, b': string, s: string, q: nat, slot: string, c: string)
    requires |s| == |slot| == SENTINEL_LEN && |b| == |b'| && OccursOnlyAt(b, s, q)
    requires b[..q + SENTINEL_LEN] == b'[..q + SENTINEL_LEN] && IsReplaceOne(b', s, slot, c)
    ensures c == Splice(b', q, slot)
  {
    forall k: nat | k <= q ensures Occurs(b', s, k) <==> Occurs(b, s, k) {
      assert b[k..k + SENTINEL_LEN] == b[..q + SENTINEL_LEN][k..k + SENTINEL_LEN];
      assert b'[k..k + SENTINEL_LEN] == b'[..q + SENTINEL_LEN][k..k + SENTINEL_LEN];
    }
  }

  lemma KeyClashesWithVersion(req: PatchRequest, m: nat)
    requires InLength(req) && req.version != VERSION
    requires 0 < m <= SENTINEL_LEN && MeetsAt(Slot(req.apiKey), VERSION, m)
    ensures CanBreak(req)
  {
    hide Sentinel, IsReplaceOne, Splice, PadToLen, Slot, TrimRight, Trap, MeetsAt, IsSentinel;
    TheThreeSentinels();
    var b, key, ver, url := Trap(API_KEY, VERSION, SERVER_URL, m), First(m), Second(m), Third(m);
    TrapByByte(API_KEY, VERSION, SERVER_URL, m);
    TrapIsGeneric(API_KEY, VERSION, SERVER_URL, m);
    var c1 := SomeReplacement(b, SERVER_URL, Slot(req.serverURL));
    var c2 := SomeReplacement(c1, API_KEY, Slot(req.apiKey));
    var c := SomeReplacement(c2, VERSION, Slot(req.version));
    ReplaceIsSplice(b, SERVER_URL, Slot(req.serverURL), c1, url);
    SpliceKeepsFront(b, url, Slot(req.serverURL), key + SENTINEL_LEN);
    SpliceKeepsFront(b, url, Slot(req.serverURL), url);
    FrontDecides(b, c1, API_KEY, key, Slot(req.apiKey), c2);
    var p := TrapSprings(c1, API_KEY, VERSION, SERVER_URL, m, Slot(req.apiKey));
    LaterSurvives(c2, VERSION, Slot(req.version), c, p, ver);
    StillShows(b, req, c1, c2, c, url, key, ver);
  }

  lemma SpliceKeepsFront(b: string, q: nat, slot: string, n: nat)
    requires q + |slot| <= |b| && n <= q
    ensures |Splice(b, q, slot)| == |b| && Splice(b, q, slot)[..n] == b[..n]
  {
  }

  /** A value that ends in NUL is not what start-up recovers, whatever the binary. */
  lemma NulIsLost(req: PatchRequest)
    requires InLength(req) && (EndsInNul(req.serverURL) || EndsInNul(req.apiKey) || EndsInNul(req.version))
    ensures CanBreak(req)
  {
    TheThreeSentinels();
    hide Sentinel, IsReplaceOne, Splice, PadToLen, Slot, TrimRight, Trap, IsSentinel;
    var b, url, key, ver := Trap(SERVER_URL, API_KEY, VERSION, 1), First(1), Second(1), Third(1);
    TrapIsGeneric(SERVER_URL, API_KEY, VERSION, 1);
    var c1 := SomeReplacement(b, SERVER_URL, Slot(req.serverURL));
    var c2 := SomeReplacement(c1, API_KEY, Slot(req.apiKey));
    var c := SomeReplacement(c2, VERSION, Slot(req.version));
    if Patched(b, c, req, url, key, ver) {
      TrimmedEnd(c[url..url + SENTINEL_LEN]);
      TrimmedEnd(c[key..key + SENTINEL_LEN]);
      TrimmedEnd(c[ver..ver + SENTINEL_LEN]);
    }
    assert Broken(b, req, c, url, key, ver);
  }

  /** Exactly when every generic binary round-trips a request whose values fit a slot. */
  lemma RoundTripIffFits(req: PatchRequest)
    requires InLength(req)
    ensures Fits(req) <==>
            forall b, c, url: nat, key: nat, ver: nat ::
              Generic(b, url, key, ver) && IsPatch(b, req, c) ==> Patched(b, c, req, url, key, ver)
  {
    hide IsPatch, Patched, Generic, Slot, MeetsAt, Sentinel;
    if Fits(req) {
      forall b, c, url: nat, key: nat, ver: nat | Generic(b, url, key, ver) && IsPatch(b, req, c)
        ensures Patched(b, c, req, url, key, ver)
      {
        PatchRoundTrip(b, req, c, url, key, ver);
      }
    } else {
      MisfitBreaks(req);
      var b, c, url: nat, key: nat, ver: nat :| Broken(b, req, c, url, key, ver);
    }
  }

  lemma MisfitBreaks(req: PatchRequest)
    requires InLength(req) && !Fits(req)
    ensures CanBreak(req)
  {
    hide Broken, Slot, MeetsAt, Sentinel;
    if EndsInNul(req.serverURL) || EndsInNul(req.apiKey) || EndsInNul(req.version) {
      NulIsLost(req);
    } else if req.apiKey != API_KEY && Clashes(Slot(req.serverURL), API_KEY) {
      var m :| 0 < m <= SENTINEL_LEN && MeetsAt(Slot(req.serverURL), API_KEY, m);
      UrlClashesWithKey(req, m);
    } else if Clashes(Slot(req.serverURL), VERSION) {
      var m :| 0 < m <= SENTINEL_LEN && MeetsAt(Slot(req.serverURL), VERSION, m);
      UrlClashesWithVersion(req, m);
    } else {
      var m :| 0 < m <= SENTINEL_LEN && MeetsAt(Slot(req.apiKey), VERSION, m);
      KeyClashesWithVersion(req, m);
    }
  }

  /** A value shorter than a slot clashes with no sentinel that lacks its first byte. */
  lemma PlainValueFits(v: string, t: string)
    requires |v| < SENTINEL_LEN && IsSentinel(t) && (v != [] ==> v[0] !in t)
    ensures !Clashes(Slot(v), t)
  {
    var slot := Slot(v);
    assert slot[SENTINEL_LEN - 1] == NUL && slot[0] !in t;
    forall m | 0 < m <= SENTINEL_LEN ensures !MeetsAt(slot, t, m) {
      assert slot[..m][0] == slot[0] && t[SENTINEL_LEN - m..][0] in t;
      assert slot[SENTINEL_LEN - m..][m - 1] == NUL && t[..m][m - 1] in t;
    }
  }

  /** A server address that starts with an underscore does not fit. */
  lemma UnderscoreClashes(v: string)
    requires 0 < |v| <= SENTINEL_LEN && v[0] == '_'
    ensures Clashes(Slot(v), API_KEY) && Clashes(Slot(v), VERSION)
  {
    var slot := Slot(v);
    assert slot[..1] == "_" == API_KEY[SENTINEL_LEN - 1..] == VERSION[SENTINEL_LEN - 1..];
    assert MeetsAt(slot, API_KEY, 1) && MeetsAt(slot, VERSION, 1);
  }

  /** An example: with such an address, some binary that Store accepts is patched wrongly. */
  lemma UnderscoreBreaks(req: PatchRequest)
    requires InLength(req) && req.serverURL != "" && req.serverURL[0] == '_' && req.apiKey != API_KEY
    ensures CanBreak(req)
  {
    UnderscoreClashes(req.serverURL);
    MisfitBreaks(req);
  }

  class Builder {
    var cache: map<Target, string>

    constructor ()
      ensures cache == map[]
    {
      cache := map[];
    }

    /** Caching a freshly built or loaded binary, which must hold the key's sentinel. */
    method Store(t: Target, data: string) returns (ok: bool)
      modifies this
      ensures ok <==> exists k: nat :: Occurs(data, API_KEY, k)
      ensures cache == if ok then old(cache)[t := data] else old(cache)
    {
      var k := 0;
      while k + |API_KEY| <= |data|
        invariant cache == old(cache)
        invariant forall j: nat :: j < k ==> !Occurs(data, API_KEY, j)
      {
        if Occurs(data, API_KEY, k) {
          cache := cache[t := data];
          return true;
        }
        k := k + 1;
      }
      return false;
    }

    /** Patches a copy of the cached binary; the cache itself is not changed. */
    method Patch(req: PatchRequest) returns (r: Result<string, string>)
      ensures r.Ok? <==> req.target in cache && InLength(req)
      ensures r.Ok? ==> IsPatch(cache[req.target], req, r.value) && |r.value| == |cache[req.target]|
      ensures r.Ok? && Fits(req) ==> forall url: nat, key: nat, ver: nat ::
                Generic(cache[req.target], url, key, ver) ==> Patched(cache[req.target], r.value, req, url, key, ver)
    {
      if req.target !in cache {
        return Err("no cached binary");
      }
      var u, k := PadToLen(req.serverURL, SENTINEL_LEN), PadToLen(req.apiKey, SENTINEL_LEN);
      var v := PadToLen(req.version, SENTINEL_LEN);
      if u.None? || k.None? || v.None? {
        return Err("value exceeds max length");
      }
      var generic := cache[req.target];
      var c1 := ReplaceOne(generic, SERVER_URL, u.value);
      var c2 := ReplaceOne(c1, API_KEY, k.value);
      var c3 := ReplaceOne(c2, VERSION, v.value);
      assert IsPatch(generic, req, c3) by {
        assert u.value == Slot(req.serverURL) && k.value == Slot(req.apiKey) && v.value == Slot(req.version);
      }
      forall url: nat, key: nat, ver: nat | Generic(generic, url, key, ver) && Fits(req)
        ensures Patched(generic, c3, req, url, key, ver)
      {
        PatchRoundTrip(generic, req, c3, url, key, ver);
      }
      return Ok(c3);
    }
  }
}
