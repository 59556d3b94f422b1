/** What a string becomes when Go's encoding/json writes it and a reader decodes it: every
    byte that is not part of a well-formed UTF-8 sequence is replaced by U+FFFD. */
module Utf8 {
  import opened Lexical

  /** U+FFFD in UTF-8. */
  const REPLACEMENT: Bytes := [0xEF, 0xBF, 0xBD]

  predicate Tail(b: byte) {
    0x80 <= b <= 0xBF
  }

  /** The range of the second byte after a first byte of a three- or four-byte sequence:
      no overlong forms, no surrogates, nothing beyond U+10FFFF. */
  predicate Second(first: byte, b: byte) {
    && Tail(b)
    && (first == 0xE0 ==> 0xA0 <= b) && (first == 0xED ==> b <= 0x9F)
    && (first == 0xF0 ==> 0x90 <= b) && (first == 0xF4 ==> b <= 0x8F)
  }

  /** The length of the well-formed sequence at the front (Table 3-7 of the Unicode
      standard), or 0 if there is none. */
  function RuneLen(s: Bytes): (n: nat)
    ensures n <= |s|
  {
    if s == [] then 0
    else if s[0] < 0x80 then 1
    else if 0xC2 <= s[0] <= 0xDF then
      if |s| >= 2 && Tail(s[1]) then 2 else 0
    else if 0xE0 <= s[0] <= 0xEF then
      if |s| >= 3 && Second(s[0], s[1]) && Tail(s[2]) then 3 else 0
    else if 0xF0 <= s[0] <= 0xF4 then
      if |s| >= 4 && Second(s[0], s[1]) && Tail(s[2]) && Tail(s[3]) then 4 else 0
    else 0
  }

  predicate WellFormed(s: Bytes) {
    s == [] || (RuneLen(s) > 0 && WellFormed(s[RuneLen(s)..]))
  }

  /** The string that decoding the written JSON gives back. */
  function Sanitized(s: Bytes): Bytes
    decreases |s|
  {
    if s == [] then []
    else if RuneLen(s) == 0 then REPLACEMENT + Sanitized(s[1..])
    else s[..RuneLen(s)] + Sanitized(s[RuneLen(s)..])
  }

  lemma ReplacementIsEncoded()
    ensures REPLACEMENT == Encode(0xFFFD)
  {
  }

  /** A sequence is recognised by its own bytes alone. */
  lemma RuneAtFront(s: Bytes, more: Bytes)
    requires RuneLen(s) > 0
    ensures RuneLen(s[..RuneLen(s)] + more) == RuneLen(s)
  {
  }

  lemma {:induction false} SanitizedIsWellFormed(s: Bytes)
    ensures WellFormed(Sanitized(s))
    decreases |s|
  {
    if s != [] {
      var n := if RuneLen(s) == 0 then 1 else RuneLen(s);
      var front := if RuneLen(s) == 0 then REPLACEMENT else s[..n];
      var rest := Sanitized(s[n..]);
      SanitizedIsWellFormed(s[n..]);
      RuneAtFront(front, rest);
      assert front[..|front|] == front && Sanitized(s) == front + rest;
      assert (front + rest)[|front|..] == rest;
    }
  }

  lemma {:induction false} WellFormedIsKept(s: Bytes)
    requires WellFormed(s)
    ensures Sanitized(s) == s
    decreases |s|
  {
    if s != [] {
      WellFormedIsKept(s[RuneLen(s)..]);
      assert s == s[..RuneLen(s)] + s[RuneLen(s)..];
    }
  }

  /** Writing and reading back keeps exactly the well-formed strings. */
  lemma SanitizedIffWellFormed(s: Bytes)
    ensures Sanitized(s) == s <==> WellFormed(s)
    ensures Sanitized(Sanitized(s)) == Sanitized(s)
  {
    SanitizedIsWellFormed(s);
    WellFormedIsKept(Sanitized(s));
    if WellFormed(s) {
      WellFormedIsKept(s);
    }
  }

  /** Replacement neither makes nor removes a NUL. */
  lemma {:induction false} SanitizedNul(s: Bytes, nul: byte)
    requires nul == 0
    ensures nul in Sanitized(s) <==> nul in s
    decreases |s|
  {
    if s != [] {
      var n := if RuneLen(s) == 0 then 1 else RuneLen(s);
      SanitizedNul(s[n..], nul);
      assert s == s[..n] + s[n..];
      if RuneLen(s) == 0 {
        assert s[..1] == [s[0]];
      }
    }
  }

  // ----- What well-formed means -----

  /** A Unicode scalar value: any code point but a surrogate. */
  predicate IsScalar(cp: int) {
    0 <= cp <= 0x10FFFF && !(0xD800 <= cp <= 0xDFFF)
  }

  /** The encoding of section 3 of RFC 3629. */
  function Encode(cp: int): Bytes
    requires IsScalar(cp)
  {
    if cp < 0x80 then [cp]
    else if cp < 0x800 then [0xC0 + cp / 64, 0x80 + cp % 64]
    else if cp < 0x10000 then [0xE0 + cp / 4096, 0x80 + cp / 64 % 64, 0x80 + cp % 64]
    else [0xF0 + cp / 262144, 0x80 + cp / 4096 % 64, 0x80 + cp / 64 % 64, 0x80 + cp % 64]
  }

  function EncodeAll(cps: seq<int>): Bytes
    requires forall i :: 0 <= i < |cps| ==> IsScalar(cps[i])
  {
    if cps == [] then [] else Encode(cps[0]) + EncodeAll(cps[1..])
  }

  ghost predicate IsEncoded(s: Bytes) {
    exists cps: seq<int> :: (forall i :: 0 <= i < |cps| ==> IsScalar(cps[i])) && s == EncodeAll(cps)
  }

  /** Well-formed is what encodes some sequence of scalar values. */
  lemma {:induction false} WellFormedIsEncoded(s: Bytes)
    requires WellFormed(s)
    ensures IsEncoded(s)
    decreases |s|
  {
    hide Encode, IsScalar, IsEncoded;
    if s == [] {
      NothingIsEncoded();
    } else {
      var n := RuneLen(s);
      WellFormedIsEncoded(s[n..]);
      DecodeFront(s);
      hide WellFormed, RuneLen;
      FrontIsEncoded(s[..n], s[n..]);
      assert s == s[..n] + s[n..];
    }
  }

  lemma NothingIsEncoded()
    ensures IsEncoded([])
  {
    assert EncodeAll([]) == [];
  }

  lemma FrontIsEncoded(front: Bytes, rest: Bytes)
    requires IsRune(front) && IsEncoded(rest)
    ensures IsEncoded(front + rest)
  {
    hide Encode, IsScalar;
    var cp :| IsScalar(cp) && front == Encode(cp);
    var cps: seq<int> :| (forall i :: 0 <= i < |cps| ==> IsScalar(cps[i])) && rest == EncodeAll(cps);
    EncodeOneMore(cp, cps);
  }

  lemma EncodeOneMore(cp: int, cps: seq<int>)
    requires IsScalar(cp) && forall i :: 0 <= i < |cps| ==> IsScalar(cps[i])
    ensures forall i :: 0 <= i < |[cp] + cps| ==> IsScalar(([cp] + cps)[i])
    ensures EncodeAll([cp] + cps) == Encode(cp) + EncodeAll(cps)
  {
    assert ([cp] + cps)[1..] == cps;
  }

  /** The bytes encode a scalar value. */
  ghost predicate IsRune(s: Bytes) {
    exists cp :: IsScalar(cp) && s == Encode(cp)
  }

  lemma DecodeFront(s: Bytes)
    requires RuneLen(s) > 0
    ensures IsRune(s[..RuneLen(s)])
  {
    hide Encode, IsScalar, IsRune;
    if RuneLen(s) == 1 {
      Decode1(s[0]);
      assert s[..1] == [s[0]];
    } else if RuneLen(s) == 2 {
      Decode2(s[0], s[1]);
      assert s[..2] == [s[0], s[1]];
    } else if RuneLen(s) == 3 {
      Decode3(s[0], s[1], s[2]);
      assert s[..3] == [s[0], s[1], s[2]];
    } else {
      Decode4(s[0], s[1], s[2], s[3]);
      assert s[..4] == [s[0], s[1], s[2], s[3]];
    }
  }

  lemma Decode1(a: byte)
    requires a < 0x80
    ensures IsRune([a])
  {
    assert IsScalar(a) && Encode(a) == [a];
  }

  lemma Decode2(a: byte, b: byte)
    requires 0xC2 <= a <= 0xDF && Tail(b)
    ensures IsRune([a, b])
  {
    var high: int, low: int := a, b;
    var cp := (high - 0xC0) * 64 + (low - 0x80);
    assert IsScalar(cp) && Encode(cp) == [a, b];
  }

  lemma Decode3(a: byte, b: byte, c: byte)
    requires 0xE0 <= a <= 0xEF && Tail(c) && Second(a, b)
    ensures IsRune([a, b, c])
  {
    var x: int, y: int, z: int := a, b, c;
    var high := (x - 0xE0) * 64 + (y - 0x80);
    var cp := high * 64 + (z - 0x80);
    assert cp / 64 == high && cp % 64 == z - 0x80;
    assert cp / 4096 == high / 64 == x - 0xE0;
    assert IsScalar(cp) && Encode(cp) == [a, b, c];
  }

  lemma Decode4(a: byte, b: byte, c: byte, d: byte)
    requires 0xF0 <= a <= 0xF4 && Tail(c) && Tail(d) && Second(a, b)
    ensures IsRune([a, b, c, d])
  {
    var w: int, x: int, y: int, z: int := a, b, c, d;
    var high := (w - 0xF0) * 64 + (x - 0x80);
    var middle := high * 64 + (y - 0x80);
    var cp := middle * 64 + (z - 0x80);
    assert cp / 64 == middle && cp % 64 == z - 0x80;
    assert cp / 4096 == middle / 64 == high;
    assert cp / 262144 == high / 64 == w - 0xF0;
    assert IsScalar(cp) && Encode(cp) == [a, b, c, d];
  }

  lemma EncodeIsRune(cp: int, rest: Bytes)
    requires IsScalar(cp)
    ensures RuneLen(Encode(cp) + rest) == |Encode(cp)| > 0
  {
  }

  lemma {:induction false} EncodedIsWellFormed(cps: seq<int>)
    requires forall i :: 0 <= i < |cps| ==> IsScalar(cps[i])
    ensures WellFormed(EncodeAll(cps))
  {
    if cps != [] {
      EncodedIsWellFormed(cps[1..]);
      EncodeIsRune(cps[0], EncodeAll(cps[1..]));
      var n := |Encode(cps[0])|;
      assert (Encode(cps[0]) + EncodeAll(cps[1..]))[n..] == EncodeAll(cps[1..]);
    }
  }

  lemma WellFormedIffEncoded(s: Bytes)
    ensures WellFormed(s) <==> IsEncoded(s)
  {
    if WellFormed(s) {
      WellFormedIsEncoded(s);
    }
    if IsEncoded(s) {
      var cps: seq<int> :| (forall i :: 0 <= i < |cps| ==> IsScalar(cps[i])) && s == EncodeAll(cps);
      EncodedIsWellFormed(cps);
    }
  }
}
