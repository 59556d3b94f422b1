/** Byte strings and Go's order on them. */
module Lexical {

  type byte = b: int | 0 <= b < 256

  type Bytes = seq<byte>

  const ZERO_DIGIT: byte := 48

  /** Go's `<` on strings: bytewise, a proper prefix first. */
  predicate Before(a: Bytes, b: Bytes) {
    b != [] && (a == [] || a[0] < b[0] || (a[0] == b[0] && Before(a[1..], b[1..])))
  }

  lemma {:induction false} BeforeIsTotal(a: Bytes, b: Bytes)
    ensures a != b ==> (Before(a, b) <==> !Before(b, a))
    ensures a == b ==> !Before(a, b)
  {
    if a != [] && b != [] && a[0] == b[0] {
      assert a == [a[0]] + a[1..] && b == [b[0]] + b[1..];
      BeforeIsTotal(a[1..], b[1..]);
    }
  }

  lemma {:induction false} BeforeIsTransitive(a: Bytes, b: Bytes, c: Bytes)
    requires Before(a, b) && Before(b, c)
    ensures Before(a, c)
  {
    if a != [] && a[0] == b[0] == c[0] {
      BeforeIsTransitive(a[1..], b[1..], c[1..]);
    }
  }

  /** Reads decimal digits back. */
  ghost function Value(s: Bytes): int {
    if s == [] then 0 else 10 * Value(s[..|s| - 1]) + (s[|s| - 1] - ZERO_DIGIT)
  }

  ghost predicate IsDigits(s: Bytes) {
    forall i :: 0 <= i < |s| ==> ZERO_DIGIT <= s[i] < ZERO_DIGIT + 10
  }

  /** Between strings of one length, the last byte only breaks ties. */
  lemma {:induction false} BeforeByLastByte(a: Bytes, b: Bytes)
    requires |a| == |b| > 0
    ensures var n := |a| - 1;
            Before(a, b) <==> Before(a[..n], b[..n]) || (a[..n] == b[..n] && a[n] < b[n])
  {
    var n := |a| - 1;
    if n > 0 {
      BeforeByLastByte(a[1..], b[1..]);
      Middle(a);
      Middle(b);
    }
  }

  lemma Middle(a: Bytes)
    requires |a| > 1
    ensures var n := |a| - 1;
            a[1..][..n - 1] == a[..n][1..] && a[..n] == [a[0]] + a[..n][1..]
  {
  }

  /** For decimal strings of equal width the lexical order is the numeric order. */
  lemma {:induction false} EqualWidthOrderIsNumeric(a: Bytes, b: Bytes)
    requires |a| == |b| && IsDigits(a) && IsDigits(b)
    ensures Before(a, b) <==> Value(a) < Value(b)
    ensures a == b <==> Value(a) == Value(b)
  {
    if a != [] {
      var n := |a| - 1;
      BeforeByLastByte(a, b);
      EqualWidthOrderIsNumeric(a[..n], b[..n]);
      assert a == a[..n] + [a[n]] && b == b[..n] + [b[n]];
      BeforeIsTotal(a[..n], b[..n]);
    }
  }

  /** The lexical and the numeric order say the same of two strings. */
  ghost predicate SameOrder(a: Bytes, b: Bytes) {
    (Before(a, b) <==> Value(a) < Value(b)) && (Before(b, a) <==> Value(b) < Value(a))
  }

  ghost function Zeros(n: nat): (s: Bytes)
    ensures |s| == n && IsDigits(s)
  {
    seq(n, _ => ZERO_DIGIT)
  }

  lemma {:induction false} ValueOfZeros(n: nat)
    ensures Value(Zeros(n)) == 0
  {
    if n > 0 {
      ValueOfZeros(n - 1);
      assert Zeros(n)[..n - 1] == Zeros(n - 1);
    }
  }

  lemma {:induction false} FewerZerosFirst(m: nat, n: nat)
    requires m < n
    ensures Before(Zeros(m), Zeros(n))
  {
    if m > 0 {
      FewerZerosFirst(m - 1, n - 1);
      assert Zeros(m)[1..] == Zeros(m - 1) && Zeros(n)[1..] == Zeros(n - 1);
    }
  }

  /** Exactly when the two orders agree on all decimal strings of two widths: the widths
      are equal. Two strings of zeros already disagree. */
  lemma OrdersAgreeIffEqualWidths(m: nat, n: nat)
    ensures (forall a, b :: |a| == m && |b| == n && IsDigits(a) && IsDigits(b) ==> SameOrder(a, b)) <==> m == n
  {
    if m == n {
      forall a, b | |a| == m && |b| == n && IsDigits(a) && IsDigits(b) ensures SameOrder(a, b) {
        EqualWidthOrderIsNumeric(a, b);
        EqualWidthOrderIsNumeric(b, a);
      }
    } else {
      ValueOfZeros(m);
      ValueOfZeros(n);
      if m < n {
        FewerZerosFirst(m, n);
      } else {
        FewerZerosFirst(n, m);
      }
      assert !SameOrder(Zeros(m), Zeros(n));
    }
  }
}
