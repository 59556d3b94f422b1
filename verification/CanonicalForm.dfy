/** The canonical form of a window set (internal/client/layout/layout.go): sort the
    windows by all six fields and print them, delimited, into a hash. The digest is
    taken to be injective, so what matters is the byte stream that is hashed. */
module CanonicalForm {
  import opened Base
  import opened Lexical

  const NUL: byte := 0
  const ROW_END: byte := 1
  const MINUS: byte := 45

  datatype Window = Window(appName: Bytes, windowTitle: Bytes, x: int, y: int, w: int, h: int)

  // ----- Order -----

  /** The comparison function given to sort.Slice. */
  predicate Less(a: Window, b: Window) {
    if a.appName != b.appName then Before(a.appName, b.appName)
    else if a.windowTitle != b.windowTitle then Before(a.windowTitle, b.windowTitle)
    else if a.x != b.x then a.x < b.x
    else if a.y != b.y then a.y < b.y
    else if a.w != b.w then a.w < b.w
    else a.h < b.h
  }

  lemma LessIsTotal(a: Window, b: Window)
    ensures a != b ==> (Less(a, b) <==> !Less(b, a))
    ensures a == b ==> !Less(a, b)
  {
    BeforeIsTotal(a.appName, b.appName);
    BeforeIsTotal(a.windowTitle, b.windowTitle);
  }

  lemma LessIsTransitive(a: Window, b: Window, c: Window)
    requires Less(a, b) && Less(b, c)
    ensures Less(a, c)
  {
    BeforeIsTotal(a.appName, b.appName);
    BeforeIsTotal(b.appName, c.appName);
    BeforeIsTotal(a.windowTitle, b.windowTitle);
    BeforeIsTotal(b.windowTitle, c.windowTitle);
    if Before(a.appName, b.appName) && Before(b.appName, c.appName) {
      BeforeIsTransitive(a.appName, b.appName, c.appName);
      BeforeIsTotal(a.appName, c.appName);
    }
    if Before(a.windowTitle, b.windowTitle) && Before(b.windowTitle, c.windowTitle) {
      BeforeIsTransitive(a.windowTitle, b.windowTitle, c.windowTitle);
      BeforeIsTotal(a.windowTitle, c.windowTitle);
    }
  }

  // ----- Sorting -----

  predicate Sorted(s: seq<Window>) {
    forall i, j :: 0 <= i < j < |s| ==> !Less(s[j], s[i])
  }

  /** The first element of a sorted list is least. */
  lemma HeadIsLeast(a: seq<Window>, w: Window)
    requires Sorted(a) && w in a
    ensures !Less(w, a[0])
  {
  }

  /** A sorted list is determined by its elements, whatever algorithm sorted it. */
  lemma {:induction false} SortedIsUnique(a: seq<Window>, b: seq<Window>)
    requires Sorted(a) && Sorted(b) && multiset(a) == multiset(b)
    ensures a == b
  {
    assert |a| == |multiset(a)| == |multiset(b)| == |b|;
    if a != [] {
      assert a[0] in multiset(a) && b[0] in multiset(b);
      HeadIsLeast(a, b[0]);
      HeadIsLeast(b, a[0]);
      LessIsTotal(a[0], b[0]);
      RemoveHead(a);
      RemoveHead(b);
      SortedIsUnique(a[1..], b[1..]);
    }
  }

  lemma LessEqIsTransitive(a: Window, b: Window, c: Window)
    requires !Less(b, a) && !Less(c, b)
    ensures !Less(c, a)
  {
    LessIsTotal(a, b);
    LessIsTotal(b, c);
    LessIsTotal(a, c);
    if a != b && b != c {
      LessIsTransitive(a, b, c);
    }
  }

  function Insert(w: Window, s: seq<Window>): (r: seq<Window>)
    requires Sorted(s)
    ensures Sorted(r) && multiset(r) == multiset(s) + multiset{w}
  {
    if s == [] then [w]
    else if Less(s[0], w) then
      var rest := Insert(w, s[1..]);
      RemoveHead(s);
      SortedCons(s[0], rest, s[1..], w);
      [s[0]] + rest
    else
      SortedFront(w, s);
      [w] + s
  }

  lemma SortedFront(w: Window, s: seq<Window>)
    requires Sorted(s) && s != [] && !Less(s[0], w)
    ensures Sorted([w] + s)
  {
    forall i | 0 < i < |s| ensures !Less(s[i], w) {
      LessEqIsTransitive(w, s[0], s[i]);
    }
  }

  lemma SortedCons(head: Window, rest: seq<Window>, tail: seq<Window>, w: Window)
    requires Sorted(rest) && multiset(rest) == multiset(tail) + multiset{w}
    requires Sorted([head] + tail) && Less(head, w)
    ensures Sorted([head] + rest)
  {
    forall j | 0 <= j < |rest| ensures !Less(rest[j], head) {
      assert rest[j] in multiset(rest);
      LessIsTotal(head, w);
      if rest[j] != w {
        assert rest[j] in multiset(tail);
        var i :| 0 <= i < |tail| && tail[i] == rest[j];
        assert ([head] + tail)[0] == head && ([head] + tail)[i + 1] == rest[j];
      }
    }
  }

  /** The sorted permutation of a list. */
  function Sort(s: seq<Window>): (r: seq<Window>)
    ensures Sorted(r) && multiset(r) == multiset(s)
  {
    if s == [] then []
    else
      RemoveHead(s);
      Insert(s[0], Sort(s[1..]))
  }

  // ----- Printing -----

  function Digits(n: nat): Bytes {
    if n < 10 then [ZERO_DIGIT + n] else Digits(n / 10) + [ZERO_DIGIT + n % 10]
  }

  /** Go's %d. */
  function Decimal(i: int): Bytes {
    if i < 0 then [MINUS] + Digits(-i) else Digits(i)
  }

  /** The last four fields of a row, and what follows the row. */
  function PrintNumbers(w: Window, rest: Bytes): Bytes {
    Decimal(w.x) + [NUL] + (Decimal(w.y) + [NUL] + (Decimal(w.w) + [NUL] + (Decimal(w.h) + [ROW_END] + rest)))
  }

  /** "%s\x00%s\x00%d\x00%d\x00%d\x00%d\x01". */
  function Print(w: Window): Bytes {
    w.appName + [NUL] + (w.windowTitle + [NUL] + PrintNumbers(w, []))
  }

  function PrintAll(ws: seq<Window>): Bytes {
    if ws == [] then [] else Print(ws[0]) + PrintAll(ws[1..])
  }

  /** The bytes HashWindows feeds to the hash. */
  function Canonical(ws: seq<Window>): Bytes {
    PrintAll(Sort(ws))
  }

  predicate NulFree(w: Window) {
    NUL !in w.appName && NUL !in w.windowTitle
  }

  predicate AllNulFree(ws: seq<Window>) {
    forall w :: w in ws ==> NulFree(w)
  }

  lemma {:induction false} DigitsAreDigits(n: nat)
    ensures Digits(n) != [] && forall d :: d in Digits(n) ==> ZERO_DIGIT <= d < ZERO_DIGIT + 10
  {
    if n >= 10 {
      DigitsAreDigits(n / 10);
    }
  }

  lemma {:induction false} ValueOfDigits(n: nat)
    ensures Value(Digits(n)) == n
  {
    if n >= 10 {
      ValueOfDigits(n / 10);
      assert Digits(n)[..|Digits(n)| - 1] == Digits(n / 10);
    } else {
      assert Digits(n)[..0] == [];
    }
  }

  /** The signed decimal of a number determines it and holds no delimiter. */
  lemma DecimalIsInjective(i: int, j: int)
    ensures NUL !in Decimal(i) && ROW_END !in Decimal(i)
    ensures Decimal(i) == Decimal(j) ==> i == j
  {
    var m: nat, n: nat := if i < 0 then -i else i, if j < 0 then -j else j;
    DigitsAreDigits(m);
    DigitsAreDigits(n);
    ValueOfDigits(m);
    ValueOfDigits(n);
    assert Digits(m)[0] in Digits(m) && Digits(n)[0] in Digits(n);
    if Decimal(i) == Decimal(j) {
      assert i < 0 <==> Decimal(i)[0] == MINUS;
      assert j < 0 <==> Decimal(j)[0] == MINUS;
      if i < 0 {
        assert Decimal(i)[1..] == Digits(m) && Decimal(j)[1..] == Digits(n);
      }
      assert Digits(m) == Digits(n);
    }
  }

  /** A field runs up to the first delimiter. */
  lemma Delimited(a: Bytes, b: Bytes, d: byte, r: Bytes, s: Bytes)
    requires d !in a && d !in b
    requires a + [d] + r == b + [d] + s
    ensures a == b && r == s
  {
    var x, y := a + [d] + r, b + [d] + s;
    assert x[|a|] == d && y[|b|] == d;
    assert forall i :: 0 <= i < |a| ==> x[i] == a[i] && a[i] in a;
    assert forall i :: 0 <= i < |b| ==> y[i] == b[i] && b[i] in b;
    assert |a| == |b|;
    assert a == x[..|a|] && b == y[..|b|];
    assert r == x[|a| + 1..] && s == y[|b| + 1..];
  }

  lemma FieldThen(a: Bytes, d: byte, b: Bytes, rest: Bytes)
    ensures (a + [d] + b) + rest == a + [d] + (b + rest)
  {
  }

  lemma PrintNests(w: Window, rest: Bytes)
    ensures Print(w) + rest == w.appName + [NUL] + (w.windowTitle + [NUL] + PrintNumbers(w, rest))
  {
    hide Decimal;
    var h := Decimal(w.h) + [ROW_END] + [];
    var z := Decimal(w.w) + [NUL] + h;
    var y := Decimal(w.y) + [NUL] + z;
    FieldThen(Decimal(w.h), ROW_END, [], rest);
    FieldThen(Decimal(w.w), NUL, h, rest);
    FieldThen(Decimal(w.y), NUL, z, rest);
    FieldThen(Decimal(w.x), NUL, y, rest);
    assert [] + rest == rest;
    assert PrintNumbers(w, []) + rest == PrintNumbers(w, rest);
    hide PrintNumbers;
    FieldThen(w.windowTitle, NUL, PrintNumbers(w, []), rest);
    FieldThen(w.appName, NUL, w.windowTitle + [NUL] + PrintNumbers(w, []), rest);
  }

  lemma NumbersAreUnambiguous(v: Window, w: Window, r: Bytes, s: Bytes)
    requires PrintNumbers(v, r) == PrintNumbers(w, s)
    ensures v.x == w.x && v.y == w.y && v.w == w.w && v.h == w.h && r == s
  {
    DecimalIsInjective(v.x, w.x);
    DecimalIsInjective(w.x, v.x);
    DecimalIsInjective(v.y, w.y);
    DecimalIsInjective(w.y, v.y);
    DecimalIsInjective(v.w, w.w);
    DecimalIsInjective(w.w, v.w);
    DecimalIsInjective(v.h, w.h);
    DecimalIsInjective(w.h, v.h);
    var v4, w4 := Decimal(v.h) + [ROW_END] + r, Decimal(w.h) + [ROW_END] + s;
    var v3, w3 := Decimal(v.w) + [NUL] + v4, Decimal(w.w) + [NUL] + w4;
    var v2, w2 := Decimal(v.y) + [NUL] + v3, Decimal(w.y) + [NUL] + w3;
    Delimited(Decimal(v.x), Decimal(w.x), NUL, v2, w2);
    Delimited(Decimal(v.y), Decimal(w.y), NUL, v3, w3);
    Delimited(Decimal(v.w), Decimal(w.w), NUL, v4, w4);
    Delimited(Decimal(v.h), Decimal(w.h), ROW_END, r, s);
  }

  /** A printed row can be read back from the front of a stream in one way only. */
  lemma RowIsUnambiguous(v: Window, w: Window, r: Bytes, s: Bytes)
    requires NulFree(v) && NulFree(w)
    requires Print(v) + r == Print(w) + s
    ensures v == w && r == s
  {
    PrintNests(v, r);
    PrintNests(w, s);
    Delimited(v.appName, w.appName, NUL,
              v.windowTitle + [NUL] + PrintNumbers(v, r), w.windowTitle + [NUL] + PrintNumbers(w, s));
    Delimited(v.windowTitle, w.windowTitle, NUL, PrintNumbers(v, r), PrintNumbers(w, s));
    NumbersAreUnambiguous(v, w, r, s);
  }

  lemma {:induction false} PrintAllIsInjective(a: seq<Window>, b: seq<Window>)
    requires AllNulFree(a) && AllNulFree(b)
    requires PrintAll(a) == PrintAll(b)
    ensures a == b
  {
    if a != [] && b != [] {
      RowIsUnambiguous(a[0], b[0], PrintAll(a[1..]), PrintAll(b[1..]));
      PrintAllIsInjective(a[1..], b[1..]);
    }
  }

  lemma PermutedNulFree(a: seq<Window>, b: seq<Window>)
    requires multiset(a) == multiset(b) && AllNulFree(a)
    ensures AllNulFree(b)
  {
    forall w | w in b ensures NulFree(w) {
      assert w in multiset(a);
    }
  }

  // ----- Main results -----

  /** The two lists hold the same windows, whatever their order. */
  ghost predicate SameWindows(a: seq<Window>, b: seq<Window>) {
    multiset(a) == multiset(b)
  }

  /** The canonical bytes ignore order, and for NUL-free strings they tell apart any
      two lists that differ as multisets. */
  lemma CanonicalFormIsExact(a: seq<Window>, b: seq<Window>)
    ensures SameWindows(a, b) ==> Canonical(a) == Canonical(b)
    ensures AllNulFree(a) && AllNulFree(b) && Canonical(a) == Canonical(b) ==> SameWindows(a, b)
  {
    if SameWindows(a, b) {
      SortedIsUnique(Sort(a), Sort(b));
    }
    if AllNulFree(a) && AllNulFree(b) && Canonical(a) == Canonical(b) {
      PermutedNulFree(a, Sort(a));
      PermutedNulFree(b, Sort(b));
      PrintAllIsInjective(Sort(a), Sort(b));
    }
  }

  lemma CountField(s: Bytes, rest: Bytes)
    ensures multiset(s + [NUL] + rest)[NUL] == multiset(s)[NUL] + 1 + multiset(rest)[NUL]
  {
  }

  lemma CountFour(a: Bytes, b: Bytes, c: Bytes, d: Bytes)
    requires NUL !in a && NUL !in b && NUL !in c && NUL !in d
    ensures multiset(a + [NUL] + (b + [NUL] + (c + [NUL] + (d + [ROW_END] + []))))[NUL] == 3
  {
  }

  lemma CountNumbers(w: Window)
    ensures multiset(PrintNumbers(w, []))[NUL] == 3
  {
    DecimalIsInjective(w.x, 0);
    DecimalIsInjective(w.y, 0);
    DecimalIsInjective(w.w, 0);
    DecimalIsInjective(w.h, 0);
    hide Decimal;
    CountFour(Decimal(w.x), Decimal(w.y), Decimal(w.w), Decimal(w.h));
  }

  ghost function Nuls(w: Window): nat {
    multiset(w.appName)[NUL] + multiset(w.windowTitle)[NUL]
  }

  lemma NulsOf(w: Window)
    ensures Nuls(w) == 0 <==> NulFree(w)
  {
  }

  /** A printed row holds five NULs besides those of its strings. */
  lemma CountNuls(w: Window, row: Bytes)
    requires row == Print(w)
    ensures multiset(row)[NUL] == 5 + Nuls(w)
  {
    hide PrintNumbers;
    CountNumbers(w);
    var numbers := PrintNumbers(w, []);
    var rest := w.windowTitle + [NUL] + numbers;
    CountField(w.windowTitle, numbers);
    CountField(w.appName, rest);
  }

  /** A NUL inside one of the first two fields may as well be the delimiter. */
  lemma Regroup(p: Bytes, q: Bytes, t: Bytes, n: Bytes)
    ensures (p + [NUL] + q) + [NUL] + (t + [NUL] + n) == p + [NUL] + ((q + [NUL] + t) + [NUL] + n)
  {
  }

  lemma SplitAtNul(s: Bytes) returns (p: Bytes, q: Bytes)
    requires NUL in s
    ensures s == p + [NUL] + q
  {
    var i :| 0 <= i < |s| && s[i] == NUL;
    p, q := s[..i], s[i + 1..];
  }

  /** A window with a NUL shares its printed form with another window. */
  lemma NulCollides(w: Window) returns (v: Window)
    requires !NulFree(w)
    ensures v != w && Print(v) == Print(w)
  {
    hide Decimal;
    var numbers := PrintNumbers(w, []);
    if NUL in w.appName {
      var p, q := SplitAtNul(w.appName);
      v := w.(appName := p, windowTitle := q + [NUL] + w.windowTitle);
      assert |v.appName| < |w.appName|;
      Regroup(p, q, w.windowTitle, numbers);
    } else {
      var p, q := SplitAtNul(w.windowTitle);
      v := w.(appName := w.appName + [NUL] + p, windowTitle := q);
      assert |v.appName| > |w.appName|;
      Regroup(w.appName, p, q, numbers);
    }
  }

  /** Exactly when a one-window set is told apart from every other: its strings hold
      no NUL. */
  lemma PrintIsUniqueIffNulFree(w: Window)
    ensures NulFree(w) <==> forall v :: Print(v) == Print(w) ==> v == w
  {
    hide Print, NulFree, Nuls;
    if NulFree(w) {
      forall v | Print(v) == Print(w) ensures v == w {
        CountNuls(v, Print(v));
        CountNuls(w, Print(v));
        NulsOf(v);
        NulsOf(w);
        RowIsUnambiguous(v, w, [], []);
      }
    } else {
      var v := NulCollides(w);
    }
  }

  /** The bytes of one window: "a", "t", 1, -20, 3, 405. */
  lemma PrintedExample()
    ensures Canonical([Window([97], [116], 1, -20, 3, 405)])
            == [97, 0, 116, 0, 49, 0, 45, 50, 48, 0, 51, 0, 52, 48, 53, 1]
  {
    var w := Window([97], [116], 1, -20, 3, 405);
    assert Digits(20) == [50, 48] && Digits(40) == [52, 48] && Digits(405) == [52, 48, 53];
    assert Print(w) == [97, 0, 116, 0, 49, 0, 45, 50, 48, 0, 51, 0, 52, 48, 53, 1];
    assert [w][1..] == [] && Sort([w]) == [w];
    assert PrintAll([w]) == Print(w) + PrintAll([]);
  }

  /** Two windows are printed by application, then title, position and size, smaller first. */
  lemma PrintedInOrder(v: Window, w: Window)
    requires Before(v.appName, w.appName) ||
             (v.appName == w.appName && (Before(v.windowTitle, w.windowTitle) ||
              (v.windowTitle == w.windowTitle && (v.x < w.x ||
               (v.x == w.x && (v.y < w.y || (v.y == w.y && (v.w < w.w || (v.w == w.w && v.h < w.h)))))))))
    ensures Canonical([v, w]) == Print(v) + Print(w) == Canonical([w, v])
  {
    BeforeIsTotal(v.appName, w.appName);
    BeforeIsTotal(v.windowTitle, w.windowTitle);
    LessIsTotal(v, w);
    assert Less(v, w);
    assert Sorted([v, w]);
    SortedIsUnique(Sort([v, w]), [v, w]);
    SortedIsUnique(Sort([w, v]), [v, w]);
    hide Sort, Print;
    assert [v, w][1..] == [w] && [w][1..] == [];
    assert PrintAll([w]) == Print(w) + [];
  }

  // ----- The code -----

  /** sort.Slice with the six-field order. */
  method SortSlice(a: array<Window>)
    modifies a
    ensures Sorted(a[..]) && multiset(a[..]) == multiset(old(a[..]))
  {
    var sorted := Sort(a[..]);
    assert |sorted| == |multiset(sorted)| == |multiset(a[..])| == a.Length;
    forall i | 0 <= i < a.Length {
      a[i] := sorted[i];
    }
    assert a[..] == sorted;
  }

  lemma Regroup3(a: Bytes, b: Bytes, c: Bytes)
    ensures (a + b) + c == a + (b + c)
  {
  }

  lemma WriteStep(stream: Bytes, rows: seq<Window>, i: nat)
    requires i < |rows|
    ensures (stream + Print(rows[i])) + PrintAll(rows[i + 1..]) == stream + PrintAll(rows[i..])
  {
    assert rows[i..][1..] == rows[i + 1..];
    Regroup3(stream, Print(rows[i]), PrintAll(rows[i + 1..]));
  }

  /** The loop that writes the rows. */
  method WriteRows(rows: seq<Window>) returns (stream: Bytes)
    ensures stream == PrintAll(rows)
  {
    stream := [];
    for i := 0 to |rows|
      invariant stream + PrintAll(rows[i..]) == PrintAll(rows)
    {
      WriteStep(stream, rows, i);
      stream := stream + Print(rows[i]);
    }
  }

  /** Sorts a copy and writes it, row by row, into the hash; `stream` is what was
      written. The caller's slice is left alone. */
  method HashWindows(windows: array<Window>) returns (stream: Bytes)
    ensures stream == Canonical(windows[..])
  {
    var sorted := new Window[windows.Length](i requires 0 <= i < windows.Length reads windows => windows[i]);
    assert sorted[..] == windows[..];
    SortSlice(sorted);
    SortedIsUnique(sorted[..], Sort(windows[..]));
    stream := WriteRows(sorted[..]);
  }
}
