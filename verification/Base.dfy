/** Small shared vocabulary: optional values, results with an error, and the
    elements of a sequence. */
module Base {

  datatype Option<+T> = None | Some(value: T)

  datatype Result<+T, +E> = Ok(value: T) | Err(error: E)

  /** The set of elements of a sequence. */
  ghost function Elems<T>(s: seq<T>): set<T> {
    set x | x in s
  }

  lemma PrefixStep<T>(s: seq<T>, i: nat)
    requires i < |s|
    ensures s[..i + 1] == s[..i] + [s[i]]
  {
  }

  lemma ElemsAppend<T>(s: seq<T>, x: T)
    ensures Elems(s + [x]) == Elems(s) + {x}
  {
  }

  lemma RemoveHead<T>(s: seq<T>)
    requires s != []
    ensures multiset(s[1..]) == multiset(s) - multiset{s[0]}
  {
    assert s == [s[0]] + s[1..];
  }

  lemma Pick<T>(s: set<T>) returns (x: T)
    requires s != {}
    ensures x in s
  {
    x :| x in s;
  }

  lemma AboveAll(s: set<int>) returns (n: int)
    ensures forall i :: i in s ==> i < n
  {
    n := 0;
    if s != {} {
      var i := Pick(s);
      var rest := AboveAll(s - {i});
      n := if rest <= i then i + 1 else rest;
      assert forall j :: j in s ==> j == i || j in s - {i};
    }
  }

  /** The elements of a finite set in some order, each once: how a Go program ranges
      over the keys of a map. */
  method Enumerate<T>(s: set<T>) returns (r: seq<T>)
    ensures Elems(r) == s
    ensures forall i, j :: 0 <= i < j < |r| ==> r[i] != r[j]
  {
    var left := s;
    r := [];
    while left != {}
      invariant left <= s && Elems(r) == s - left
      invariant forall i, j :: 0 <= i < j < |r| ==> r[i] != r[j]
      decreases left
    {
      var x :| x in left;
      ElemsAppend(r, x);
      assert x !in Elems(r);
      r, left := r + [x], left - {x};
    }
  }
}
