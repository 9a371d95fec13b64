/** Small shared vocabulary: an optional value and duplicate-freedom of a sequence. */
module Util {

  datatype Option<T> = None | Some(value: T)

  /** No element of `s` occurs twice. */
  predicate NoDup<T(==)>(s: seq<T>) {
    forall i, j :: 0 <= i < j < |s| ==> s[i] != s[j]
  }

  /** Appending an element that is not yet present keeps a sequence duplicate-free. */
  lemma NoDupSnoc<T>(s: seq<T>, x: T)
    requires NoDup(s) && x !in s
    ensures NoDup(s + [x])
  {
    forall i, j | 0 <= i < j < |s + [x]| ensures (s + [x])[i] != (s + [x])[j] {
      if j == |s| {
        assert s[i] in s;
      }
    }
  }

  /** The second part of a duplicate-free concatenation is duplicate-free and shares nothing with the first. */
  lemma NoDupAppend<T>(a: seq<T>, b: seq<T>)
    requires NoDup(a + b)
    ensures NoDup(b)
    ensures forall x :: x in b ==> x !in a
  {
    forall i, j | 0 <= i < j < |b|
      ensures b[i] != b[j]
    {
      assert (a + b)[|a| + i] == b[i] && (a + b)[|a| + j] == b[j];
    }
    forall x | x in b
      ensures x !in a
    {
      var j :| 0 <= j < |b| && b[j] == x;
      assert (a + b)[|a| + j] == x;
      forall i | 0 <= i < |a|
        ensures a[i] != x
      {
        assert (a + b)[i] == a[i];
      }
    }
  }
}
