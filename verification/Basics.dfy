/** Small value types and sequence facts shared by the other modules. */
module Basics {

  datatype Option<+T> = None | Some(value: T)

  datatype Result<+T, +E> = Ok(value: T) | Err(error: E)

  /** No element of `s` occurs twice. */
  ghost predicate NoDup<T>(s: seq<T>) {
    forall i, j :: 0 <= i < j < |s| ==> s[i] != s[j]
  }

  /** `a` occurs in `s`, and `b` occurs at some earlier position. */
  ghost predicate Precedes<T>(s: seq<T>, b: T, a: T) {
    exists i, j :: 0 <= i < j < |s| && s[i] == b && s[j] == a
  }

  function Elements<T>(s: seq<T>): set<T> {
    set x | x in s
  }

  /** A duplicate-free sequence has as many elements as its set of elements. */
  lemma {:induction false} NoDupCardinality<T>(s: seq<T>)
    requires NoDup(s)
    ensures |Elements(s)| == |s|
  {
    if s != [] {
      var init := s[..|s| - 1];
      NoDupCardinality(init);
      assert Elements(s) == Elements(init) + {s[|s| - 1]};
    }
  }

  lemma SubsetCardinality<T>(a: set<T>, b: set<T>)
    requires a <= b
    ensures |a| <= |b|
  {
    assert b == a + (b - a);
  }

  /** Keeps the first occurrence of every element. */
  function Uniq<T(==, !new)>(s: seq<T>): (r: seq<T>)
    ensures forall x :: x in r <==> x in s
  {
    if s == [] then []
    else
      var init := Uniq(s[..|s| - 1]);
      var last := s[|s| - 1];
      if last in init then init else init + [last]
  }

  lemma {:induction false} UniqNoDup<T(!new)>(s: seq<T>)
    ensures NoDup(Uniq(s))
  {
    if s != [] {
      UniqNoDup(s[..|s| - 1]);
    }
  }
}
