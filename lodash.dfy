/**
 The two array helpers the class matcher imports from lodash, on sequences.
 Both compare elements with SameValueZero, which for strings is plain equality.
 */
module Lodash {

  /** `r` can be obtained from `a` by deleting elements: the order of `a` is kept. */
  ghost predicate IsSubsequence(r: seq<string>, a: seq<string>) {
    r == [] || (a != [] && ((r[0] == a[0] && IsSubsequence(r[1..], a[1..])) || IsSubsequence(r, a[1..])))
  }

  /** Every element of `a` is an element of `b`. */
  predicate AllIn(a: seq<string>, b: seq<string>) {
    forall x :: x in a ==> x in b
  }

  /** No element of `a` is an element of `b`. */
  predicate NoneIn(a: seq<string>, b: seq<string>) {
    forall x :: x in a ==> x !in b
  }

  predicate NoDuplicates(s: seq<string>) {
    forall i, j :: 0 <= i < j < |s| ==> s[i] != s[j]
  }

  /** The index of the first occurrence of `x` in `a`. */
  function FirstIndex(a: seq<string>, x: string): (k: nat)
    requires x in a
    ensures k < |a| && a[k] == x && x !in a[..k]
  {
    if a[0] == x then 0 else 1 + FirstIndex(a[1..], x)
  }

  /**
   `difference(a, b)`: the elements of `a` that are not in `b`, in the order
   of `a`, each as often as it occurs in `a`.
   */
  function Difference(a: seq<string>, b: seq<string>): (r: seq<string>)
    ensures forall x :: x in r <==> x in a && x !in b
    ensures forall x :: multiset(r)[x] == if x in b then 0 else multiset(a)[x]
    ensures IsSubsequence(r, a)
  {
    if a == [] then []
    else
      var rest := Difference(a[1..], b);
      assert a == [a[0]] + a[1..];
      if a[0] in b then rest else [a[0]] + rest
  }

  /**
   `intersection(a, b)`: the elements of `a` that are also in `b`, each once,
   in the order of their first occurrence in `a`.
   */
  function Intersection(a: seq<string>, b: seq<string>): (r: seq<string>)
    ensures forall x :: x in r <==> x in a && x in b
    ensures NoDuplicates(r)
  {
    if a == [] then []
    else
      var r := Intersection(a[..|a| - 1], b);
      var x := a[|a| - 1];
      assert a == a[..|a| - 1] + [x];
      if x in b && x !in r then r + [x] else r
  }

  /** The difference is empty exactly when every element of `a` is in `b`. */
  lemma DifferenceEmpty(a: seq<string>, b: seq<string>)
    ensures Difference(a, b) == [] <==> AllIn(a, b)
  {
    var r := Difference(a, b);
    if r != [] {
      assert r[0] in r;
    }
  }

  /** The intersection is empty exactly when no element of `a` is in `b`. */
  lemma IntersectionEmpty(a: seq<string>, b: seq<string>)
    ensures Intersection(a, b) == [] <==> NoneIn(a, b)
  {
    var r := Intersection(a, b);
    if r != [] {
      assert r[0] in r;
    }
  }

  lemma {:induction false} FirstIndexInPrefix(a: seq<string>, y: string)
    requires a != [] && y in a[..|a| - 1]
    ensures FirstIndex(a, y) == FirstIndex(a[..|a| - 1], y)
  {
    var p := a[..|a| - 1];
    assert p[0] == a[0];
    if a[0] != y {
      assert p == [p[0]] + p[1..];
      assert y in p[1..];
      assert a[1..][..|a| - 2] == p[1..];
      FirstIndexInPrefix(a[1..], y);
    }
  }

  lemma FirstIndexOfLast(a: seq<string>)
    requires a != [] && a[|a| - 1] !in a[..|a| - 1]
    ensures FirstIndex(a, a[|a| - 1]) == |a| - 1
  {
  }

  /** The intersection lists its elements in the order they first appear in `a`. */
  lemma {:induction false} IntersectionOrder(a: seq<string>, b: seq<string>)
    ensures forall i, j :: 0 <= i < j < |Intersection(a, b)| ==>
      FirstIndex(a, Intersection(a, b)[i]) < FirstIndex(a, Intersection(a, b)[j])
  {
    if a != [] {
      var p := a[..|a| - 1];
      var x := a[|a| - 1];
      var r := Intersection(p, b);
      IntersectionOrder(p, b);
      forall y | y in r ensures FirstIndex(a, y) == FirstIndex(p, y) {
        FirstIndexInPrefix(a, y);
      }
      if x in b && x !in r {
        FirstIndexOfLast(a);
        var r' := r + [x];
        assert r' == Intersection(a, b);
        forall i, j | 0 <= i < j < |r'| ensures FirstIndex(a, r'[i]) < FirstIndex(a, r'[j]) {
          assert r'[i] in r' && r'[j] in r';
          assert r'[i] == r[i];
          if j < |r| {
            assert r'[j] == r[j];
          }
        }
      }
    }
  }
}
