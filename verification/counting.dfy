/**
 * Python's `sum(1 for x in xs if p(x))` over a sequence, for any test `p`,
 * and what it means: the number of positions whose element passes the test.
 */
module Counting {

  function CountWhere<T>(xs: seq<T>, p: T -> bool): (n: nat)
    ensures n <= |xs|
  {
    if xs == [] then 0
    else CountWhere(xs[..|xs| - 1], p) + (if p(xs[|xs| - 1]) then 1 else 0)
  }

  /** The positions of the elements that pass the test. */
  ghost function IndicesWhere<T>(xs: seq<T>, p: T -> bool): set<nat> {
    set i: nat | i < |xs| && p(xs[i])
  }

  /** The passing positions of a sequence are those of its front, plus the last position when it passes. */
  lemma IndicesNext<T>(xs: seq<T>, p: T -> bool)
    requires xs != []
    ensures |xs| - 1 !in IndicesWhere(xs[..|xs| - 1], p)
    ensures IndicesWhere(xs, p)
      == IndicesWhere(xs[..|xs| - 1], p) + (if p(xs[|xs| - 1]) then {|xs| - 1} else {})
  {
    var n := |xs| - 1;
    var front := xs[..n];
    assert forall i: nat :: i in IndicesWhere(front, p) <==> i < n && p(xs[i]) by {
      assert forall i: nat :: i < n ==> front[i] == xs[i];
    }
  }

  lemma {:induction false} CountWhereIsIndexCount<T>(xs: seq<T>, p: T -> bool)
    ensures CountWhere(xs, p) == |IndicesWhere(xs, p)|
  {
    if xs != [] {
      var n := |xs| - 1;
      CountWhereIsIndexCount(xs[..n], p);
      IndicesNext(xs, p);
    }
  }

  lemma {:induction false} CountWhereAppend<T>(a: seq<T>, b: seq<T>, p: T -> bool)
    ensures CountWhere(a + b, p) == CountWhere(a, p) + CountWhere(b, p)
  {
    if b == [] {
      assert a + b == a;
    } else {
      var n := |b| - 1;
      assert (a + b)[..|a + b| - 1] == a + b[..n];
      CountWhereAppend(a, b[..n], p);
    }
  }

  lemma CountWhereZeroIff<T>(xs: seq<T>, p: T -> bool)
    ensures CountWhere(xs, p) == 0 <==> forall i :: 0 <= i < |xs| ==> !p(xs[i])
  {
    CountWhereIsIndexCount(xs, p);
    if CountWhere(xs, p) == 0 {
      assert IndicesWhere(xs, p) == {};
    } else {
      var i :| i in IndicesWhere(xs, p);
    }
  }

  /** Extending a prefix by one element adds one exactly when that element passes. */
  lemma CountWherePrefix<T>(xs: seq<T>, k: nat, p: T -> bool)
    requires k < |xs|
    ensures CountWhere(xs[..k + 1], p) == CountWhere(xs[..k], p) + (if p(xs[k]) then 1 else 0)
  {
    assert xs[..k + 1][..k] == xs[..k];
  }
}
