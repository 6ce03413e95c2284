/** Order-preserving sequence operations that the table views are built from:
    row selection by a predicate (a pandas boolean mask) and the distinct
    values of a column in order of first appearance (Series.unique). */
module Seqs {

  /** `a` can be obtained from `b` by deleting elements, without reordering. */
  predicate IsSubsequence<T(==)>(a: seq<T>, b: seq<T>)
    decreases |b|
  {
    a == [] ||
    (b != [] && ((a[0] == b[0] && IsSubsequence(a[1..], b[1..])) || IsSubsequence(a, b[1..])))
  }

  /** Number of elements of `xs` that satisfy `p`. */
  function Count<T>(xs: seq<T>, p: T -> bool): nat
  {
    if xs == [] then 0 else (if p(xs[0]) then 1 else 0) + Count(xs[1..], p)
  }

  /** The rows of `xs` that satisfy `p`, in their original order. Together the
      three last postconditions pin the result down: a subsequence of `xs`
      whose every element satisfies `p` and that is as long as the number of
      satisfying elements keeps every satisfying element. */
  function Filter<T(==)>(xs: seq<T>, p: T -> bool): (r: seq<T>)
    ensures forall i :: 0 <= i < |r| ==> r[i] in xs && p(r[i])
    ensures forall i :: 0 <= i < |xs| && p(xs[i]) ==> xs[i] in r
    ensures |r| == Count(xs, p)
    ensures IsSubsequence(r, xs)
  {
    if xs == [] then []
    else
      var rest := Filter(xs[1..], p);
      assert forall i :: 1 <= i < |xs| ==> xs[i] == xs[1..][i - 1];
      if p(xs[0]) then [xs[0]] + rest else rest
  }

  /** Filtering with two predicates that agree on every element gives the same rows. */
  lemma {:induction false} FilterCongruence<T>(xs: seq<T>, p: T -> bool, q: T -> bool)
    requires forall i :: 0 <= i < |xs| ==> p(xs[i]) == q(xs[i])
    ensures Filter(xs, p) == Filter(xs, q)
  {
    if xs != [] {
      assert forall i :: 0 <= i < |xs[1..]| ==> xs[1..][i] == xs[i + 1];
      FilterCongruence(xs[1..], p, q);
    }
  }

  /** The first row of a selection is the first satisfying row of the input. */
  lemma {:induction false} FilterHead<T>(xs: seq<T>, p: T -> bool, i: nat)
    requires i < |xs| && p(xs[i])
    requires forall j :: 0 <= j < i ==> !p(xs[j])
    ensures Filter(xs, p) != [] && Filter(xs, p)[0] == xs[i]
  {
    if i > 0 {
      assert !p(xs[0]);
      assert forall j :: 0 <= j < i - 1 ==> xs[1..][j] == xs[j + 1];
      FilterHead(xs[1..], p, i - 1);
    }
  }

  /** Nothing is selected exactly when no element satisfies `p`. */
  lemma FilterEmpty<T>(xs: seq<T>, p: T -> bool)
    ensures Filter(xs, p) == [] <==> forall i :: 0 <= i < |xs| ==> !p(xs[i])
  {
    if Filter(xs, p) != [] {
      var x := Filter(xs, p)[0];
      assert x in Filter(xs, p);
      var i :| 0 <= i < |xs| && xs[i] == x;
    }
  }

  predicate Distinct<T(==)>(xs: seq<T>)
  {
    forall i, j :: 0 <= i < j < |xs| ==> xs[i] != xs[j]
  }

  /** Index of the first occurrence of `x` in `xs`. */
  function FirstIndex<T(==)>(xs: seq<T>, x: T): (k: nat)
    requires x in xs
    ensures k < |xs| && xs[k] == x
    ensures forall j :: 0 <= j < k ==> xs[j] != x
  {
    if xs[0] == x then 0
    else
      assert x in xs[1..];
      var k := 1 + FirstIndex(xs[1..], x);
      assert forall j :: 1 <= j < k ==> xs[j] == xs[1..][j - 1];
      k
  }

  /** The distinct values of `xs`, each once, in order of first appearance. */
  function Unique<T(==)>(xs: seq<T>): (r: seq<T>)
    ensures Distinct(r)
    ensures forall i :: 0 <= i < |r| ==> r[i] in xs
    ensures forall i :: 0 <= i < |xs| ==> xs[i] in r
    decreases |xs|
  {
    if xs == [] then []
    else
      var init := xs[..|xs| - 1];
      var last := xs[|xs| - 1];
      var r := Unique(init);
      assert xs == init + [last];
      if last in r then r else r + [last]
  }

  lemma FirstIndexOfPrefix<T>(xs: seq<T>, n: nat, x: T)
    requires n <= |xs| && x in xs[..n]
    ensures x in xs && FirstIndex(xs, x) == FirstIndex(xs[..n], x)
  {
    var k := FirstIndex(xs[..n], x);
    assert xs[k] == xs[..n][k] == x;
    var k' := FirstIndex(xs, x);
    assert k' <= k;
    assert xs[..n][k'] == xs[k'];
  }

  /** `Unique` lists its values in the order in which they first occur in `xs`. */
  lemma {:induction false} UniqueKeepsFirstAppearanceOrder<T>(xs: seq<T>)
    ensures forall i, j :: 0 <= i < j < |Unique(xs)| ==>
      FirstIndex(xs, Unique(xs)[i]) < FirstIndex(xs, Unique(xs)[j])
  {
    if xs != [] {
      var n := |xs| - 1;
      var init := xs[..n];
      var last := xs[n];
      var r := Unique(init);
      UniqueKeepsFirstAppearanceOrder(init);
      forall x | x in r
        ensures x in xs && FirstIndex(xs, x) == FirstIndex(init, x) < n
      {
        FirstIndexOfPrefix(xs, n, x);
      }
      if last !in r {
        assert last !in init;
        assert FirstIndex(xs, last) == n;
        assert Unique(xs) == r + [last];
      }
    }
  }
}
