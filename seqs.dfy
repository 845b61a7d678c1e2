/** Facts about sequences: order-preserving subsequences and `Array.prototype.filter`. */
module Seqs {

  /** `xs` is an order-preserving subsequence of `ys` (what `Array.prototype.filter` returns). */
  predicate Subsequence<T(==)>(xs: seq<T>, ys: seq<T>)
    decreases |ys|
  {
    if xs == [] then true
    else if ys == [] then false
    else (xs[0] == ys[0] && Subsequence(xs[1..], ys[1..])) || Subsequence(xs, ys[1..])
  }

  /** No element occurs twice. */
  predicate Distinct<T(==)>(xs: seq<T>)
  {
    forall i, j :: 0 <= i < j < |xs| ==> xs[i] != xs[j]
  }

  /** Strictly ascending integers. */
  predicate StrictlyAscending(xs: seq<int>)
  {
    forall i, j :: 0 <= i < j < |xs| ==> xs[i] < xs[j]
  }

  /** `Array.prototype.filter`: the elements that `keep` accepts, in order. */
  function Filter<T(!new)>(xs: seq<T>, keep: T -> bool): (r: seq<T>)
    ensures forall x :: x in r <==> x in xs && keep(x)
    ensures Subsequence(r, xs)
  {
    if xs == [] then []
    else if keep(xs[0]) then [xs[0]] + Filter(xs[1..], keep)
    else Filter(xs[1..], keep)
  }

  /** What `keep` accepts and what `drop` accepts split `xs` when every element is accepted by exactly one. */
  lemma {:induction false} FilterPartition<T(!new)>(xs: seq<T>, keep: T -> bool, drop: T -> bool)
    requires forall x :: x in xs ==> keep(x) != drop(x)
    ensures multiset(Filter(xs, keep)) + multiset(Filter(xs, drop)) == multiset(xs)
  {
    if xs != [] {
      FilterPartition(xs[1..], keep, drop);
      assert xs == [xs[0]] + xs[1..];
    }
  }

  /** Filtering twice is filtering once with both tests. */
  lemma {:induction false} FilterTwice<T(!new)>(xs: seq<T>, outer: T -> bool, inner: T -> bool, both: T -> bool)
    requires forall x :: x in xs ==> both(x) == (inner(x) && outer(x))
    ensures Filter(Filter(xs, inner), outer) == Filter(xs, both)
  {
    if xs != [] {
      FilterTwice(xs[1..], outer, inner, both);
    }
  }
}
