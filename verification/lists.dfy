/** Order-keeping filters over sequences: the shape of the source's list
    comprehensions `[p for p in xs if keep(p)]`. */
module Lists {

  /** `a` is `b` with some elements left out and the order kept. */
  predicate IsSubsequence<T(==)>(a: seq<T>, b: seq<T>)
    decreases |b|
  {
    if a == [] then true
    else if b == [] then false
    else (a[0] == b[0] && IsSubsequence(a[1..], b[1..])) || IsSubsequence(a, b[1..])
  }

  /** The elements of `xs` that `keep` accepts, in order: a subsequence of `xs`
      holding every occurrence of an accepted value and none of the others. */
  function Filter<T(==,!new)>(keep: T -> bool, xs: seq<T>): (r: seq<T>)
    ensures IsSubsequence(r, xs)
    ensures forall x :: multiset(r)[x] == if keep(x) then multiset(xs)[x] else 0
    decreases |xs|
  {
    if xs == [] then []
    else
      var rest := Filter(keep, xs[1..]);
      assert xs == [xs[0]] + xs[1..];
      if keep(xs[0]) then [xs[0]] + rest else rest
  }

  /** One step of the filter, taken at the head of a non-empty sequence. */
  lemma FilterUnfold<T(!new)>(keep: T -> bool, xs: seq<T>)
    requires xs != []
    ensures Filter(keep, xs) == (if keep(xs[0]) then [xs[0]] else []) + Filter(keep, xs[1..])
  {
  }

  /** The filter on a two-element sequence, element by element. */
  lemma FilterOfTwo<T(!new)>(keep: T -> bool, a: T, b: T)
    ensures Filter(keep, [a, b]) == (if keep(a) then [a] else []) + (if keep(b) then [b] else [])
  {
    assert [a, b][1..] == [b];
    FilterUnfold(keep, [a, b]);
    FilterUnfold(keep, [b]);
    assert Filter(keep, [b][1..]) == [];
  }

  /** The filter keeps nothing exactly when no element is accepted. */
  lemma FilterEmpty<T(!new)>(keep: T -> bool, xs: seq<T>)
    ensures Filter(keep, xs) == [] <==> forall i :: 0 <= i < |xs| ==> !keep(xs[i])
  {
    var r := Filter(keep, xs);
    if r == [] {
      forall i | 0 <= i < |xs|
        ensures !keep(xs[i])
      {
        assert xs[i] in multiset(xs);
      }
    } else {
      assert r[0] in multiset(r);
    }
  }

  /** A filter and its complement split the sequence between them. */
  lemma {:induction false} FilterPartition<T(!new)>(keep: T -> bool, drop: T -> bool, xs: seq<T>)
    requires forall x :: drop(x) <==> !keep(x)
    ensures |Filter(keep, xs)| + |Filter(drop, xs)| == |xs|
    decreases |xs|
  {
    if xs != [] {
      FilterPartition(keep, drop, xs[1..]);
    }
  }
}
