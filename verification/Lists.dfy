/** Keeping some elements of a list, in their order. */
module Lists {
  function Filter<T(!new)>(xs: seq<T>, keep: T -> bool): (ys: seq<T>)
    ensures |ys| <= |xs| && forall y :: y in ys <==> y in xs && keep(y)
  {
    if xs == [] then [] else (if keep(xs[0]) then [xs[0]] else []) + Filter(xs[1..], keep)
  }

  lemma {:induction false} FilterAll<T(!new)>(xs: seq<T>, keep: T -> bool)
    requires forall x :: x in xs ==> keep(x)
    ensures Filter(xs, keep) == xs
  {
    if xs != [] { FilterAll(xs[1..], keep); }
  }

  lemma {:induction false} FilterSame<T(!new)>(xs: seq<T>, keep1: T -> bool, keep2: T -> bool)
    requires forall x :: x in xs ==> keep1(x) == keep2(x)
    ensures Filter(xs, keep1) == Filter(xs, keep2)
  {
    if xs != [] { FilterSame(xs[1..], keep1, keep2); }
  }

  /** Every two elements are apart, in the order they stand in. */
  ghost predicate Apart<T(!new)>(xs: seq<T>, apart: (T, T) -> bool)
  {
    forall i, j :: 0 <= i < j < |xs| ==> apart(xs[i], xs[j])
  }

  lemma {:induction false} FilterKeepsApart<T(!new)>(xs: seq<T>, keep: T -> bool, apart: (T, T) -> bool)
    requires Apart(xs, apart)
    ensures Apart(Filter(xs, keep), apart)
  {
    if xs != [] {
      FilterKeepsApart(xs[1..], keep, apart);
      var rest := Filter(xs[1..], keep);
      forall k | 0 <= k < |rest|
        ensures apart(xs[0], rest[k])
      {
        assert rest[k] in xs[1..];
      }
    }
  }
}
