/** Sums over sequences. */
module Sums {
  import opened Sequences
  import opened Sorting

  function Sum<T>(xs: seq<T>, f: T -> int): int {
    if xs == [] then 0 else Sum(xs[..|xs| - 1], f) + f(xs[|xs| - 1])
  }

  lemma {:induction false} SumOfConcat<T>(xs: seq<T>, ys: seq<T>, f: T -> int)
    ensures Sum(xs + ys, f) == Sum(xs, f) + Sum(ys, f)
  {
    if ys == [] {
      assert xs + ys == xs;
    } else {
      var n := |ys| - 1;
      assert (xs + ys)[..|xs| + n] == xs + ys[..n];
      SumOfConcat(xs, ys[..n], f);
    }
  }

  lemma SumOfOne<T>(x: T, f: T -> int)
    ensures Sum([x], f) == f(x)
  {
    assert [x][..0] == [];
  }

  lemma SumOfThree<T>(a: seq<T>, x: T, b: seq<T>, f: T -> int)
    ensures Sum(a + [x] + b, f) == Sum(a + b, f) + f(x)
  {
    SumOfConcat(a, b, f);
    SumOfConcat(a, [x], f);
    SumOfConcat(a + [x], b, f);
    SumOfOne(x, f);
  }

  lemma SumWithout<T>(xs: seq<T>, i: nat, f: T -> int)
    requires i < |xs|
    ensures Sum(xs, f) == Sum(xs[..i] + xs[i + 1..], f) + f(xs[i])
  {
    hide Sum;
    SplitAt(xs, i);
    SumOfThree(xs[..i], xs[i], xs[i + 1..], f);
  }

  lemma MultisetWithout<T>(xs: seq<T>, i: nat)
    requires i < |xs|
    ensures multiset(xs[..i] + xs[i + 1..]) == multiset(xs) - multiset{xs[i]}
  {
    SplitAt(xs, i);
  }

  /** A sum does not depend on the order. */
  lemma {:induction false} SumPermutes<T>(xs: seq<T>, ys: seq<T>, f: T -> int)
    requires multiset(xs) == multiset(ys)
    ensures Sum(xs, f) == Sum(ys, f)
    decreases |xs|
  {
    assert |multiset(xs)| == |xs| && |multiset(ys)| == |ys|;
    if xs != [] {
      var n := |xs| - 1;
      assert xs[n] in multiset(ys);
      var i :| 0 <= i < |ys| && ys[i] == xs[n];
      MultisetWithout(xs, n);
      MultisetWithout(ys, i);
      SumWithout(xs, n, f);
      SumWithout(ys, i, f);
      SumPermutes(xs[..n] + xs[n + 1..], ys[..i] + ys[i + 1..], f);
    }
  }

  /** Replacing one element changes the sum by the difference of its terms. */
  lemma SumOfUpdate<T>(xs: seq<T>, i: nat, x: T, f: T -> int)
    requires i < |xs|
    ensures Sum(xs[i := x], f) == Sum(xs, f) - f(xs[i]) + f(x)
  {
    SumWithout(xs, i, f);
    SumWithout(xs[i := x], i, f);
    assert xs[i := x][..i] == xs[..i] && xs[i := x][i + 1..] == xs[i + 1..];
  }

  /** Terms that are pointwise no larger sum to no more, and to the same only if all are equal. */
  lemma {:induction false} SumIsMonotone<T(!new)>(xs: seq<T>, f: T -> int, g: T -> int)
    requires forall x :: x in xs ==> f(x) <= g(x)
    ensures Sum(xs, f) <= Sum(xs, g)
    ensures Sum(xs, f) == Sum(xs, g) <==> forall x :: x in xs ==> f(x) == g(x)
  {
    if xs != [] {
      var n := |xs| - 1;
      assert xs == xs[..n] + [xs[n]];
      SumIsMonotone(xs[..n], f, g);
    }
  }

  /** Elements whose term is zero can be left out. */
  lemma {:induction false} SumOfFilter<T(!new)>(xs: seq<T>, keep: T -> bool, f: T -> int)
    requires forall x :: x in xs && !keep(x) ==> f(x) == 0
    ensures Sum(Filter(xs, keep), f) == Sum(xs, f)
  {
    if xs != [] {
      var x, rest := xs[0], xs[1..];
      assert xs == [x] + rest;
      SumOfFilter(rest, keep, f);
      SumOfConcat([x], rest, f);
      SumOfConcat([x], Filter(rest, keep), f);
      SumOfOne(x, f);
      assert Filter(xs, keep) == if keep(x) then [x] + Filter(rest, keep) else Filter(rest, keep);
    }
  }
}
