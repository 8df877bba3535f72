/** Subsequences, in the order `itertools.combinations` and a bit-mask loop enumerate them. */
module Groups {
  import opened Numbers

  predicate IsSub<T(==)>(g: seq<T>, xs: seq<T>) {
    g == [] || (xs != [] && ((g[0] == xs[0] && IsSub(g[1..], xs[1..])) || IsSub(g, xs[1..])))
  }

  function Prepend<T>(x: T, groups: seq<seq<T>>): seq<seq<T>> {
    seq(|groups|, i requires 0 <= i < |groups| => [x] + groups[i])
  }

  /** All subsequences of one length, lexicographically by position. */
  function Combinations<T>(xs: seq<T>, k: nat): seq<seq<T>> {
    if k == 0 then [[]]
    else if xs == [] then []
    else Prepend(xs[0], Combinations(xs[1..], k - 1)) + Combinations(xs[1..], k)
  }

  lemma {:induction false} CombinationsAreSubs<T>(xs: seq<T>, k: nat, i: nat)
    requires i < |Combinations(xs, k)|
    ensures |Combinations(xs, k)[i]| == k && IsSub(Combinations(xs, k)[i], xs)
  {
    if k > 0 {
      var first := Combinations(xs[1..], k - 1);
      if i < |first| {
        CombinationsAreSubs(xs[1..], k - 1, i);
        assert Combinations(xs, k)[i] == [xs[0]] + first[i];
        assert ([xs[0]] + first[i])[1..] == first[i];
      } else {
        CombinationsAreSubs(xs[1..], k, i - |first|);
      }
    }
  }

  lemma {:induction false} SubsAreCombinations<T>(g: seq<T>, xs: seq<T>) returns (i: nat)
    requires IsSub(g, xs)
    ensures i < |Combinations(xs, |g|)| && Combinations(xs, |g|)[i] == g
    decreases |xs|
  {
    if g == [] {
      i := 0;
    } else {
      var first := Combinations(xs[1..], |g| - 1);
      if g[0] == xs[0] && IsSub(g[1..], xs[1..]) {
        i := SubsAreCombinations(g[1..], xs[1..]);
        assert [xs[0]] + first[i] == g;
      } else {
        i := SubsAreCombinations(g, xs[1..]);
        i := |first| + i;
      }
    }
  }

  lemma {:induction false} SubMembers<T>(g: seq<T>, xs: seq<T>, x: T)
    requires IsSub(g, xs) && x in g
    ensures x in xs
    decreases |xs|
  {
    if g[0] == xs[0] && IsSub(g[1..], xs[1..]) {
      if x != g[0] {
        SubMembers(g[1..], xs[1..], x);
      }
    } else {
      SubMembers(g, xs[1..], x);
    }
  }

  lemma {:induction false} SubLength<T>(g: seq<T>, xs: seq<T>)
    requires IsSub(g, xs)
    ensures |g| <= |xs|
    decreases |xs|
  {
    if g != [] {
      if g[0] == xs[0] && IsSub(g[1..], xs[1..]) {
        SubLength(g[1..], xs[1..]);
      } else {
        SubLength(g, xs[1..]);
      }
    }
  }

  lemma {:induction false} TailIsSub<T>(g: seq<T>, xs: seq<T>)
    requires g != [] && IsSub(g, xs)
    ensures IsSub(g[1..], xs)
    decreases |xs|
  {
    if g[0] == xs[0] && IsSub(g[1..], xs[1..]) {
      if g[1..] != [] {
        assert IsSub(g[1..], xs[1..]);
      }
    } else {
      TailIsSub(g, xs[1..]);
      if g[1..] != [] {
        assert IsSub(g[1..], xs[1..]);
      }
    }
  }

  /** Leaving one member out of a subsequence leaves a subsequence. */
  lemma {:induction false} RemoveIsSub<T>(g: seq<T>, xs: seq<T>, i: nat)
    requires i < |g| && IsSub(g, xs)
    ensures IsSub(g[..i] + g[i + 1..], xs)
    decreases |xs|
  {
    var rest := g[..i] + g[i + 1..];
    if i == 0 {
      assert rest == g[1..];
      TailIsSub(g, xs);
    } else if g[0] == xs[0] && IsSub(g[1..], xs[1..]) {
      RemoveIsSub(g[1..], xs[1..], i - 1);
      assert g[1..][..i - 1] + g[1..][i..] == rest[1..];
    } else {
      RemoveIsSub(g, xs[1..], i);
    }
  }

  // ----- Bit masks

  /** The mask without its lowest bits. */
  function ShiftRight(mask: nat, index: nat): nat {
    if index == 0 then mask else ShiftRight(mask / 2, index - 1)
  }

  /** The elements from `index` on whose bit in the mask is set. */
  function PickFrom<T>(xs: seq<T>, mask: nat, index: nat): seq<T>
    requires index <= |xs|
    decreases |xs| - index
  {
    if index == |xs| then []
    else (if ShiftRight(mask, index) % 2 == 1 then [xs[index]] else []) + PickFrom(xs, mask, index + 1)
  }

  function Pick<T>(xs: seq<T>, mask: nat): seq<T> {
    PickFrom(xs, mask, 0)
  }

  lemma {:induction false} PickFromTail<T>(xs: seq<T>, mask: nat, index: nat)
    requires index < |xs|
    ensures PickFrom(xs, mask, index + 1) == PickFrom(xs[1..], mask / 2, index)
    decreases |xs| - index
  {
    if index + 1 < |xs| {
      assert xs[1..][index] == xs[index + 1];
      PickFromTail(xs, mask, index + 1);
    }
  }

  lemma {:induction false} PickIsSub<T>(xs: seq<T>, mask: nat)
    ensures IsSub(Pick(xs, mask), xs)
  {
    if xs != [] {
      PickFromTail(xs, mask, 0);
      PickIsSub(xs[1..], mask / 2);
      if mask % 2 == 1 {
        assert Pick(xs, mask) == [xs[0]] + Pick(xs[1..], mask / 2);
        assert Pick(xs, mask)[1..] == Pick(xs[1..], mask / 2);
      } else {
        assert Pick(xs, mask) == Pick(xs[1..], mask / 2);
      }
    }
  }

  /** Every subsequence is picked by some mask in the range the loop covers. */
  lemma {:induction false} SubsArePicked<T>(g: seq<T>, xs: seq<T>) returns (mask: nat)
    requires IsSub(g, xs)
    ensures mask < Pow2(|xs|) && Pick(xs, mask) == g
    ensures g != [] ==> 1 <= mask
    decreases |xs|
  {
    if xs == [] {
      mask := 0;
    } else if g != [] && g[0] == xs[0] && IsSub(g[1..], xs[1..]) {
      var rest := SubsArePicked(g[1..], xs[1..]);
      mask := 1 + 2 * rest;
      PickFromTail(xs, mask, 0);
      assert g == [xs[0]] + g[1..];
    } else {
      var rest := SubsArePicked(g, xs[1..]);
      mask := 2 * rest;
      PickFromTail(xs, mask, 0);
    }
  }
}
