/** Plain sequence facts, stated once so that long proofs need not rediscover them. */
module Sequences {
  function Elements<T(==)>(xs: seq<T>): set<T> {
    set x | x in xs
  }

  lemma Associates<T>(a: seq<T>, b: seq<T>, c: seq<T>)
    ensures (a + b) + c == a + (b + c)
  {
  }

  lemma DropOfConcat<T>(a: seq<T>, b: seq<T>)
    ensures (a + b)[..|a|] == a && (a + b)[|a|..] == b
  {
  }

  lemma SplitAt<T>(xs: seq<T>, i: nat)
    requires i < |xs|
    ensures xs == xs[..i] + [xs[i]] + xs[i + 1..]
    ensures xs[i..] == [xs[i]] + xs[i + 1..]
    ensures xs[i..][0] == xs[i] && xs[i..][1..] == xs[i + 1..]
  {
  }
}
