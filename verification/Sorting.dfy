/** Python's ordering of strings, byte strings and tuples of them, and its stable `sorted`. Text is
    a sequence of code points and bytes are a sequence of numbers, so one lexicographic order serves. */
module Sorting {
  import opened Sequences

  type Key = seq<int>

  /** The sort key of what is its own key. */
  function Itself(k: Key): Key {
    k
  }

  predicate Lt(a: Key, b: Key) {
    b != [] && (a == [] || a[0] < b[0] || (a[0] == b[0] && Lt(a[1..], b[1..])))
  }

  /** Equal before position `i`, and there the first ends or has the smaller element. */
  ghost predicate SmallerAt(a: Key, b: Key, i: nat) {
    i <= |a| && i < |b| && a[..i] == b[..i] && (i == |a| || a[i] < b[i])
  }

  lemma SameStart(a: Key, b: Key, i: nat)
    requires SmallerAt(a, b, i) && i > 0
    ensures a != [] && b != [] && a[0] == b[0]
  {
    assert a[..i][0] == a[0] && b[..i][0] == b[0];
  }

  /** Lexicographic order: a proper prefix comes first, else the first difference decides. */
  lemma {:induction false} LtIff(a: Key, b: Key)
    ensures Lt(a, b) <==> exists i: nat :: SmallerAt(a, b, i)
  {
    if a != [] && b != [] && a[0] == b[0] {
      LtIff(a[1..], b[1..]);
      if i: nat :| SmallerAt(a[1..], b[1..], i) {
        assert a[..i + 1] == [a[0]] + a[1..][..i] && b[..i + 1] == [b[0]] + b[1..][..i];
        assert SmallerAt(a, b, i + 1);
      }
      if i: nat :| SmallerAt(a, b, i) {
        assert i > 0;
        assert a[1..][..i - 1] == a[..i][1..] && b[1..][..i - 1] == b[..i][1..];
        assert SmallerAt(a[1..], b[1..], i - 1);
      }
    } else {
      assert Lt(a, b) ==> SmallerAt(a, b, 0);
      forall i: nat | SmallerAt(a, b, i) ensures Lt(a, b) {
        if i > 0 {
          SameStart(a, b, i);
        }
      }
    }
  }

  lemma {:induction false} LtIrreflexive(a: Key)
    ensures !Lt(a, a)
  {
    if a != [] {
      LtIrreflexive(a[1..]);
    }
  }

  lemma {:induction false} LtTransitive(a: Key, b: Key, c: Key)
    requires Lt(a, b) && Lt(b, c)
    ensures Lt(a, c)
  {
    if a != [] && a[0] == b[0] && b[0] == c[0] {
      LtTransitive(a[1..], b[1..], c[1..]);
    }
  }

  lemma {:induction false} LtTotal(a: Key, b: Key)
    ensures Lt(a, b) || a == b || Lt(b, a)
  {
    if a != [] && b != [] && a[0] == b[0] {
      LtTotal(a[1..], b[1..]);
      if a[1..] == b[1..] {
        assert a == [a[0]] + a[1..] && b == [b[0]] + b[1..];
      }
    }
  }

  lemma LtAsymmetric(a: Key, b: Key)
    requires Lt(a, b)
    ensures !Lt(b, a)
  {
    if Lt(b, a) {
      LtTransitive(a, b, a);
      LtIrreflexive(a);
    }
  }

  /** With `b` somewhere between, a strict step from `a` to `c` must be strict on one side. */
  lemma LtSplits(a: Key, b: Key, c: Key)
    requires Lt(a, c)
    ensures Lt(a, b) || Lt(b, c)
  {
    LtTotal(a, b);
    if Lt(b, a) {
      LtTransitive(b, a, c);
    }
  }

  /** `x` sorts strictly before `y` by this key, in ascending or in reverse order. */
  predicate Before<T>(x: T, y: T, key: T -> Key, reverse: bool) {
    if reverse then Lt(key(y), key(x)) else Lt(key(x), key(y))
  }

  function Insert<T>(x: T, ys: seq<T>, key: T -> Key, reverse: bool): seq<T> {
    if ys == [] then [x]
    else if Before(ys[0], x, key, reverse) then [ys[0]] + Insert(x, ys[1..], key, reverse)
    else [x] + ys
  }

  /** Sorted by the key; equal keys keep the order they came in, also in reverse. */
  function Sorted<T>(xs: seq<T>, key: T -> Key, reverse: bool): seq<T> {
    if xs == [] then [] else Insert(xs[0], Sorted(xs[1..], key, reverse), key, reverse)
  }

  predicate InOrder<T>(xs: seq<T>, key: T -> Key, reverse: bool) {
    forall i, j :: 0 <= i < j < |xs| ==> !Before(xs[j], xs[i], key, reverse)
  }

  predicate StrictlyInOrder<T>(xs: seq<T>, key: T -> Key, reverse: bool) {
    forall i, j :: 0 <= i < j < |xs| ==> Before(xs[i], xs[j], key, reverse)
  }

  predicate DistinctKeys<T>(xs: seq<T>, key: T -> Key) {
    forall i, j :: 0 <= i < j < |xs| ==> key(xs[i]) != key(xs[j])
  }

  lemma {:induction false} InsertPermutes<T(!new)>(x: T, ys: seq<T>, key: T -> Key, reverse: bool)
    ensures multiset(Insert(x, ys, key, reverse)) == multiset([x]) + multiset(ys)
  {
    if ys != [] {
      assert ys == [ys[0]] + ys[1..];
      if Before(ys[0], x, key, reverse) {
        InsertPermutes(x, ys[1..], key, reverse);
      }
    }
  }

  lemma {:induction false} SortedPermutes<T(!new)>(xs: seq<T>, key: T -> Key, reverse: bool)
    ensures multiset(Sorted(xs, key, reverse)) == multiset(xs)
    ensures |Sorted(xs, key, reverse)| == |xs|
    ensures forall x :: x in Sorted(xs, key, reverse) <==> x in xs
  {
    var sorted := Sorted(xs, key, reverse);
    if xs != [] {
      assert xs == [xs[0]] + xs[1..];
      SortedPermutes(xs[1..], key, reverse);
      InsertPermutes(xs[0], Sorted(xs[1..], key, reverse), key, reverse);
    }
    assert multiset(sorted) == multiset(xs);
    assert |multiset(sorted)| == |sorted| && |multiset(xs)| == |xs|;
    forall x ensures x in sorted <==> x in xs {
      assert x in sorted <==> x in multiset(sorted);
      assert x in xs <==> x in multiset(xs);
    }
  }

  lemma {:induction false} InsertKeepsOrder<T(!new)>(x: T, ys: seq<T>, key: T -> Key, reverse: bool)
    requires InOrder(ys, key, reverse)
    ensures InOrder(Insert(x, ys, key, reverse), key, reverse)
  {
    var zs := Insert(x, ys, key, reverse);
    if ys != [] && Before(ys[0], x, key, reverse) {
      InsertKeepsOrder(x, ys[1..], key, reverse);
      InsertPermutes(x, ys[1..], key, reverse);
      var tail := Insert(x, ys[1..], key, reverse);
      forall i, j | 0 <= i < j < |zs| ensures !Before(zs[j], zs[i], key, reverse) {
        if i == 0 {
          assert zs[j] == tail[j - 1] && tail[j - 1] in multiset(tail);
          if zs[j] == x {
            if Before(x, ys[0], key, reverse) {
              if reverse { LtAsymmetric(key(x), key(ys[0])); } else { LtAsymmetric(key(ys[0]), key(x)); }
            }
          } else {
            assert zs[j] in multiset(ys[1..]);
            var k :| 0 <= k < |ys[1..]| && ys[1..][k] == zs[j];
            assert ys[k + 1] == zs[j];
          }
        } else {
          assert zs[i] == tail[i - 1] && zs[j] == tail[j - 1];
        }
      }
    } else if ys != [] {
      forall i, j | 0 <= i < j < |zs| ensures !Before(zs[j], zs[i], key, reverse) {
        if i == 0 {
          if Before(zs[j], x, key, reverse) {
            assert zs[j] == ys[j - 1];
            var a, b, c := key(zs[j]), key(ys[0]), key(x);
            if reverse { LtSplits(c, b, a); } else { LtSplits(a, b, c); }
            LtIrreflexive(a);
            assert false;
          }
        } else {
          assert zs[i] == ys[i - 1] && zs[j] == ys[j - 1];
        }
      }
    }
  }

  lemma {:induction false} SortedIsInOrder<T(!new)>(xs: seq<T>, key: T -> Key, reverse: bool)
    ensures InOrder(Sorted(xs, key, reverse), key, reverse)
  {
    if xs != [] {
      SortedIsInOrder(xs[1..], key, reverse);
      InsertKeepsOrder(xs[0], Sorted(xs[1..], key, reverse), key, reverse);
    }
  }

  /** With pairwise different keys the sorted sequence is strictly ordered. */
  lemma SortedIsStrict<T(!new)>(xs: seq<T>, key: T -> Key, reverse: bool)
    requires DistinctKeys(xs, key)
    ensures StrictlyInOrder(Sorted(xs, key, reverse), key, reverse)
  {
    SortedIsInOrder(xs, key, reverse);
    SortedKeysDiffer(xs, key, reverse);
    var ys := Sorted(xs, key, reverse);
    forall i, j | 0 <= i < j < |ys| ensures Before(ys[i], ys[j], key, reverse) {
      LtTotal(key(ys[i]), key(ys[j]));
      assert !Before(ys[j], ys[i], key, reverse);
    }
  }

  lemma {:induction false} InsertKeysDiffer<T(!new)>(x: T, ys: seq<T>, key: T -> Key, reverse: bool)
    requires DistinctKeys(ys, key)
    requires forall i :: 0 <= i < |ys| ==> key(ys[i]) != key(x)
    ensures DistinctKeys(Insert(x, ys, key, reverse), key)
  {
    if ys != [] && Before(ys[0], x, key, reverse) {
      var tail := Insert(x, ys[1..], key, reverse);
      InsertKeysDiffer(x, ys[1..], key, reverse);
      forall i | 0 <= i < |tail| ensures key(tail[i]) != key(ys[0]) {
        InsertedAt(x, ys[1..], key, reverse, i);
      }
      FirstKeyDiffers(ys[0], tail, key);
    } else {
      FirstKeyDiffers(x, ys, key);
    }
  }

  lemma InsertedAt<T(!new)>(x: T, ys: seq<T>, key: T -> Key, reverse: bool, i: nat)
    requires i < |Insert(x, ys, key, reverse)|
    ensures Insert(x, ys, key, reverse)[i] == x || Insert(x, ys, key, reverse)[i] in ys
  {
    InsertPermutes(x, ys, key, reverse);
    assert Insert(x, ys, key, reverse)[i] in multiset(Insert(x, ys, key, reverse));
  }

  lemma FirstKeyDiffers<T(!new)>(x: T, ys: seq<T>, key: T -> Key)
    requires DistinctKeys(ys, key)
    requires forall i :: 0 <= i < |ys| ==> key(ys[i]) != key(x)
    ensures DistinctKeys([x] + ys, key)
  {
  }

  lemma {:induction false} SortedKeysDiffer<T(!new)>(xs: seq<T>, key: T -> Key, reverse: bool)
    requires DistinctKeys(xs, key)
    ensures DistinctKeys(Sorted(xs, key, reverse), key)
  {
    if xs != [] {
      var tail := Sorted(xs[1..], key, reverse);
      SortedKeysDiffer(xs[1..], key, reverse);
      SortedPermutes(xs[1..], key, reverse);
      forall i | 0 <= i < |tail| ensures key(tail[i]) != key(xs[0]) {
        assert tail[i] in tail && tail[i] in xs[1..];
        var k :| 0 <= k < |xs[1..]| && xs[1..][k] == tail[i];
        assert xs[k + 1] == tail[i];
      }
      InsertKeysDiffer(xs[0], tail, key, reverse);
    }
  }

  /** A strictly ordered sequence is determined by its elements. */
  lemma {:induction false} StrictOrderIsUnique<T(!new)>(xs: seq<T>, ys: seq<T>, key: T -> Key, reverse: bool)
    requires StrictlyInOrder(xs, key, reverse) && StrictlyInOrder(ys, key, reverse)
    requires forall x :: x in xs <==> x in ys
    ensures xs == ys
  {
    assert ys == [] || ys[0] in ys;
    assert xs == [] || xs[0] in xs;
    if xs != [] {
      StrictHeadsAgree(xs, ys, key, reverse);
      forall x ensures x in xs[1..] <==> x in ys[1..] {
        StrictTail(xs, x, key, reverse);
        StrictTail(ys, x, key, reverse);
      }
      StrictOrderIsUnique(xs[1..], ys[1..], key, reverse);
      assert xs == [xs[0]] + xs[1..] && ys == [ys[0]] + ys[1..];
    }
  }

  lemma StrictTail<T(!new)>(xs: seq<T>, x: T, key: T -> Key, reverse: bool)
    requires xs != [] && StrictlyInOrder(xs, key, reverse)
    ensures x in xs[1..] <==> x in xs && x != xs[0]
  {
    LtIrreflexive(key(x));
    if x in xs && x != xs[0] {
      var k :| 0 <= k < |xs| && xs[k] == x;
      assert xs[1..][k - 1] == x;
    }
  }

  lemma StrictHeadsAgree<T(!new)>(xs: seq<T>, ys: seq<T>, key: T -> Key, reverse: bool)
    requires xs != [] && ys != []
    requires StrictlyInOrder(xs, key, reverse) && StrictlyInOrder(ys, key, reverse)
    requires forall x :: x in xs <==> x in ys
    ensures xs[0] == ys[0]
  {
    assert xs[0] in xs && ys[0] in ys;
    assert xs[0] in ys && ys[0] in xs;
    var i :| 0 <= i < |ys| && ys[i] == xs[0];
    var j :| 0 <= j < |xs| && xs[j] == ys[0];
    if i != 0 && j != 0 {
      assert Before(xs[0], xs[j], key, reverse) && Before(ys[0], ys[i], key, reverse);
      var a, b := key(xs[0]), key(ys[0]);
      if reverse { LtAsymmetric(b, a); } else { LtAsymmetric(a, b); }
      assert false;
    }
  }

  function Filter<T>(xs: seq<T>, keep: T -> bool): seq<T> {
    if xs == [] then []
    else (if keep(xs[0]) then [xs[0]] else []) + Filter(xs[1..], keep)
  }

  lemma {:induction false} FilterMembers<T(!new)>(xs: seq<T>, keep: T -> bool)
    ensures forall x :: x in Filter(xs, keep) <==> x in xs && keep(x)
  {
    if xs != [] {
      assert xs == [xs[0]] + xs[1..];
      FilterMembers(xs[1..], keep);
    }
  }

  lemma {:induction false} FilterConcat<T(!new)>(xs: seq<T>, ys: seq<T>, keep: T -> bool)
    ensures Filter(xs + ys, keep) == Filter(xs, keep) + Filter(ys, keep)
  {
    if xs == [] {
      assert xs + ys == ys;
    } else {
      var first := if keep(xs[0]) then [xs[0]] else [];
      FilterConcat(xs[1..], ys, keep);
      assert (xs + ys)[0] == xs[0] && (xs + ys)[1..] == xs[1..] + ys;
      assert Filter(xs + ys, keep) == first + Filter(xs[1..] + ys, keep);
      Associates(first, Filter(xs[1..], keep), Filter(ys, keep));
    }
  }

  lemma {:induction false} FilterKeepsStrictOrder<T(!new)>(xs: seq<T>, keep: T -> bool, key: T -> Key, reverse: bool)
    requires StrictlyInOrder(xs, key, reverse)
    ensures StrictlyInOrder(Filter(xs, keep), key, reverse)
  {
    if xs != [] {
      FilterKeepsStrictOrder(xs[1..], keep, key, reverse);
      FilterMembers(xs[1..], keep);
      var tail := Filter(xs[1..], keep);
      forall i | 0 <= i < |tail| ensures Before(xs[0], tail[i], key, reverse) {
        assert tail[i] in tail && tail[i] in xs[1..];
        var k :| 0 <= k < |xs[1..]| && xs[1..][k] == tail[i];
        assert xs[k + 1] == tail[i];
      }
    }
  }

  lemma {:induction false} FilterInsert<T(!new)>(x: T, ys: seq<T>, keep: T -> bool, key: T -> Key, reverse: bool)
    requires InOrder(ys, key, reverse)
    ensures Filter(Insert(x, ys, key, reverse), keep)
         == if keep(x) then Insert(x, Filter(ys, keep), key, reverse) else Filter(ys, keep)
  {
    if ys != [] {
      if Before(ys[0], x, key, reverse) {
        var tail := Insert(x, ys[1..], key, reverse);
        FilterInsert(x, ys[1..], keep, key, reverse);
        assert ([ys[0]] + tail)[1..] == tail;
        if keep(ys[0]) {
          assert Filter(ys, keep)[1..] == Filter(ys[1..], keep);
        } else {
          assert Filter(ys, keep) == Filter(ys[1..], keep);
          assert Filter([ys[0]] + tail, keep) == Filter(tail, keep);
        }
      } else {
        assert ([x] + ys)[1..] == ys;
        var kept := Filter(ys, keep);
        if keep(x) && kept != [] && Before(kept[0], x, key, reverse) {
          FilterMembers(ys, keep);
          assert kept[0] in ys;
          var k :| 0 <= k < |ys| && ys[k] == kept[0];
          assert !Before(ys[k], ys[0], key, reverse) || k == 0;
          var a, b, c := key(ys[k]), key(ys[0]), key(x);
          if reverse { LtSplits(c, b, a); } else { LtSplits(a, b, c); }
          assert false;
        }
      }
    }
  }

  /** Skipping while walking a sorted sequence is the same as sorting what is not skipped. */
  lemma {:induction false} FilterThenSort<T(!new)>(xs: seq<T>, keep: T -> bool, key: T -> Key, reverse: bool)
    ensures Filter(Sorted(xs, key, reverse), keep) == Sorted(Filter(xs, keep), key, reverse)
  {
    if xs != [] {
      FilterThenSort(xs[1..], keep, key, reverse);
      SortedIsInOrder(xs[1..], key, reverse);
      FilterInsert(xs[0], Sorted(xs[1..], key, reverse), keep, key, reverse);
      if keep(xs[0]) {
        assert Filter(xs, keep)[1..] == Filter(xs[1..], keep);
      } else {
        assert Filter(xs, keep) == Filter(xs[1..], keep);
      }
    }
  }
}
