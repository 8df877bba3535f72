/** Which warehouse group the planner picks: the fewest warehouses, then the least names; the same
    group whether sizes are tried upward or every mask is tried and the minimum taken. */
module GroupChoice {
  import opened Wrappers
  import opened Sorting
  import opened Groups
  import opened Fulfillment

  function NamesOf(group: seq<Warehouse>): seq<Key> {
    seq(|group|, i requires 0 <= i < |group| => group[i].name)
  }

  /** Tuples of names, lexicographically. */
  predicate NamesLt(a: seq<Key>, b: seq<Key>) {
    b != [] && (a == [] || Lt(a[0], b[0]) || (a[0] == b[0] && NamesLt(a[1..], b[1..])))
  }

  /** Size first, then names, compared as Python compares tuples. */
  predicate Precedes(g: seq<Warehouse>, h: seq<Warehouse>) {
    |g| < |h| || (|g| == |h| && NamesLt(NamesOf(g), NamesOf(h)))
  }

  lemma {:induction false} NamesLtIrreflexive(a: seq<Key>)
    ensures !NamesLt(a, a)
  {
    if a != [] {
      LtIrreflexive(a[0]);
      NamesLtIrreflexive(a[1..]);
    }
  }

  lemma {:induction false} NamesLtTransitive(a: seq<Key>, b: seq<Key>, c: seq<Key>)
    requires NamesLt(a, b) && NamesLt(b, c)
    ensures NamesLt(a, c)
  {
    if a != [] {
      if Lt(a[0], b[0]) && Lt(b[0], c[0]) {
        LtTransitive(a[0], b[0], c[0]);
      } else if a[0] == b[0] && b[0] == c[0] && !Lt(a[0], b[0]) && !Lt(b[0], c[0]) {
        NamesLtTransitive(a[1..], b[1..], c[1..]);
      }
    }
  }

  lemma {:induction false} NamesLtTotal(a: seq<Key>, b: seq<Key>)
    ensures NamesLt(a, b) || a == b || NamesLt(b, a)
  {
    if a != [] && b != [] {
      LtTotal(a[0], b[0]);
      if a[0] == b[0] {
        NamesLtTotal(a[1..], b[1..]);
        assert a == [a[0]] + a[1..] && b == [b[0]] + b[1..];
      }
    }
  }

  lemma PrecedesAsymmetric(g: seq<Warehouse>, h: seq<Warehouse>)
    requires Precedes(g, h)
    ensures !Precedes(h, g)
  {
    if Precedes(h, g) {
      NamesLtTransitive(NamesOf(g), NamesOf(h), NamesOf(g));
      NamesLtIrreflexive(NamesOf(g));
    }
  }

  /** The chosen group: some warehouses that together meet the order, before every other such choice
      by number and then by names. */
  ghost predicate Best(available: seq<Warehouse>, order: Quantities, g: seq<Warehouse>) {
    && g != [] && IsSub(g, available) && Feasible(g, order)
    && forall h :: h != [] && IsSub(h, available) && Feasible(h, order) ==> h == g || Precedes(g, h)
  }

  ghost predicate NoneFeasible(available: seq<Warehouse>, order: Quantities) {
    forall h :: h != [] && IsSub(h, available) ==> !Feasible(h, order)
  }

  // ----- First hit over combinations by size

  lemma {:induction false} CombinationsInOrder(xs: seq<Warehouse>, k: nat, i: nat, j: nat)
    requires StrictlyInOrder(xs, Name, false)
    requires i < j < |Combinations(xs, k)|
    ensures NamesLt(NamesOf(Combinations(xs, k)[i]), NamesOf(Combinations(xs, k)[j]))
  {
    var all := Combinations(xs, k);
    var first, second := Combinations(xs[1..], k - 1), Combinations(xs[1..], k);
    if j < |first| {
      CombinationsInOrder(xs[1..], k - 1, i, j);
      NamesOfCons(xs[0], first[i]);
      NamesOfCons(xs[0], first[j]);
    } else if i >= |first| {
      CombinationsInOrder(xs[1..], k, i - |first|, j - |first|);
    } else {
      NamesOfCons(xs[0], first[i]);
      var g := second[j - |first|];
      CombinationsAreSubs(xs[1..], k, j - |first|);
      SubMembers(g, xs[1..], g[0]);
      var m :| 0 <= m < |xs[1..]| && xs[1..][m] == g[0];
      assert Before(xs[0], xs[m + 1], Name, false);
      assert NamesOf(g)[0] == g[0].name;
    }
  }

  lemma NamesOfCons(w: Warehouse, g: seq<Warehouse>)
    ensures NamesOf([w] + g)[0] == w.name && NamesOf([w] + g)[1..] == NamesOf(g)
  {
  }

  lemma {:induction false} FirstFeasibleIsFirst(groups: seq<seq<Warehouse>>, order: Quantities) returns (i: nat)
    ensures match FirstFeasible(groups, order)
      case None => forall k :: 0 <= k < |groups| ==> !Feasible(groups[k], order)
      case Some(g) =>
        && i < |groups| && groups[i] == g && Feasible(g, order)
        && forall k :: 0 <= k < i ==> !Feasible(groups[k], order)
  {
    i := 0;
    if groups != [] && !Feasible(groups[0], order) {
      i := FirstFeasibleIsFirst(groups[1..], order);
      assert forall k :: 1 <= k < |groups| ==> groups[k] == groups[1..][k - 1];
      i := i + 1;
    }
  }

  /** Within one size, the first hit precedes every other group of that size that meets the order. */
  lemma FirstHitOfSize(available: seq<Warehouse>, order: Quantities, size: nat)
    requires StrictlyInOrder(available, Name, false)
    ensures match FirstFeasible(Combinations(available, size), order)
      case None => forall h :: |h| == size && IsSub(h, available) ==> !Feasible(h, order)
      case Some(g) =>
        && |g| == size && IsSub(g, available) && Feasible(g, order)
        && forall h :: |h| == size && IsSub(h, available) && Feasible(h, order) ==> h == g || Precedes(g, h)
  {
    var groups := Combinations(available, size);
    var i := FirstFeasibleIsFirst(groups, order);
    if FirstFeasible(groups, order).Some? {
      CombinationsAreSubs(available, size, i);
    }
    forall h | |h| == size && IsSub(h, available) && Feasible(h, order)
      ensures FirstFeasible(groups, order).Some? && (h == groups[i] || Precedes(groups[i], h))
    {
      var j := SubsAreCombinations(h, available);
      if i < j {
        CombinationsInOrder(available, size, i, j);
      }
    }
  }

  lemma {:induction false} SearchFrom(available: seq<Warehouse>, order: Quantities, size: nat)
    requires StrictlyInOrder(available, Name, false)
    ensures match Search(available, order, size)
      case None => forall h :: |h| >= size && IsSub(h, available) ==> !Feasible(h, order)
      case Some(g) =>
        && |g| >= size && IsSub(g, available) && Feasible(g, order)
        && forall h :: |h| >= size && IsSub(h, available) && Feasible(h, order) ==> h == g || Precedes(g, h)
    decreases |available| + 1 - size
  {
    forall h | IsSub(h, available) ensures |h| <= |available| {
      SubLength(h, available);
    }
    if size <= |available| {
      FirstHitOfSize(available, order, size);
      SearchFrom(available, order, size + 1);
    }
  }

  /** Trying sizes upward and combinations in order finds the best group, or none exists. */
  lemma SearchFindsBest(available: seq<Warehouse>, order: Quantities)
    requires StrictlyInOrder(available, Name, false)
    ensures match Search(available, order, 1)
      case None => NoneFeasible(available, order)
      case Some(g) => Best(available, order, g)
  {
    SearchFrom(available, order, 1);
  }

  // ----- Every mask, then the minimum

  /** The first of the least candidates. */
  function MinGroup(candidates: seq<seq<Warehouse>>): seq<Warehouse>
    requires candidates != []
  {
    if |candidates| == 1 then candidates[0]
    else
      var n := |candidates| - 1;
      var least := MinGroup(candidates[..n]);
      if Precedes(candidates[n], least) then candidates[n] else least
  }

  lemma {:induction false} MinGroupIsLeast(candidates: seq<seq<Warehouse>>, k: nat)
    requires k < |candidates|
    ensures MinGroup(candidates) in candidates
    ensures NamesOf(MinGroup(candidates)) == NamesOf(candidates[k]) || Precedes(MinGroup(candidates), candidates[k])
  {
    if |candidates| > 1 {
      var n := |candidates| - 1;
      var least, last := MinGroup(candidates[..n]), candidates[n];
      MinGroupIsLeast(candidates[..n], if k < n then k else 0);
      assert last in candidates && forall c :: c in candidates[..n] ==> c in candidates;
      if k < n {
        assert candidates[..n][k] == candidates[k];
        if Precedes(last, least) {
          PrecedesThrough(last, least, candidates[k]);
        }
      } else {
        NamesLtTotal(NamesOf(last), NamesOf(least));
      }
    }
  }

  lemma PrecedesThrough(g: seq<Warehouse>, h: seq<Warehouse>, k: seq<Warehouse>)
    requires Precedes(g, h) && (NamesOf(h) == NamesOf(k) || Precedes(h, k))
    ensures Precedes(g, k)
  {
    if NamesOf(h) == NamesOf(k) {
      assert |h| == |NamesOf(h)| == |k|;
    } else if |g| == |h| == |k| {
      NamesLtTransitive(NamesOf(g), NamesOf(h), NamesOf(k));
    }
  }

  /** In a list with distinct names, a group is known by its names. */
  lemma {:induction false} SubIsKnownByNames(g: seq<Warehouse>, h: seq<Warehouse>, xs: seq<Warehouse>)
    requires DistinctKeys(xs, Name)
    requires IsSub(g, xs) && IsSub(h, xs) && NamesOf(g) == NamesOf(h)
    ensures g == h
    decreases |xs|
  {
    assert |g| == |NamesOf(g)| == |h|;
    if g != [] {
      assert NamesOf(g)[0] == g[0].name && NamesOf(h)[0] == h[0].name;
      var inG := g[0] == xs[0] && IsSub(g[1..], xs[1..]);
      var inH := h[0] == xs[0] && IsSub(h[1..], xs[1..]);
      if inG && inH {
        assert NamesOf(g)[1..] == NamesOf(g[1..]) && NamesOf(h)[1..] == NamesOf(h[1..]);
        SubIsKnownByNames(g[1..], h[1..], xs[1..]);
        assert g == [g[0]] + g[1..] && h == [h[0]] + h[1..];
      } else if !inG && !inH {
        SubIsKnownByNames(g, h, xs[1..]);
      } else {
        HeadNameIsFresh(if inG then h else g, xs);
      }
    }
  }

  lemma HeadNameIsFresh(g: seq<Warehouse>, xs: seq<Warehouse>)
    requires DistinctKeys(xs, Name) && xs != [] && g != [] && IsSub(g, xs[1..])
    ensures g[0].name != xs[0].name
  {
    SubMembers(g, xs[1..], g[0]);
    var m :| 0 <= m < |xs[1..]| && xs[1..][m] == g[0];
    assert Name(xs[0]) != Name(xs[m + 1]);
  }

  /** All masks were tried: the candidates are exactly the non-empty groups that meet the order. */
  ghost predicate Exhaustive(available: seq<Warehouse>, order: Quantities, candidates: seq<seq<Warehouse>>) {
    && (forall k :: 0 <= k < |candidates| ==>
          candidates[k] != [] && IsSub(candidates[k], available) && Feasible(candidates[k], order))
    && (forall h :: h != [] && IsSub(h, available) && Feasible(h, order) ==> h in candidates)
  }

  lemma MinOfAllIsBest(available: seq<Warehouse>, order: Quantities, candidates: seq<seq<Warehouse>>)
    requires DistinctKeys(available, Name)
    requires Exhaustive(available, order, candidates)
    ensures if candidates == [] then NoneFeasible(available, order)
      else Best(available, order, MinGroup(candidates))
  {
    if candidates != [] {
      var g := MinGroup(candidates);
      MinGroupIsLeast(candidates, 0);
      var i :| 0 <= i < |candidates| && candidates[i] == g;
      forall h | h != [] && IsSub(h, available) && Feasible(h, order) ensures h == g || Precedes(g, h) {
        var k :| 0 <= k < |candidates| && candidates[k] == h;
        MinGroupIsLeast(candidates, k);
        if NamesOf(g) == NamesOf(h) {
          SubIsKnownByNames(g, h, available);
        }
      }
    }
  }

  // ----- Lists that differ only in SKUs they hold none of

  ghost predicate SameStock(g: seq<Warehouse>, h: seq<Warehouse>) {
    && |g| == |h|
    && forall i :: 0 <= i < |g| ==> g[i].name == h[i].name && SameQuantities(g[i].stock, h[i].stock)
  }

  ghost predicate SameQuantities(a: Quantities, b: Quantities) {
    forall sku :: Get(a, sku) == Get(b, sku)
  }

  lemma {:induction false} SameStockSameUnits(g: seq<Warehouse>, h: seq<Warehouse>, sku: Key)
    requires SameStock(g, h)
    ensures Units(g, sku) == Units(h, sku)
  {
    if g != [] {
      SameStockSameUnits(g[1..], h[1..], sku);
      assert SameQuantities(g[0].stock, h[0].stock);
    }
  }

  lemma SameStockSameChoice(g: seq<Warehouse>, h: seq<Warehouse>, order: Quantities)
    requires SameStock(g, h)
    ensures Feasible(g, order) <==> Feasible(h, order)
    ensures NamesOf(g) == NamesOf(h)
  {
    forall sku ensures Units(g, sku) == Units(h, sku) {
      SameStockSameUnits(g, h, sku);
    }
  }

  lemma {:induction false} SubTransfers(g: seq<Warehouse>, xs: seq<Warehouse>, ys: seq<Warehouse>)
    returns (h: seq<Warehouse>)
    requires IsSub(g, xs) && SameStock(xs, ys)
    ensures IsSub(h, ys) && SameStock(g, h)
    decreases |xs|
  {
    if g == [] {
      h := [];
    } else if g[0] == xs[0] && IsSub(g[1..], xs[1..]) {
      var rest := SubTransfers(g[1..], xs[1..], ys[1..]);
      h := [ys[0]] + rest;
      assert h[1..] == rest;
    } else {
      h := SubTransfers(g, xs[1..], ys[1..]);
    }
  }

  /** Best groups of two such lists have the same names and quantities. */
  lemma BestTransfers(xs: seq<Warehouse>, ys: seq<Warehouse>, order: Quantities,
                      g: seq<Warehouse>, h: seq<Warehouse>)
    requires SameStock(xs, ys) && DistinctKeys(ys, Name)
    requires Best(xs, order, g) && Best(ys, order, h)
    ensures SameStock(g, h)
  {
    var g' := SubTransfers(g, xs, ys);
    SameStockSameChoice(g, g', order);
    var h' := SubTransfers(h, ys, xs);
    SameStockSameChoice(h, h', order);
    if h != g' {
      assert Precedes(h, g') && (h' == g || Precedes(g, h'));
      assert |g| == |g'| && |h| == |h'|;
      if h' == g {
        assert NamesOf(h) == NamesOf(g');
        NamesLtIrreflexive(NamesOf(h));
      } else {
        assert Precedes(g', h);
        PrecedesAsymmetric(h, g');
      }
    }
  }

  lemma NoneTransfers(xs: seq<Warehouse>, ys: seq<Warehouse>, order: Quantities)
    requires SameStock(xs, ys) && NoneFeasible(xs, order)
    ensures NoneFeasible(ys, order)
  {
    forall h | h != [] && IsSub(h, ys) ensures !Feasible(h, order) {
      var g := SubTransfers(h, ys, xs);
      SameStockSameChoice(h, g, order);
    }
  }
}
