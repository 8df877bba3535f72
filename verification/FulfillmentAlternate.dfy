/** The second planner: every mask, then the minimum. Its effective stock also has zero entries for
    blocked SKUs the warehouse never held. */
module FulfillmentAlternate {
  import opened Sequences
  import opened Numbers
  import opened Wrappers
  import opened Sorting
  import opened Groups
  import opened Fulfillment
  import opened GroupChoice

  function AlternateStock(stock: Quantities, p: Policy): Quantities {
    map sku | sku in stock.Keys + Elements(p.blocked) ::
      if sku in p.blocked then 0 else stock[sku] - Get(p.reserved, sku)
  }

  /** The two effective stocks hold the same quantity of every SKU, counting an absent one as zero. */
  lemma StocksAgree(stock: Quantities, p: Policy)
    requires ValidPolicy(p, stock)
    ensures SameQuantities(AlternateStock(stock, p), EffectiveStock(stock, p))
  {
  }

  function AlternateList(ws: seq<Warehouse>, constraints: Constraints): (r: seq<Warehouse>)
    ensures |r| == |ws|
  {
    seq(|ws|, i requires 0 <= i < |ws| =>
      Warehouse(ws[i].name, AlternateStock(ws[i].stock, PolicyOf(constraints, ws[i].name))))
  }

  predicate Reservable(reserved: Quantities, stock: Quantities) {
    forall sku :: sku in reserved ==> sku in stock && 0 <= reserved[sku] <= stock[sku]
  }

  /** Subtract every reservation in place. */
  method SubtractReserved(stock: Quantities, reserved: Quantities) returns (r: Result<Quantities, PlanError>)
    ensures r == if Reservable(reserved, stock)
      then Ok(map sku | sku in stock :: stock[sku] - Get(reserved, sku)) else Err(ValueError)
  {
    var effective := stock;
    var todo := reserved.Keys;
    while todo != {}
      invariant todo <= reserved.Keys && effective.Keys == stock.Keys
      invariant forall sku :: sku in reserved.Keys - todo ==> sku in stock && 0 <= reserved[sku] <= stock[sku]
      invariant forall sku :: sku in stock ==>
        effective[sku] == stock[sku] - if sku in todo then 0 else Get(reserved, sku)
      decreases |todo|
    {
      var sku :| sku in todo;
      if sku !in stock {
        return Err(ValueError);
      }
      var quantity := reserved[sku];
      if quantity < 0 || quantity > stock[sku] {
        return Err(ValueError);
      }
      effective := effective[sku := effective[sku] - quantity];
      todo := todo - {sku};
    }
    assert effective == map sku | sku in stock :: stock[sku] - Get(reserved, sku);
    return Ok(effective);
  }

  /** Set every blocked SKU to zero, present or not. */
  method ZeroBlocked(stock: Quantities, blocked: seq<Key>) returns (effective: Quantities)
    ensures effective == map sku | sku in stock.Keys + Elements(blocked) :: if sku in blocked then 0 else stock[sku]
  {
    effective := stock;
    for i := 0 to |blocked|
      invariant effective == map sku | sku in stock.Keys + Elements(blocked[..i]) ::
        if sku in blocked[..i] then 0 else stock[sku]
    {
      effective := effective[blocked[i] := 0];
      assert blocked[..i + 1] == blocked[..i] + [blocked[i]];
    }
    assert blocked[..|blocked|] == blocked;
  }

  /** An empty SKU needs no test of its own: no checked stock holds one. */
  lemma ChecksAgree(p: Policy, stock: Quantities)
    requires ValidStock(stock)
    ensures ValidPolicy(p, stock) <==> ValidBlocked(p.blocked) && Reservable(p.reserved, stock)
  {
    SetSizeDetectsRepeats(p.blocked);
  }

  /** Reservations first, then the blocked SKUs. */
  method Constrain(stock: Quantities, p: Policy) returns (r: Result<Quantities, PlanError>)
    requires ValidStock(stock)
    ensures r == if ValidPolicy(p, stock) then Ok(AlternateStock(stock, p)) else Err(ValueError)
  {
    ChecksAgree(p, stock);
    if !ValidBlocked(p.blocked) {
      return Err(ValueError);
    }
    var reduced := SubtractReserved(stock, p.reserved);
    if reduced.Err? {
      return Err(ValueError);
    }
    var effective := ZeroBlocked(reduced.value, p.blocked);
    assert effective == AlternateStock(stock, p);
    return Ok(effective);
  }

  method NormalizeWarehousesAlternate(ws: seq<Warehouse>, constraints: Constraints)
    returns (r: Result<seq<Warehouse>, PlanError>)
    requires ValidWarehouses(ws)
    ensures r == if ValidConstraints(ws, constraints) then Ok(AlternateList(ws, constraints)) else Err(ValueError)
  {
    hide AlternateStock, ValidPolicy;
    var declared := if constraints.None? then map[] else constraints.value;
    if declared.Keys - DeclaredNames(ws) != {} {
      return Err(ValueError);
    }
    forall n | n in declared ensures n in DeclaredNames(ws) {
      assert n !in declared.Keys - DeclaredNames(ws);
    }
    var constrained: seq<Warehouse> := [];
    for i := 0 to |ws|
      invariant |constrained| == i
      invariant forall j :: 0 <= j < i ==> constrained[j] == AlternateList(ws, constraints)[j]
      invariant forall j :: 0 <= j < i ==> ValidPolicy(PolicyOf(constraints, ws[j].name), ws[j].stock)
    {
      var policy := if ws[i].name in declared then declared[ws[i].name] else Policy([], map[]);
      var effective := Constrain(ws[i].stock, policy);
      if effective.Err? {
        return Err(ValueError);
      }
      constrained := constrained + [Warehouse(ws[i].name, effective.value)];
    }
    assert constrained == AlternateList(ws, constraints);
    return Ok(constrained);
  }

  /** The mask loop. */
  method Candidates(available: seq<Warehouse>, order: Quantities) returns (candidates: seq<seq<Warehouse>>)
    requires order != map[] && ValidOrder(order)
    ensures Exhaustive(available, order, candidates)
  {
    candidates := [];
    for mask := 1 to Pow2(|available|)
      invariant forall k :: 0 <= k < |candidates| ==>
        candidates[k] != [] && IsSub(candidates[k], available) && Feasible(candidates[k], order)
      invariant forall m :: 1 <= m < mask && Feasible(Pick(available, m), order) ==> Pick(available, m) in candidates
    {
      var selected := Pick(available, mask);
      if Feasible(selected, order) {
        PickIsSub(available, mask);
        EmptyMeetsNothing(order);
        candidates := candidates + [selected];
      }
    }
    forall h | h != [] && IsSub(h, available) && Feasible(h, order) ensures h in candidates {
      var m := SubsArePicked(h, available);
    }
  }

  lemma EmptyMeetsNothing(order: Quantities)
    requires order != map[] && ValidOrder(order)
    ensures !Feasible([], order)
  {
    var sku :| sku in order;
    assert Units([], sku) == 0;
  }

  method PlanFulfillmentAlternate(requested: Quantities, warehouses: seq<Warehouse>, constraints: Constraints)
    returns (r: Result<seq<Shipment>, PlanError>)
    ensures r == Plan(requested, warehouses, constraints)
  {
    var order := CopyChecked(requested, 1);
    if order.Err? {
      return Err(ValueError);
    }
    var sorted := NormalizeWarehouses(warehouses);
    if sorted.Err? {
      return Err(ValueError);
    }
    SortedInputStaysValid(warehouses, constraints);
    var available := NormalizeWarehousesAlternate(sorted.value, constraints);
    if available.Err? {
      return Err(ValueError);
    }
    if order.value == map[] {
      return Ok([]);
    }
    var candidates := Candidates(available.value, order.value);
    ChoicesAgree(order.value, warehouses, constraints, candidates);
    if candidates == [] {
      return Err(InsufficientStock);
    }
    var skus := SortedKeys(order.value.Keys);
    forall j | 0 <= j < |skus| ensures skus[j] in order.value {
      assert skus[j] in skus;
    }
    var shipments := AllocateGreedily(MinGroup(candidates), skus, order.value);
    return Ok(shipments);
  }

  // ----- Why it returns the same plan

  lemma {:induction false} FillDependsOnQuantities(a: Quantities, b: Quantities, skus: seq<Key>, remaining: Quantities)
    requires SameQuantities(a, b)
    ensures Fill(a, skus, remaining) == Fill(b, skus, remaining)
    decreases |skus|
  {
    if skus != [] {
      var quantity := Min(Get(remaining, skus[0]), Get(a, skus[0]));
      FillDependsOnQuantities(a, b, skus[1..], remaining);
      FillDependsOnQuantities(a, b, skus[1..], Ship(remaining, skus[0], quantity));
    }
  }

  lemma {:induction false} SameStockSamePlan(g: seq<Warehouse>, h: seq<Warehouse>, skus: seq<Key>, remaining: Quantities)
    requires SameStock(g, h)
    ensures Allocate(g, skus, remaining) == Allocate(h, skus, remaining)
    decreases |g|
  {
    if g != [] {
      FillDependsOnQuantities(g[0].stock, h[0].stock, skus, remaining);
      SameStockSamePlan(g[1..], h[1..], skus, Fill(g[0].stock, skus, remaining).1);
    }
  }

  lemma ListsAgree(ws: seq<Warehouse>, constraints: Constraints)
    requires ValidWarehouses(ws) && ValidConstraints(ws, constraints)
    ensures SameStock(AlternateList(ws, constraints), EffectiveList(ws, constraints))
    ensures DistinctKeys(AlternateList(ws, constraints), Name)
    ensures DistinctKeys(EffectiveList(ws, constraints), Name)
  {
    forall i | 0 <= i < |ws| ensures
      && AlternateList(ws, constraints)[i].name == EffectiveList(ws, constraints)[i].name == Name(ws[i])
      && SameQuantities(AlternateList(ws, constraints)[i].stock, EffectiveList(ws, constraints)[i].stock)
    {
      StocksAgree(ws[i].stock, PolicyOf(constraints, ws[i].name));
    }
  }

  lemma AvailableIsOrdered(ws: seq<Warehouse>, constraints: Constraints)
    requires ValidWarehouses(ws)
    ensures StrictlyInOrder(Available(ws, constraints), Name, false)
  {
    var sorted := Sorted(ws, Name, false);
    SortedIsStrict(ws, Name, false);
    forall i, j | 0 <= i < j < |sorted|
      ensures Before(Available(ws, constraints)[i], Available(ws, constraints)[j], Name, false)
    {
      assert Before(sorted[i], sorted[j], Name, false);
    }
  }

  lemma BestExists(available: seq<Warehouse>, order: Quantities, g: seq<Warehouse>)
    requires Best(available, order, g)
    ensures !NoneFeasible(available, order)
  {
  }

  /** First hit by size and minimum over all masks find groups with the same names and quantities. */
  lemma SearchesAgree(order: Quantities, mine: seq<Warehouse>, theirs: seq<Warehouse>,
                      candidates: seq<seq<Warehouse>>)
    requires SameStock(mine, theirs)
    requires DistinctKeys(mine, Name) && DistinctKeys(theirs, Name) && StrictlyInOrder(theirs, Name, false)
    requires Exhaustive(mine, order, candidates)
    ensures candidates == [] <==> Search(theirs, order, 1).None?
    ensures candidates != [] ==> SameStock(MinGroup(candidates), Search(theirs, order, 1).value)
  {
    SearchFindsBest(theirs, order);
    MinOfAllIsBest(mine, order, candidates);
    var found := Search(theirs, order, 1);
    if candidates == [] {
      if found.Some? {
        BestExists(theirs, order, found.value);
        NoneTransfers(mine, theirs, order);
      }
    } else if found.None? {
      SameStockIsSymmetric(mine, theirs);
      BestExists(mine, order, MinGroup(candidates));
      NoneTransfers(theirs, mine, order);
    } else {
      BestTransfers(mine, theirs, order, MinGroup(candidates), found.value);
    }
  }

  lemma ChoicesAgree(order: Quantities, ws: seq<Warehouse>, constraints: Constraints,
                     candidates: seq<seq<Warehouse>>)
    requires ValidInput(order, ws, constraints) && order != map[]
    requires Exhaustive(AlternateList(Sorted(ws, Name, false), constraints), order, candidates)
    ensures Plan(order, ws, constraints) ==
      if candidates == [] then Err(InsufficientStock)
      else Ok(Allocate(MinGroup(candidates), Ascending(order.Keys), order))
  {
    var sorted := Sorted(ws, Name, false);
    SortedInputStaysValid(ws, constraints);
    ListsAgree(sorted, constraints);
    AvailableIsOrdered(ws, constraints);
    SearchesAgree(order, AlternateList(sorted, constraints), Available(ws, constraints), candidates);
    if candidates != [] {
      SameStockSamePlan(MinGroup(candidates), Search(Available(ws, constraints), order, 1).value,
                        Ascending(order.Keys), order);
    }
  }

  lemma SameStockIsSymmetric(g: seq<Warehouse>, h: seq<Warehouse>)
    requires SameStock(g, h)
    ensures SameStock(h, g)
  {
    forall i | 0 <= i < |g| ensures SameQuantities(h[i].stock, g[i].stock) {
      assert SameQuantities(g[i].stock, h[i].stock);
    }
  }
}
