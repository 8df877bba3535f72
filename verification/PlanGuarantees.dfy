/** What a planner promises about its raw input: when it raises, what each warehouse may ship under its
    constraints, and that no way of drawing the order needs fewer warehouses. Nothing here refers to the
    planner's own notion of policy, effective stock or availability. */
module PlanGuarantees {
  import opened Numbers
  import opened Sequences
  import opened Wrappers
  import opened Sorting
  import opened Sums
  import opened Fulfillment
  import opened GroupChoice
  import opened ShipmentPlans
  import FulfillmentAlternate

  // ----- The input

  ghost predicate OrderAndStockAreValid(order: Quantities, ws: seq<Warehouse>) {
    && (forall sku :: sku in order ==> sku != [] && 1 <= order[sku])
    && (forall i :: 0 <= i < |ws| ==> ws[i].name != [])
    && (forall i, sku :: 0 <= i < |ws| && sku in ws[i].stock ==> sku != [] && 0 <= ws[i].stock[sku])
    && (forall i, j :: 0 <= i < j < |ws| ==> ws[i].name != ws[j].name)
  }

  /** Nothing blocked is empty or repeated, and what is reserved is there. */
  ghost predicate PolicyFits(p: Policy, w: Warehouse) {
    && (forall i :: 0 <= i < |p.blocked| ==> p.blocked[i] != [])
    && (forall i, j :: 0 <= i < j < |p.blocked| ==> p.blocked[i] != p.blocked[j])
    && (forall sku :: sku in p.reserved ==>
          sku != [] && sku in w.stock && 0 <= p.reserved[sku] <= w.stock[sku])
  }

  ghost predicate ConstraintsFit(ws: seq<Warehouse>, constraints: Constraints) {
    constraints.Some? ==>
      && (forall name :: name in constraints.value ==> exists i :: 0 <= i < |ws| && ws[i].name == name)
      && (forall i :: 0 <= i < |ws| && ws[i].name in constraints.value ==>
            PolicyFits(constraints.value[ws[i].name], ws[i]))
  }

  /** The units of a SKU a warehouse may ship: none if its entry blocks it, else its stock less what its
      entry reserves. */
  ghost function Usable(w: Warehouse, constraints: Constraints, sku: Key): int {
    if sku !in w.stock then 0
    else if constraints.None? || w.name !in constraints.value then w.stock[sku]
    else
      var entry := constraints.value[w.name];
      if sku in entry.blocked then 0
      else if sku in entry.reserved then w.stock[sku] - entry.reserved[sku]
      else w.stock[sku]
  }

  ghost function UsableUnits(constraints: Constraints, sku: Key): Warehouse -> int {
    (w: Warehouse) => Usable(w, constraints, sku)
  }

  lemma InputIsValidIff(order: Quantities, ws: seq<Warehouse>, constraints: Constraints)
    ensures ValidInput(order, ws, constraints) <==> OrderAndStockAreValid(order, ws) && ConstraintsFit(ws, constraints)
  {
    hide ValidConstraints, ConstraintsFit;
    ConstraintsFitIff(ws, constraints);
  }

  lemma ConstraintsFitIff(ws: seq<Warehouse>, constraints: Constraints)
    ensures ValidConstraints(ws, constraints) <==> ConstraintsFit(ws, constraints)
  {
    hide ValidPolicy, PolicyFits;
    NamesDeclaredIff(ws, constraints);
    forall i | 0 <= i < |ws| ensures ValidPolicy(PolicyOf(constraints, ws[i].name), ws[i].stock) <==>
      (constraints.Some? && ws[i].name in constraints.value ==> PolicyFits(constraints.value[ws[i].name], ws[i]))
    {
      PolicyFitsIff(PolicyOf(constraints, ws[i].name), ws[i]);
    }
  }

  lemma NamesDeclaredIff(ws: seq<Warehouse>, constraints: Constraints)
    ensures NamesDeclared(ws, constraints) <==>
      (constraints.Some? ==> forall name :: name in constraints.value ==> exists i :: 0 <= i < |ws| && ws[i].name == name)
  {
    forall name ensures name in DeclaredNames(ws) <==> exists i :: 0 <= i < |ws| && ws[i].name == name {
      if i :| 0 <= i < |ws| && ws[i].name == name {
        assert ws[i] in ws;
      }
    }
  }

  lemma PolicyFitsIff(p: Policy, w: Warehouse)
    ensures ValidPolicy(p, w.stock) <==> PolicyFits(p, w)
    ensures ValidPolicy(Policy([], map[]), w.stock)
  {
  }

  lemma UsableIsEffective(w: Warehouse, constraints: Constraints, sku: Key)
    ensures Get(EffectiveStock(w.stock, PolicyOf(constraints, w.name)), sku) == Usable(w, constraints, sku)
  {
  }

  // ----- From the planner's list to the raw one

  /** Each entry of the planner's list is a raw warehouse with what it may ship. */
  lemma EntryIsRaw(ws: seq<Warehouse>, constraints: Constraints, k: nat) returns (i: nat)
    requires k < |Available(ws, constraints)|
    ensures i < |ws| && ws[i].name == Available(ws, constraints)[k].name
    ensures forall sku :: Get(Available(ws, constraints)[k].stock, sku) == Usable(ws[i], constraints, sku)
  {
    var sorted := Sorted(ws, Name, false);
    SortedPermutes(ws, Name, false);
    assert sorted[k] in sorted && sorted[k] in ws;
    i :| 0 <= i < |ws| && ws[i] == sorted[k];
    forall sku ensures Get(Available(ws, constraints)[k].stock, sku) == Usable(ws[i], constraints, sku) {
      UsableIsEffective(ws[i], constraints, sku);
    }
  }

  lemma {:induction false} UnitsAreUsable(xs: seq<Warehouse>, constraints: Constraints, sku: Key)
    ensures Units(EffectiveList(xs, constraints), sku) == Sum(xs, UsableUnits(constraints, sku))
  {
    if xs != [] {
      hide EffectiveStock, PolicyOf, Usable;
      var x, rest := xs[0], xs[1..];
      UnitsAreUsable(rest, constraints, sku);
      assert EffectiveList(xs, constraints)[1..] == EffectiveList(rest, constraints);
      UsableIsEffective(x, constraints, sku);
      FirstTerm(xs, UsableUnits(constraints, sku));
    }
  }

  lemma FirstTerm<T>(xs: seq<T>, f: T -> int)
    requires xs != []
    ensures Sum(xs, f) == f(xs[0]) + Sum(xs[1..], f)
  {
    assert xs == [xs[0]] + xs[1..];
    SumOfConcat([xs[0]], xs[1..], f);
    SumOfOne(xs[0], f);
  }

  lemma UnitsAvailable(ws: seq<Warehouse>, constraints: Constraints, sku: Key)
    ensures Units(Available(ws, constraints), sku) == Sum(ws, UsableUnits(constraints, sku))
  {
    hide Usable, EffectiveList;
    UnitsAreUsable(Sorted(ws, Name, false), constraints, sku);
    SortedPermutes(ws, Name, false);
    SumPermutes(Sorted(ws, Name, false), ws, UsableUnits(constraints, sku));
  }

  // ----- Errors

  /** A value error means an invalid order, warehouse or constraint and nothing else; insufficient
      stock means that the warehouses together may not ship some ordered SKU in full. */
  lemma PlanRaisesIff(order: Quantities, ws: seq<Warehouse>, constraints: Constraints)
    ensures Plan(order, ws, constraints) == Err(ValueError) <==>
      !(OrderAndStockAreValid(order, ws) && ConstraintsFit(ws, constraints))
    ensures Plan(order, ws, constraints) == Err(InsufficientStock) <==>
      && OrderAndStockAreValid(order, ws) && ConstraintsFit(ws, constraints)
      && exists sku :: sku in order && Sum(ws, UsableUnits(constraints, sku)) < order[sku]
  {
    hide Plan, Available, Usable, OrderAndStockAreValid, ConstraintsFit, ValidInput;
    InputIsValidIff(order, ws, constraints);
    FailsExactlyOnShortage(order, ws, constraints);
    forall sku ensures Units(Available(ws, constraints), sku) == Sum(ws, UsableUnits(constraints, sku)) {
      UnitsAvailable(ws, constraints, sku);
    }
  }

  // ----- Constraints

  lemma ItemIsUsable(order: Quantities, ws: seq<Warehouse>, constraints: Constraints, plan: seq<Shipment>,
                     s: nat, k: nat) returns (i: nat)
    requires Plan(order, ws, constraints) == Ok(plan) && s < |plan| && k < |plan[s].items|
    ensures i < |ws| && ws[i].name == plan[s].warehouse
    ensures plan[s].items[k].0 in order && 1 <= plan[s].items[k].1 <= Usable(ws[i], constraints, plan[s].items[k].0)
    ensures OrderAndStockAreValid(order, ws) && ConstraintsFit(ws, constraints)
  {
    hide Plan, Available, Usable, OrderAndStockAreValid, ConstraintsFit;
    var available := Available(ws, constraints);
    PlanRaisesIff(order, ws, constraints);
    PlanShipsExactly(order, ws, constraints);
    assert ShipsFrom(order, available, plan[s]);
    var w :| w in available && w.name == plan[s].warehouse
      && forall j :: 0 <= j < |plan[s].items| ==>
           plan[s].items[j].0 in order && 1 <= plan[s].items[j].1 <= Get(w.stock, plan[s].items[j].0);
    var m :| 0 <= m < |available| && available[m] == w;
    i := EntryIsRaw(ws, constraints, m);
  }

  /** Every item shipped was ordered and comes from a listed warehouse: nothing its entry blocks, at
      most its stock less what its entry reserves, and at most its stock in any case. */
  lemma PlanObeysConstraints(order: Quantities, ws: seq<Warehouse>, constraints: Constraints, plan: seq<Shipment>,
                             s: nat, k: nat) returns (i: nat)
    requires Plan(order, ws, constraints) == Ok(plan) && s < |plan| && k < |plan[s].items|
    ensures i < |ws| && ws[i].name == plan[s].warehouse
    ensures
      var (sku, quantity) := plan[s].items[k];
      && sku in order && sku in ws[i].stock && 1 <= quantity <= ws[i].stock[sku]
      && (constraints.Some? && ws[i].name in constraints.value ==>
            var entry := constraints.value[ws[i].name];
            && sku !in entry.blocked
            && (sku in entry.reserved ==> quantity <= ws[i].stock[sku] - entry.reserved[sku]))
  {
    hide Plan, OrderAndStockAreValid;
    i := ItemIsUsable(order, ws, constraints, plan, s, k);
  }

  /** Each shipment in turn takes, of every ordered SKU, all its warehouse may ship or all that the
      shipments before it left wanted; together they ship the order exactly; warehouses and items come
      in strictly ascending order. */
  lemma PlanTakesAllItMay(order: Quantities, ws: seq<Warehouse>, constraints: Constraints, plan: seq<Shipment>)
    requires Plan(order, ws, constraints) == Ok(plan)
    ensures forall s, t :: 0 <= s < t < |plan| ==> Lt(plan[s].warehouse, plan[t].warehouse)
    ensures forall s, j, k :: 0 <= s < |plan| && 0 <= j < k < |plan[s].items| ==>
      Lt(plan[s].items[j].0, plan[s].items[k].0)
    ensures forall sku :: TotalShipped(plan, sku) == if sku in order then order[sku] else 0
    ensures forall s, i, sku :: 0 <= s < |plan| && 0 <= i < |ws| && ws[i].name == plan[s].warehouse && sku in order ==>
      Shipped(plan[s].items, sku) == Min(order[sku] - TotalShipped(plan[..s], sku), Usable(ws[i], constraints, sku))
  {
    hide Plan, Available, Usable;
    var available := Available(ws, constraints);
    PlanShipsExactly(order, ws, constraints);
    forall s, j, k | 0 <= s < |plan| && 0 <= j < k < |plan[s].items|
      ensures Lt(plan[s].items[j].0, plan[s].items[k].0)
    {
      assert ShipsFrom(order, available, plan[s]);
      assert Before(plan[s].items[j], plan[s].items[k], Sku, false);
    }
    forall s, i, sku | 0 <= s < |plan| && 0 <= i < |ws| && ws[i].name == plan[s].warehouse && sku in order
      ensures Shipped(plan[s].items, sku) == Min(order[sku] - TotalShipped(plan[..s], sku), Usable(ws[i], constraints, sku))
    {
      TakesWhatIsUsable(order, ws, constraints, plan, s, i, sku);
    }
  }

  lemma TakesWhatIsUsable(order: Quantities, ws: seq<Warehouse>, constraints: Constraints, plan: seq<Shipment>,
                          s: nat, i: nat, sku: Key)
    requires Plan(order, ws, constraints) == Ok(plan)
    requires s < |plan| && i < |ws| && ws[i].name == plan[s].warehouse && sku in order
    ensures Shipped(plan[s].items, sku) == Min(order[sku] - TotalShipped(plan[..s], sku), Usable(ws[i], constraints, sku))
  {
    hide Plan, Available, Usable, Shipped, TotalShipped;
    var available := Available(ws, constraints);
    PlanShipsExactly(order, ws, constraints);
    PlanRaisesIff(order, ws, constraints);
    assert ShipsFrom(order, available, plan[s]);
    var w :| w in available && w.name == plan[s].warehouse;
    var m :| 0 <= m < |available| && available[m] == w;
    var i' := EntryIsRaw(ws, constraints, m);
    assert OrderAndStockAreValid(order, ws);
    assert i' == i;
    PlanAllocatesInNameOrder(order, ws, constraints, plan, s, w, sku);
  }

  // ----- Minimality

  /** A way of drawing the order from the warehouses, within what each may ship. */
  ghost predicate DrawsOrder(order: Quantities, ws: seq<Warehouse>, constraints: Constraints, a: Allocation) {
    && (forall i, sku :: 0 <= i < |ws| ==> 0 <= Drawn(a, ws[i].name, sku) <= Usable(ws[i], constraints, sku))
    && (forall sku :: sku in order ==> Sum(ws, UnitsDrawn(a, sku)) >= order[sku])
  }

  function UnitsDrawn(a: Allocation, sku: Key): Warehouse -> int {
    (w: Warehouse) => Drawn(a, w.name, sku)
  }

  lemma {:induction false} TotalDrawnIsSum(a: Allocation, xs: seq<Warehouse>, constraints: Constraints, sku: Key)
    ensures TotalDrawn(a, EffectiveList(xs, constraints), sku) == Sum(xs, UnitsDrawn(a, sku))
  {
    hide EffectiveStock, PolicyOf, Drawn;
    if xs != [] {
      TotalDrawnIsSum(a, xs[1..], constraints, sku);
      assert EffectiveList(xs, constraints)[1..] == EffectiveList(xs[1..], constraints);
      FirstTerm(xs, UnitsDrawn(a, sku));
    }
  }

  lemma CoversIfDraws(order: Quantities, ws: seq<Warehouse>, constraints: Constraints, a: Allocation)
    requires DrawsOrder(order, ws, constraints, a)
    ensures Covers(order, Available(ws, constraints), a)
  {
    hide Usable, EffectiveList, Drawn;
    var sorted, available := Sorted(ws, Name, false), Available(ws, constraints);
    SortedPermutes(ws, Name, false);
    forall k, sku | 0 <= k < |available| ensures 0 <= Drawn(a, available[k].name, sku) <= Get(available[k].stock, sku) {
      var i := EntryIsRaw(ws, constraints, k);
    }
    forall sku | sku in order ensures TotalDrawn(a, available, sku) >= order[sku] {
      TotalDrawnIsSum(a, sorted, constraints, sku);
      SumPermutes(sorted, ws, UnitsDrawn(a, sku));
    }
  }

  /** The names of the warehouses an allocation draws ordered units from, in ascending order. */
  function UserNames(a: Allocation, order: Quantities, ws: seq<Warehouse>): seq<Key> {
    NamesOf(Filter(Sorted(ws, Name, false), Drawers(a, order)))
  }

  lemma NamesOfConcat(g: seq<Warehouse>, h: seq<Warehouse>)
    ensures NamesOf(g + h) == NamesOf(g) + NamesOf(h)
  {
  }

  lemma {:induction false} UsersAreUsed(a: Allocation, order: Quantities, xs: seq<Warehouse>, constraints: Constraints)
    ensures NamesOf(Used(a, order, EffectiveList(xs, constraints))) == NamesOf(Filter(xs, Drawers(a, order)))
  {
    hide EffectiveStock, PolicyOf, Drawn;
    if xs != [] {
      var ys, keep := EffectiveList(xs, constraints), Drawers(a, order);
      UsersAreUsed(a, order, xs[1..], constraints);
      assert ys[1..] == EffectiveList(xs[1..], constraints) && ys[0].name == xs[0].name;
      assert Used(a, order, ys) == (if keep(ys[0]) then [ys[0]] else []) + Used(a, order, ys[1..]);
      assert Filter(xs, keep) == (if keep(xs[0]) then [xs[0]] else []) + Filter(xs[1..], keep);
      assert Draws(a, order, ys[0]) <==> Draws(a, order, xs[0]);
      NamesOfConcat(if keep(ys[0]) then [ys[0]] else [], Used(a, order, ys[1..]));
      NamesOfConcat(if keep(xs[0]) then [xs[0]] else [], Filter(xs[1..], keep));
      assert NamesOf(if keep(ys[0]) then [ys[0]] else []) == NamesOf(if keep(xs[0]) then [xs[0]] else []);
    }
  }

  /** No way of drawing the order uses fewer warehouses than the plan, and none with as many has
      names that come before the plan's. */
  lemma NoDrawingIsBetter(order: Quantities, ws: seq<Warehouse>, constraints: Constraints, plan: seq<Shipment>,
                          a: Allocation)
    requires Plan(order, ws, constraints) == Ok(plan) && DrawsOrder(order, ws, constraints, a)
    ensures
      var users := UserNames(a, order, ws);
      |plan| < |users| || (|plan| == |users| && !NamesLt(users, Warehouses(plan)))
  {
    hide Plan, Covers, DrawsOrder, EffectiveList, Used;
    CoversIfDraws(order, ws, constraints, a);
    UsersAreUsed(a, order, Sorted(ws, Name, false), constraints);
    PlanIsMinimal(order, ws, constraints, a);
  }
}
