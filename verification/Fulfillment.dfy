/** The multi-warehouse planner: input checks, effective stock, choice of the warehouse group, and
    greedy allocation. */
module Fulfillment {
  import opened Numbers
  import opened Sequences
  import opened Wrappers
  import opened Sorting
  import opened Groups

  type Quantities = map<Key, int>

  datatype Warehouse = Warehouse(name: Key, stock: Quantities)

  /** A missing key of a constraint mapping is an empty one. */
  datatype Policy = Policy(blocked: seq<Key>, reserved: Quantities)

  type Constraints = Option<map<Key, Policy>>

  datatype Shipment = Shipment(warehouse: Key, items: seq<(Key, int)>)

  datatype PlanError = ValueError | InsufficientStock

  function Name(w: Warehouse): Key {
    w.name
  }

  function Get(m: Quantities, sku: Key): int {
    if sku in m then m[sku] else 0
  }

  // ----- What the input checks demand

  predicate ValidOrder(order: Quantities) {
    forall sku :: sku in order ==> sku != [] && 1 <= order[sku]
  }

  predicate ValidStock(stock: Quantities) {
    forall sku :: sku in stock ==> sku != [] && 0 <= stock[sku]
  }

  predicate ValidWarehouses(ws: seq<Warehouse>) {
    && (forall i :: 0 <= i < |ws| ==> ws[i].name != [] && ValidStock(ws[i].stock))
    && DistinctKeys(ws, Name)
  }

  predicate Distinct(ks: seq<Key>) {
    forall i, j :: 0 <= i < j < |ks| ==> ks[i] != ks[j]
  }

  predicate ValidPolicy(p: Policy, stock: Quantities) {
    && (forall i :: 0 <= i < |p.blocked| ==> p.blocked[i] != [])
    && Distinct(p.blocked)
    && (forall sku :: sku in p.reserved ==>
          sku != [] && sku in stock && 0 <= p.reserved[sku] <= stock[sku])
  }

  function PolicyOf(constraints: Constraints, name: Key): Policy {
    if constraints.Some? && name in constraints.value then constraints.value[name] else Policy([], map[])
  }

  function DeclaredNames(ws: seq<Warehouse>): set<Key> {
    set w | w in ws :: w.name
  }

  predicate NamesDeclared(ws: seq<Warehouse>, constraints: Constraints) {
    constraints.Some? ==> constraints.value.Keys <= DeclaredNames(ws)
  }

  predicate ValidConstraints(ws: seq<Warehouse>, constraints: Constraints) {
    && NamesDeclared(ws, constraints)
    && forall i :: 0 <= i < |ws| ==> ValidPolicy(PolicyOf(constraints, ws[i].name), ws[i].stock)
  }

  predicate ValidInput(order: Quantities, ws: seq<Warehouse>, constraints: Constraints) {
    ValidOrder(order) && ValidWarehouses(ws) && ValidConstraints(ws, constraints)
  }

  // ----- Effective stock

  function EffectiveStock(stock: Quantities, p: Policy): Quantities {
    map sku | sku in stock :: if sku in p.blocked then 0 else stock[sku] - Get(p.reserved, sku)
  }

  function EffectiveList(ws: seq<Warehouse>, constraints: Constraints): (r: seq<Warehouse>)
    ensures |r| == |ws|
  {
    seq(|ws|, i requires 0 <= i < |ws| =>
      Warehouse(ws[i].name, EffectiveStock(ws[i].stock, PolicyOf(constraints, ws[i].name))))
  }

  function Available(ws: seq<Warehouse>, constraints: Constraints): seq<Warehouse> {
    EffectiveList(Sorted(ws, Name, false), constraints)
  }

  // ----- Choice of the group

  function Units(group: seq<Warehouse>, sku: Key): int {
    if group == [] then 0 else Get(group[0].stock, sku) + Units(group[1..], sku)
  }

  predicate Feasible(group: seq<Warehouse>, order: Quantities) {
    forall sku :: sku in order ==> Units(group, sku) >= order[sku]
  }

  function FirstFeasible(groups: seq<seq<Warehouse>>, order: Quantities): Option<seq<Warehouse>> {
    if groups == [] then None
    else if Feasible(groups[0], order) then Some(groups[0])
    else FirstFeasible(groups[1..], order)
  }

  /** The generator of the source: sizes upward, then combinations in order; the first that meets
      the order. */
  function Search(available: seq<Warehouse>, order: Quantities, size: nat): Option<seq<Warehouse>>
    decreases |available| + 1 - size
  {
    if size > |available| then None
    else
      var found := FirstFeasible(Combinations(available, size), order);
      if found.Some? then found else Search(available, order, size + 1)
  }

  // ----- Greedy allocation

  /** One warehouse ships, SKU by SKU, what it can of what remains. */
  function Fill(stock: Quantities, skus: seq<Key>, remaining: Quantities): (seq<(Key, int)>, Quantities)
    decreases |skus|
  {
    if skus == [] then ([], remaining)
    else
      var quantity := Min(Get(remaining, skus[0]), Get(stock, skus[0]));
      if quantity == 0 then Fill(stock, skus[1..], remaining)
      else
        var rest := Fill(stock, skus[1..], Ship(remaining, skus[0], quantity));
        ([(skus[0], quantity)] + rest.0, rest.1)
  }

  function Ship(remaining: Quantities, sku: Key, quantity: int): Quantities {
    remaining[sku := Get(remaining, sku) - quantity]
  }

  function Allocate(group: seq<Warehouse>, skus: seq<Key>, remaining: Quantities): seq<Shipment>
    decreases |group|
  {
    if group == [] then []
    else
      var (items, rest) := Fill(group[0].stock, skus, remaining);
      (if items != [] then [Shipment(group[0].name, items)] else []) + Allocate(group[1..], skus, rest)
  }

  /** The keys of a dictionary in ascending order. */
  ghost function Ascending(keys: set<Key>): (r: seq<Key>)
    ensures forall k :: k in r <==> k in keys
    ensures StrictlyInOrder(r, Itself, false)
  {
    if keys == {} then []
    else
      var k :| k in keys;
      var rest := Ascending(keys - {k});
      DistinctIfStrict(rest);
      SortedIsStrict([k] + rest, Itself, false);
      SortedPermutes([k] + rest, Itself, false);
      Sorted([k] + rest, Itself, false)
  }

  lemma DistinctIfStrict(ks: seq<Key>)
    requires StrictlyInOrder(ks, Itself, false)
    ensures DistinctKeys(ks, Itself)
  {
    forall i, j | 0 <= i < j < |ks| ensures Itself(ks[i]) != Itself(ks[j]) {
      LtIrreflexive(ks[i]);
      assert Before(ks[i], ks[j], Itself, false);
    }
  }

  /** The whole call, given the stock list the implementation works from. */
  ghost function PlanFrom(order: Quantities, available: seq<Warehouse>): Result<seq<Shipment>, PlanError> {
    if order == map[] then Ok([])
    else match Search(available, order, 1)
      case None => Err(InsufficientStock)
      case Some(group) => Ok(Allocate(group, Ascending(order.Keys), order))
  }

  ghost function Plan(order: Quantities, ws: seq<Warehouse>, constraints: Constraints)
    : Result<seq<Shipment>, PlanError>
  {
    if !ValidInput(order, ws, constraints) then Err(ValueError)
    else PlanFrom(order, Available(ws, constraints))
  }

  // ----- The planner as the source runs it

  /** A copy of the mapping, after checking every item in whatever order it yields them. */
  method CopyChecked(value: Quantities, minimum: int) returns (r: Result<Quantities, PlanError>)
    ensures r == if (forall sku :: sku in value ==> sku != [] && minimum <= value[sku])
      then Ok(value) else Err(ValueError)
  {
    var result: Quantities := map[];
    var todo := value.Keys;
    while todo != {}
      invariant todo <= value.Keys && result.Keys == value.Keys - todo
      invariant forall sku :: sku in result ==> result[sku] == value[sku]
      invariant forall sku :: sku in result ==> sku != [] && minimum <= value[sku]
      decreases |todo|
    {
      var sku :| sku in todo;
      todo := todo - {sku};
      if sku == [] || value[sku] < minimum {
        return Err(ValueError);
      }
      result := result[sku := value[sku]];
    }
    assert result == value;
    return Ok(result);
  }

  method NormalizeWarehouses(value: seq<Warehouse>) returns (r: Result<seq<Warehouse>, PlanError>)
    ensures r == if ValidWarehouses(value) then Ok(Sorted(value, Name, false)) else Err(ValueError)
  {
    var output: seq<Warehouse> := [];
    var names: set<Key> := {};
    for i := 0 to |value|
      invariant output == value[..i]
      invariant ValidWarehouses(value[..i])
      invariant forall n :: n in names <==> exists j :: 0 <= j < i && value[j].name == n
    {
      var raw := value[i];
      if raw.name == [] || raw.name in names {
        assert !ValidWarehouses(value);
        return Err(ValueError);
      }
      var normalized := CopyChecked(raw.stock, 0);
      if normalized.Err? {
        assert !ValidStock(value[i].stock);
        return Err(ValueError);
      }
      names := names + {raw.name};
      output := output + [Warehouse(raw.name, normalized.value)];
      assert value[..i + 1] == value[..i] + [value[i]];
    }
    assert value[..|value|] == value;
    return Ok(Sorted(output, Name, false));
  }

  method CheckReserved(reserved: Quantities, stock: Quantities) returns (r: Result<Quantities, PlanError>)
    ensures r == if (forall sku :: sku in reserved ==>
        sku != [] && sku in stock && 0 <= reserved[sku] <= stock[sku])
      then Ok(reserved) else Err(ValueError)
  {
    var result: Quantities := map[];
    var todo := reserved.Keys;
    while todo != {}
      invariant todo <= reserved.Keys && result.Keys == reserved.Keys - todo
      invariant forall sku :: sku in result ==> result[sku] == reserved[sku]
      invariant forall sku :: sku in result ==> sku != [] && sku in stock && 0 <= reserved[sku] <= stock[sku]
      decreases |todo|
    {
      var sku :| sku in todo;
      todo := todo - {sku};
      if sku == [] || sku !in stock || reserved[sku] < 0 {
        return Err(ValueError);
      }
      result := result[sku := reserved[sku]];
      if result[sku] > stock[sku] {
        return Err(ValueError);
      }
    }
    assert result == reserved;
    return Ok(result);
  }

  predicate ValidBlocked(blocked: seq<Key>) {
    && (forall i :: 0 <= i < |blocked| ==> blocked[i] != [])
    && |Elements(blocked)| == |blocked|
  }

  /** Comparing lengths with the set of elements detects exactly the repeats. */
  lemma {:induction false} SetSizeDetectsRepeats(ks: seq<Key>)
    ensures |Elements(ks)| <= |ks|
    ensures |Elements(ks)| == |ks| <==> Distinct(ks)
  {
    if ks != [] {
      var front, last := ks[..|ks| - 1], ks[|ks| - 1];
      SetSizeDetectsRepeats(front);
      assert ks == front + [last];
      assert Elements(ks) == Elements(front) + {last};
      assert Distinct(ks) <==> Distinct(front) && last !in front;
    }
  }

  /** The body of the loop over the warehouses. */
  method ApplyPolicy(raw: Policy, stock: Quantities) returns (r: Result<Quantities, PlanError>)
    ensures r == if ValidPolicy(raw, stock) then Ok(EffectiveStock(stock, raw)) else Err(ValueError)
  {
    SetSizeDetectsRepeats(raw.blocked);
    if !ValidBlocked(raw.blocked) {
      return Err(ValueError);
    }
    var reserved := CheckReserved(raw.reserved, stock);
    if reserved.Err? {
      return Err(ValueError);
    }
    return Ok(map sku | sku in stock ::
      if sku in raw.blocked then 0 else stock[sku] - Get(reserved.value, sku));
  }

  lemma NoPolicyNoChange(stock: Quantities)
    ensures EffectiveStock(stock, Policy([], map[])) == stock && ValidPolicy(Policy([], map[]), stock)
  {
  }

  method EffectiveStocks(ws: seq<Warehouse>, constraints: Constraints) returns (r: Result<seq<Warehouse>, PlanError>)
    requires ValidWarehouses(ws)
    ensures r == if ValidConstraints(ws, constraints) then Ok(EffectiveList(ws, constraints)) else Err(ValueError)
  {
    hide EffectiveStock, ValidPolicy;
    if constraints.None? {
      var copies := seq(|ws|, i requires 0 <= i < |ws| => Warehouse(ws[i].name, ws[i].stock));
      forall i | 0 <= i < |ws|
        ensures copies[i] == EffectiveList(ws, constraints)[i] && ValidPolicy(Policy([], map[]), ws[i].stock)
      {
        NoPolicyNoChange(ws[i].stock);
      }
      assert copies == EffectiveList(ws, constraints);
      return Ok(copies);
    }
    if constraints.value.Keys - DeclaredNames(ws) != {} {
      return Err(ValueError);
    }
    forall n | n in constraints.value ensures n in DeclaredNames(ws) {
      assert n !in constraints.value.Keys - DeclaredNames(ws);
    }
    var output: seq<Warehouse> := [];
    for i := 0 to |ws|
      invariant |output| == i
      invariant forall j :: 0 <= j < i ==> output[j] == EffectiveList(ws, constraints)[j]
      invariant forall j :: 0 <= j < i ==> ValidPolicy(PolicyOf(constraints, ws[j].name), ws[j].stock)
    {
      var raw := if ws[i].name in constraints.value then constraints.value[ws[i].name] else Policy([], map[]);
      var effective := ApplyPolicy(raw, ws[i].stock);
      if effective.Err? {
        return Err(ValueError);
      }
      output := output + [Warehouse(ws[i].name, effective.value)];
    }
    assert output == EffectiveList(ws, constraints);
    return Ok(output);
  }

  /** The ordered SKUs in ascending order. */
  method SortedKeys(keys: set<Key>) returns (r: seq<Key>)
    ensures r == Ascending(keys)
  {
    var listed: seq<Key> := [];
    var todo := keys;
    while todo != {}
      invariant todo <= keys && Distinct(listed)
      invariant forall k :: k in listed <==> k in keys - todo
      decreases |todo|
    {
      var k :| k in todo;
      todo := todo - {k};
      assert k !in listed;
      listed := listed + [k];
    }
    r := Sorted(listed, Itself, false);
    SortedIsStrict(listed, Itself, false);
    SortedPermutes(listed, Itself, false);
    StrictOrderIsUnique(r, Ascending(keys), Itself, false);
  }

  /** The inner loop: one warehouse, the SKUs in ascending order. */
  method FillFrom(stock: Quantities, skus: seq<Key>, start: Quantities)
    returns (items: seq<(Key, int)>, remaining: Quantities)
    requires forall j :: 0 <= j < |skus| ==> skus[j] in start
    ensures items == Fill(stock, skus, start).0 && remaining == Fill(stock, skus, start).1
    ensures remaining.Keys == start.Keys
  {
    hide Fill;
    remaining := start;
    items := [];
    assert skus[0..] == skus;
    for j := 0 to |skus|
      invariant remaining.Keys == start.Keys
      invariant Fill(stock, skus, start).0 == items + Fill(stock, skus[j..], remaining).0
      invariant Fill(stock, skus, start).1 == Fill(stock, skus[j..], remaining).1
    {
      var sku := skus[j];
      FillStep(stock, skus, j, remaining, items);
      var quantity := Min(remaining[sku], Get(stock, sku));
      if quantity != 0 {
        items := items + [(sku, quantity)];
        remaining := remaining[sku := remaining[sku] - quantity];
      }
    }
    FillNothing(stock, skus[|skus|..], remaining);
  }

  lemma FillNothing(stock: Quantities, skus: seq<Key>, remaining: Quantities)
    requires skus == []
    ensures Fill(stock, skus, remaining) == ([], remaining)
  {
  }

  /** One turn of the inner loop. */
  lemma FillStep(stock: Quantities, skus: seq<Key>, j: nat, remaining: Quantities, items: seq<(Key, int)>)
    requires j < |skus| && skus[j] in remaining
    ensures
      var quantity := Min(remaining[skus[j]], Get(stock, skus[j]));
      var now, next := Fill(stock, skus[j..], remaining), Fill(stock, skus[j + 1..], Ship(remaining, skus[j], quantity));
      if quantity == 0 then now == Fill(stock, skus[j + 1..], remaining)
      else items + now.0 == (items + [(skus[j], quantity)]) + next.0 && now.1 == next.1
  {
    SplitAt(skus, j);
    var quantity := Min(remaining[skus[j]], Get(stock, skus[j]));
    Associates(items, [(skus[j], quantity)], Fill(stock, skus[j + 1..], Ship(remaining, skus[j], quantity)).0);
  }

  /** The outer loop: it decrements `remaining` and collects shipments. */
  method AllocateGreedily(group: seq<Warehouse>, skus: seq<Key>, order: Quantities)
    returns (shipments: seq<Shipment>)
    requires forall j :: 0 <= j < |skus| ==> skus[j] in order
    ensures shipments == Allocate(group, skus, order)
  {
    hide Allocate, Fill;
    var remaining := order;
    shipments := [];
    assert group[0..] == group;
    for i := 0 to |group|
      invariant remaining.Keys == order.Keys
      invariant shipments + Allocate(group[i..], skus, remaining) == Allocate(group, skus, order)
    {
      AllocateStep(group, i, skus, remaining, shipments);
      var items, rest := FillFrom(group[i].stock, skus, remaining);
      if items != [] {
        shipments := shipments + [Shipment(group[i].name, items)];
      }
      remaining := rest;
    }
    AllocateNothing(group[|group|..], skus, remaining);
  }

  lemma AllocateNothing(group: seq<Warehouse>, skus: seq<Key>, remaining: Quantities)
    requires group == []
    ensures Allocate(group, skus, remaining) == []
  {
  }

  /** One turn of the outer loop. */
  lemma AllocateStep(group: seq<Warehouse>, i: nat, skus: seq<Key>, remaining: Quantities, shipments: seq<Shipment>)
    requires i < |group|
    ensures
      var (items, rest) := Fill(group[i].stock, skus, remaining);
      var shipped := if items != [] then [Shipment(group[i].name, items)] else [];
      shipments + Allocate(group[i..], skus, remaining) == (shipments + shipped) + Allocate(group[i + 1..], skus, rest)
  {
    hide Fill;
    SplitAt(group, i);
    var (items, rest) := Fill(group[i].stock, skus, remaining);
    var shipped := if items != [] then [Shipment(group[i].name, items)] else [];
    Associates(shipments, shipped, Allocate(group[i + 1..], skus, rest));
  }

  method PlanFulfillment(requested: Quantities, warehouses: seq<Warehouse>, constraints: Constraints)
    returns (r: Result<seq<Shipment>, PlanError>)
    ensures r == Plan(requested, warehouses, constraints)
  {
    var order := CopyChecked(requested, 1);
    if order.Err? {
      return Err(ValueError);
    }
    var sorted := NormalizeWarehouses(warehouses);
    if sorted.Err? {
      return Err(ValueError);
    }
    SortedInputStaysValid(warehouses, constraints);
    var available := EffectiveStocks(sorted.value, constraints);
    if available.Err? {
      return Err(ValueError);
    }
    if order.value == map[] {
      return Ok([]);
    }
    var selected := Search(available.value, order.value, 1);
    if selected.None? {
      return Err(InsufficientStock);
    }
    var skus := SortedKeys(order.value.Keys);
    forall j | 0 <= j < |skus| ensures skus[j] in order.value {
      assert skus[j] in skus;
    }
    var shipments := AllocateGreedily(selected.value, skus, order.value);
    return Ok(shipments);
  }

  /** The checks do not depend on the order the warehouses come in. */
  lemma SortedInputStaysValid(ws: seq<Warehouse>, constraints: Constraints)
    requires ValidWarehouses(ws)
    ensures ValidWarehouses(Sorted(ws, Name, false))
    ensures ValidConstraints(Sorted(ws, Name, false), constraints) <==> ValidConstraints(ws, constraints)
  {
    var sorted := Sorted(ws, Name, false);
    SortedPermutes(ws, Name, false);
    SortedKeysDiffer(ws, Name, false);
    forall i | 0 <= i < |sorted| ensures sorted[i] in ws {
      assert sorted[i] in sorted;
    }
    forall i | 0 <= i < |ws| ensures ws[i] in sorted {
      assert ws[i] in ws;
    }
    SameMembersSameChecks(ws, sorted, constraints);
    SameMembersSameChecks(sorted, ws, constraints);
  }

  lemma SameMembersSameChecks(ws: seq<Warehouse>, vs: seq<Warehouse>, constraints: Constraints)
    requires forall w :: w in ws <==> w in vs
    ensures ValidConstraints(ws, constraints) ==> ValidConstraints(vs, constraints)
  {
    assert DeclaredNames(ws) == DeclaredNames(vs);
    if ValidConstraints(ws, constraints) {
      forall i | 0 <= i < |vs| ensures ValidPolicy(PolicyOf(constraints, vs[i].name), vs[i].stock) {
        assert vs[i] in ws;
        var j :| 0 <= j < |ws| && ws[j] == vs[i];
        assert ValidPolicy(PolicyOf(constraints, ws[j].name), ws[j].stock);
      }
    }
  }
}
