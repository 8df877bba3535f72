/** What a returned plan is worth: it ships exactly the order, greedily, wastes no shipment, and no
    allocation at all uses fewer warehouses. */
module ShipmentPlans {
  import opened Numbers
  import opened Wrappers
  import opened Sorting
  import opened Groups
  import opened Fulfillment
  import opened GroupChoice
  import FulfillmentAlternate

  function Sku(item: (Key, int)): Key {
    item.0
  }

  function Max0(n: int): int {
    if n < 0 then 0 else n
  }

  /** The units of a SKU among the items of one shipment. */
  function Shipped(items: seq<(Key, int)>, sku: Key): int {
    if items == [] then 0 else (if items[0].0 == sku then items[0].1 else 0) + Shipped(items[1..], sku)
  }

  function TotalShipped(plan: seq<Shipment>, sku: Key): int {
    if plan == [] then 0 else Shipped(plan[0].items, sku) + TotalShipped(plan[1..], sku)
  }

  ghost predicate NonNegative(m: Quantities) {
    forall sku :: 0 <= Get(m, sku)
  }

  // ----- One warehouse

  /** What one pass over the SKUs ships: for each SKU the smaller of need and stock. */
  lemma {:induction false} FillAmounts(stock: Quantities, skus: seq<Key>, remaining: Quantities, s: Key)
    requires StrictlyInOrder(skus, Itself, false)
    ensures
      var (items, rest) := Fill(stock, skus, remaining);
      var amount := if s in skus then Min(Get(remaining, s), Get(stock, s)) else 0;
      Shipped(items, s) == amount && Get(rest, s) == Get(remaining, s) - amount
    decreases |skus|
  {
    if skus != [] {
      var quantity := Min(Get(remaining, skus[0]), Get(stock, skus[0]));
      var next := if quantity == 0 then remaining else Ship(remaining, skus[0], quantity);
      var rest := Fill(stock, skus[1..], next);
      FillAmounts(stock, skus[1..], next, s);
      StrictTail(skus, s, Itself, false);
      StrictTail(skus, skus[0], Itself, false);
      if quantity != 0 {
        assert ([(skus[0], quantity)] + rest.0)[1..] == rest.0;
      }
    }
  }

  /** The items are positive, within stock and need, and in ascending SKU order. */
  lemma {:induction false} FillItems(stock: Quantities, skus: seq<Key>, remaining: Quantities)
    requires StrictlyInOrder(skus, Itself, false)
    requires NonNegative(stock) && NonNegative(remaining)
    ensures
      var items := Fill(stock, skus, remaining).0;
      && StrictlyInOrder(items, Sku, false)
      && forall k :: 0 <= k < |items| ==>
           items[k].0 in skus && 1 <= items[k].1 <= Get(stock, items[k].0) && items[k].1 <= Get(remaining, items[k].0)
    ensures NonNegative(Fill(stock, skus, remaining).1)
    decreases |skus|
  {
    if skus != [] {
      var quantity := Min(Get(remaining, skus[0]), Get(stock, skus[0]));
      assert 0 <= Get(remaining, skus[0]) && 0 <= Get(stock, skus[0]);
      var next := if quantity == 0 then remaining else Ship(remaining, skus[0], quantity);
      forall s ensures 0 <= Get(next, s) <= Get(remaining, s) {
        assert 0 <= Get(remaining, s);
      }
      FillItems(stock, skus[1..], next);
      var rest := Fill(stock, skus[1..], next).0;
      forall k | 0 <= k < |rest| ensures rest[k].0 in skus && Lt(skus[0], rest[k].0) {
        var j :| 0 <= j < |skus[1..]| && skus[1..][j] == rest[k].0;
        assert skus[j + 1] == rest[k].0 && Before(skus[0], skus[j + 1], Itself, false);
      }
    }
  }

  // ----- The whole group

  /** Warehouse `i` still finds some of `s` wanted and has some. */
  ghost predicate Useful(group: seq<Warehouse>, need: Quantities, i: nat, s: Key)
    requires i < |group|
  {
    Get(need, s) - Units(group[..i], s) > 0 && Get(group[i].stock, s) > 0
  }

  ghost predicate UsefulAt(group: seq<Warehouse>, skus: seq<Key>, need: Quantities, i: nat)
    requires i < |group|
  {
    exists s :: s in skus && Useful(group, need, i, s)
  }

  ghost predicate EveryoneUseful(group: seq<Warehouse>, skus: seq<Key>, need: Quantities) {
    forall i :: 0 <= i < |group| ==> UsefulAt(group, skus, need, i)
  }

  /** Shipment `i` of the plan is what warehouse `i` of the group greedily contributes. */
  ghost predicate Greedy(group: seq<Warehouse>, skus: seq<Key>, need: Quantities, plan: seq<Shipment>) {
    && |plan| == |group|
    && forall i :: 0 <= i < |plan| ==> GreedyAt(group, skus, need, plan, i)
  }

  ghost predicate GreedyAt(group: seq<Warehouse>, skus: seq<Key>, need: Quantities, plan: seq<Shipment>, i: nat)
    requires i < |plan| == |group|
  {
    && plan[i].warehouse == group[i].name
    && plan[i].items != []
    && StrictlyInOrder(plan[i].items, Sku, false)
    && (forall k :: 0 <= k < |plan[i].items| ==>
          plan[i].items[k].0 in skus && 1 <= plan[i].items[k].1 <= Get(group[i].stock, plan[i].items[k].0))
    && (forall s :: s in skus ==>
          Shipped(plan[i].items, s) == Min(Max0(Get(need, s) - Units(group[..i], s)), Get(group[i].stock, s)))
  }

  lemma {:induction false} UnitsOfPrefix(group: seq<Warehouse>, i: nat, s: Key)
    requires 1 <= i <= |group|
    ensures Units(group[..i], s) == Get(group[0].stock, s) + Units(group[1..][..i - 1], s)
  {
    assert group[..i][0] == group[0] && group[..i][1..] == group[1..][..i - 1];
  }

  /** What is left after the first warehouse, seen from warehouse `i` on. */
  lemma NeedAfterFirst(group: seq<Warehouse>, skus: seq<Key>, need: Quantities, i: nat, s: Key)
    requires group != [] && 1 <= i <= |group| && s in skus && StrictlyInOrder(skus, Itself, false)
    requires NonNegative(need) && forall k :: 0 <= k < |group| ==> NonNegative(group[k].stock)
    ensures Max0(Get(Fill(group[0].stock, skus, need).1, s) - Units(group[1..][..i - 1], s))
         == Max0(Get(need, s) - Units(group[..i], s))
    ensures 0 <= Units(group[1..][..i - 1], s)
  {
    UnitsOfPrefix(group, i, s);
    FillAmounts(group[0].stock, skus, need, s);
    UnitsNonNegative(group[1..][..i - 1], s);
    assert NonNegative(group[0].stock) && 0 <= Get(group[0].stock, s) && 0 <= Get(need, s);
  }

  lemma {:induction false} UnitsNonNegative(group: seq<Warehouse>, s: Key)
    requires forall k :: 0 <= k < |group| ==> NonNegative(group[k].stock)
    ensures 0 <= Units(group, s)
  {
    if group != [] {
      assert NonNegative(group[0].stock) && 0 <= Get(group[0].stock, s);
      UnitsNonNegative(group[1..], s);
    }
  }

  lemma UsefulFillsSomething(stock: Quantities, skus: seq<Key>, need: Quantities, s: Key)
    requires StrictlyInOrder(skus, Itself, false) && s in skus
    requires Get(need, s) > 0 && Get(stock, s) > 0
    ensures Fill(stock, skus, need).0 != []
  {
    FillAmounts(stock, skus, need, s);
  }

  lemma {:induction false} AllocateIsGreedy(group: seq<Warehouse>, skus: seq<Key>, need: Quantities)
    requires StrictlyInOrder(skus, Itself, false)
    requires NonNegative(need) && forall k :: 0 <= k < |group| ==> NonNegative(group[k].stock)
    requires EveryoneUseful(group, skus, need)
    ensures Greedy(group, skus, need, Allocate(group, skus, need))
    decreases |group|
  {
    if group != [] {
      var first, rest := group[0].stock, group[1..];
      var (items, left) := Fill(first, skus, need);
      assert NonNegative(first);
      FillItems(first, skus, need);
      assert UsefulAt(group, skus, need, 0);
      var s0 :| s0 in skus && Useful(group, need, 0, s0);
      UsefulFillsSomething(first, skus, need, s0);
      forall i | 0 <= i < |rest| ensures UsefulAt(rest, skus, left, i) {
        assert UsefulAt(group, skus, need, i + 1);
        var s :| s in skus && Useful(group, need, i + 1, s);
        NeedAfterFirst(group, skus, need, i + 1, s);
        assert Useful(rest, left, i, s);
      }
      AllocateIsGreedy(rest, skus, left);
      var tail := Allocate(rest, skus, left);
      var plan := Allocate(group, skus, need);
      assert plan == [Shipment(group[0].name, items)] + tail;
      forall i | 0 <= i < |plan| ensures GreedyAt(group, skus, need, plan, i) {
        if i == 0 {
          FirstIsGreedy(group, skus, need, plan);
        } else {
          assert plan[i] == tail[i - 1] && GreedyAt(rest, skus, left, tail, i - 1);
          LaterIsGreedy(group, skus, need, left, plan, tail, i);
        }
      }
    }
  }

  lemma FirstIsGreedy(group: seq<Warehouse>, skus: seq<Key>, need: Quantities, plan: seq<Shipment>)
    requires StrictlyInOrder(skus, Itself, false) && group != [] && |plan| == |group|
    requires NonNegative(need) && NonNegative(group[0].stock)
    requires plan[0] == Shipment(group[0].name, Fill(group[0].stock, skus, need).0) && plan[0].items != []
    ensures GreedyAt(group, skus, need, plan, 0)
  {
    hide StrictlyInOrder, Fill, Shipped, NonNegative;
    FillItems(group[0].stock, skus, need);
    forall s | s in skus
      ensures Shipped(plan[0].items, s) == Min(Max0(Get(need, s) - Units(group[..0], s)), Get(group[0].stock, s))
    {
      FillAmounts(group[0].stock, skus, need, s);
      NeedIsNonNegative(need, s);
    }
  }

  lemma NeedIsNonNegative(need: Quantities, s: Key)
    requires NonNegative(need)
    ensures 0 <= Get(need, s)
  {
  }

  lemma LaterIsGreedy(group: seq<Warehouse>, skus: seq<Key>, need: Quantities, left: Quantities,
                      plan: seq<Shipment>, tail: seq<Shipment>, i: nat)
    requires StrictlyInOrder(skus, Itself, false) && 1 <= i < |group| == |plan| && |tail| == |plan| - 1
    requires NonNegative(need) && forall k :: 0 <= k < |group| ==> NonNegative(group[k].stock)
    requires left == Fill(group[0].stock, skus, need).1
    requires plan[i] == tail[i - 1] && GreedyAt(group[1..], skus, left, tail, i - 1)
    ensures GreedyAt(group, skus, need, plan, i)
  {
    hide StrictlyInOrder, Fill, Shipped, NonNegative, Units;
    assert group[1..][i - 1] == group[i];
    forall s | s in skus
      ensures Shipped(plan[i].items, s) == Min(Max0(Get(need, s) - Units(group[..i], s)), Get(group[i].stock, s))
    {
      NeedAfterFirst(group, skus, need, i, s);
    }
  }

  /** Greedy contributions add up to the need, once the group holds enough. */
  lemma {:induction false} GreedyAddsUp(group: seq<Warehouse>, skus: seq<Key>, need: Quantities,
                                        plan: seq<Shipment>, i: nat, s: Key)
    requires Greedy(group, skus, need, plan) && s in skus && i <= |plan|
    requires NonNegative(need) && forall k :: 0 <= k < |group| ==> NonNegative(group[k].stock)
    ensures TotalShipped(plan[..i], s) == Min(Get(need, s), Units(group[..i], s))
  {
    if i == 0 {
      assert 0 <= Get(need, s);
    } else {
      GreedyAddsUp(group, skus, need, plan, i - 1, s);
      assert plan[..i] == plan[..i - 1] + [plan[i - 1]];
      TotalOfAppend(plan[..i - 1], plan[i - 1], s);
      assert group[..i] == group[..i - 1] + [group[i - 1]];
      UnitsOfAppend(group[..i - 1], group[i - 1], s);
      assert GreedyAt(group, skus, need, plan, i - 1);
      assert NonNegative(group[i - 1].stock) && 0 <= Get(group[i - 1].stock, s);
    }
  }

  lemma {:induction false} TotalOfAppend(plan: seq<Shipment>, last: Shipment, s: Key)
    ensures TotalShipped(plan + [last], s) == TotalShipped(plan, s) + Shipped(last.items, s)
  {
    if plan != [] {
      assert (plan + [last])[1..] == plan[1..] + [last];
      TotalOfAppend(plan[1..], last, s);
    }
  }

  lemma {:induction false} UnitsOfAppend(group: seq<Warehouse>, last: Warehouse, s: Key)
    ensures Units(group + [last], s) == Units(group, s) + Get(last.stock, s)
  {
    if group != [] {
      assert (group + [last])[1..] == group[1..] + [last];
      UnitsOfAppend(group[1..], last, s);
    }
  }

  // ----- A best group has no idle member

  lemma {:induction false} UnitsWithout(group: seq<Warehouse>, i: nat, s: Key)
    requires i < |group|
    ensures Units(group, s) == Units(group[..i] + group[i + 1..], s) + Get(group[i].stock, s)
  {
    if i == 0 {
      assert group[..0] + group[1..] == group[1..];
    } else {
      UnitsWithout(group[1..], i - 1, s);
      assert (group[..i] + group[i + 1..])[1..] == group[1..][..i - 1] + group[1..][i..];
    }
  }

  lemma {:induction false} UnitsOfConcat(g: seq<Warehouse>, h: seq<Warehouse>, s: Key)
    ensures Units(g + h, s) == Units(g, s) + Units(h, s)
  {
    if g == [] {
      assert g + h == h;
    } else {
      assert (g + h)[1..] == g[1..] + h;
      UnitsOfConcat(g[1..], h, s);
    }
  }

  /** Were a member idle, the group without it would meet the order with one warehouse fewer. */
  lemma BestIsUseful(available: seq<Warehouse>, order: Quantities, group: seq<Warehouse>, skus: seq<Key>)
    requires Best(available, order, group) && order != map[] && ValidOrder(order)
    requires forall k :: 0 <= k < |available| ==> NonNegative(available[k].stock)
    requires forall sku :: sku in skus <==> sku in order
    ensures EveryoneUseful(group, skus, order)
  {
    forall i | 0 <= i < |group| ensures UsefulAt(group, skus, order, i) {
      if !UsefulAt(group, skus, order, i) {
        var without := group[..i] + group[i + 1..];
        RemoveIsSub(group, available, i);
        MembersNonNegative(available, group);
        forall s | s in order ensures Units(without, s) >= order[s] {
          assert s in skus && !Useful(group, order, i, s);
          UnitsWithout(group, i, s);
          UnitsOfConcat(group[..i], group[i + 1..], s);
          UnitsNonNegative(group[i + 1..], s);
          assert Units(group, s) >= order[s] && NonNegative(group[i].stock) && 0 <= Get(group[i].stock, s);
        }
        FulfillmentAlternate.EmptyMeetsNothing(order);
        assert Feasible(without, order) && without != [] && Precedes(without, group);
        PrecedesAsymmetric(without, group);
        assert false;
      }
    }
  }

  lemma MembersNonNegative(available: seq<Warehouse>, group: seq<Warehouse>)
    requires IsSub(group, available)
    requires forall k :: 0 <= k < |available| ==> NonNegative(available[k].stock)
    ensures forall k :: 0 <= k < |group| ==> NonNegative(group[k].stock) && group[k] in available
  {
    forall k | 0 <= k < |group| ensures NonNegative(group[k].stock) && group[k] in available {
      SubMembers(group, available, group[k]);
      var j :| 0 <= j < |available| && available[j] == group[k];
    }
  }

  // ----- Main results

  /** A plan that ships exactly the order: distinct warehouses in name order, each shipment non-empty,
      its items in SKU order, positive and within the warehouse's effective stock. */
  ghost predicate ShipsExactly(order: Quantities, available: seq<Warehouse>, plan: seq<Shipment>) {
    && (forall i, j :: 0 <= i < j < |plan| ==> Lt(plan[i].warehouse, plan[j].warehouse))
    && (forall i :: 0 <= i < |plan| ==> ShipsFrom(order, available, plan[i]))
    && (forall sku :: TotalShipped(plan, sku) == Get(order, sku))
  }

  ghost predicate ShipsFrom(order: Quantities, available: seq<Warehouse>, shipment: Shipment) {
    && shipment.items != []
    && StrictlyInOrder(shipment.items, Sku, false)
    && exists w :: w in available && w.name == shipment.warehouse
        && forall k :: 0 <= k < |shipment.items| ==>
             shipment.items[k].0 in order && 1 <= shipment.items[k].1 <= Get(w.stock, shipment.items[k].0)
  }

  lemma {:induction false} SubStaysInOrder(g: seq<Warehouse>, xs: seq<Warehouse>)
    requires StrictlyInOrder(xs, Name, false) && IsSub(g, xs)
    ensures StrictlyInOrder(g, Name, false)
    decreases |xs|
  {
    if g != [] {
      if g[0] == xs[0] && IsSub(g[1..], xs[1..]) {
        SubStaysInOrder(g[1..], xs[1..]);
        forall j | 1 <= j < |g| ensures Before(g[0], g[j], Name, false) {
          assert g[j] == g[1..][j - 1];
          SubMembers(g[1..], xs[1..], g[j]);
          var m :| 0 <= m < |xs[1..]| && xs[1..][m] == g[j];
          assert xs[m + 1] == g[j];
        }
      } else {
        SubStaysInOrder(g, xs[1..]);
      }
    }
  }

  lemma {:induction false} UnlistedIsNotShipped(items: seq<(Key, int)>, s: Key)
    requires forall k :: 0 <= k < |items| ==> items[k].0 != s
    ensures Shipped(items, s) == 0
  {
    if items != [] {
      UnlistedIsNotShipped(items[1..], s);
    }
  }

  lemma {:induction false} UnorderedIsNotShipped(plan: seq<Shipment>, s: Key)
    requires forall i, k :: 0 <= i < |plan| && 0 <= k < |plan[i].items| ==> plan[i].items[k].0 != s
    ensures TotalShipped(plan, s) == 0
  {
    if plan != [] {
      UnlistedIsNotShipped(plan[0].items, s);
      UnorderedIsNotShipped(plan[1..], s);
    }
  }

  lemma EffectiveIsNonNegative(ws: seq<Warehouse>, constraints: Constraints)
    requires ValidWarehouses(ws) && ValidConstraints(ws, constraints)
    ensures forall k :: 0 <= k < |ws| ==> NonNegative(EffectiveList(ws, constraints)[k].stock)
  {
    forall k | 0 <= k < |ws| ensures NonNegative(EffectiveList(ws, constraints)[k].stock) {
      assert ValidStock(ws[k].stock) && ValidPolicy(PolicyOf(constraints, ws[k].name), ws[k].stock);
    }
  }

  /** The list both planners search: strictly ordered by name, no negative quantity. */
  lemma AvailableIsSound(order: Quantities, ws: seq<Warehouse>, constraints: Constraints)
    requires ValidInput(order, ws, constraints)
    ensures StrictlyInOrder(Available(ws, constraints), Name, false)
    ensures forall k :: 0 <= k < |Available(ws, constraints)| ==> NonNegative(Available(ws, constraints)[k].stock)
  {
    FulfillmentAlternate.AvailableIsOrdered(ws, constraints);
    SortedInputStaysValid(ws, constraints);
    EffectiveIsNonNegative(Sorted(ws, Name, false), constraints);
  }

  /** The plan made from a best group uses each of its warehouses, greedily in name order. */
  lemma BestPlan(order: Quantities, available: seq<Warehouse>, group: seq<Warehouse>)
    requires ValidOrder(order) && order != map[] && Best(available, order, group)
    requires forall k :: 0 <= k < |available| ==> NonNegative(available[k].stock)
    ensures Greedy(group, Ascending(order.Keys), order, Allocate(group, Ascending(order.Keys), order))
  {
    BestIsUseful(available, order, group, Ascending(order.Keys));
    MembersNonNegative(available, group);
    AllocateIsGreedy(group, Ascending(order.Keys), order);
  }

  lemma GreedyShipsExactly(order: Quantities, available: seq<Warehouse>, group: seq<Warehouse>, plan: seq<Shipment>)
    requires ValidOrder(order) && IsSub(group, available) && Feasible(group, order)
    requires StrictlyInOrder(available, Name, false)
    requires forall k :: 0 <= k < |available| ==> NonNegative(available[k].stock)
    requires Greedy(group, Ascending(order.Keys), order, plan)
    ensures ShipsExactly(order, available, plan)
  {
    var skus := Ascending(order.Keys);
    MembersNonNegative(available, group);
    SubStaysInOrder(group, available);
    forall i, j | 0 <= i < j < |plan| ensures Lt(plan[i].warehouse, plan[j].warehouse) {
      assert GreedyAt(group, skus, order, plan, i) && GreedyAt(group, skus, order, plan, j);
      assert Before(group[i], group[j], Name, false);
    }
    forall i | 0 <= i < |plan| ensures ShipsFrom(order, available, plan[i]) {
      assert GreedyAt(group, skus, order, plan, i);
      assert group[i] in available;
    }
    forall sku ensures TotalShipped(plan, sku) == Get(order, sku) {
      if sku in order {
        GreedyAddsUp(group, skus, order, plan, |plan|, sku);
        assert plan[..|plan|] == plan && group[..|plan|] == group;
      } else {
        forall i, k | 0 <= i < |plan| && 0 <= k < |plan[i].items| ensures plan[i].items[k].0 != sku {
          assert GreedyAt(group, skus, order, plan, i);
        }
        UnorderedIsNotShipped(plan, sku);
      }
    }
  }

  /** The group a returned plan was made from. */
  lemma PlanHasGroup(order: Quantities, ws: seq<Warehouse>, constraints: Constraints)
    returns (group: seq<Warehouse>)
    requires Plan(order, ws, constraints).Ok? && order != map[]
    ensures ValidOrder(order)
    ensures Best(Available(ws, constraints), order, group)
    ensures Greedy(group, Ascending(order.Keys), order, Plan(order, ws, constraints).value)
  {
    var available := Available(ws, constraints);
    AvailableIsSound(order, ws, constraints);
    SearchFindsBest(available, order);
    group := Search(available, order, 1).value;
    BestPlan(order, available, group);
  }

  /** Every returned plan ships exactly the order. */
  lemma PlanShipsExactly(order: Quantities, ws: seq<Warehouse>, constraints: Constraints)
    requires Plan(order, ws, constraints).Ok?
    ensures ShipsExactly(order, Available(ws, constraints), Plan(order, ws, constraints).value)
  {
    if order != map[] {
      AvailableIsSound(order, ws, constraints);
      var group := PlanHasGroup(order, ws, constraints);
      GreedyShipsExactly(order, Available(ws, constraints), group, Plan(order, ws, constraints).value);
    }
  }

  lemma NameIsKnown(xs: seq<Warehouse>, v: Warehouse, w: Warehouse)
    requires StrictlyInOrder(xs, Name, false) && v in xs && w in xs && v.name == w.name
    ensures v == w
  {
    var m :| 0 <= m < |xs| && xs[m] == v;
    var n :| 0 <= n < |xs| && xs[n] == w;
    LtIrreflexive(w.name);
    assert m < n ==> Before(xs[m], xs[n], Name, false);
    assert n < m ==> Before(xs[n], xs[m], Name, false);
  }

  lemma GreedyInNameOrder(order: Quantities, group: seq<Warehouse>, plan: seq<Shipment>, i: nat, sku: Key)
    requires ValidOrder(order) && Greedy(group, Ascending(order.Keys), order, plan)
    requires i < |plan| && sku in order
    requires forall k :: 0 <= k < |group| ==> NonNegative(group[k].stock)
    ensures Shipped(plan[i].items, sku) == Min(order[sku] - TotalShipped(plan[..i], sku), Get(group[i].stock, sku))
  {
    assert GreedyAt(group, Ascending(order.Keys), order, plan, i);
    GreedyAddsUp(group, Ascending(order.Keys), order, plan, i, sku);
  }

  /** Units are taken in name order: each shipment carries, of every ordered SKU, all its warehouse
      has or all that earlier shipments left wanted. */
  lemma PlanAllocatesInNameOrder(order: Quantities, ws: seq<Warehouse>, constraints: Constraints,
                                 plan: seq<Shipment>, i: nat, w: Warehouse, sku: Key)
    requires Plan(order, ws, constraints) == Ok(plan)
    requires i < |plan| && w in Available(ws, constraints) && w.name == plan[i].warehouse && sku in order
    ensures Shipped(plan[i].items, sku) == Min(order[sku] - TotalShipped(plan[..i], sku), Get(w.stock, sku))
  {
    AvailableIsSound(order, ws, constraints);
    var group := PlanHasGroup(order, ws, constraints);
    TakesFromGroup(order, Available(ws, constraints), group, plan, i, w, sku);
  }

  lemma TakesFromGroup(order: Quantities, available: seq<Warehouse>, group: seq<Warehouse>,
                       plan: seq<Shipment>, i: nat, w: Warehouse, sku: Key)
    requires ValidOrder(order) && IsSub(group, available) && StrictlyInOrder(available, Name, false)
    requires forall k :: 0 <= k < |available| ==> NonNegative(available[k].stock)
    requires Greedy(group, Ascending(order.Keys), order, plan)
    requires i < |plan| && w in available && w.name == plan[i].warehouse && sku in order
    ensures Shipped(plan[i].items, sku) == Min(order[sku] - TotalShipped(plan[..i], sku), Get(w.stock, sku))
  {
    MembersNonNegative(available, group);
    assert GreedyAt(group, Ascending(order.Keys), order, plan, i);
    NameIsKnown(available, group[i], w);
    GreedyInNameOrder(order, group, plan, i, sku);
  }

  // ----- Against every allocation

  /** Any way at all of drawing units from warehouses: by warehouse name, then SKU. */
  type Allocation = map<Key, Quantities>

  function Drawn(a: Allocation, name: Key, sku: Key): int {
    if name in a then Get(a[name], sku) else 0
  }

  function TotalDrawn(a: Allocation, ws: seq<Warehouse>, sku: Key): int {
    if ws == [] then 0 else Drawn(a, ws[0].name, sku) + TotalDrawn(a, ws[1..], sku)
  }

  /** It draws no more than the effective stock and covers the order. */
  ghost predicate Covers(order: Quantities, available: seq<Warehouse>, a: Allocation) {
    && (forall i, sku :: 0 <= i < |available| ==>
          0 <= Drawn(a, available[i].name, sku) <= Get(available[i].stock, sku))
    && (forall sku :: sku in order ==> TotalDrawn(a, available, sku) >= order[sku])
  }

  predicate Draws(a: Allocation, order: Quantities, w: Warehouse) {
    exists sku :: sku in order && Drawn(a, w.name, sku) > 0
  }

  /** The warehouses an allocation actually draws ordered units from. */
  function Used(a: Allocation, order: Quantities, available: seq<Warehouse>): seq<Warehouse> {
    Filter(available, Drawers(a, order))
  }

  function Drawers(a: Allocation, order: Quantities): Warehouse -> bool {
    (w: Warehouse) => Draws(a, order, w)
  }

  lemma {:induction false} FilterIsSub(xs: seq<Warehouse>, keep: Warehouse -> bool)
    ensures IsSub(Filter(xs, keep), xs)
  {
    if xs != [] {
      FilterIsSub(xs[1..], keep);
      if keep(xs[0]) {
        assert Filter(xs, keep)[1..] == Filter(xs[1..], keep);
      } else {
        assert Filter(xs, keep) == Filter(xs[1..], keep);
      }
    }
  }

  lemma {:induction false} UsedHoldsEnough(a: Allocation, order: Quantities, xs: seq<Warehouse>, sku: Key)
    requires sku in order
    requires forall i :: 0 <= i < |xs| ==> 0 <= Drawn(a, xs[i].name, sku) <= Get(xs[i].stock, sku)
    ensures Units(Used(a, order, xs), sku) >= TotalDrawn(a, xs, sku)
  {
    if xs != [] {
      UsedHoldsEnough(a, order, xs[1..], sku);
      if Draws(a, order, xs[0]) {
        assert Used(a, order, xs)[1..] == Used(a, order, xs[1..]);
      } else {
        assert Used(a, order, xs) == Used(a, order, xs[1..]);
        assert Drawn(a, xs[0].name, sku) <= 0;
      }
    }
  }

  lemma UsedIsFeasible(a: Allocation, order: Quantities, available: seq<Warehouse>)
    requires Covers(order, available, a)
    ensures IsSub(Used(a, order, available), available) && Feasible(Used(a, order, available), order)
  {
    FilterIsSub(available, Drawers(a, order));
    forall sku | sku in order ensures Units(Used(a, order, available), sku) >= order[sku] {
      UsedHoldsEnough(a, order, available, sku);
    }
  }

  function Warehouses(plan: seq<Shipment>): seq<Key> {
    seq(|plan|, i requires 0 <= i < |plan| => plan[i].warehouse)
  }

  /** No allocation covers the order from fewer warehouses than the plan ships from, and among those
      with as many none comes before it by names. */
  lemma PlanIsMinimal(order: Quantities, ws: seq<Warehouse>, constraints: Constraints, a: Allocation)
    requires Plan(order, ws, constraints).Ok?
    requires Covers(order, Available(ws, constraints), a)
    ensures
      var plan, used := Plan(order, ws, constraints).value, Used(a, order, Available(ws, constraints));
      |plan| < |used| || (|plan| == |used| && !NamesLt(NamesOf(used), Warehouses(plan)))
  {
    var available := Available(ws, constraints);
    var plan, used := Plan(order, ws, constraints).value, Used(a, order, available);
    AvailableIsSound(order, ws, constraints);
    UsedIsFeasible(a, order, available);
    if order == map[] {
      NothingOrderedNothingUsed(a, order, available);
    } else {
      var group := PlanHasGroup(order, ws, constraints);
      assert Warehouses(plan) == NamesOf(group) by {
        forall i | 0 <= i < |plan| ensures plan[i].warehouse == group[i].name {
          assert GreedyAt(group, Ascending(order.Keys), order, plan, i);
        }
      }
      FulfillmentAlternate.EmptyMeetsNothing(order);
      assert used == group || Precedes(group, used);
      if NamesLt(NamesOf(used), NamesOf(group)) && |used| == |group| {
        assert Precedes(used, group);
        PrecedesAsymmetric(used, group);
        NamesLtIrreflexive(NamesOf(group));
      }
    }
  }

  lemma {:induction false} NothingOrderedNothingUsed(a: Allocation, order: Quantities, xs: seq<Warehouse>)
    requires order == map[]
    ensures Used(a, order, xs) == []
  {
    if xs != [] {
      NothingOrderedNothingUsed(a, order, xs[1..]);
      assert !Draws(a, order, xs[0]);
      assert Used(a, order, xs) == Used(a, order, xs[1..]);
    }
  }

  /** Insufficient stock is reported exactly when the input is valid and all warehouses together hold
      too little of some ordered SKU. */
  lemma FailsExactlyOnShortage(order: Quantities, ws: seq<Warehouse>, constraints: Constraints)
    ensures Plan(order, ws, constraints) == Err(ValueError) <==> !ValidInput(order, ws, constraints)
    ensures Plan(order, ws, constraints) == Err(InsufficientStock) <==>
      && ValidInput(order, ws, constraints)
      && exists sku :: sku in order && Units(Available(ws, constraints), sku) < order[sku]
  {
    if ValidInput(order, ws, constraints) && order != map[] {
      var available := Available(ws, constraints);
      AvailableIsSound(order, ws, constraints);
      SearchFindsBest(available, order);
      FulfillmentAlternate.EmptyMeetsNothing(order);
      if Search(available, order, 1).None? {
        WholeIsSub(available);
        assert !Feasible(available, order);
      } else {
        var group := Search(available, order, 1).value;
        forall sku | sku in order ensures Units(available, sku) >= order[sku] {
          SubHoldsNoMore(group, available, sku);
        }
      }
    }
  }

  lemma {:induction false} WholeIsSub(xs: seq<Warehouse>)
    ensures IsSub(xs, xs)
  {
    if xs != [] {
      WholeIsSub(xs[1..]);
    }
  }

  lemma {:induction false} SubHoldsNoMore(g: seq<Warehouse>, xs: seq<Warehouse>, sku: Key)
    requires IsSub(g, xs) && forall k :: 0 <= k < |xs| ==> NonNegative(xs[k].stock)
    ensures Units(g, sku) <= Units(xs, sku)
    decreases |xs|
  {
    if xs != [] {
      assert NonNegative(xs[0].stock) && 0 <= Get(xs[0].stock, sku);
      if g == [] {
        UnitsNonNegative(xs, sku);
      } else if g[0] == xs[0] && IsSub(g[1..], xs[1..]) {
        SubHoldsNoMore(g[1..], xs[1..], sku);
      } else {
        SubHoldsNoMore(g, xs[1..], sku);
      }
    }
  }
}
