/** Ordered pricing adjustments in integer cents, each percentage rounded half up. */
module Pricing {
  import opened Wrappers

  /** `UnknownKind` stands for a mapping whose kind is neither of the two. */
  datatype Adjustment =
    | Fixed(amountCents: int)
    | Percentage(basisPoints: int)
    | UnknownKind

  datatype PricingError = ValueError

  predicate WellFormed(a: Adjustment) {
    match a
    case Fixed(amount) => 0 <= amount
    case Percentage(points) => 0 <= points <= 10_000
    case UnknownKind => false
  }

  /** The cents a percentage takes off, half a cent rounded up. */
  function Reduction(current: nat, points: nat): nat {
    (current * points + 5_000) / 10_000
  }

  function Clamp(cents: int): nat {
    if cents < 0 then 0 else cents
  }

  function Adjust(current: nat, a: Adjustment): nat
    requires WellFormed(a)
  {
    match a
    case Fixed(amount) => Clamp(current - amount)
    case Percentage(points) => Clamp(current - Reduction(current, points))
  }

  function Total(subtotal: nat, adjustments: seq<Adjustment>): nat
    requires forall a :: a in adjustments ==> WellFormed(a)
    decreases |adjustments|
  {
    if adjustments == [] then subtotal
    else
      assert adjustments[0] in adjustments;
      assert forall a :: a in adjustments[1..] ==> a in adjustments;
      Total(Adjust(subtotal, adjustments[0]), adjustments[1..])
  }

  /** The whole call: the first malformed adjustment abandons it. */
  function Quote(subtotal: int, adjustments: seq<Adjustment>): Result<nat, PricingError> {
    if 0 <= subtotal && forall a :: a in adjustments ==> WellFormed(a)
    then Ok(Total(subtotal, adjustments))
    else Err(ValueError)
  }

  // ----- The two implementations

  /** One adjuster per kind, with the clamp applied by the caller. */
  function AdjustFixed(current: nat, amount: int): Result<int, PricingError> {
    if amount < 0 then Err(ValueError) else Ok(current - amount)
  }

  function AdjustPercentage(current: nat, points: int): Result<int, PricingError> {
    if points < 0 || points > 10_000 then Err(ValueError)
    else
      var reduction := (current * points + 5_000) / 10_000;
      Ok(current - reduction)
  }

  method ApplyAdjustments(subtotal: int, adjustments: seq<Adjustment>) returns (r: Result<nat, PricingError>)
    ensures r == Quote(subtotal, adjustments)
  {
    if subtotal < 0 {
      return Err(ValueError);
    }
    var current: nat := subtotal;
    for i := 0 to |adjustments|
      invariant forall a :: a in adjustments[..i] ==> WellFormed(a)
      invariant Total(subtotal, adjustments[..i]) == current
    {
      var adjustment := adjustments[i];
      var adjusted: Result<int, PricingError>;
      match adjustment {
        case Fixed(amount) => adjusted := AdjustFixed(current, amount);
        case Percentage(points) => adjusted := AdjustPercentage(current, points);
        case UnknownKind => adjusted := Err(ValueError);
      }
      assert adjustment in adjustments;
      if adjusted.Err? {
        return Err(ValueError);
      }
      assert adjustments[..i + 1] == adjustments[..i] + [adjustment];
      TotalOfAppend(subtotal, adjustments[..i], adjustment);
      current := if 0 < adjusted.value then adjusted.value else 0;
    }
    assert adjustments[..|adjustments|] == adjustments;
    return Ok(current);
  }

  method ApplyAdjustmentsAlternate(subtotal: int, adjustments: seq<Adjustment>)
    returns (r: Result<nat, PricingError>)
    ensures r == Quote(subtotal, adjustments)
  {
    if subtotal < 0 {
      return Err(ValueError);
    }
    var total := subtotal;
    for i := 0 to |adjustments|
      invariant forall a :: a in adjustments[..i] ==> WellFormed(a)
      invariant 0 <= total && Total(subtotal, adjustments[..i]) == total
    {
      var adjustment := adjustments[i];
      assert adjustment in adjustments;
      ghost var before := total;
      if adjustment.Fixed? {
        if adjustment.amountCents < 0 {
          return Err(ValueError);
        }
        total := total - adjustment.amountCents;
      } else if adjustment.Percentage? {
        var points := adjustment.basisPoints;
        if points < 0 {
          return Err(ValueError);
        }
        if points > 10_000 {
          return Err(ValueError);
        }
        total := total - (total * points + 5_000) / 10_000;
      } else {
        return Err(ValueError);
      }
      if total < 0 {
        total := 0;
      }
      assert adjustments[..i + 1] == adjustments[..i] + [adjustment];
      TotalOfAppend(subtotal, adjustments[..i], adjustment);
    }
    assert adjustments[..|adjustments|] == adjustments;
    return Ok(total);
  }

  lemma {:induction false} TotalOfAppend(subtotal: nat, adjustments: seq<Adjustment>, a: Adjustment)
    requires forall b :: b in adjustments ==> WellFormed(b)
    requires WellFormed(a)
    ensures Total(subtotal, adjustments + [a]) == Adjust(Total(subtotal, adjustments), a)
    decreases |adjustments|
  {
    if adjustments != [] {
      assert adjustments[0] in adjustments;
      assert forall b :: b in adjustments[1..] ==> b in adjustments;
      assert (adjustments + [a])[1..] == adjustments[1..] + [a];
      TotalOfAppend(Adjust(subtotal, adjustments[0]), adjustments[1..], a);
    }
  }

  // ----- Range, monotonicity, and a law of one cent

  lemma ProductUpTo(n: nat, points: nat, cap: nat)
    requires points <= cap
    ensures n * points <= n * cap
  {
  }

  lemma QuotientGap(m: nat, n: nat, gap: nat)
    requires m <= n <= m + 10_000 * gap
    ensures 0 <= (n + 5_000) / 10_000 - (m + 5_000) / 10_000 <= gap
  {
  }

  /** Between two amounts a reduction grows, and by no more than the amounts do. */
  lemma ReductionGrowsSlowly(x: nat, y: nat, points: nat)
    requires x <= y && points <= 10_000
    ensures 0 <= Reduction(y, points) - Reduction(x, points) <= y - x
    ensures Reduction(x, points) <= x
  {
    ProductUpTo(y - x, points, 10_000);
    ProductUpTo(x, points, 10_000);
    assert y * points == x * points + (y - x) * points;
    QuotientGap(x * points, y * points, y - x);
    QuotientGap(0, x * points, x);
  }

  lemma AdjustIsNonExpansive(x: nat, y: nat, a: Adjustment)
    requires x <= y && WellFormed(a)
    ensures 0 <= Adjust(y, a) - Adjust(x, a) <= y - x
    ensures Adjust(x, a) <= x
  {
    if a.Percentage? {
      ReductionGrowsSlowly(x, y, a.basisPoints);
    }
  }

  /** A larger subtotal never quotes lower, and the quotes differ by no more than the subtotals do;
      no quote exceeds its subtotal. */
  lemma {:induction false} TotalIsNonExpansive(x: nat, y: nat, adjustments: seq<Adjustment>)
    requires x <= y && forall a :: a in adjustments ==> WellFormed(a)
    ensures 0 <= Total(y, adjustments) - Total(x, adjustments) <= y - x
    ensures 0 <= Total(x, adjustments) <= x
    decreases |adjustments|
  {
    if adjustments != [] {
      assert adjustments[0] in adjustments;
      assert forall a :: a in adjustments[1..] ==> a in adjustments;
      AdjustIsNonExpansive(x, y, adjustments[0]);
      TotalIsNonExpansive(Adjust(x, adjustments[0]), Adjust(y, adjustments[0]), adjustments[1..]);
    }
  }

  // ----- Distance from exact discounting

  function ExactAdjust(current: real, a: Adjustment): real
    requires WellFormed(a)
  {
    var next := match a
      case Fixed(amount) => current - amount as real
      case Percentage(points) => current - current * points as real / 10_000.0;
    if next < 0.0 then 0.0 else next
  }

  /** The same adjustments with the same clamps, on real numbers and without rounding. */
  function ExactTotal(subtotal: real, adjustments: seq<Adjustment>): real
    requires forall a :: a in adjustments ==> WellFormed(a)
    decreases |adjustments|
  {
    if adjustments == [] then subtotal
    else
      assert adjustments[0] in adjustments;
      assert forall a :: a in adjustments[1..] ==> a in adjustments;
      ExactTotal(ExactAdjust(subtotal, adjustments[0]), adjustments[1..])
  }

  function Percentages(adjustments: seq<Adjustment>): nat {
    if adjustments == [] then 0
    else (if adjustments[0].Percentage? then 1 else 0) + Percentages(adjustments[1..])
  }

  function Abs(x: real): real {
    if x < 0.0 then -x else x
  }

  /** A reduction is the whole number nearest the exact share, the upper one of two equally near. */
  lemma RoundingError(current: nat, points: nat)
    requires points <= 10_000
    ensures -0.5 < Reduction(current, points) as real - current as real * points as real / 10_000.0 <= 0.5
  {
    var product, quotient := current * points, Reduction(current, points);
    assert 10_000 * quotient <= product + 5_000 < 10_000 * quotient + 10_000;
    assert current as real * points as real == product as real;
  }

  function Scale(keep: real, x: real): real {
    keep * x
  }

  lemma ScaleShrinks(keep: real, x: real)
    requires 0.0 <= keep <= 1.0 && 0.0 <= x
    ensures 0.0 <= Scale(keep, x) <= x
  {
    assert x - keep * x == (1.0 - keep) * x;
  }

  lemma ScaleAdds(keep: real, x: real, y: real)
    ensures Scale(keep, x + y) == Scale(keep, x) + Scale(keep, y)
  {
  }

  lemma ScaleContracts(keep: real, x: real, y: real)
    requires 0.0 <= keep <= 1.0 && y <= x
    ensures 0.0 <= Scale(keep, x) - Scale(keep, y) <= x - y
  {
    hide Scale;
    ScaleShrinks(keep, x - y);
    ScaleAdds(keep, y, x - y);
    assert y + (x - y) == x;
  }

  lemma ExactPercentage(x: real, a: Adjustment)
    requires WellFormed(a) && a.Percentage? && 0.0 <= x
    ensures ExactAdjust(x, a) == Scale(1.0 - a.basisPoints as real / 10_000.0, x)
    ensures 0.0 <= ExactAdjust(x, a)
  {
    var share := a.basisPoints as real / 10_000.0;
    assert x * a.basisPoints as real / 10_000.0 == share * x;
    assert x - share * x == (1.0 - share) * x;
    ScaleShrinks(1.0 - share, x);
  }

  /** Exact discounting never widens the gap between two amounts. */
  lemma ExactAdjustContracts(x: real, y: real, a: Adjustment)
    requires WellFormed(a) && 0.0 <= x && 0.0 <= y
    ensures Abs(ExactAdjust(x, a) - ExactAdjust(y, a)) <= Abs(x - y)
    ensures 0.0 <= ExactAdjust(x, a)
  {
    hide Scale;
    if a.Percentage? {
      var keep := 1.0 - a.basisPoints as real / 10_000.0;
      ExactPercentage(x, a);
      ExactPercentage(y, a);
      if x >= y {
        ScaleContracts(keep, x, y);
      } else {
        ScaleContracts(keep, y, x);
      }
    }
  }

  lemma AdjustIsNearExact(current: nat, a: Adjustment)
    requires WellFormed(a)
    ensures Abs(Adjust(current, a) as real - ExactAdjust(current as real, a))
         <= if a.Percentage? then 0.5 else 0.0
  {
    if a.Percentage? {
      RoundingError(current, a.basisPoints);
      ReductionGrowsSlowly(current, current, a.basisPoints);
      ExactAdjustContracts(current as real, 0.0, a);
      assert current as real * a.basisPoints as real / 10_000.0 <= current as real by {
        var share := a.basisPoints as real / 10_000.0;
        assert current as real * share <= current as real * 1.0;
      }
    }
  }

  lemma {:induction false} TotalsStayClose(current: nat, exact: real, adjustments: seq<Adjustment>, gap: real)
    requires forall a :: a in adjustments ==> WellFormed(a)
    requires 0.0 <= exact && Abs(current as real - exact) <= gap
    ensures Abs(Total(current, adjustments) as real - ExactTotal(exact, adjustments))
         <= gap + 0.5 * Percentages(adjustments) as real
    decreases |adjustments|
  {
    if adjustments != [] {
      var a, rest := adjustments[0], adjustments[1..];
      assert a in adjustments && forall b :: b in rest ==> b in adjustments;
      AdjustIsNearExact(current, a);
      ExactAdjustContracts(current as real, exact, a);
      ExactAdjustContracts(exact, exact, a);
      TotalsStayClose(Adjust(current, a), ExactAdjust(exact, a), rest, gap + if a.Percentage? then 0.5 else 0.0);
    }
  }

  /** Compounded over a list, the quote stays within half a cent per percentage of the exact one. */
  lemma QuoteIsNearExact(subtotal: nat, adjustments: seq<Adjustment>)
    requires forall a :: a in adjustments ==> WellFormed(a)
    ensures Abs(Total(subtotal, adjustments) as real - ExactTotal(subtotal as real, adjustments))
         <= 0.5 * Percentages(adjustments) as real
  {
    TotalsStayClose(subtotal, subtotal as real, adjustments, 0.0);
  }

  /** The bound is met: half of one cent rounds the whole cent away. */
  lemma HalfACentIsReached()
    ensures Total(1, [Percentage(5_000)]) == 0
    ensures ExactTotal(1.0, [Percentage(5_000)]) == 0.5
  {
    var a := Percentage(5_000);
    assert Reduction(1, 5_000) == 1;
    assert Adjust(1, a) == 0;
    assert ExactAdjust(1.0, a) == 0.5;
    assert [a][1..] == [];
  }

  // ----- The call in plain numbers

  /** A negative subtotal, a negative fixed amount, basis points outside 0 to 10000 and an unknown kind
      raise, wherever they stand in the list, and nothing else does. */
  lemma QuoteRaisesIff(subtotal: int, adjustments: seq<Adjustment>)
    ensures Quote(subtotal, adjustments) == Err(ValueError) <==>
      || subtotal < 0
      || exists a :: a in adjustments && match a
           case Fixed(amount) => amount < 0
           case Percentage(points) => points < 0 || points > 10_000
           case UnknownKind => true
  {
  }

  /** `reduction` is the share rounded to the nearest cent, halves up. */
  predicate IsRoundedShare(reduction: int, cents: int, points: int) {
    20_000 * reduction - 10_000 <= 2 * cents * points < 20_000 * reduction + 10_000
  }

  /** No adjustment leaves the subtotal; one more takes its fixed amount, or its rounded share, off what
      the others leave, and never goes below zero. */
  lemma QuoteIs(subtotal: int, adjustments: seq<Adjustment>, a: Adjustment)
    requires Quote(subtotal, adjustments + [a]).Ok?
    ensures Quote(subtotal, []) == Ok(subtotal)
    ensures Quote(subtotal, adjustments).Ok?
    ensures
      var before, after := Quote(subtotal, adjustments).value, Quote(subtotal, adjustments + [a]).value;
      match a
      case Fixed(amount) => after == if amount > before then 0 else before - amount
      case Percentage(points) => IsRoundedShare(before - after, before, points)
      case UnknownKind => false
  {
    assert forall b :: b in adjustments ==> b in adjustments + [a];
    assert a in adjustments + [a];
    TotalOfAppend(subtotal, adjustments, a);
    var before := Total(subtotal, adjustments);
    if a.Percentage? {
      ReductionGrowsSlowly(before, before, a.basisPoints);
      ReductionRounds(before, a.basisPoints);
    }
  }

  lemma ReductionRounds(current: nat, points: nat)
    ensures IsRoundedShare(Reduction(current, points), current, points)
  {
    var product, quotient := current * points, Reduction(current, points);
    assert 10_000 * quotient <= product + 5_000 < 10_000 * quotient + 10_000;
  }
}
