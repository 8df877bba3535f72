/** Integer scoring in basis points: review calibration, quality, reliability and selection. */
module Scoring {
  import opened Sequences
  import opened Numbers
  import opened Wrappers
  import opened Sorting
  import opened Gates
  import opened Sums
  import Finalize

  // ----- Review calibration

  datatype Calibration = Calibration(
    truePositives: nat, categoryMatches: int, severityMatches: int, exactMatches: int)

  /** What the calibration model demands. */
  predicate ValidCalibration(c: Calibration) {
    && 0 <= c.categoryMatches && 0 <= c.severityMatches && 0 <= c.exactMatches
    && Max(Max(c.categoryMatches, c.severityMatches), c.exactMatches) <= c.truePositives
    && Max(0, c.categoryMatches + c.severityMatches - c.truePositives) <= c.exactMatches
    && c.exactMatches <= Min(c.categoryMatches, c.severityMatches)
  }

  /** The identifiers a review score retains. */
  datatype ReviewScore = ReviewScore(
    truePositives: nat, matched: seq<Key>, categoryMismatches: seq<Key>, severityMismatches: seq<Key>)

  /** Sorted unique lists, mismatches among the matched, and the count of the matched. */
  predicate ValidScore(s: ReviewScore) {
    && StrictlyInOrder(s.matched, Itself, false)
    && StrictlyInOrder(s.categoryMismatches, Itself, false)
    && StrictlyInOrder(s.severityMismatches, Itself, false)
    && Elements(s.categoryMismatches) <= Elements(s.matched) && Elements(s.severityMismatches) <= Elements(s.matched)
    && s.truePositives == |s.matched|
  }

  function ExtractCalibration(s: ReviewScore): Calibration {
    var category, severity := Elements(s.categoryMismatches), Elements(s.severityMismatches);
    Calibration(s.truePositives, s.truePositives - |category|, s.truePositives - |severity|,
                s.truePositives - |category + severity|)
  }

  lemma {:induction false} StrictIdsAreCounted(ids: seq<Key>)
    requires StrictlyInOrder(ids, Itself, false)
    ensures |Elements(ids)| == |ids|
  {
    if ids != [] {
      StrictOrderTail(ids);
      StrictIdsAreCounted(ids[1..]);
      FirstIdIsExtra(ids);
    }
  }

  lemma StrictOrderTail(ids: seq<Key>)
    requires ids != [] && StrictlyInOrder(ids, Itself, false)
    ensures StrictlyInOrder(ids[1..], Itself, false)
    ensures ids[0] !in ids[1..]
  {
    LtIrreflexive(ids[0]);
    forall k | 0 <= k < |ids[1..]| ensures ids[1..][k] != ids[0] {
      assert Before(ids[0], ids[k + 1], Itself, false);
    }
  }

  lemma FirstIdIsExtra(ids: seq<Key>)
    requires ids != [] && ids[0] !in ids[1..]
    ensures |Elements(ids)| == 1 + |Elements(ids[1..])|
  {
    assert ids == [ids[0]] + ids[1..];
    assert Elements(ids) == {ids[0]} + Elements(ids[1..]);
  }

  lemma SubsetSize(a: set<Key>, b: set<Key>)
    requires a <= b
    ensures |a| + |b - a| == |b|
  {
    assert b == a + (b - a);
  }

  /** Counting inside a set by what two of its subsets leave. */
  lemma InclusionExclusion(all: set<Key>, a: set<Key>, b: set<Key>)
    requires a <= all && b <= all
    ensures |all - a| == |all| - |a| && |all - b| == |all| - |b| && |all - a - b| == |all| - |a + b|
    ensures |a + b| <= |a| + |b| && |a| <= |a + b| && |b| <= |a + b| <= |all|
  {
    SubsetSize(a, all);
    SubsetSize(b, all);
    SubsetSize(a + b, all);
    SubsetSize(a, a + b);
    SubsetSize(b, a + b);
    assert (a + b) - a == b - a;
    SubsetSize(b - a, b);
    assert all - a - b == all - (a + b);
  }

  lemma CountsAreCalibrated(all: set<Key>, a: set<Key>, b: set<Key>)
    requires a <= all && b <= all
    ensures ValidCalibration(Calibration(|all|, |all - a|, |all - b|, |all - a - b|))
    ensures |all - a| == |all| - |a| && |all - b| == |all| - |b| && |all - a - b| == |all| - |a + b|
  {
    InclusionExclusion(all, a, b);
  }

  /** A calibration extracted from a valid score is valid, and each count is that of the matched
      defects whose classification agreed. */
  lemma ExtractedIsValid(s: ReviewScore)
    requires ValidScore(s)
    ensures ValidCalibration(ExtractCalibration(s))
    ensures
      var c, matched := ExtractCalibration(s), Elements(s.matched);
      && c.categoryMatches == |matched - Elements(s.categoryMismatches)|
      && c.severityMatches == |matched - Elements(s.severityMismatches)|
      && c.exactMatches == |matched - Elements(s.categoryMismatches) - Elements(s.severityMismatches)|
  {
    hide StrictlyInOrder, Elements;
    StrictIdsAreCounted(s.matched);
    CountsAreCalibrated(Elements(s.matched), Elements(s.categoryMismatches), Elements(s.severityMismatches));
  }

  // ----- Profiles and trials

  datatype ReviewWeights = ReviewWeights(detection: nat, category: nat, severity: nat)

  datatype Profile = Profile(
    gateWeights: map<Gate, nat>, qualityWeight: nat, reliabilityWeight: nat, reviewWeights: Option<ReviewWeights>)

  predicate ValidProfile(p: Profile) {
    && (forall gate: Gate :: gate in p.gateWeights)
    && (exists gate :: gate in p.gateWeights && p.gateWeights[gate] > 0)
    && p.qualityWeight + p.reliabilityWeight == 100
    && (p.reviewWeights.Some? ==>
          p.reviewWeights.value.detection + p.reviewWeights.value.category + p.reviewWeights.value.severity == 100)
  }

  datatype Trial = Trial(
    classification: Finalize.Classification, outcomes: seq<GateOutcome>, calibration: Option<Calibration>)

  predicate ValidTrial(t: Trial) {
    t.calibration.Some? ==> ValidCalibration(t.calibration.value)
  }

  predicate ValidTrials(trials: seq<Trial>) {
    forall t :: t in trials ==> ValidTrial(t)
  }

  predicate Attributable(t: Trial) {
    t.classification in {Finalize.ValidPass, Finalize.ValidAgentFailure, Finalize.InvalidRun}
  }

  function IsAttributable(): Trial -> bool {
    (t: Trial) => Attributable(t)
  }

  // ----- The sums

  /** What a passed gate earns of 10,000. */
  function PassedGateQuality(calibration: Option<Calibration>, gate: Gate, p: Profile): int {
    if gate != RequestedBehavior || p.reviewWeights.None? || calibration.None?
       || calibration.value.truePositives == 0
    then 10_000
    else
      var w, c := p.reviewWeights.value, calibration.value;
      var weighted := w.detection * c.truePositives + w.category * c.categoryMatches + w.severity * c.severityMatches;
      weighted * 100 / c.truePositives
  }

  function Weight(p: Profile, gate: Gate): nat {
    if gate in p.gateWeights then p.gateWeights[gate] else 0
  }

  function OutcomeWeight(p: Profile): GateOutcome -> int {
    (o: GateOutcome) => if o.status == NotApplicable then 0 else Weight(p, o.gate)
  }

  function OutcomeQuality(calibration: Option<Calibration>, p: Profile): GateOutcome -> int {
    (o: GateOutcome) => if o.status == Passed then Weight(p, o.gate) * PassedGateQuality(calibration, o.gate, p) else 0
  }

  function TrialWeight(p: Profile): Trial -> int {
    (t: Trial) => if Attributable(t) then Sum(t.outcomes, OutcomeWeight(p)) else 0
  }

  function TrialQuality(p: Profile): Trial -> int {
    (t: Trial) => if Attributable(t) then Sum(t.outcomes, OutcomeQuality(t.calibration, p)) else 0
  }

  function IsPass(): Trial -> int {
    (t: Trial) => if t.classification == Finalize.ValidPass then 1 else 0
  }

  function IsReliable(): Trial -> int {
    (t: Trial) => if Attributable(t) then 1 else 0
  }

  datatype Metrics = Metrics(
    trialCount: nat, reliableCount: int, excludedCount: int, qualityBps: int, reliabilityBps: int, selectionBps: int)

  /** The quotient rounded down, and zero for nothing to divide by. */
  function Ratio(numerator: int, denominator: int): int {
    if denominator == 0 then 0 else numerator / denominator
  }

  function Quality(trials: seq<Trial>, p: Profile): int {
    Ratio(Sum(trials, TrialQuality(p)), Sum(trials, TrialWeight(p)))
  }

  function Reliability(trials: seq<Trial>): int {
    Ratio(Sum(trials, IsPass()) * 10_000, Sum(trials, IsReliable()))
  }

  function Selection(quality: int, reliability: int, p: Profile): int {
    (quality * p.qualityWeight + reliability * p.reliabilityWeight) / 100
  }

  function MetricsOf(trials: seq<Trial>, p: Profile): Metrics {
    var reliable := Sum(trials, IsReliable());
    var quality, reliability := Quality(trials, p), Reliability(trials);
    Metrics(|trials|, reliable, |trials| - reliable, quality, reliability, Selection(quality, reliability, p))
  }

  // ----- The nested loops

  /** The inner loop, over one trial's outcomes. */
  method AccumulateTrial(t: Trial, p: Profile, numerator: int, denominator: int)
    returns (quality: int, weight: int)
    requires ValidProfile(p)
    ensures quality == numerator + Sum(t.outcomes, OutcomeQuality(t.calibration, p))
    ensures weight == denominator + Sum(t.outcomes, OutcomeWeight(p))
  {
    hide PassedGateQuality;
    quality, weight := numerator, denominator;
    for i := 0 to |t.outcomes|
      invariant quality == numerator + Sum(t.outcomes[..i], OutcomeQuality(t.calibration, p))
      invariant weight == denominator + Sum(t.outcomes[..i], OutcomeWeight(p))
    {
      var outcome := t.outcomes[i];
      assert t.outcomes[..i + 1][..i] == t.outcomes[..i];
      if outcome.status == NotApplicable {
        continue;
      }
      var gateWeight := p.gateWeights[outcome.gate];
      weight := weight + gateWeight;
      if outcome.status == Passed {
        quality := quality + gateWeight * PassedGateQuality(t.calibration, outcome.gate, p);
      }
    }
    assert t.outcomes[..|t.outcomes|] == t.outcomes;
  }

  method Aggregate(trials: seq<Trial>, p: Profile) returns (m: Metrics)
    requires ValidProfile(p)
    ensures m == MetricsOf(trials, p)
  {
    hide ValidProfile, OutcomeQuality, OutcomeWeight;
    var numerator, denominator, reliable, passes := 0, 0, 0, 0;
    for i := 0 to |trials|
      invariant numerator == Sum(trials[..i], TrialQuality(p)) && denominator == Sum(trials[..i], TrialWeight(p))
      invariant reliable == Sum(trials[..i], IsReliable()) && passes == Sum(trials[..i], IsPass())
    {
      assert trials[..i + 1][..i] == trials[..i];
      if trials[i].classification == Finalize.ValidPass {
        passes := passes + 1;
      }
      if Attributable(trials[i]) {
        reliable := reliable + 1;
        numerator, denominator := AccumulateTrial(trials[i], p, numerator, denominator);
      }
    }
    assert trials[..|trials|] == trials;
    var quality := if denominator == 0 then 0 else numerator / denominator;
    var reliability := if reliable == 0 then 0 else passes * 10_000 / reliable;
    var selection := (quality * p.qualityWeight + reliability * p.reliabilityWeight) / 100;
    m := Metrics(|trials|, reliable, |trials| - reliable, quality, reliability, selection);
  }

  // ----- One passed gate

  /** Every weighted part of the review was matched in full. */
  predicate FullyCalibrated(calibration: Option<Calibration>, gate: Gate, p: Profile) {
    gate == RequestedBehavior && p.reviewWeights.Some? && calibration.Some? && calibration.value.truePositives > 0 ==>
      && (p.reviewWeights.value.category > 0 ==> calibration.value.categoryMatches == calibration.value.truePositives)
      && (p.reviewWeights.value.severity > 0 ==> calibration.value.severityMatches == calibration.value.truePositives)
  }

  lemma WeightedMatches(d: nat, c: nat, s: nat, tp: nat, cm: nat, sm: nat)
    requires d + c + s == 100 && cm <= tp && sm <= tp
    ensures 0 <= d * tp + c * cm + s * sm <= 100 * tp
    ensures d * tp + c * cm + s * sm == 100 * tp <==> (c > 0 ==> cm == tp) && (s > 0 ==> sm == tp)
  {
    assert d * tp + c * tp + s * tp == (d + c + s) * tp == 100 * tp;
    LeastTerm(c, cm, tp);
    LeastTerm(s, sm, tp);
  }

  lemma LeastTerm(w: nat, m: nat, tp: nat)
    requires m <= tp
    ensures 0 <= w * m <= w * tp
    ensures w * m == w * tp <==> w == 0 || m == tp
  {
    if w > 0 && m < tp {
      assert w * tp == w * m + w * (tp - m);
      assert w * (tp - m) > 0;
    }
  }

  lemma PercentOf(x: nat, tp: nat)
    requires 0 < tp && x <= 100 * tp
    ensures 0 <= x * 100 / tp <= 10_000
    ensures x * 100 / tp == 10_000 <==> x == 100 * tp
  {
    RatioRange(x * 100, 10_000, tp);
  }

  /** A quotient against a cap it may not exceed. */
  lemma RatioRange(n: int, cap: nat, d: nat)
    requires 0 < d && 0 <= n <= cap * d
    ensures 0 <= n / d <= cap
    ensures n / d == cap <==> n == cap * d
  {
    var q := n / d;
    assert q * d <= n < q * d + d;
    if q >= cap + 1 {
      ProductIsMonotone(cap + 1, q, d);
    } else if q <= cap - 1 {
      ProductIsMonotone(q + 1, cap, d);
    }
  }

  lemma ProductIsMonotone(x: int, y: int, d: nat)
    requires x <= y
    ensures x * d <= y * d
  {
  }

  lemma PassedQualityRange(calibration: Option<Calibration>, gate: Gate, p: Profile)
    requires ValidProfile(p) && (calibration.Some? ==> ValidCalibration(calibration.value))
    ensures 0 <= PassedGateQuality(calibration, gate, p) <= 10_000
    ensures PassedGateQuality(calibration, gate, p) == 10_000 <==> FullyCalibrated(calibration, gate, p)
  {
    if gate == RequestedBehavior && p.reviewWeights.Some? && calibration.Some? && calibration.value.truePositives > 0 {
      var w, c := p.reviewWeights.value, calibration.value;
      WeightedMatches(w.detection, w.category, w.severity, c.truePositives, c.categoryMatches, c.severityMatches);
      PercentOf(w.detection * c.truePositives + w.category * c.categoryMatches + w.severity * c.severityMatches,
                c.truePositives);
    }
  }
}
