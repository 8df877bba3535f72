/** The scores of an aggregate, as quotients of sums over the trials: which trials count, what a gate can
    earn, and how selection mixes the other two. */
module ScoreGuarantees {
  import opened Wrappers
  import opened Gates
  import opened Sums
  import opened Scoring
  import Finalize

  /** The trial says something about the agent. */
  predicate Counts(t: Trial) {
    || t.classification == Finalize.ValidPass
    || t.classification == Finalize.ValidAgentFailure
    || t.classification == Finalize.InvalidRun
  }

  function Counting(trials: seq<Trial>): nat {
    if trials == [] then 0
    else Counting(trials[..|trials| - 1]) + if Counts(trials[|trials| - 1]) then 1 else 0
  }

  function Passing(trials: seq<Trial>): nat {
    if trials == [] then 0
    else Passing(trials[..|trials| - 1]) + if trials[|trials| - 1].classification == Finalize.ValidPass then 1 else 0
  }

  /** Basis points a passed gate earns: all of them, except that the requested behaviour of a review
      earns its weighted share of the defects found and classified as they should be. */
  function Credit(calibration: Option<Calibration>, gate: Gate, weights: Option<ReviewWeights>): int {
    match (calibration, weights)
    case (Some(c), Some(w)) =>
      if gate == RequestedBehavior && c.truePositives > 0 then
        100 * (c.truePositives * w.detection + c.categoryMatches * w.category + c.severityMatches * w.severity)
          / c.truePositives
      else 10_000
    case _ => 10_000
  }

  /** The weight of the gates that apply. */
  function Possible(outcomes: seq<GateOutcome>, p: Profile): int
    requires forall gate: Gate :: gate in p.gateWeights
  {
    if outcomes == [] then 0
    else
      var last := outcomes[|outcomes| - 1];
      Possible(outcomes[..|outcomes| - 1], p) + if last.status == NotApplicable then 0 else p.gateWeights[last.gate]
  }

  /** The weight of the gates passed, each times its credit. */
  function Earned(outcomes: seq<GateOutcome>, calibration: Option<Calibration>, p: Profile): int
    requires forall gate: Gate :: gate in p.gateWeights
  {
    if outcomes == [] then 0
    else
      var last := outcomes[|outcomes| - 1];
      Earned(outcomes[..|outcomes| - 1], calibration, p)
      + if last.status == Passed then p.gateWeights[last.gate] * Credit(calibration, last.gate, p.reviewWeights) else 0
  }

  function PossibleInAll(trials: seq<Trial>, p: Profile): int
    requires forall gate: Gate :: gate in p.gateWeights
  {
    if trials == [] then 0
    else
      var last := trials[|trials| - 1];
      PossibleInAll(trials[..|trials| - 1], p) + if Counts(last) then Possible(last.outcomes, p) else 0
  }

  function EarnedInAll(trials: seq<Trial>, p: Profile): int
    requires forall gate: Gate :: gate in p.gateWeights
  {
    if trials == [] then 0
    else
      var last := trials[|trials| - 1];
      EarnedInAll(trials[..|trials| - 1], p) + if Counts(last) then Earned(last.outcomes, last.calibration, p) else 0
  }

  /** `q` is the quotient rounded down, and zero for nothing to divide by. */
  predicate IsQuotient(q: int, n: int, d: int) {
    if d == 0 then q == 0 else q * d <= n < q * d + d
  }

  // ----- The aggregate's own sums are these

  lemma CreditIs(calibration: Option<Calibration>, gate: Gate, p: Profile)
    ensures PassedGateQuality(calibration, gate, p) == Credit(calibration, gate, p.reviewWeights)
  {
  }

  lemma {:induction false} PossibleIs(outcomes: seq<GateOutcome>, p: Profile)
    requires forall gate: Gate :: gate in p.gateWeights
    ensures Sum(outcomes, OutcomeWeight(p)) == Possible(outcomes, p) && 0 <= Possible(outcomes, p)
  {
    if outcomes != [] {
      var last := outcomes[|outcomes| - 1];
      PossibleIs(outcomes[..|outcomes| - 1], p);
      assert OutcomeWeight(p)(last) == if last.status == NotApplicable then 0 else p.gateWeights[last.gate];
    }
  }

  lemma {:induction false} EarnedIs(outcomes: seq<GateOutcome>, calibration: Option<Calibration>, p: Profile)
    requires forall gate: Gate :: gate in p.gateWeights
    ensures Sum(outcomes, OutcomeQuality(calibration, p)) == Earned(outcomes, calibration, p)
  {
    hide PassedGateQuality, Credit;
    if outcomes != [] {
      var last := outcomes[|outcomes| - 1];
      EarnedIs(outcomes[..|outcomes| - 1], calibration, p);
      CreditIs(calibration, last.gate, p);
      assert OutcomeQuality(calibration, p)(last)
          == if last.status == Passed then p.gateWeights[last.gate] * Credit(calibration, last.gate, p.reviewWeights) else 0;
    }
  }

  lemma {:induction false} SumsAre(trials: seq<Trial>, p: Profile)
    requires forall gate: Gate :: gate in p.gateWeights
    ensures Sum(trials, TrialWeight(p)) == PossibleInAll(trials, p) && 0 <= PossibleInAll(trials, p)
    ensures Sum(trials, TrialQuality(p)) == EarnedInAll(trials, p)
    ensures Sum(trials, IsReliable()) == Counting(trials)
    ensures Sum(trials, IsPass()) == Passing(trials)
  {
    hide OutcomeWeight, OutcomeQuality, Possible, Earned;
    if trials != [] {
      var last := trials[|trials| - 1];
      SumsAre(trials[..|trials| - 1], p);
      PossibleIs(last.outcomes, p);
      EarnedIs(last.outcomes, last.calibration, p);
      assert Attributable(last) <==> Counts(last);
      assert TrialWeight(p)(last) == if Counts(last) then Possible(last.outcomes, p) else 0;
      assert TrialQuality(p)(last) == if Counts(last) then Earned(last.outcomes, last.calibration, p) else 0;
    }
  }

  lemma RatioIsQuotient(n: int, d: int)
    requires 0 <= d
    ensures IsQuotient(Ratio(n, d), n, d)
  {
  }

  // ----- The scores

  /** Quality is what was earned of what was possible, reliability the passes of the trials that count,
      both rounded down; selection is their mean by the profile's two weights, rounded down. */
  lemma MetricsAre(trials: seq<Trial>, p: Profile)
    requires ValidProfile(p)
    ensures
      var m := MetricsOf(trials, p);
      && m.trialCount == |trials| && m.reliableCount == Counting(trials)
      && m.excludedCount == |trials| - Counting(trials)
      && IsQuotient(m.qualityBps, EarnedInAll(trials, p), PossibleInAll(trials, p))
      && IsQuotient(m.reliabilityBps, 10_000 * Passing(trials), Counting(trials))
      && 100 * m.selectionBps <= m.qualityBps * p.qualityWeight + m.reliabilityBps * p.reliabilityWeight
           < 100 * m.selectionBps + 100
  {
    hide TrialWeight, TrialQuality, IsReliable, IsPass, PossibleInAll, EarnedInAll, Counting, Passing,
      IsQuotient, Ratio;
    SumsAre(trials, p);
    RatioIsQuotient(EarnedInAll(trials, p), PossibleInAll(trials, p));
    RatioIsQuotient(10_000 * Passing(trials), Counting(trials));
  }

  /** A profile that weighs only one of the two selects by it. */
  lemma SelectionIsOneOfThem(trials: seq<Trial>, p: Profile)
    requires ValidProfile(p)
    ensures p.qualityWeight == 100 ==> MetricsOf(trials, p).selectionBps == MetricsOf(trials, p).qualityBps
    ensures p.reliabilityWeight == 100 ==> MetricsOf(trials, p).selectionBps == MetricsOf(trials, p).reliabilityBps
  {
    hide MetricsOf, EarnedInAll, PossibleInAll, Passing, Counting;
    MetricsAre(trials, p);
  }
}
