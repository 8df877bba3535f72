/** What the scores mean: ranges, when quality is perfect, what they ignore, and what never hurts. */
module ScoreProperties {
  import opened Numbers
  import opened Wrappers
  import opened Sorting
  import opened Gates
  import opened Sums
  import opened Scoring

  /** Earned against full credit, for one outcome. */
  function FullCredit(p: Profile): GateOutcome -> int {
    (o: GateOutcome) => 10_000 * OutcomeWeight(p)(o)
  }

  function FullTrialCredit(p: Profile): Trial -> int {
    (t: Trial) => 10_000 * TrialWeight(p)(t)
  }

  lemma {:induction false} SumScales<T>(xs: seq<T>, f: T -> int, g: T -> int)
    requires forall x :: x in xs ==> g(x) == 10_000 * f(x)
    ensures Sum(xs, g) == 10_000 * Sum(xs, f)
  {
    if xs != [] {
      assert xs[|xs| - 1] in xs;
      assert forall x :: x in xs[..|xs| - 1] ==> x in xs;
      SumScales(xs[..|xs| - 1], f, g);
    }
  }

  /** The outcome earns full credit: passed and fully calibrated, or of no weight. */
  predicate EarnsAll(calibration: Option<Calibration>, o: GateOutcome, p: Profile) {
    OutcomeWeight(p)(o) > 0 ==> o.status == Passed && FullyCalibrated(calibration, o.gate, p)
  }

  lemma OutcomeCredit(calibration: Option<Calibration>, o: GateOutcome, p: Profile)
    requires ValidProfile(p) && (calibration.Some? ==> ValidCalibration(calibration.value))
    ensures 0 <= OutcomeQuality(calibration, p)(o) <= FullCredit(p)(o)
    ensures OutcomeQuality(calibration, p)(o) == FullCredit(p)(o) <==> EarnsAll(calibration, o, p)
    ensures 0 <= OutcomeWeight(p)(o)
  {
    hide FullyCalibrated, PassedGateQuality, ValidCalibration;
    PassedQualityRange(calibration, o.gate, p);
    var w, q := Weight(p, o.gate), PassedGateQuality(calibration, o.gate, p);
    LeastTerm(w, q, 10_000);
    assert OutcomeQuality(calibration, p)(o) == if o.status == Passed then w * q else 0;
    assert OutcomeWeight(p)(o) == if o.status == NotApplicable then 0 else w;
    assert FullCredit(p)(o) == 10_000 * OutcomeWeight(p)(o);
  }

  predicate TrialEarnsAll(t: Trial, p: Profile) {
    Attributable(t) ==> forall o :: o in t.outcomes ==> EarnsAll(t.calibration, o, p)
  }

  lemma TrialCredit(t: Trial, p: Profile)
    requires ValidProfile(p) && ValidTrial(t)
    ensures 0 <= TrialQuality(p)(t) <= FullTrialCredit(p)(t)
    ensures TrialQuality(p)(t) == FullTrialCredit(p)(t) <==> TrialEarnsAll(t, p)
    ensures 0 <= TrialWeight(p)(t)
  {
    hide OutcomeQuality, OutcomeWeight, FullCredit, EarnsAll, ValidProfile, ValidCalibration;
    var quality, full, none := OutcomeQuality(t.calibration, p), FullCredit(p), (o: GateOutcome) => 0;
    forall o | o in t.outcomes
      ensures 0 <= quality(o) <= full(o) && (quality(o) == full(o) <==> EarnsAll(t.calibration, o, p))
      ensures 0 <= OutcomeWeight(p)(o)
    {
      OutcomeCredit(t.calibration, o, p);
    }
    SumIsMonotone(t.outcomes, quality, full);
    SumIsMonotone(t.outcomes, none, quality);
    SumIsMonotone(t.outcomes, none, OutcomeWeight(p));
    SumIsMonotone(t.outcomes, none, none);
    SumOfZeros(t.outcomes, none);
    FullCreditScales(t.outcomes, p);
    assert Attributable(t) ==> TrialQuality(p)(t) == Sum(t.outcomes, quality);
    assert Attributable(t) ==> TrialWeight(p)(t) == Sum(t.outcomes, OutcomeWeight(p));
    assert FullTrialCredit(p)(t) == 10_000 * TrialWeight(p)(t);
  }

  lemma {:induction false} SumOfZeros<T>(xs: seq<T>, f: T -> int)
    requires forall x :: f(x) == 0
    ensures Sum(xs, f) == 0
  {
    if xs != [] {
      SumOfZeros(xs[..|xs| - 1], f);
    }
  }

  lemma FullCreditScales(outcomes: seq<GateOutcome>, p: Profile)
    ensures Sum(outcomes, FullCredit(p)) == 10_000 * Sum(outcomes, OutcomeWeight(p))
  {
    hide OutcomeWeight;
    SumScales(outcomes, OutcomeWeight(p), FullCredit(p));
  }

  /** Numerator and denominator of quality, bounded against each other. */
  lemma QualityParts(trials: seq<Trial>, p: Profile)
    requires ValidProfile(p) && ValidTrials(trials)
    ensures 0 <= Sum(trials, TrialWeight(p))
    ensures 0 <= Sum(trials, TrialQuality(p)) <= 10_000 * Sum(trials, TrialWeight(p))
    ensures Sum(trials, TrialQuality(p)) == 10_000 * Sum(trials, TrialWeight(p)) <==>
      forall t :: t in trials ==> TrialEarnsAll(t, p)
    ensures 0 < Sum(trials, TrialWeight(p)) <==> exists t :: t in trials && TrialWeight(p)(t) > 0
  {
    hide TrialQuality, TrialWeight, TrialEarnsAll, ValidProfile, ValidTrial;
    var quality, weight, full, none := TrialQuality(p), TrialWeight(p), FullTrialCredit(p), (t: Trial) => 0;
    forall t | t in trials
      ensures 0 <= quality(t) <= full(t) && (quality(t) == full(t) <==> TrialEarnsAll(t, p)) && 0 <= weight(t)
    {
      TrialCredit(t, p);
    }
    SumIsMonotone(trials, quality, full);
    SumIsMonotone(trials, none, quality);
    SumIsMonotone(trials, none, weight);
    SumOfZeros(trials, none);
    SumScales(trials, weight, full);
  }

  lemma ReliabilityParts(trials: seq<Trial>)
    ensures 0 <= Sum(trials, IsPass()) <= Sum(trials, IsReliable())
  {
    var none := (t: Trial) => 0;
    SumIsMonotone(trials, IsPass(), IsReliable());
    SumIsMonotone(trials, none, IsPass());
    SumOfZeros(trials, none);
  }

  lemma RatioInRange(n: int, d: int)
    requires 0 <= d && 0 <= n <= 10_000 * d
    ensures 0 <= Ratio(n, d) <= 10_000
    ensures Ratio(n, d) == 10_000 <==> 0 < d && n == 10_000 * d
  {
    if d > 0 {
      RatioRange(n, 10_000, d);
    }
  }

  lemma Between(q: int, r: int, a: nat, b: nat)
    requires a + b == 100
    ensures Min(q, r) <= (q * a + r * b) / 100 <= Max(q, r)
  {
    var low, high := Min(q, r), Max(q, r);
    ProductIsMonotone(low, q, a);
    ProductIsMonotone(low, r, b);
    ProductIsMonotone(q, high, a);
    ProductIsMonotone(r, high, b);
    assert low * a + low * b == low * (a + b) && high * a + high * b == high * (a + b);
  }

  /** Every score is a number of basis points, and selection lies between the two it mixes. */
  lemma ScoresAreInRange(trials: seq<Trial>, p: Profile)
    requires ValidProfile(p) && ValidTrials(trials)
    ensures
      var m := MetricsOf(trials, p);
      && 0 <= m.qualityBps <= 10_000 && 0 <= m.reliabilityBps <= 10_000 && 0 <= m.selectionBps <= 10_000
      && Min(m.qualityBps, m.reliabilityBps) <= m.selectionBps <= Max(m.qualityBps, m.reliabilityBps)
  {
    hide TrialQuality, TrialWeight, Quality, Reliability;
    QualityParts(trials, p);
    ReliabilityParts(trials);
    RatioInRange(Sum(trials, TrialQuality(p)), Sum(trials, TrialWeight(p)));
    RatioInRange(Sum(trials, IsPass()) * 10_000, Sum(trials, IsReliable()));
    QualityIsRatio(trials, p);
    Between(Quality(trials, p), Reliability(trials), p.qualityWeight, p.reliabilityWeight);
  }

  lemma QualityIsRatio(trials: seq<Trial>, p: Profile)
    ensures Quality(trials, p) == Ratio(Sum(trials, TrialQuality(p)), Sum(trials, TrialWeight(p)))
    ensures Reliability(trials) == Ratio(Sum(trials, IsPass()) * 10_000, Sum(trials, IsReliable()))
  {
  }

  /** Quality is perfect exactly when something carries weight and every attributable, applicable
      outcome that does is a pass with every weighted part of its review matched in full. */
  lemma QualityIsPerfectIff(trials: seq<Trial>, p: Profile)
    requires ValidProfile(p) && ValidTrials(trials)
    ensures Quality(trials, p) == 10_000 <==>
      && (exists t :: t in trials && TrialWeight(p)(t) > 0)
      && (forall t :: t in trials ==> TrialEarnsAll(t, p))
  {
    hide TrialQuality, TrialWeight, TrialEarnsAll;
    QualityParts(trials, p);
    RatioInRange(Sum(trials, TrialQuality(p)), Sum(trials, TrialWeight(p)));
  }

  /** The order of the trials never matters. */
  lemma OrderDoesNotMatter(trials: seq<Trial>, others: seq<Trial>, p: Profile)
    requires multiset(trials) == multiset(others)
    ensures MetricsOf(trials, p) == MetricsOf(others, p)
  {
    hide TrialQuality, TrialWeight;
    SumPermutes(trials, others, TrialQuality(p));
    SumPermutes(trials, others, TrialWeight(p));
    SumPermutes(trials, others, IsPass());
    SumPermutes(trials, others, IsReliable());
    assert |multiset(trials)| == |trials| && |multiset(others)| == |others|;
  }

  /** Trials that are not the agent's doing never change a score. */
  lemma OnlyAttributableTrialsCount(trials: seq<Trial>, p: Profile)
    ensures
      var m, kept := MetricsOf(trials, p), MetricsOf(Filter(trials, IsAttributable()), p);
      && m.qualityBps == kept.qualityBps && m.reliabilityBps == kept.reliabilityBps
      && m.selectionBps == kept.selectionBps && m.reliableCount == kept.reliableCount == kept.trialCount
  {
    var kept := Filter(trials, IsAttributable());
    SumOfFilter(trials, IsAttributable(), TrialQuality(p));
    SumOfFilter(trials, IsAttributable(), TrialWeight(p));
    SumOfFilter(trials, IsAttributable(), IsPass());
    SumOfFilter(trials, IsAttributable(), IsReliable());
    FilterMembers(trials, IsAttributable());
    SumOfOnes(kept);
  }

  lemma {:induction false} SumOfOnes(trials: seq<Trial>)
    requires forall t :: t in trials ==> Attributable(t)
    ensures Sum(trials, IsReliable()) == |trials|
  {
    if trials != [] {
      assert trials[|trials| - 1] in trials;
      SumOfOnes(trials[..|trials| - 1]);
    }
  }

  function PassAt(t: Trial, j: nat): Trial
    requires j < |t.outcomes|
  {
    t.(outcomes := t.outcomes[j := t.outcomes[j].(status := Passed)])
  }

  lemma PassingOutcomeHelps(t: Trial, j: nat, p: Profile)
    requires ValidProfile(p) && ValidTrial(t) && j < |t.outcomes| && t.outcomes[j].status == Failed
    ensures TrialWeight(p)(PassAt(t, j)) == TrialWeight(p)(t)
    ensures TrialQuality(p)(PassAt(t, j)) >= TrialQuality(p)(t)
  {
    var o := t.outcomes[j];
    var o' := o.(status := Passed);
    SumOfUpdate(t.outcomes, j, o', OutcomeWeight(p));
    SumOfUpdate(t.outcomes, j, o', OutcomeQuality(t.calibration, p));
    OutcomeCredit(t.calibration, o', p);
  }

  lemma LargerNumeratorHelps(n: int, m: int, d: int)
    requires n <= m && 0 <= d
    ensures Ratio(n, d) <= Ratio(m, d)
  {
    if d > 0 {
      var x, y := n / d, m / d;
      assert x * d <= n && m < y * d + d;
      if x >= y + 1 {
        ProductIsMonotone(y + 1, x, d);
      }
    }
  }

  /** Turning one failed gate of one trial into a pass never lowers quality. */
  lemma PassingAGateNeverHurts(trials: seq<Trial>, i: nat, j: nat, p: Profile)
    requires ValidProfile(p) && ValidTrials(trials)
    requires i < |trials| && j < |trials[i].outcomes| && trials[i].outcomes[j].status == Failed
    ensures Quality(trials[i := PassAt(trials[i], j)], p) >= Quality(trials, p)
  {
    hide TrialQuality, TrialWeight, PassAt;
    var t := PassAt(trials[i], j);
    assert trials[i] in trials;
    PassingOutcomeHelps(trials[i], j, p);
    SumOfUpdate(trials, i, t, TrialQuality(p));
    SumOfUpdate(trials, i, t, TrialWeight(p));
    QualityParts(trials, p);
    LargerNumeratorHelps(Sum(trials, TrialQuality(p)), Sum(trials[i := t], TrialQuality(p)), Sum(trials, TrialWeight(p)));
  }
}
