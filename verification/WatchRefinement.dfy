/** How the three watch machines relate: the two hardened ones are one function, and the hardened
    one follows the review-phase one until a loss arrives with no retry left. */
module WatchRefinement {
  import opened Wrappers
  import opened Watch
  import opened WatchRuns
  import WatchAlternate
  import WatchReview

  // ----- The two hardened implementations

  /** Same outcome, errors included, for every state (valid or not) and every event. */
  lemma AlternateAgrees(s: State, e: Event)
    ensures WatchAlternate.Transition(s, e) == Transition(s, e)
  {
  }

  function AlternateLog(s: State, es: seq<Event>): seq<Outcome>
    decreases |es|
  {
    if es == [] then []
    else
      var r := WatchAlternate.Transition(s, es[0]);
      [r] + AlternateLog(if r.Ok? then r.value.0 else s, es[1..])
  }

  function HardenedLog(s: State, es: seq<Event>): seq<Outcome>
    decreases |es|
  {
    if es == [] then []
    else
      var r := Transition(s, es[0]);
      [r] + HardenedLog(if r.Ok? then r.value.0 else s, es[1..])
  }

  /** Every outcome of every run is the same under both implementations. */
  lemma {:induction false} AlternateRunsAgree(s: State, es: seq<Event>)
    ensures AlternateLog(s, es) == HardenedLog(s, es)
    decreases |es|
  {
    if es != [] {
      AlternateAgrees(s, es[0]);
      var r := Transition(s, es[0]);
      AlternateRunsAgree(if r.Ok? then r.value.0 else s, es[1..]);
    }
  }

  // ----- The review-phase machine

  function Lift(status: WatchReview.Status): Status {
    match status
    case Stopped => Status.Stopped
    case Connecting => Status.Connecting
    case Active => Status.Active
    case Waiting => Status.Waiting
  }

  /** Same status, topic, generation and retry count. */
  predicate Matches(s: State, t: WatchReview.State) {
    s == State(Lift(t.status), t.topic, t.generation, t.retryCount, None)
  }

  function ReviewStep(t: WatchReview.State, e: Event): (WatchReview.State, seq<Effect>) {
    match WatchReview.Transition(t, e)
    case Ok(next) => next
    case Err(_) => (t, [])
  }

  /** What one delivery shows: whether it raised, the state it leaves, and its effects. */
  datatype Observation = Observation(
    raised: bool, status: Status, topic: Option<string>, generation: int, retryCount: int,
    effects: seq<Effect>)

  function Observe(s: State, e: Event): Observation {
    var (next, effects) := Step(s, e);
    Observation(Transition(s, e).Err?, next.status, next.topic, next.generation, next.retryCount, effects)
  }

  function ObserveReview(t: WatchReview.State, e: Event): Observation {
    var (next, effects) := ReviewStep(t, e);
    Observation(WatchReview.Transition(t, e).Err?, Lift(next.status), next.topic, next.generation,
                next.retryCount, effects)
  }

  function Observations(s: State, es: seq<Event>): seq<Observation>
    decreases |es|
  {
    if es == [] then [] else [Observe(s, es[0])] + Observations(Step(s, es[0]).0, es[1..])
  }

  function ReviewObservations(t: WatchReview.State, es: seq<Event>): seq<Observation>
    decreases |es|
  {
    if es == [] then [] else [ObserveReview(t, es[0])] + ReviewObservations(ReviewStep(t, es[0]).0, es[1..])
  }

  /** A loss that the machine accepts while its retry count is already five. */
  predicate Overruns(s: State, e: Event) {
    e.ConnectionLost? && s.retryCount == 5 && Accepted(s, e)
  }

  predicate StaysInBudget(s: State, es: seq<Event>)
    decreases |es|
  {
    es == [] || (!Overruns(s, es[0]) && StaysInBudget(Step(s, es[0]).0, es[1..]))
  }

  lemma StepSimulates(s: State, t: WatchReview.State, e: Event)
    requires Valid(s) && Matches(s, t) && !e.ConnectionFailed?
    ensures !Overruns(s, e) ==>
      Observe(s, e) == ObserveReview(t, e) && Matches(Step(s, e).0, ReviewStep(t, e).0)
    ensures Overruns(s, e) ==> Observe(s, e).effects != ObserveReview(t, e).effects
  {
  }

  /** Without `connection_failed`, the two machines are indistinguishable on a run exactly when no
      loss is accepted at the retry bound. */
  lemma {:induction false} HardenedExtendsReview(s: State, t: WatchReview.State, es: seq<Event>)
    requires Valid(s) && Matches(s, t)
    requires forall e :: e in es ==> !e.ConnectionFailed?
    ensures Observations(s, es) == ReviewObservations(t, es) <==> StaysInBudget(s, es)
    ensures StaysInBudget(s, es) ==> forall k :: 0 <= k <= |es| ==> Final(s, es[..k]).status != Failed
    decreases |es|
  {
    if es != [] {
      var e, rest := es[0], es[1..];
      assert e in es;
      StepSimulates(s, t, e);
      TransitionIsTotalOnValidInput(s, e);
      assert Observations(s, es)[0] == Observe(s, e);
      assert ReviewObservations(t, es)[0] == ObserveReview(t, e);
      if !Overruns(s, e) {
        var s', t' := Step(s, e).0, ReviewStep(t, e).0;
        assert forall f :: f in rest ==> f in es;
        HardenedExtendsReview(s', t', rest);
        assert Observations(s, es)[1..] == Observations(s', rest);
        assert ReviewObservations(t, es)[1..] == ReviewObservations(t', rest);
        forall k | 0 < k <= |es| ensures Final(s, es[..k]) == Final(s', rest[..k - 1]) {
          assert es[..k][1..] == rest[..k - 1];
        }
        if StaysInBudget(s, es) {
          forall k | 0 <= k <= |es| ensures Final(s, es[..k]).status != Failed {
            if k > 0 {
              assert Final(s, es[..k]) == Final(s', rest[..k - 1]);
            }
          }
        }
      }
    }
  }

  /** The instance that matters: both machines start stopped at generation 0. */
  lemma HardenedExtendsReviewFromStart(es: seq<Event>)
    requires forall e :: e in es ==> !e.ConnectionFailed?
    ensures Observations(INITIAL, es) == ReviewObservations(WatchReview.INITIAL, es)
            <==> StaysInBudget(INITIAL, es)
  {
    HardenedExtendsReview(INITIAL, WatchReview.INITIAL, es);
  }
}
