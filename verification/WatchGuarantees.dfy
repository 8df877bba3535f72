/** What callers of the hardened machine may rely on, in plain numbers and fields: what it refuses, when
    an event has an effect and which, what a whole run has subscribed to, and that a subscription gets
    five retries over 23 seconds before it fails. */
module WatchGuarantees {
  import opened Numbers
  import opened Wrappers
  import opened Watch
  import opened WatchRuns
  import WatchReview

  // ----- One delivery

  /** The fields are in range and fit the status. */
  predicate StateFits(s: State) {
    && 0 <= s.generation && 0 <= s.retryCount <= 5
    && (if s.status == Stopped then s.topic == None && s.retryCount == 0
        else s.topic.Some? && s.topic.value != "")
    && (s.status == Waiting ==> s.retryCount > 0)
    && (if s.status == Failed
        then s.errorKind in {Some(Validation), Some(Auth), Some(Conflict), Some(RateLimit), Some(Transient),
                             Some(Internal), Some(Unknown)}
        else s.errorKind == None)
  }

  predicate EventFits(e: Event) {
    match e
    case Subscribe(topic) => topic != ""
    case Connected(generation) => generation >= 0
    case ConnectionLost(generation) => generation >= 0
    case ConnectionFailed(generation, kind) =>
      generation >= 0 && kind in {Validation, Auth, Conflict, RateLimit, Transient, Internal, Unknown}
    case RetryDue(generation) => generation >= 0
    case Unsubscribe => true
    case UnknownEvent(_) => false
  }

  /** A transition raises exactly when the state or the event does not fit. */
  lemma RaisesIff(s: State, e: Event)
    ensures Transition(s, e).Err? <==> !(StateFits(s) && EventFits(e))
  {
  }

  /** When an event changes the state. */
  lemma AcceptedIff(s: State, e: Event)
    requires StateFits(s) && EventFits(e)
    ensures Accepted(s, e) <==> match e
      case Subscribe(topic) => s.topic != Some(topic) || s.status == Failed
      case Connected(generation) => s.status == Connecting && s.generation == generation
      case ConnectionLost(generation) => (s.status == Connecting || s.status == Active) && s.generation == generation
      case ConnectionFailed(generation, _) => s.status == Connecting && s.generation == generation
      case RetryDue(generation) => s.status == Waiting && s.generation == generation
      case Unsubscribe => s.status != Stopped
      case UnknownEvent(_) => false
  {
  }

  /** What was held before is released: a timer while waiting, a connection otherwise. */
  function Release(s: State): seq<Effect> {
    match s.status
    case Connecting => if s.topic.Some? then [Disconnect(s.generation, s.topic.value)] else []
    case Active => if s.topic.Some? then [Disconnect(s.generation, s.topic.value)] else []
    case Waiting => if s.topic.Some? then [CancelRetry(s.generation, s.topic.value)] else []
    case _ => []
  }

  /** Subscriptions and acknowledgements start the retry count over; a due retry keeps it; and what
      each of them emits. Losses and failures are `WatchRuns.FailureIsTerminalExactlyWhenSpent`. */
  lemma AcceptedLeadsTo(s: State, e: Event)
    requires StateFits(s) && EventFits(e) && Accepted(s, e)
    ensures match e
      case Subscribe(topic) =>
        Step(s, e) == (State(Connecting, Some(topic), s.generation + 1, 0, None),
                       Release(s) + [Connect(s.generation + 1, topic)])
      case Connected(_) => Step(s, e) == (State(Active, s.topic, s.generation, 0, None), [])
      case RetryDue(_) =>
        Step(s, e) == (State(Connecting, s.topic, s.generation + 1, s.retryCount, None),
                       [Connect(s.generation + 1, s.topic.value)])
      case Unsubscribe => Step(s, e) == (State(Stopped, None, s.generation, 0, None), Release(s))
      case _ => Step(s, e).0.topic == s.topic && Step(s, e).0.generation == s.generation
  {
  }

  // ----- Whole runs

  /** The topic last subscribed to and not unsubscribed from since. */
  function LastTopic(before: Option<string>, es: seq<Event>): Option<string> {
    if es == [] then before
    else match es[|es| - 1]
      case Subscribe(topic) => if topic != "" then Some(topic) else LastTopic(before, es[..|es| - 1])
      case Unsubscribe => None
      case _ => LastTopic(before, es[..|es| - 1])
  }

  lemma FinalOfLast(s: State, es: seq<Event>)
    requires es != []
    ensures Final(s, es) == Step(Final(s, es[..|es| - 1]), es[|es| - 1]).0
  {
    var n := |es| - 1;
    assert es == es[..n] + [es[n]];
    FinalOfConcat(s, es[..n], [es[n]]);
    var middle := Final(s, es[..n]);
    assert [es[n]][1..] == [] && Final(middle, [es[n]]) == Final(Step(middle, es[n]).0, []);
  }

  /** After any run the machine is about what was last asked for. */
  lemma {:induction false} TopicIsLastSubscribed(s: State, es: seq<Event>)
    requires Valid(s)
    ensures Final(s, es).topic == LastTopic(s.topic, es)
  {
    if es != [] {
      var n := |es| - 1;
      FinalIsValid(s, es[..n]);
      TopicIsLastSubscribed(s, es[..n]);
      FinalOfLast(s, es);
    }
  }

  /** The connects of a run use consecutive generations, up to the final one. */
  lemma {:induction false} GenerationsAreConsecutive(s: State, es: seq<Event>)
    requires Valid(s)
    ensures s.generation <= Final(s, es).generation
    ensures ConnectGenerations(Trace(s, es))
         == seq(Final(s, es).generation - s.generation, i => s.generation + 1 + i)
    decreases |es|
  {
    hide Transition, Valid;
    if es != [] {
      var (next, effects) := Step(s, es[0]);
      TransitionIsTotalOnValidInput(s, es[0]);
      StepConnects(s, es[0]);
      OneGenerationAtATime(s, es[0]);
      ConnectGenerationsOfConcat(effects, Trace(next, es[1..]));
      GenerationsAreConsecutive(next, es[1..]);
    }
  }

  lemma OneGenerationAtATime(s: State, e: Event)
    requires Valid(s)
    ensures Step(s, e).0.generation == s.generation || Step(s, e).0.generation == s.generation + 1
  {
  }

  // ----- The retry bound

  /** Seconds before the next retry, after so many of them. */
  function DelayAfter(retries: nat): nat {
    match retries
    case 0 => 1
    case 1 => 2
    case 2 => 4
    case _ => 8
  }

  /** Back-off delays for every retry count, also beyond five for the machine that has no bound. */
  lemma {:induction false} DelayIs(retryCount: nat)
    requires 1 <= retryCount
    ensures Delay(retryCount) == DelayAfter(retryCount - 1)
  {
    assert Pow2(0) == 1 && Pow2(1) == 2 && Pow2(2) == 4;
    if retryCount > 3 {
      PowersReachEight(retryCount - 1);
    }
  }

  lemma {:induction false} PowersReachEight(n: nat)
    requires 3 <= n
    ensures Pow2(n) >= 8
  {
    if n > 3 {
      PowersReachEight(n - 1);
    } else {
      assert Pow2(0) == 1 && Pow2(1) == 2 && Pow2(2) == 4 && Pow2(3) == 8;
    }
  }

  function LossAndRetry(generation: int, rest: seq<Event>): seq<Event> {
    [ConnectionLost(generation), RetryDue(generation)] + rest
  }

  /** `n` losses of a connection, each followed by its due retry. */
  function LossesAndRetries(generation: int, n: nat): seq<Event>
    decreases n
  {
    if n == 0 then []
    else LossAndRetry(generation, LossesAndRetries(generation + 1, n - 1))
  }

  lemma OneLoss(s: State)
    requires StateFits(s) && (s.status == Connecting || s.status == Active) && s.retryCount < 5
    ensures
      var topic, next := s.topic.value, s.generation + 1;
      var waiting := State(Waiting, s.topic, s.generation, s.retryCount + 1, None);
      && Step(s, ConnectionLost(s.generation))
           == (waiting, [ScheduleRetry(s.generation, topic, DelayAfter(s.retryCount))])
      && StateFits(waiting)
      && Step(waiting, RetryDue(s.generation))
           == (State(Connecting, s.topic, next, s.retryCount + 1, None), [Connect(next, topic)])
      && StateFits(State(Connecting, s.topic, next, s.retryCount + 1, None))
  {
    DelayIs(s.retryCount + 1);
  }

  /** A loss that is retried, followed by anything. */
  lemma LossThenRest(s: State, rest: seq<Event>)
    requires StateFits(s) && (s.status == Connecting || s.status == Active) && s.retryCount < 5
    ensures
      var es := LossAndRetry(s.generation, rest);
      var again := State(Connecting, s.topic, s.generation + 1, s.retryCount + 1, None);
      && Final(s, es) == Final(again, rest)
      && Retries(Trace(s, es)) == 1 + Retries(Trace(again, rest))
      && Records(Trace(s, es)) == Records(Trace(again, rest))
      && TotalDelay(Trace(s, es)) == DelayAfter(s.retryCount) + TotalDelay(Trace(again, rest))
  {
    OneLoss(s);
    hide Step, StateFits;
    var es := LossAndRetry(s.generation, rest);
    var waiting := State(Waiting, s.topic, s.generation, s.retryCount + 1, None);
    var again := State(Connecting, s.topic, s.generation + 1, s.retryCount + 1, None);
    assert es[1..] == [RetryDue(s.generation)] + rest && es[1..][1..] == rest;
    var lost, due := Step(s, es[0]).1, Step(waiting, es[1..][0]).1;
    assert Trace(s, es) == lost + Trace(waiting, es[1..]) && Trace(waiting, es[1..]) == due + Trace(again, rest);
    CountsOfConcat(due, Trace(again, rest));
    CountsOfConcat(lost, Trace(waiting, es[1..]));
    assert lost[1..] == [] && due[1..] == [];
  }

  lemma StillFits(s: State)
    requires StateFits(s) && (s.status == Connecting || s.status == Active) && s.retryCount < 5
    ensures StateFits(State(Connecting, s.topic, s.generation + 1, s.retryCount + 1, None))
  {
  }

  /** Where so many losses in a row lead, each of them retried. */
  lemma {:induction false} LossesLeadTo(s: State, n: nat)
    requires StateFits(s) && (s.status == Connecting || s.status == Active) && s.retryCount + n <= 5
    ensures Final(s, LossesAndRetries(s.generation, n))
         == if n == 0 then s else State(Connecting, s.topic, s.generation + n, s.retryCount + n, None)
    decreases n
  {
    hide Step, LossAndRetry;
    if n > 0 {
      StillFits(s);
      LossThenRest(s, LossesAndRetries(s.generation + 1, n - 1));
      LossesLeadTo(State(Connecting, s.topic, s.generation + 1, s.retryCount + 1, None), n - 1);
    }
  }

  /** What they schedule meanwhile. */
  lemma {:induction false} LossesSchedule(s: State, n: nat)
    requires StateFits(s) && (s.status == Connecting || s.status == Active) && s.retryCount + n <= 5
    ensures Retries(Trace(s, LossesAndRetries(s.generation, n))) == n
    ensures Records(Trace(s, LossesAndRetries(s.generation, n))) == 0
    ensures TotalDelay(Trace(s, LossesAndRetries(s.generation, n))) == DelaysFrom(s.retryCount, n)
    decreases n
  {
    hide Step, Final, DelayAfter, LossAndRetry, Transition;
    if n > 0 {
      StillFits(s);
      LossThenRest(s, LossesAndRetries(s.generation + 1, n - 1));
      LossesSchedule(State(Connecting, s.topic, s.generation + 1, s.retryCount + 1, None), n - 1);
    }
  }

  /** The delays of `n` retries in a row after `from` of them. */
  function DelaysFrom(from: nat, n: nat): nat
    requires from + n <= 5
    decreases n
  {
    if n == 0 then 0 else DelayAfter(from) + DelaysFrom(from + 1, n - 1)
  }

  /** From a new subscription, or once connected, five losses in a row schedule exactly five retries
      over exactly 23 seconds; the sixth fails the watch with one record. */
  lemma FiveRetriesThenFailure(s: State)
    requires StateFits(s) && (s.status == Connecting || s.status == Active) && s.retryCount == 0
    ensures
      var es := LossesAndRetries(s.generation, 5);
      var end := Final(s, es);
      && end == State(Connecting, s.topic, s.generation + 5, 5, None)
      && Retries(Trace(s, es)) == 5 && TotalDelay(Trace(s, es)) == 23 && Records(Trace(s, es)) == 0
      && Step(end, ConnectionLost(end.generation))
           == (State(Failed, s.topic, end.generation, 5, Some(Transient)),
               [EmitEvent(end.generation, s.topic.value, WatchFailed(s.topic.value, Transient))])
  {
    LossesLeadTo(s, 5);
    LossesSchedule(s, 5);
    assert DelaysFrom(5, 0) == 0 && DelaysFrom(4, 1) == 8 && DelaysFrom(3, 2) == 16 && DelaysFrom(2, 3) == 20
        && DelaysFrom(1, 4) == 22 && DelaysFrom(0, 5) == 23;
  }

  lemma WaitsAfter(s: State, n: nat)
    requires StateFits(s) && s.status == Connecting && s.retryCount + n < 5
    ensures Final(s, LossesAndRetries(s.generation, n) + [ConnectionLost(s.generation + n)])
         == State(Waiting, s.topic, s.generation + n, s.retryCount + n + 1, None)
  {
    var end := State(Connecting, s.topic, s.generation + n, s.retryCount + n, None);
    var last := ConnectionLost(s.generation + n);
    FinalOfConcat(s, LossesAndRetries(s.generation, n), [last]);
    LossesLeadTo(s, n);
    OneLoss(end);
    hide Step, StateFits, LossesAndRetries;
    assert [last][1..] == [] && Final(end, [last]) == Final(Step(end, last).0, []);
  }

  /** The fifth retry is reached: a run from the start that ends waiting for it. */
  lemma FifthRetryIsReached(topic: string)
    requires topic != ""
    ensures
      var es := [Subscribe(topic)] + (LossesAndRetries(1, 4) + [ConnectionLost(5)]);
      Final(INITIAL, es) == State(Waiting, Some(topic), 5, 5, None) && Valid(Final(INITIAL, es))
  {
    var first := State(Connecting, Some(topic), 1, 0, None);
    var rest := LossesAndRetries(1, 4) + [ConnectionLost(5)];
    assert Step(INITIAL, Subscribe(topic)).0 == first;
    WaitsAfter(first, 4);
    FinalIsValid(INITIAL, [Subscribe(topic)] + rest);
    hide Step, LossesAndRetries, Valid;
    assert ([Subscribe(topic)] + rest)[1..] == rest;
  }

  // ----- The review-phase machine

  /** Its retry count has no bound, and a loss always schedules another retry. */
  lemma ReviewNeverGivesUp(t: WatchReview.State, generation: int)
    requires t.status in {WatchReview.Connecting, WatchReview.Active} && t.generation == generation
    requires t.generation >= 0 && t.retryCount >= 0 && t.topic.Some? && t.topic.value != ""
    ensures WatchReview.Transition(t, ConnectionLost(generation)) == Ok((
      WatchReview.State(WatchReview.Waiting, t.topic, generation, t.retryCount + 1),
      [ScheduleRetry(generation, t.topic.value, DelayAfter(t.retryCount))]))
  {
    DelayIs(t.retryCount + 1);
  }
}
