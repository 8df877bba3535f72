/** Runs of the hardened machine: resources balance, redeliveries are harmless, retries are bounded. */
module WatchRuns {
  import opened Numbers
  import opened Wrappers
  import opened Watch

  /** One delivery. A raising transition leaves the caller with the state it had. */
  function Step(s: State, e: Event): (State, seq<Effect>) {
    match Transition(s, e)
    case Ok(next) => next
    case Err(_) => (s, [])
  }

  predicate Accepted(s: State, e: Event) {
    Step(s, e).0 != s
  }

  function Final(s: State, es: seq<Event>): State
    decreases |es|
  {
    if es == [] then s else Final(Step(s, es[0]).0, es[1..])
  }

  function Trace(s: State, es: seq<Event>): seq<Effect>
    decreases |es|
  {
    if es == [] then [] else Step(s, es[0]).1 + Trace(Step(s, es[0]).0, es[1..])
  }

  lemma {:induction false} FinalIsValid(s: State, es: seq<Event>)
    requires Valid(s)
    ensures Valid(Final(s, es))
    decreases |es|
  {
    if es != [] {
      TransitionIsTotalOnValidInput(s, es[0]);
      FinalIsValid(Step(s, es[0]).0, es[1..]);
    }
  }

  // ----- Progress

  /** Where a status stands in the life of one generation. */
  function Rank(status: Status): nat {
    match status
    case Connecting => 0
    case Active => 1
    case Waiting => 2
    case Failed => 3
    case Stopped => 4
  }

  predicate Rises(s: State, t: State) {
    s.generation < t.generation || (s.generation == t.generation && Rank(s.status) < Rank(t.status))
  }

  lemma StepRisesOrDoesNothing(s: State, e: Event)
    requires Valid(s)
    ensures Step(s, e) == (s, []) || Rises(s, Step(s, e).0)
  {
  }

  // ----- Redelivery

  datatype Signal = SignalConnected | SignalLost | SignalFailed | SignalDue

  /** What identifies a delivery from outside: its kind and generation. */
  datatype Tag = Tag(signal: Signal, generation: int)

  function TagOf(e: Event): Option<Tag> {
    match e
    case Connected(generation) => Some(Tag(SignalConnected, generation))
    case ConnectionLost(generation) => Some(Tag(SignalLost, generation))
    case ConnectionFailed(generation, _) => Some(Tag(SignalFailed, generation))
    case RetryDue(generation) => Some(Tag(SignalDue, generation))
    case _ => None
  }

  function LastRank(signal: Signal): nat {
    match signal
    case SignalConnected => 0
    case SignalFailed => 0
    case SignalLost => 1
    case SignalDue => 2
  }

  /** No delivery with this tag can be accepted from `s` on. */
  predicate Spent(s: State, t: Tag) {
    t.generation < s.generation || (t.generation == s.generation && LastRank(t.signal) < Rank(s.status))
  }

  lemma SpentTagsAreIgnored(s: State, e: Event)
    requires Valid(s) && TagOf(e).Some? && Spent(s, TagOf(e).value)
    ensures Step(s, e) == (s, [])
  {
  }

  lemma AcceptanceSpendsTheTag(s: State, e: Event)
    requires Valid(s) && TagOf(e).Some? && Accepted(s, e)
    ensures Spent(Step(s, e).0, TagOf(e).value)
  {
  }

  lemma {:induction false} SpentStaysSpent(s: State, es: seq<Event>, t: Tag)
    requires Valid(s) && Spent(s, t)
    ensures Spent(Final(s, es), t)
    decreases |es|
  {
    if es != [] {
      StepRisesOrDoesNothing(s, es[0]);
      TransitionIsTotalOnValidInput(s, es[0]);
      SpentStaysSpent(Step(s, es[0]).0, es[1..], t);
    }
  }

  lemma {:induction false} FinalOfConcat(s: State, es: seq<Event>, fs: seq<Event>)
    ensures Final(s, es + fs) == Final(Final(s, es), fs)
    decreases |es|
  {
    if es == [] {
      assert es + fs == fs;
    } else {
      assert (es + fs)[0] == es[0] && (es + fs)[1..] == es[1..] + fs;
      FinalOfConcat(Step(s, es[0]).0, es[1..], fs);
    }
  }

  /** A (kind, generation) accepted once in a run is never accepted again. */
  lemma AcceptedAtMostOnce(s: State, es: seq<Event>, i: nat, j: nat)
    requires Valid(s) && i < j < |es|
    requires TagOf(es[i]).Some? && TagOf(es[i]) == TagOf(es[j])
    requires Accepted(Final(s, es[..i]), es[i])
    ensures Step(Final(s, es[..j]), es[j]) == (Final(s, es[..j]), [])
  {
    var before := Final(s, es[..i]);
    FinalIsValid(s, es[..i]);
    AcceptanceSpendsTheTag(before, es[i]);
    var after := Step(before, es[i]).0;
    TransitionIsTotalOnValidInput(before, es[i]);
    FinalOfConcat(s, es[..i], es[i..j]);
    assert es[..i] + es[i..j] == es[..j];
    assert es[i..j][1..] == es[i + 1..j];
    SpentStaysSpent(after, es[i + 1..j], TagOf(es[i]).value);
    FinalIsValid(s, es[..j]);
    SpentTagsAreIgnored(Final(s, es[..j]), es[j]);
  }

  /** A delivery filter may drop `e`: it is stale, or repeats a tag already accepted. */
  predicate Droppable(s: State, e: Event, seen: set<Tag>) {
    TagOf(e).Some? && (TagOf(e).value.generation < s.generation || TagOf(e).value in seen)
  }

  /** The deliveries that remain when stale ones and redeliveries of accepted ones are dropped. */
  function Distill(s: State, es: seq<Event>, seen: set<Tag>): seq<Event>
    decreases |es|
  {
    if es == [] then []
    else if Droppable(s, es[0], seen) then Distill(s, es[1..], seen)
    else
      var seen' := if Accepted(s, es[0]) && TagOf(es[0]).Some? then seen + {TagOf(es[0]).value} else seen;
      [es[0]] + Distill(Step(s, es[0]).0, es[1..], seen')
  }

  /** Dropping stale events and redeliveries changes neither the final state nor any effect. */
  lemma {:induction false} DistillKeepsTheRun(s: State, es: seq<Event>, seen: set<Tag>)
    requires Valid(s)
    requires forall t :: t in seen ==> Spent(s, t)
    ensures Final(s, Distill(s, es, seen)) == Final(s, es)
    ensures Trace(s, Distill(s, es, seen)) == Trace(s, es)
    decreases |es|
  {
    if es != [] {
      var e, rest := es[0], es[1..];
      var next := Step(s, e).0;
      TransitionIsTotalOnValidInput(s, e);
      if Droppable(s, e, seen) {
        SpentTagsAreIgnored(s, e);
        assert Trace(s, es) == [] + Trace(s, rest);
        DistillKeepsTheRun(s, rest, seen);
      } else {
        var seen' := if Accepted(s, e) && TagOf(e).Some? then seen + {TagOf(e).value} else seen;
        forall t | t in seen' ensures Spent(next, t) {
          if t in seen {
            SpentStaysSpent(s, [e], t);
            assert Final(s, [e]) == Final(next, []);
          } else {
            AcceptanceSpendsTheTag(s, e);
          }
        }
        DistillKeepsTheRun(next, rest, seen');
        var kept := Distill(next, rest, seen');
        assert ([e] + kept)[1..] == kept;
      }
    }
  }

  // ----- Resource ledger

  /** What the outer runtime holds, by generation: open connections and pending timers. */
  datatype Ledger = Ledger(connections: map<int, string>, timers: map<int, string>)

  const EMPTY := Ledger(map[], map[])

  /** An accepted loss or failure ends its connection; an accepted due retry uses up its timer. */
  function Consume(l: Ledger, e: Event): Option<Ledger> {
    match e
    case ConnectionLost(generation) => DropConnection(l, generation)
    case ConnectionFailed(generation, _) => DropConnection(l, generation)
    case RetryDue(generation) => DropTimer(l, generation)
    case _ => Some(l)
  }

  function DropConnection(l: Ledger, generation: int): Option<Ledger> {
    if generation in l.connections then Some(l.(connections := l.connections - {generation})) else None
  }

  function DropTimer(l: Ledger, generation: int): Option<Ledger> {
    if generation in l.timers then Some(l.(timers := l.timers - {generation})) else None
  }

  /** `None` when the effect opens what is already open, or closes what is not held as named. */
  function Perform(l: Ledger, f: Effect): Option<Ledger> {
    match f
    case Connect(generation, topic) =>
      if generation in l.connections then None
      else Some(l.(connections := l.connections[generation := topic]))
    case Disconnect(generation, topic) =>
      if generation in l.connections && l.connections[generation] == topic
      then DropConnection(l, generation) else None
    case ScheduleRetry(generation, topic, _) =>
      if generation in l.timers then None else Some(l.(timers := l.timers[generation := topic]))
    case CancelRetry(generation, topic) =>
      if generation in l.timers && l.timers[generation] == topic then DropTimer(l, generation) else None
    case EmitEvent(_, _, _) => Some(l)
  }

  function PerformAll(l: Ledger, fs: seq<Effect>): Option<Ledger>
    decreases |fs|
  {
    if fs == [] then Some(l)
    else match Perform(l, fs[0])
      case None => None
      case Some(l') => PerformAll(l', fs[1..])
  }

  function Replay(l: Ledger, s: State, es: seq<Event>): Option<Ledger>
    decreases |es|
  {
    if es == [] then Some(l)
    else
      var (next, effects) := Step(s, es[0]);
      match if next != s then Consume(l, es[0]) else Some(l)
      case None => None
      case Some(l1) =>
        match PerformAll(l1, effects)
        case None => None
        case Some(l2) => Replay(l2, next, es[1..])
  }

  /** One connection while connecting or active, one timer while waiting, else nothing. */
  predicate Balanced(s: State, l: Ledger) {
    match s.status
    case Connecting => s.topic.Some? && l == Ledger(map[s.generation := s.topic.value], map[])
    case Active => s.topic.Some? && l == Ledger(map[s.generation := s.topic.value], map[])
    case Waiting => s.topic.Some? && l == Ledger(map[], map[s.generation := s.topic.value])
    case _ => l == EMPTY
  }

  lemma PerformFirst(l: Ledger, f: Effect, fs: seq<Effect>)
    requires Perform(l, f).Some?
    ensures PerformAll(l, [f] + fs) == PerformAll(Perform(l, f).value, fs)
  {
    assert ([f] + fs)[1..] == fs;
  }

  lemma StepBalances(s: State, e: Event, l: Ledger)
    requires Valid(s) && Balanced(s, l)
    ensures
      var (next, effects) := Step(s, e);
      var l1 := if next != s then Consume(l, e) else Some(l);
      && l1.Some?
      && PerformAll(l1.value, effects).Some?
      && Balanced(next, PerformAll(l1.value, effects).value)
  {
    var (next, effects) := Step(s, e);
    var l1 := if next != s then Consume(l, e) else Some(l);
    if |effects| > 0 {
      PerformFirst(l1.value, effects[0], effects[1..]);
      if |effects| == 2 {
        PerformFirst(Perform(l1.value, effects[0]).value, effects[1], []);
      }
    }
  }

  /** Over every run the effects balance: nothing leaks and nothing not held is released. */
  lemma {:induction false} EveryRunBalances(s: State, es: seq<Event>, l: Ledger)
    requires Valid(s) && Balanced(s, l)
    ensures Replay(l, s, es).Some? && Balanced(Final(s, es), Replay(l, s, es).value)
    decreases |es|
  {
    if es != [] {
      StepBalances(s, es[0], l);
      TransitionIsTotalOnValidInput(s, es[0]);
      var (next, effects) := Step(s, es[0]);
      var l1 := if next != s then Consume(l, es[0]) else Some(l);
      EveryRunBalances(next, es[1..], PerformAll(l1.value, effects).value);
    }
  }

  /** The ledger of a run from the initial state. */
  lemma LedgerOfRun(es: seq<Event>)
    ensures Replay(EMPTY, INITIAL, es).Some?
    ensures Balanced(Final(INITIAL, es), Replay(EMPTY, INITIAL, es).value)
  {
    EveryRunBalances(INITIAL, es, EMPTY);
  }

  function ConnectGenerations(fs: seq<Effect>): seq<int> {
    if fs == [] then []
    else (if fs[0].Connect? then [fs[0].generation] else []) + ConnectGenerations(fs[1..])
  }

  lemma {:induction false} ConnectGenerationsOfConcat(fs: seq<Effect>, gs: seq<Effect>)
    ensures ConnectGenerations(fs + gs) == ConnectGenerations(fs) + ConnectGenerations(gs)
  {
    if fs == [] {
      assert fs + gs == gs;
    } else {
      assert (fs + gs)[0] == fs[0] && (fs + gs)[1..] == fs[1..] + gs;
      ConnectGenerationsOfConcat(fs[1..], gs);
    }
  }

  lemma StepConnects(s: State, e: Event)
    requires Valid(s)
    ensures
      var (next, effects) := Step(s, e);
      ConnectGenerations(effects) == if next.generation == s.generation then [] else [next.generation]
  {
    var effects := Step(s, e).1;
    if |effects| == 2 {
      assert effects == [effects[0]] + [effects[1]];
      ConnectGenerationsOfConcat([effects[0]], [effects[1]]);
    }
  }

  predicate RisingWithin(gs: seq<int>, low: int, high: int) {
    && (forall i, j :: 0 <= i < j < |gs| ==> gs[i] < gs[j])
    && (forall i :: 0 <= i < |gs| ==> low < gs[i] <= high)
    && low <= high
  }

  /** No generation is ever connected twice: they are handed out in strictly rising order. */
  lemma {:induction false} GenerationsAreFresh(s: State, es: seq<Event>)
    requires Valid(s)
    ensures RisingWithin(ConnectGenerations(Trace(s, es)), s.generation, Final(s, es).generation)
    decreases |es|
  {
    if es != [] {
      var (next, effects) := Step(s, es[0]);
      TransitionIsTotalOnValidInput(s, es[0]);
      StepRisesOrDoesNothing(s, es[0]);
      StepConnects(s, es[0]);
      ConnectGenerationsOfConcat(effects, Trace(next, es[1..]));
      GenerationsAreFresh(next, es[1..]);
      var tail := ConnectGenerations(Trace(next, es[1..]));
      var all := ConnectGenerations(Trace(s, es));
      assert all == (if next.generation == s.generation then [] else [next.generation]) + tail;
      assert next.generation == s.generation ==> all == tail;
    }
  }

  // ----- Retry budget

  /** No `connected`, `subscribe` or `unsubscribe` takes effect anywhere in the segment. */
  predicate Quiet(s: State, es: seq<Event>)
    decreases |es|
  {
    es == [] || (
      && (es[0].Connected? || es[0].Subscribe? || es[0].Unsubscribe? ==> !Accepted(s, es[0]))
      && Quiet(Step(s, es[0]).0, es[1..]))
  }

  function Retries(fs: seq<Effect>): nat {
    if fs == [] then 0 else (if fs[0].ScheduleRetry? then 1 else 0) + Retries(fs[1..])
  }

  function TotalDelay(fs: seq<Effect>): nat {
    if fs == [] then 0
    else (if fs[0].ScheduleRetry? then fs[0].delaySeconds else 0) + TotalDelay(fs[1..])
  }

  function Records(fs: seq<Effect>): nat {
    if fs == [] then 0 else (if fs[0].EmitEvent? then 1 else 0) + Records(fs[1..])
  }

  /** The delays of retries `from + 1` through `upTo`. */
  function Backoff(from: nat, upTo: nat): nat
    requires from <= upTo
    decreases upTo - from
  {
    if from == upTo then 0 else Delay(from + 1) + Backoff(from + 1, upTo)
  }

  lemma {:induction false} CountsOfConcat(fs: seq<Effect>, gs: seq<Effect>)
    ensures Retries(fs + gs) == Retries(fs) + Retries(gs)
    ensures TotalDelay(fs + gs) == TotalDelay(fs) + TotalDelay(gs)
    ensures Records(fs + gs) == Records(fs) + Records(gs)
  {
    if fs == [] {
      assert fs + gs == gs;
    } else {
      assert (fs + gs)[0] == fs[0] && (fs + gs)[1..] == fs[1..] + gs;
      CountsOfConcat(fs[1..], gs);
    }
  }

  lemma QuietStep(s: State, e: Event)
    requires Valid(s) && Quiet(s, [e])
    ensures
      var (next, effects) := Step(s, e);
      && next.retryCount == s.retryCount + Retries(effects)
      && Retries(effects) <= 1
      && TotalDelay(effects) == (if Retries(effects) == 1 then Delay(s.retryCount + 1) else 0)
      && Records(effects) == (if next.status == Failed && s.status != Failed then 1 else 0)
      && (s.status == Failed ==> next == s)
  {
    var effects := Step(s, e).1;
    if |effects| == 1 {
      assert effects[1..] == [];
    }
  }

  /** Exactly how many retries, seconds and failure records a quiet segment produces. */
  lemma {:induction false} QuietSegment(s: State, es: seq<Event>)
    requires Valid(s) && Quiet(s, es)
    ensures
      var end, fs := Final(s, es), Trace(s, es);
      && s.retryCount <= end.retryCount <= 5
      && Retries(fs) == end.retryCount - s.retryCount
      && TotalDelay(fs) == Backoff(s.retryCount, end.retryCount)
      && Records(fs) == (if end.status == Failed && s.status != Failed then 1 else 0)
      && (s.status == Failed ==> end == s)
    decreases |es|
  {
    if es != [] {
      var (next, effects) := Step(s, es[0]);
      TransitionIsTotalOnValidInput(s, es[0]);
      assert Quiet(s, [es[0]]);
      QuietStep(s, es[0]);
      QuietSegment(next, es[1..]);
      CountsOfConcat(effects, Trace(next, es[1..]));
    }
  }

  lemma BackoffAtMost23(from: nat, upTo: nat)
    requires from <= upTo <= MAX_RETRIES
    ensures Backoff(from, upTo) <= 23
  {
    assert Pow2(0) == 1 && Pow2(1) == 2 && Pow2(2) == 4 && Pow2(3) == 8 && Pow2(4) == 16;
    assert Delay(1) == 1 && Delay(2) == 2 && Delay(3) == 4 && Delay(4) == 8 && Delay(5) == 8;
    assert Backoff(upTo, upTo) == 0;
    if from < 5 && upTo == 5 { assert Backoff(4, 5) == 8; }
    if from < 4 && upTo >= 4 { assert Backoff(3, upTo) == 8 + Backoff(4, upTo); }
    if from < 3 && upTo >= 3 { assert Backoff(2, upTo) == 4 + Backoff(3, upTo); }
    if from < 2 && upTo >= 2 { assert Backoff(1, upTo) == 2 + Backoff(2, upTo); }
    if from < 1 && upTo >= 1 { assert Backoff(0, upTo) == 1 + Backoff(1, upTo); }
  }

  /** A quiet segment schedules at most the retries left, waits at most 23 seconds in total, and
      reports at most one failure. */
  lemma RetryBudget(s: State, es: seq<Event>)
    requires Valid(s) && Quiet(s, es)
    ensures Retries(Trace(s, es)) <= 5 - s.retryCount
    ensures TotalDelay(Trace(s, es)) <= 23
    ensures Records(Trace(s, es)) <= 1
  {
    QuietSegment(s, es);
    BackoffAtMost23(s.retryCount, Final(s, es).retryCount);
  }

  /** An accepted loss or failure is terminal exactly when its kind may not retry or no retry is
      left; it then reports exactly one record, and otherwise schedules exactly one retry. */
  lemma FailureIsTerminalExactlyWhenSpent(s: State, e: Event)
    requires Valid(s) && Accepted(s, e) && (e.ConnectionLost? || e.ConnectionFailed?)
    ensures
      var kind := if e.ConnectionLost? then Transient else e.errorKind;
      var (next, effects) := Step(s, e);
      var topic := s.topic.value;
      if kind !in {RateLimit, Transient} || s.retryCount == 5 then
        && next.status == Failed && next.errorKind == Some(kind) && next.retryCount == s.retryCount
        && effects == [EmitEvent(s.generation, topic, WatchFailed(topic, kind))]
      else
        && next.status == Waiting && next.retryCount == s.retryCount + 1
        && effects == [ScheduleRetry(s.generation, topic, [1, 2, 4, 8, 8][s.retryCount])]
  {
    assert Pow2(0) == 1 && Pow2(1) == 2 && Pow2(2) == 4 && Pow2(3) == 8 && Pow2(4) == 16;
  }
}
