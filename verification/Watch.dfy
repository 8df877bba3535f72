/** The hardened watch-subscription machine: five statuses, generation tags, bounded back-off. */
module Watch {
  import opened Numbers
  import opened Wrappers

  const MAX_RETRIES := 5

  datatype Status = Stopped | Connecting | Active | Waiting | Failed

  /** The stable error kinds; `Unlisted` stands for every other string. */
  datatype ErrorKind =
    | Validation
    | Auth
    | Conflict
    | RateLimit
    | Transient
    | Internal
    | Unknown
    | Unlisted(text: string)

  datatype State = State(
    status: Status,
    topic: Option<string>,
    generation: int,
    retryCount: int,
    errorKind: Option<ErrorKind>)

  const INITIAL := State(Stopped, None, 0, 0, None)

  datatype Event =
    | Subscribe(topic: string)
    | Connected(generation: int)
    | ConnectionLost(generation: int)
    | ConnectionFailed(generation: int, errorKind: ErrorKind)
    | RetryDue(generation: int)
    | Unsubscribe
    | UnknownEvent(text: string)

  /** The record of a terminal failure; event, operation and outcome are fixed strings. */
  datatype BoundaryEvent = WatchFailed(resourceId: string, errorKind: ErrorKind)

  datatype Effect =
    | Connect(generation: int, topic: string)
    | Disconnect(generation: int, topic: string)
    | ScheduleRetry(generation: int, topic: string, delaySeconds: nat)
    | CancelRetry(generation: int, topic: string)
    | EmitEvent(generation: int, topic: string, event: BoundaryEvent)

  datatype WatchError = ValueError

  type Outcome = Result<(State, seq<Effect>), WatchError>

  /** What `_state` accepts. */
  predicate Valid(s: State) {
    && 0 <= s.generation
    && 0 <= s.retryCount <= MAX_RETRIES
    && match s.status
       case Stopped => s.topic.None? && s.retryCount == 0 && s.errorKind.None?
       case Failed => HasTopic(s) && s.errorKind.Some? && !s.errorKind.value.Unlisted?
       case Waiting => HasTopic(s) && 1 <= s.retryCount && s.errorKind.None?
       case _ => HasTopic(s) && s.errorKind.None?
  }

  predicate HasTopic(s: State) {
    s.topic.Some? && s.topic.value != ""
  }

  /** The event carries what its kind requires, whatever the state is. */
  predicate WellFormed(e: Event) {
    match e
    case Subscribe(topic) => topic != ""
    case ConnectionFailed(generation, kind) => 0 <= generation && !kind.Unlisted?
    case Unsubscribe => true
    case UnknownEvent(_) => false
    case _ => 0 <= e.generation
  }

  function Delay(retryCount: nat): nat
    requires 1 <= retryCount
  {
    var raw := Pow2(retryCount - 1);
    if raw < 8 then raw else 8
  }

  function DisconnectEffect(s: State): Effect
    requires HasTopic(s)
  {
    if s.status == Waiting
    then CancelRetry(s.generation, s.topic.value)
    else Disconnect(s.generation, s.topic.value)
  }

  function TerminalFailure(s: State, generation: int, kind: ErrorKind): (State, seq<Effect>)
    requires HasTopic(s)
  {
    (State(Failed, s.topic, generation, s.retryCount, Some(kind)),
     [EmitEvent(generation, s.topic.value, WatchFailed(s.topic.value, kind))])
  }

  function RetryOrFail(s: State, generation: int, kind: ErrorKind): (State, seq<Effect>)
    requires HasTopic(s) && 0 <= s.retryCount
  {
    if kind !in {RateLimit, Transient} || s.retryCount >= MAX_RETRIES then
      TerminalFailure(s, generation, kind)
    else
      var retryCount := s.retryCount + 1;
      (State(Waiting, s.topic, generation, retryCount, None),
       [ScheduleRetry(generation, s.topic.value, Delay(retryCount))])
  }

  function Transition(s: State, e: Event): Outcome {
    if !Valid(s) then Err(ValueError)
    else match e
      case Subscribe(topic) =>
        if topic == "" then Err(ValueError)
        else if s.topic == Some(topic) && s.status != Failed then Ok((s, []))
        else
          var generation := s.generation + 1;
          var prior := if s.status in {Stopped, Failed} then [] else [DisconnectEffect(s)];
          Ok((State(Connecting, Some(topic), generation, 0, None), prior + [Connect(generation, topic)]))
      case Connected(generation) =>
        if generation < 0 then Err(ValueError)
        else if s.status != Connecting || generation != s.generation then Ok((s, []))
        else Ok((State(Active, s.topic, generation, 0, None), []))
      case ConnectionLost(generation) =>
        if generation < 0 then Err(ValueError)
        else if s.status !in {Connecting, Active} || generation != s.generation then Ok((s, []))
        else Ok(RetryOrFail(s, generation, Transient))
      case ConnectionFailed(generation, kind) =>
        if generation < 0 || kind.Unlisted? then Err(ValueError)
        else if s.status != Connecting || generation != s.generation then Ok((s, []))
        else Ok(RetryOrFail(s, generation, kind))
      case RetryDue(generation) =>
        if generation < 0 then Err(ValueError)
        else if s.status != Waiting || generation != s.generation then Ok((s, []))
        else
          var next := generation + 1;
          Ok((State(Connecting, s.topic, next, s.retryCount, None), [Connect(next, s.topic.value)]))
      case Unsubscribe =>
        if s.status == Stopped then Ok((s, []))
        else
          var stopped := State(Stopped, None, s.generation, 0, None);
          if s.status == Failed then Ok((stopped, [])) else Ok((stopped, [DisconnectEffect(s)]))
      case UnknownEvent(_) => Err(ValueError)
  }

  /** The transition raises exactly on an invalid state or an ill-formed event, and keeps `Valid`. */
  lemma TransitionIsTotalOnValidInput(s: State, e: Event)
    ensures Transition(s, e).Ok? <==> Valid(s) && WellFormed(e)
    ensures Transition(s, e).Ok? ==> Valid(Transition(s, e).value.0)
  {
  }
}
