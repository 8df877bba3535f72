/** The second implementation of the hardened machine, built from updates of the current state. */
module WatchAlternate {
  import opened Wrappers
  import opened Watch

  predicate Validate(s: State) {
    && 0 <= s.generation
    && 0 <= s.retryCount
    && s.retryCount <= MAX_RETRIES
    && (if s.status == Stopped
        then s.topic == None && s.retryCount == 0 && s.errorKind == None
        else s.topic.Some? && s.topic.value != "")
    && (s.status == Waiting ==> s.retryCount != 0)
    && (if s.status == Failed
        then s.errorKind.Some? && !s.errorKind.value.Unlisted?
        else s.errorKind == None)
  }

  function StopEffect(s: State): Effect
    requires s.topic.Some?
  {
    match s.status
    case Waiting => CancelRetry(s.generation, s.topic.value)
    case _ => Disconnect(s.generation, s.topic.value)
  }

  function Fail(s: State, generation: int, kind: ErrorKind): (State, seq<Effect>)
    requires s.topic.Some?
  {
    var record := WatchFailed(s.topic.value, kind);
    (s.(status := Failed, errorKind := Some(kind)), [EmitEvent(generation, s.topic.value, record)])
  }

  function Retry(s: State, generation: int, kind: ErrorKind): (State, seq<Effect>)
    requires s.topic.Some? && 0 <= s.retryCount
  {
    if !(kind == RateLimit || kind == Transient) || s.retryCount == MAX_RETRIES then Fail(s, generation, kind)
    else
      var count := s.retryCount + 1;
      (s.(status := Waiting, retryCount := count),
       [ScheduleRetry(generation, s.topic.value, Delay(count))])
  }

  function Transition(s: State, e: Event): Outcome {
    if !Validate(s) then Err(ValueError)
    else match e
      case Subscribe(topic) =>
        if topic == "" then Err(ValueError)
        else if Some(topic) == s.topic && s.status != Failed then Ok((s, []))
        else
          var generation := s.generation + 1;
          var effects := if s.status == Stopped || s.status == Failed then [] else [StopEffect(s)];
          Ok((State(Connecting, Some(topic), generation, 0, None), effects + [Connect(generation, topic)]))
      case Connected(generation) =>
        if generation < 0 then Err(ValueError)
        else if s.status == Connecting && generation == s.generation
        then Ok((State(Active, s.topic, generation, 0, None), []))
        else Ok((s, []))
      case ConnectionLost(generation) =>
        if generation < 0 then Err(ValueError)
        else if (s.status == Connecting || s.status == Active) && generation == s.generation
        then Ok(Retry(s, generation, Transient))
        else Ok((s, []))
      case ConnectionFailed(generation, kind) =>
        if generation < 0 || kind.Unlisted? then Err(ValueError)
        else if s.status == Connecting && generation == s.generation
        then Ok(Retry(s, generation, kind))
        else Ok((s, []))
      case RetryDue(generation) =>
        if generation < 0 then Err(ValueError)
        else if s.status != Waiting || generation != s.generation then Ok((s, []))
        else
          var connecting := s.(status := Connecting, generation := generation + 1);
          Ok((connecting, [Connect(connecting.generation, connecting.topic.value)]))
      case Unsubscribe =>
        var stopped := State(Stopped, None, s.generation, 0, None);
        if s.status == Failed then Ok((stopped, []))
        else if s.status != Stopped then Ok((stopped, [StopEffect(s)]))
        else Ok((s, []))
      case UnknownEvent(_) => Err(ValueError)
  }
}
