/** The review-phase watch machine, which retries without bound and has no failed status. */
module WatchReview {
  import opened Wrappers
  import Watch

  datatype Status = Stopped | Connecting | Active | Waiting

  datatype State = State(status: Status, topic: Option<string>, generation: int, retryCount: int)

  const INITIAL := State(Stopped, None, 0, 0)

  type Outcome = Result<(State, seq<Watch.Effect>), Watch.WatchError>

  predicate Valid(s: State) {
    && 0 <= s.generation
    && 0 <= s.retryCount
    && (if s.status == Stopped then s.topic.None? && s.retryCount == 0
        else s.topic.Some? && s.topic.value != "")
    && (s.status == Waiting ==> 1 <= s.retryCount)
  }

  function DisconnectEffect(s: State): Watch.Effect
    requires s.topic.Some?
  {
    if s.status == Waiting
    then Watch.CancelRetry(s.generation, s.topic.value)
    else Watch.Disconnect(s.generation, s.topic.value)
  }

  function Transition(s: State, e: Watch.Event): Outcome {
    if !Valid(s) then Err(Watch.ValueError)
    else match e
      case Subscribe(topic) =>
        if topic == "" then Err(Watch.ValueError)
        else if s.topic == Some(topic) then Ok((s, []))
        else
          var generation := s.generation + 1;
          var prior := if s.status == Stopped then [] else [DisconnectEffect(s)];
          Ok((State(Connecting, Some(topic), generation, 0), prior + [Watch.Connect(generation, topic)]))
      case Connected(generation) =>
        if generation < 0 then Err(Watch.ValueError)
        else if s.status != Connecting || generation != s.generation then Ok((s, []))
        else Ok((State(Active, s.topic, generation, 0), []))
      case ConnectionLost(generation) =>
        if generation < 0 then Err(Watch.ValueError)
        else if s.status !in {Connecting, Active} || generation != s.generation then Ok((s, []))
        else
          var retryCount := s.retryCount + 1;
          Ok((State(Waiting, s.topic, generation, retryCount),
              [Watch.ScheduleRetry(generation, s.topic.value, Watch.Delay(retryCount))]))
      case RetryDue(generation) =>
        if generation < 0 then Err(Watch.ValueError)
        else if s.status != Waiting || generation != s.generation then Ok((s, []))
        else
          var next := generation + 1;
          Ok((State(Connecting, s.topic, next, s.retryCount), [Watch.Connect(next, s.topic.value)]))
      case Unsubscribe =>
        if s.status == Stopped then Ok((s, []))
        else Ok((State(Stopped, None, s.generation, 0), [DisconnectEffect(s)]))
      case ConnectionFailed(_, _) => Err(Watch.ValueError)  // not an event of this machine
      case UnknownEvent(_) => Err(Watch.ValueError)
  }
}
