/**
  Watching a Kubernetes deployment (k8s/deploy_watcher.go): the goroutine of `Watch`, which runs
  `monitorDeployment`, and the goroutine of `streamEvents` agree over three channels, `started`,
  `ended` and `flushed`. None of them is buffered.

  A state holds both program counters and what happened to the channels. A label is one atomic step
  of one goroutine (`Rendezvous` is a step of both) together with what the cluster answered. Any
  interleaving of enabled steps is a run.
*/
module DeployWatch {
  import opened Text

  datatype Status = InProgress | Complete

  datatype Verdict = Succeeded | Deleted | Cancelled | TimedOut | Invalidated | Failure(reason: string)

  /** What fetching the deployment failed with; only a cancellation is translated by the context's own error. */
  datatype PollError = NotFound | ContextCanceled(deadline: bool) | Other(reason: string)

  /**
    `monitorDeployment` and the end of `Watch`. Returning runs the deferred closes: first `started`,
    then `ended`.
  */
  datatype Monitor =
    | Polling
    | Sending(start: Option<nat>, observed: int)
    | Checking
    | Sleeping
    | ClosingStarted
    | ClosingEnded
    | AwaitingFlushed
    | Returned

  /** `streamEvents`. `ok` is what receiving from `started` said. */
  datatype Streamer = Receiving | Listing(ok: bool) | Opening | Looping | ClosingFlushed | Finished

  datatype Event = Event(at: nat, tracked: bool)

  /** `panicked` records a send on a closed channel or a second close. */
  datatype State = State(
    generation: int,
    monitor: Monitor,
    initialized: bool,
    verdict: Option<Verdict>,
    streamer: Streamer,
    earliest: nat,
    emitted: seq<Event>,
    listings: nat,
    sends: seq<Option<nat>>,
    startedCloses: nat,
    endedCloses: nat,
    flushedCloses: nat,
    panicked: bool)

  datatype Label =
    | PollFailed(error: PollError)
    | PollAnswered(generation: Option<int>, start: Option<nat>)
    | Rendezvous
    | SendOnClosed
    | Checked(status: Option<Status>, reason: string)
    | Slept
    | ContextEnded(deadline: bool)
    | CloseStarted
    | CloseEnded
    | SeeFlushed
    | ReceiveClosed
    | Listed(events: seq<Event>)
    | OpenFailed
    | Opened
    | GotEvent(event: Option<Event>)
    | SeeEnded
    | CloseFlushed

  function Start(generation: int, now: nat): State {
    State(generation, Polling, false, None, Receiving, now, [], 0, [], 0, 0, 0, false)
  }

  predicate Enabled(s: State, l: Label) {
    !s.panicked
    && match l
       case PollFailed(_) => s.monitor == Polling
       case PollAnswered(_, _) => s.monitor == Polling
       case Rendezvous => s.monitor.Sending? && s.streamer == Receiving && s.startedCloses == 0
       case SendOnClosed => s.monitor.Sending? && s.startedCloses > 0
       case Checked(_, _) => s.monitor == Checking
       case Slept => s.monitor == Sleeping
       case ContextEnded(_) => s.monitor == Sleeping
       case CloseStarted => s.monitor == ClosingStarted
       case CloseEnded => s.monitor == ClosingEnded
       case SeeFlushed => s.monitor == AwaitingFlushed && s.flushedCloses > 0
       case ReceiveClosed => s.streamer == Receiving && s.startedCloses > 0
       case Listed(_) => s.streamer.Listing?
       case OpenFailed => s.streamer == Opening
       case Opened => s.streamer == Opening
       case GotEvent(_) => s.streamer == Looping
       case SeeEnded => s.streamer == Looping && s.endedCloses > 0
       case CloseFlushed => s.streamer == ClosingFlushed
  }

  function Translated(deadline: bool): Verdict {
    if deadline then TimedOut else Cancelled
  }

  function Return(s: State, v: Verdict): State {
    s.(monitor := ClosingStarted, verdict := Some(v))
  }

  /** After `init.Do`: a newer generation ends the watch. */
  function Compare(s: State, observed: int): State {
    if s.generation != 0 && observed > s.generation then Return(s, Invalidated) else s.(monitor := Checking)
  }

  function Kept(events: seq<Event>, earliest: nat): seq<Event> {
    if events == [] then []
    else (if events[0].at < earliest || !events[0].tracked then [] else [events[0]]) + Kept(events[1..], earliest)
  }

  function Apply(s: State, l: Label): State
    requires Enabled(s, l)
  {
    match l
    case PollFailed(NotFound) => Return(s, Deleted)
    case PollFailed(ContextCanceled(deadline)) => Return(s, Translated(deadline))
    case PollFailed(Other(reason)) => Return(s, Failure(reason))
    case PollAnswered(None, _) => s.(monitor := Checking)
    case PollAnswered(Some(observed), start) =>
      if s.initialized then Compare(s, observed) else s.(initialized := true, monitor := Sending(start, observed))
    case Rendezvous =>
      var received := s.(
        sends := s.sends + [s.monitor.start],
        streamer := Listing(true),
        earliest := if s.monitor.start.Some? then s.monitor.start.value else s.earliest);
      Compare(received, s.monitor.observed)
    case SendOnClosed => s.(panicked := true)
    case Checked(None, reason) => Return(s, Failure(reason))
    case Checked(Some(Complete), _) => Return(s, Succeeded)
    case Checked(Some(InProgress), _) => s.(monitor := Sleeping)
    case Slept => s.(monitor := Polling)
    case ContextEnded(deadline) => Return(s, Translated(deadline))
    case CloseStarted =>
      s.(monitor := ClosingEnded, startedCloses := s.startedCloses + 1, panicked := s.startedCloses > 0)
    case CloseEnded => s.(monitor := AwaitingFlushed, endedCloses := s.endedCloses + 1, panicked := s.endedCloses > 0)
    case SeeFlushed => s.(monitor := Returned)
    case ReceiveClosed => s.(streamer := Listing(false))
    case Listed(events) =>
      s.(
        emitted := s.emitted + Kept(events, s.earliest),
        listings := s.listings + 1,
        streamer := if s.streamer.ok then Opening else ClosingFlushed)
    case OpenFailed => s.(streamer := ClosingFlushed)
    case Opened => s.(streamer := Looping)
    case GotEvent(None) => s
    case GotEvent(Some(event)) => s.(emitted := s.emitted + Kept([event], s.earliest))
    case SeeEnded => s.(streamer := ClosingFlushed)
    case CloseFlushed => s.(streamer := Finished, flushedCloses := s.flushedCloses + 1, panicked := s.flushedCloses > 0)
  }

  // ----- Runs -----

  predicate IsRun(s: State, labels: seq<Label>)
    decreases |labels|
  {
    labels == [] || (Enabled(s, labels[0]) && IsRun(Apply(s, labels[0]), labels[1..]))
  }

  function End(s: State, labels: seq<Label>): State
    requires IsRun(s, labels)
    decreases |labels|
  {
    if labels == [] then s else End(Apply(s, labels[0]), labels[1..])
  }

  predicate Deciding(m: Monitor) {
    m.Polling? || m.Sending? || m.Checking? || m.Sleeping?
  }

  /** What every step keeps; `now` is when the event stream began. */
  predicate Inv(s: State, now: nat) {
    Protocol(s) && Logged(s, now)
  }

  predicate Protocol(s: State) {
    && !s.panicked
    && s.startedCloses == (if s.monitor in {ClosingEnded, AwaitingFlushed, Returned} then 1 else 0)
    && s.endedCloses == (if s.monitor in {AwaitingFlushed, Returned} then 1 else 0)
    && s.flushedCloses == (if s.streamer == Finished then 1 else 0)
    && |s.sends| == (if s.initialized && !s.monitor.Sending? then 1 else 0)
    && (s.monitor.Sending? ==> s.initialized && s.streamer == Receiving)
    && (s.sends != [] ==> s.streamer != Receiving && s.streamer != Listing(false))
    && (s.sends == [] ==> s.streamer !in {Listing(true), Opening, Looping})
    && (s.sends == [] && s.streamer != Receiving ==> s.startedCloses == 1)
    && (s.monitor == Returned ==> s.streamer == Finished)
    && (s.verdict == None <==> Deciding(s.monitor))
    && s.listings == (if s.streamer == Receiving || s.streamer.Listing? then 0 else 1)
  }

  predicate Logged(s: State, now: nat) {
    && s.earliest == (if s.sends != [] && s.sends[0].Some? then s.sends[0].value else now)
    && (s.streamer == Receiving ==> s.emitted == [])
    && forall e <- s.emitted :: e.tracked && e.at >= s.earliest
  }

  lemma {:induction false} KeptIsRecent(events: seq<Event>, earliest: nat)
    ensures forall e <- Kept(events, earliest) :: e in events && e.tracked && e.at >= earliest
  {
    if events != [] {
      KeptIsRecent(events[1..], earliest);
    }
  }

  lemma StepKeepsProtocol(s: State, l: Label)
    requires Protocol(s) && Enabled(s, l)
    ensures Protocol(Apply(s, l))
  {
    hide Kept;
  }

  lemma StepKeepsLogged(s: State, l: Label, now: nat)
    requires Protocol(s) && Logged(s, now) && Enabled(s, l)
    ensures Logged(Apply(s, l), now)
  {
    match l {
      case Listed(events) => KeptIsRecent(events, s.earliest);
      case GotEvent(Some(event)) => KeptIsRecent([event], s.earliest);
      case _ =>
    }
    hide Kept;
  }

  lemma StepKeepsInv(s: State, l: Label, now: nat)
    requires Inv(s, now) && Enabled(s, l)
    ensures Inv(Apply(s, l), now)
  {
    StepKeepsProtocol(s, l);
    StepKeepsLogged(s, l, now);
    hide Protocol, Logged, Enabled, Apply;
  }

  lemma {:induction false} RunKeepsInv(s: State, labels: seq<Label>, now: nat)
    requires Inv(s, now) && IsRun(s, labels)
    ensures Inv(End(s, labels), now)
    decreases |labels|
  {
    hide Inv, Enabled, Apply;
    if labels != [] {
      StepKeepsInv(s, labels[0], now);
      RunKeepsInv(Apply(s, labels[0]), labels[1..], now);
    }
  }

  // ----- What holds in every run -----

  /**
    In every interleaving: nothing is sent on a closed channel and no channel is closed twice,
    `started` carries at most one value and is closed before `ended`, the monitor never waits to
    send to a streamer that has gone, and no untracked event and no event older than the start that
    was sent is logged.
  */
  lemma ChannelsAreSafe(generation: int, now: nat, labels: seq<Label>)
    requires IsRun(Start(generation, now), labels)
    ensures var s := End(Start(generation, now), labels);
            && !s.panicked && |s.sends| <= 1
            && s.endedCloses <= s.startedCloses <= 1 && s.flushedCloses <= 1
            && (s.monitor.Sending? ==> Enabled(s, Rendezvous)) && !Enabled(s, SendOnClosed)
            && (Enabled(s, CloseStarted) ==> s.startedCloses == 0) && (Enabled(s, CloseEnded) ==> s.endedCloses == 0)
            && (Enabled(s, CloseFlushed) ==> s.flushedCloses == 0)
            && (forall e <- s.emitted :: e.tracked)
            && (s.sends != [] && s.sends[0].Some? ==> forall e <- s.emitted :: e.at >= s.sends[0].value)
  {
    RunKeepsInv(Start(generation, now), labels, now);
  }

  /**
    `Watch` returns only after `streamEvents` has: every channel has then been closed exactly once,
    and the events that already existed were listed exactly once, whether or not the deployment
    was ever found.
  */
  lemma ReturnsLast(generation: int, now: nat, labels: seq<Label>)
    requires IsRun(Start(generation, now), labels)
    ensures var s := End(Start(generation, now), labels);
            s.monitor == Returned
            ==> && s.streamer == Finished && s.verdict.Some? && s.listings == 1
                && s.startedCloses == s.endedCloses == s.flushedCloses == 1
  {
    RunKeepsInv(Start(generation, now), labels, now);
  }

  predicate Final(s: State) {
    s.monitor == Returned && s.streamer == Finished
  }

  /** No deadlock: in every state a run reaches, some goroutine can step until both have returned. */
  lemma NeverStuck(generation: int, now: nat, labels: seq<Label>)
    requires IsRun(Start(generation, now), labels)
    ensures var s := End(Start(generation, now), labels); Final(s) || exists l :: Enabled(s, l)
  {
    var s := End(Start(generation, now), labels);
    RunKeepsInv(Start(generation, now), labels, now);
    var next := match s.monitor
      case Polling => PollAnswered(None, None)
      case Sending(_, _) => Rendezvous
      case Checking => Checked(None, "")
      case Sleeping => Slept
      case ClosingStarted => CloseStarted
      case ClosingEnded => CloseEnded
      case _ =>
        match s.streamer
        case Receiving => ReceiveClosed
        case Listing(_) => Listed([])
        case Opening => OpenFailed
        case Looping => SeeEnded
        case ClosingFlushed => CloseFlushed
        case Finished => SeeFlushed;
    assert Final(s) || Enabled(s, next);
  }

  /** How many steps are left once the monitor has decided, events aside. */
  function StepsLeft(s: State): nat {
    (match s.monitor
     case ClosingStarted => 3
     case ClosingEnded => 2
     case AwaitingFlushed => 1
     case _ => 0)
    + match s.streamer
      case Receiving => 5
      case Listing(_) => 4
      case Opening => 3
      case Looping => 2
      case ClosingFlushed => 1
      case Finished => 0
  }

  function Events(labels: seq<Label>): nat {
    if labels == [] then 0 else (if labels[0].GotEvent? then 1 else 0) + Events(labels[1..])
  }

  /**
    Once the monitor has decided, its verdict is what `Watch` returns, and the run ends: apart from
    the events that happen to be read before the close of `ended` is seen, at most eight steps are left.
  */
  lemma {:induction false} EndsAfterDecision(s: State, labels: seq<Label>, now: nat)
    requires Inv(s, now) && s.verdict.Some? && IsRun(s, labels)
    ensures End(s, labels).verdict == s.verdict
    ensures |labels| <= 8 + Events(labels)
    ensures |labels| <= StepsLeft(s) + Events(labels)
    decreases |labels|
  {
    if labels != [] {
      var next := Apply(s, labels[0]);
      StepKeepsInv(s, labels[0], now);
      DecidedStep(s, labels[0], now);
      hide Enabled, Apply;
      EndsAfterDecision(next, labels[1..], now);
    }
  }

  lemma DecidedStep(s: State, l: Label, now: nat)
    requires Inv(s, now) && s.verdict.Some? && Enabled(s, l)
    ensures Apply(s, l).verdict == s.verdict
    ensures StepsLeft(Apply(s, l)) <= StepsLeft(s) - if l.GotEvent? then 0 else 1
  {
  }
}
