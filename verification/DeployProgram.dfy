/**
  What the two goroutines of a watch can do next, told from what happened before (k8s/deploy_watcher.go):
  the labels of a run, not its states.
*/
module DeployProgram {
  import opened Text
  import opened DeployWatch
  import opened DeployVerdicts

  /** The last label of this kind. */
  function Last(labels: seq<Label>, kind: Label -> bool): (last: Option<Label>)
    ensures last.Some? ==> kind(last.value) && last.value in labels
    ensures last.None? ==> forall l <- labels :: !kind(l)
  {
    if labels == [] then None
    else var n := |labels| - 1; if kind(labels[n]) then Some(labels[n]) else Last(labels[..n], kind)
  }

  function Next(last: Option<Label>, l: Label, kind: Label -> bool): Option<Label> {
    if kind(l) then Some(l) else last
  }

  lemma LastNext(labels: seq<Label>, l: Label, kind: Label -> bool)
    ensures Last(labels + [l], kind) == Next(Last(labels, kind), l, kind)
  {
    assert (labels + [l])[..|labels|] == labels;
  }

  /** How often the deployment was found. */
  function Finds(labels: seq<Label>): nat {
    if labels == [] then 0 else var n := |labels| - 1; Finds(labels[..n]) + if Found(labels[n]) then 1 else 0
  }

  predicate OfMonitor(l: Label) {
    || l.PollFailed? || l.PollAnswered? || l.Rendezvous? || l.Checked? || l.Slept? || l.ContextEnded? || l.CloseStarted?
    || l.CloseEnded? || l.SeeFlushed?
  }

  predicate OfStreamer(l: Label) {
    || l.Rendezvous? || l.ReceiveClosed? || l.Listed? || l.OpenFailed? || l.Opened? || l.GotEvent? || l.SeeEnded?
    || l.CloseFlushed?
  }

  /** The only answer so far that found the deployment. */
  predicate FirstFound(last: Option<Label>, finds: nat) {
    last.Some? && Found(last.value) && finds == 1
  }

  predicate Answered(last: Option<Label>) {
    last.Some? && last.value.PollAnswered?
  }

  predicate InProgressAt(last: Option<Label>) {
    last.Some? && last.value.Checked? && last.value.status == Some(InProgress)
  }

  predicate Closes(l: Label) {
    l.CloseStarted? || l.CloseEnded? || l.SeeFlushed?
  }

  // ----- What the labels say of the monitor -----

  predicate AtMonitor(s: State, last: Option<Label>, finds: nat) {
    && (s.initialized <==> finds > 0)
    && match s.monitor
       case Polling => last == None || last == Some(Slept)
       case Sending(_, _) => FirstFound(last, finds)
       case Checking => last == Some(Rendezvous) || (Answered(last) && !FirstFound(last, finds))
       case Sleeping => InProgressAt(last)
       case ClosingStarted =>
         last.Some? && !Closes(last.value) && last != Some(Slept) && !FirstFound(last, finds) && !InProgressAt(last)
       case ClosingEnded => last == Some(CloseStarted)
       case AwaitingFlushed => last == Some(CloseEnded)
       case Returned => last == Some(SeeFlushed)
  }

  lemma MonitorStep(s: State, l: Label, last: Option<Label>, finds: nat)
    requires Protocol(s) && AtMonitor(s, last, finds) && Enabled(s, l)
    ensures AtMonitor(Apply(s, l), Next(last, l, OfMonitor), finds + if Found(l) then 1 else 0)
  {
    hide Kept;
  }

  // ----- What the labels say of the streamer -----

  predicate AtStreamer(s: State, last: Option<Label>) {
    match s.streamer
    case Receiving => last == None
    case Listing(ok) => last == Some(if ok then Rendezvous else ReceiveClosed)
    case Opening => last.Some? && last.value.Listed? && s.sends != []
    case Looping => last.Some? && (last.value.Opened? || last.value.GotEvent?)
    case ClosingFlushed =>
      last.Some? && (last.value.SeeEnded? || last.value.OpenFailed? || (last.value.Listed? && s.sends == []))
    case Finished => last == Some(CloseFlushed)
  }

  lemma StreamerStep(s: State, l: Label, last: Option<Label>)
    requires Protocol(s) && AtStreamer(s, last) && Enabled(s, l)
    ensures AtStreamer(Apply(s, l), Next(last, l, OfStreamer))
  {
    hide Kept;
  }

  // ----- What the labels say of the channels -----

  predicate Channels(s: State, labels: seq<Label>) {
    && (s.sends != [] <==> Rendezvous in labels)
    && (s.startedCloses > 0 <==> CloseStarted in labels)
    && (s.endedCloses > 0 <==> CloseEnded in labels)
    && (s.flushedCloses > 0 <==> CloseFlushed in labels)
  }

  lemma ChannelStep(s: State, labels: seq<Label>, l: Label)
    requires Channels(s, labels) && Enabled(s, l)
    ensures Channels(Apply(s, l), labels + [l])
  {
    hide Kept;
  }

  // ----- Runs -----

  predicate Placed(s: State, labels: seq<Label>) {
    && AtMonitor(s, Last(labels, OfMonitor), Finds(labels)) && AtStreamer(s, Last(labels, OfStreamer))
    && Channels(s, labels)
  }

  lemma StepPlaced(s: State, labels: seq<Label>, l: Label)
    requires Protocol(s) && Placed(s, labels) && Enabled(s, l)
    ensures Placed(Apply(s, l), labels + [l])
  {
    assert (labels + [l])[..|labels|] == labels;
    assert Finds(labels + [l]) == Finds(labels) + if Found(l) then 1 else 0;
    hide Apply, Enabled, AtMonitor, AtStreamer, Channels, Protocol, Last, Next, Finds, Found;
    LastNext(labels, l, OfMonitor);
    LastNext(labels, l, OfStreamer);
    MonitorStep(s, l, Last(labels, OfMonitor), Finds(labels));
    StreamerStep(s, l, Last(labels, OfStreamer));
    ChannelStep(s, labels, l);
  }

  lemma {:induction false} RunPlaced(generation: int, now: nat, labels: seq<Label>)
    requires IsRun(Start(generation, now), labels)
    ensures Placed(End(Start(generation, now), labels), labels) && Protocol(End(Start(generation, now), labels))
    decreases |labels|
  {
    hide Apply, Enabled, AtMonitor, AtStreamer, Channels, Protocol, Last, Finds, Logged;
    RunKeepsInv(Start(generation, now), labels, now) by { StartsWell(generation, now); }
    if labels == [] {
      StartPlaced(generation, now);
    } else {
      var n := |labels| - 1;
      RunToLast(Start(generation, now), labels);
      hide IsRun, End;
      RunPlaced(generation, now, labels[..n]);
      StepPlaced(End(Start(generation, now), labels[..n]), labels[..n], labels[n]);
      assert labels[..n] + [labels[n]] == labels;
    }
  }

  lemma StartsWell(generation: int, now: nat)
    ensures Inv(Start(generation, now), now)
  {
  }

  lemma StartPlaced(generation: int, now: nat)
    ensures Placed(Start(generation, now), [])
  {
  }

  // ----- The laws -----

  ghost predicate Decided(generation: int, labels: seq<Label>) {
    exists i: nat :: IsFirst(generation, labels, i)
  }

  lemma RoundsAt(s: State, last: Option<Label>, finds: nat, l: Label)
    requires Protocol(s) && AtMonitor(s, last, finds)
    ensures l.PollFailed? || l.PollAnswered? ==> (Enabled(s, l) <==> last == None || last == Some(Slept))
    ensures l.Rendezvous? ==> (Enabled(s, l) <==> FirstFound(last, finds))
    ensures l.Checked? ==>
              (Enabled(s, l) <==>
               s.verdict == None && (last == Some(Rendezvous) || (Answered(last) && !FirstFound(last, finds))))
    ensures l.Slept? || l.ContextEnded? ==>
              (Enabled(s, l) <==> InProgressAt(last))
  {
  }

  lemma ClosesAt(s: State, last: Option<Label>, finds: nat, labels: seq<Label>)
    requires Protocol(s) && AtMonitor(s, last, finds) && Channels(s, labels)
    ensures Enabled(s, CloseStarted) <==> s.verdict.Some? && last.Some? && !Closes(last.value)
    ensures Enabled(s, CloseEnded) <==> last == Some(CloseStarted)
    ensures Enabled(s, SeeFlushed) <==> last == Some(CloseEnded) && CloseFlushed in labels
  {
  }

  lemma StreamerAt(s: State, last: Option<Label>, labels: seq<Label>, l: Label)
    requires Protocol(s) && AtStreamer(s, last) && Channels(s, labels)
    ensures Enabled(s, ReceiveClosed) <==> last == None && CloseStarted in labels
    ensures l.Listed? ==> (Enabled(s, l) <==> last == Some(Rendezvous) || last == Some(ReceiveClosed))
    ensures l.Opened? || l.OpenFailed? ==> (Enabled(s, l) <==> last.Some? && last.value.Listed? && Rendezvous in labels)
    ensures l.GotEvent? ==> (Enabled(s, l) <==> last.Some? && (last.value.Opened? || last.value.GotEvent?))
    ensures Enabled(s, SeeEnded) <==> last.Some? && (last.value.Opened? || last.value.GotEvent?) && CloseEnded in labels
    ensures Enabled(s, CloseFlushed) <==>
            && last.Some?
            && (last.value.SeeEnded? || last.value.OpenFailed? || (last.value.Listed? && Rendezvous !in labels))
  {
  }

  /**
    The rounds of the monitor: it polls first and after each sleep, sends the first deployment found before
    it checks, checks after every other answer unless that decided, and sleeps exactly if the rollout is in
    progress.
  */
  lemma MonitorRounds(generation: int, now: nat, labels: seq<Label>, l: Label)
    requires IsRun(Start(generation, now), labels)
    ensures var s := End(Start(generation, now), labels); var last := Last(labels, OfMonitor);
            && (l.PollFailed? || l.PollAnswered? ==> (Enabled(s, l) <==> last == None || last == Some(Slept)))
            && (l.Rendezvous? ==> (Enabled(s, l) <==> FirstFound(last, Finds(labels))))
            && (l.Checked? ==>
                  (Enabled(s, l) <==>
                   && !Decided(generation, labels)
                   && (last == Some(Rendezvous) || (Answered(last) && !FirstFound(last, Finds(labels))))))
            && (l.Slept? || l.ContextEnded? ==>
                  (Enabled(s, l) <==> InProgressAt(last)))
  {
    RunPlaced(generation, now, labels);
    DecidedByFirst(generation, now, labels, 0);
    RoundsAt(End(Start(generation, now), labels), Last(labels, OfMonitor), Finds(labels), l);
    hide IsRun, End, IsFirst, Last, Finds, Means, Enabled, Protocol, AtMonitor, AtStreamer, Channels, Start;
  }

  /** Once it is decided, the monitor closes `started`, then `ended`, and waits until `flushed` is closed. */
  lemma MonitorCloses(generation: int, now: nat, labels: seq<Label>)
    requires IsRun(Start(generation, now), labels)
    ensures var s := End(Start(generation, now), labels); var last := Last(labels, OfMonitor);
            && (Enabled(s, CloseStarted) <==> Decided(generation, labels) && last.Some? && !Closes(last.value))
            && (Enabled(s, CloseEnded) <==> last == Some(CloseStarted))
            && (Enabled(s, SeeFlushed) <==> last == Some(CloseEnded) && CloseFlushed in labels)
  {
    RunPlaced(generation, now, labels);
    DecidedByFirst(generation, now, labels, 0);
    ClosesAt(End(Start(generation, now), labels), Last(labels, OfMonitor), Finds(labels), labels);
    hide IsRun, End, IsFirst, Last, Finds, Means, Enabled, Protocol, AtMonitor, AtStreamer, Channels, Start;
  }

  /**
    The event stream: it receives the start or sees `started` closed, lists, and opens a watch only if it
    received the start. It reads events until it sees `ended` closed, and closes `flushed` last.
  */
  lemma StreamerSteps(generation: int, now: nat, labels: seq<Label>, l: Label)
    requires IsRun(Start(generation, now), labels)
    ensures var s := End(Start(generation, now), labels); var last := Last(labels, OfStreamer);
            && (Enabled(s, ReceiveClosed) <==> last == None && CloseStarted in labels)
            && (l.Listed? ==> (Enabled(s, l) <==> last == Some(Rendezvous) || last == Some(ReceiveClosed)))
            && (l.Opened? || l.OpenFailed? ==>
                  (Enabled(s, l) <==> last.Some? && last.value.Listed? && Rendezvous in labels))
            && (l.GotEvent? ==> (Enabled(s, l) <==> last.Some? && (last.value.Opened? || last.value.GotEvent?)))
            && (Enabled(s, SeeEnded) <==>
                last.Some? && (last.value.Opened? || last.value.GotEvent?) && CloseEnded in labels)
            && (Enabled(s, CloseFlushed) <==>
                && last.Some?
                && (last.value.SeeEnded? || last.value.OpenFailed? || (last.value.Listed? && Rendezvous !in labels)))
  {
    RunPlaced(generation, now, labels);
    StreamerAt(End(Start(generation, now), labels), Last(labels, OfStreamer), labels, l);
    hide IsRun, End, Last, Enabled, Protocol, AtMonitor, AtStreamer, Channels, Start;
  }
}
