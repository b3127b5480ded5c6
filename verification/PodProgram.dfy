/**
  What the goroutine of a pod's stream and its fan-out do, and in which order (`Stream` of
  k8s/logs/pod_streamer.go): the steps of a run, not its states.
*/
module PodProgram {
  import opened PodStream
  import opened Totals

  /** A step of the pod's goroutines, or a stop by another. */
  datatype Event = Taken(step: PodLabel) | StoppedByOther

  predicate CanHappen(p: Pod, e: Event) {
    e.Taken? ==> PodEnabled(p, e.step)
  }

  function Happen(p: Pod, e: Event): Pod
    requires CanHappen(p, e)
  {
    match e
    case Taken(step) => PodStep(p, step)
    case StoppedByOther => StopPod(p)
  }

  /** The run happens, and ends here. */
  ghost predicate Runs(p: Pod, events: seq<Event>, end: Pod)
    decreases |events|
  {
    if events == [] then p == end
    else
      var n := |events| - 1;
      exists last :: Runs(p, events[..n], last) && CanHappen(last, events[n]) && end == Happen(last, events[n])
  }

  /** A pod whose goroutine is about to be started. */
  function NewlyCounted(name: string, size: nat): Pod {
    NewPod(name, size).(pc := Counted)
  }

  // ----- The two programs -----

  /** Steps of the pod's own goroutine. */
  predicate OfPod(l: PodLabel) {
    l.Start? || l.Launch? || l.Launched? || l.ContainersDone? || l.StopPodSelf?
  }

  /** Steps of its fan-out. */
  predicate OfFan(l: PodLabel) {
    l.SeeStop? || l.StopNext?
  }

  function Of(events: seq<Event>, kind: PodLabel -> bool): seq<PodLabel> {
    if events == [] then []
    else
      var n := |events| - 1;
      Of(events[..n], kind) + if events[n].Taken? && kind(events[n].step) then [events[n].step] else []
  }

  function Times(l: PodLabel, count: nat): seq<PodLabel> {
    seq(count, i => l)
  }

  /** The goroutine: it starts the fan-out, launches each container, waits for them and stops itself. */
  function PodSteps(size: nat): seq<PodLabel> {
    [Start] + Times(Launch, size) + [Launched, ContainersDone, StopPodSelf]
  }

  /** The fan-out: it waits for the stop, and stops each container. */
  function FanSteps(size: nat): seq<PodLabel> {
    [SeeStop] + Times(StopNext, size)
  }

  /** After this many steps of its own. */
  predicate PodAt(p: Pod, size: nat, own: nat) {
    match p.pc
    case Created => false
    case Counted => own == 0
    case Launching(next) => own == next + 1 && next <= size
    case Waiting => own == size + 2
    case Stopping => own == size + 3
    case LeavingPod => own == size + 4
    case Finished => false
  }

  predicate FanAt(p: Pod, size: nat, own: nat) {
    match p.fan
    case NotStarted => own == 0 && p.pc == Counted
    case AwaitingStop => own == 0 && p.pc != Counted
    case StoppingNext(next) => own == next + 1 && next <= size && p.pc != Counted
  }

  ghost predicate OwnTold(p: Pod, size: nat, events: seq<Event>) {
    Of(events, OfPod) <= PodSteps(size) && PodAt(p, size, |Of(events, OfPod)|)
  }

  ghost predicate FanTold(p: Pod, size: nat, events: seq<Event>) {
    Of(events, OfFan) <= FanSteps(size) && FanAt(p, size, |Of(events, OfFan)|)
  }

  ghost predicate StopTold(p: Pod, events: seq<Event>) {
    p.closes > 0 <==> StoppedByOther in events || Taken(StopPodSelf) in events
  }

  /** What the events say of the pod. */
  ghost predicate Told(p: Pod, size: nat, events: seq<Event>) {
    |p.containers| == size && OwnTold(p, size, events) && FanTold(p, size, events) && StopTold(p, events)
  }

  lemma StepOwn(p: Pod, size: nat, events: seq<Event>, e: Event)
    requires |p.containers| == size && OwnTold(p, size, events) && CanHappen(p, e)
    ensures OwnTold(Happen(p, e), size, events + [e]) && |Happen(p, e).containers| == size
  {
    assert (events + [e])[..|events|] == events;
    hide ContainerStep, ContainerEnabled, StopContainer;
  }

  lemma StepFan(p: Pod, size: nat, events: seq<Event>, e: Event)
    requires |p.containers| == size && FanTold(p, size, events) && CanHappen(p, e)
    ensures FanTold(Happen(p, e), size, events + [e])
  {
    assert (events + [e])[..|events|] == events;
    hide ContainerStep, ContainerEnabled, StopContainer;
  }

  lemma StepStop(p: Pod, events: seq<Event>, e: Event)
    requires StopTold(p, events) && CanHappen(p, e)
    ensures StopTold(Happen(p, e), events + [e])
  {
    hide ContainerStep, ContainerEnabled, StopContainer;
  }

  lemma StepTold(p: Pod, size: nat, events: seq<Event>, e: Event)
    requires Told(p, size, events) && CanHappen(p, e)
    ensures Told(Happen(p, e), size, events + [e])
  {
    hide OwnTold, FanTold, StopTold, CanHappen, Happen;
    StepOwn(p, size, events, e);
    StepFan(p, size, events, e);
    StepStop(p, events, e);
  }

  lemma NewlyCountedKept(name: string, size: nat)
    ensures PodInv(NewlyCounted(name, size)) && Told(NewlyCounted(name, size), size, [])
  {
    TotalZero(NewlyCounted(name, size).containers, Busy);
  }

  lemma HappenKeeps(p: Pod, e: Event)
    requires PodInv(p) && CanHappen(p, e)
    ensures PodInv(Happen(p, e))
  {
    if e.Taken? {
      StepKeepsPod(p, e.step);
      hide PodInv, PodStep, PodEnabled;
    }
  }

  lemma {:induction false} RunTold(name: string, size: nat, events: seq<Event>, p: Pod)
    requires Runs(NewlyCounted(name, size), events, p)
    ensures PodInv(p) && Told(p, size, events)
    decreases |events|
  {
    hide PodInv, Told, CanHappen, Happen, NewlyCounted;
    if events == [] {
      NewlyCountedKept(name, size);
    } else {
      var n := |events| - 1;
      var last :| Runs(NewlyCounted(name, size), events[..n], last) && CanHappen(last, events[n])
                  && p == Happen(last, events[n]);
      RunTold(name, size, events[..n], last);
      HappenKeeps(last, events[n]);
      StepTold(last, size, events[..n], events[n]);
      assert events[..n] + [events[n]] == events;
    }
  }

  lemma AllEnded(p: Pod)
    requires PodInv(p) && p.pc == Waiting
    ensures p.busy == 0 <==> forall c <- p.containers :: c.pc == Ended
  {
    TotalZero(p.containers, Busy);
    assert forall i | 0 <= i < |p.containers| :: p.containers[i] in p.containers;
    hide Total, Stops;
  }

  // ----- The laws -----

  /**
    In every run, the goroutine and the fan-out each take the steps of their program, in its order. The
    goroutine can always take its next step, but for the wait, which ends exactly when all containers did.
  */
  lemma PodFollowsProgram(name: string, size: nat, events: seq<Event>, p: Pod)
    requires Runs(NewlyCounted(name, size), events, p)
    ensures var own := Of(events, OfPod);
            && own <= PodSteps(size) && |p.containers| == size
            && forall l | OfPod(l) :: PodEnabled(p, l) <==>
                                      && |own| < |PodSteps(size)| && l == PodSteps(size)[|own|]
                                      && (l == ContainersDone ==> forall c <- p.containers :: c.pc == Ended)
  {
    RunTold(name, size, events, p);
    if p.pc == Waiting {
      AllEnded(p);
    }
    hide Runs, Of, PodInv;
  }

  /** The fan-out starts with the goroutine, goes on once the pod is stopped, and stops each container in turn. */
  lemma FanFollowsProgram(name: string, size: nat, events: seq<Event>, p: Pod)
    requires Runs(NewlyCounted(name, size), events, p)
    ensures var fan := Of(events, OfFan);
            && fan <= FanSteps(size)
            && forall l | OfFan(l) :: PodEnabled(p, l) <==>
                                      && Of(events, OfPod) != []
                                      && |fan| < |FanSteps(size)| && l == FanSteps(size)[|fan|]
                                      && (l == SeeStop ==> StoppedByOther in events || Taken(StopPodSelf) in events)
    ensures forall i | 0 <= i < |p.containers| && i + 1 < |Of(events, OfFan)| :: p.containers[i].closes == 1
  {
    RunTold(name, size, events, p);
    hide Runs, Of, StartedInOrder, Counts;
  }
}
