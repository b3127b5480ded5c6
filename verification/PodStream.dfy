/**
  Streaming the logs of one pod (k8s/logs/pod_streamer.go, and the goroutines of
  k8s/logs/container_streamer.go it starts).

  The goroutines are `PodStreamer.Stream`, its fan-out, which waits for the stop and then stops each
  container, and one per container. `Stop` runs under a mutex and is one step here; its own steps are in
  `StopOnce`.
*/
module PodStream {
  import opened Totals

  // ----- One container -----

  datatype ContainerPc =
    | Idle
    | Opening
    | Selecting
    | Reading
    | FlushingStopped
    | FlushingEnded
    | StoppingSelf
    | Leaving
    | Ended

  datatype Container = Container(pc: ContainerPc, open: bool, closes: nat, flushes: nat)

  /** `OpenFailed` also stands for a streamer that could not be had. */
  datatype ContainerLabel = OpenFailed | Opened | Select | ReadLine | ReadEnded | FlushStep | StopSelf

  const IDLE := Container(Idle, false, 0, 0)

  predicate ContainerEnabled(c: Container, l: ContainerLabel) {
    match l
    case OpenFailed => c.pc == Opening
    case Opened => c.pc == Opening
    case Select => c.pc == Selecting
    case ReadLine => c.pc == Reading
    case ReadEnded => c.pc == Reading
    case FlushStep => c.pc == FlushingStopped || c.pc == FlushingEnded
    case StopSelf => c.pc == StoppingSelf
  }

  function StopContainer(c: Container): Container {
    if c.closes > 0 then c else c.(closes := 1)
  }

  function ContainerStep(c: Container, l: ContainerLabel): Container
    requires ContainerEnabled(c, l)
  {
    match l
    case OpenFailed => c.(pc := Leaving)
    case Opened => c.(pc := Selecting, open := true)
    case Select => c.(pc := if c.closes > 0 then FlushingStopped else Reading)
    case ReadLine => c.(pc := Selecting)
    case ReadEnded => c.(pc := FlushingEnded)
    case FlushStep => c.(flushes := c.flushes + 1, pc := if c.pc == FlushingStopped then Leaving else StoppingSelf)
    case StopSelf => StopContainer(c).(pc := Leaving)
  }

  /** What the steps of a container, and a stop from outside, keep. */
  predicate ContainerInv(c: Container) {
    && c.closes <= 1
    && (c.pc in {Idle, Opening} ==> !c.open)
    && (c.pc in {Selecting, Reading, FlushingStopped, FlushingEnded, StoppingSelf} ==> c.open)
    && c.flushes == (if c.open && c.pc in {StoppingSelf, Leaving, Ended} then 1 else 0)
    && (c.pc == FlushingStopped || (c.open && c.pc in {Leaving, Ended}) ==> c.closes == 1)
  }

  function Busy(c: Container): nat {
    if c.pc in {Idle, Ended} then 0 else 1
  }

  /** Steps left once the container is stopped. */
  function ContainerLeft(c: Container): nat {
    match c.pc
    case Idle => 7
    case Opening => 7
    case Reading => 6
    case Selecting => 5
    case FlushingStopped => 4
    case FlushingEnded => 4
    case StoppingSelf => 3
    case Leaving => 2
    case Ended => 0
  }

  // ----- One pod -----

  /** `Created` and `Counted` come before the goroutine starts, `Leaving` and `Finished` after its stop. */
  datatype PodPc = Created | Counted | Launching(next: nat) | Waiting | Stopping | LeavingPod | Finished

  /** The fan-out: not started, waiting for the stop, or about to stop container `next`. */
  datatype FanPc = NotStarted | AwaitingStop | StoppingNext(next: nat)

  /** `busy` is the counter of the pod's own WaitGroup. */
  datatype Pod = Pod(name: string, pc: PodPc, closes: nat, fan: FanPc, containers: seq<Container>, busy: int)

  datatype PodLabel =
    | Start
    | Launch
    | Launched
    | ContainersDone
    | StopPodSelf
    | SeeStop
    | StopNext
    | InContainer(index: nat, step: ContainerLabel)
    | ContainerDone(index: nat)

  function NewPod(name: string, size: nat): Pod {
    Pod(name, Created, 0, NotStarted, seq(size, i => IDLE), 0)
  }

  predicate PodEnabled(p: Pod, l: PodLabel) {
    match l
    case Start => p.pc == Counted
    case Launch => p.pc.Launching? && p.pc.next < |p.containers|
    case Launched => p.pc.Launching? && p.pc.next >= |p.containers|
    case ContainersDone => p.pc == Waiting && p.busy == 0
    case StopPodSelf => p.pc == Stopping
    case SeeStop => p.fan == AwaitingStop && p.closes > 0
    case StopNext => p.fan.StoppingNext? && p.fan.next < |p.containers|
    case InContainer(i, step) => i < |p.containers| && ContainerEnabled(p.containers[i], step)
    case ContainerDone(i) => i < |p.containers| && p.containers[i].pc == Leaving
  }

  function StopPod(p: Pod): Pod {
    if p.closes > 0 then p else p.(closes := 1)
  }

  function PodStep(p: Pod, l: PodLabel): Pod
    requires PodEnabled(p, l)
  {
    match l
    case Start => p.(pc := Launching(0), fan := AwaitingStop)
    case Launch =>
      var i := p.pc.next;
      p.(pc := Launching(i + 1), busy := p.busy + 1, containers := p.containers[i := p.containers[i].(pc := Opening)])
    case Launched => p.(pc := Waiting)
    case ContainersDone => p.(pc := Stopping)
    case StopPodSelf => StopPod(p).(pc := LeavingPod)
    case SeeStop => p.(fan := StoppingNext(0))
    case StopNext =>
      var i := p.fan.next;
      p.(fan := StoppingNext(i + 1), containers := p.containers[i := StopContainer(p.containers[i])])
    case InContainer(i, step) => p.(containers := p.containers[i := ContainerStep(p.containers[i], step)])
    case ContainerDone(i) => p.(busy := p.busy - 1, containers := p.containers[i := p.containers[i].(pc := Ended)])
  }

  /** Containers are started in order, and all of them before the pod waits for them. */
  predicate StartedInOrder(p: Pod) {
    var started := match p.pc case Created => 0 case Counted => 0 case Launching(next) => next case _ => |p.containers|;
    && started <= |p.containers|
    && (forall i | 0 <= i < |p.containers| :: p.containers[i].pc == Idle <==> i >= started)
  }

  predicate Stops(p: Pod) {
    && p.closes <= 1
    && (p.pc in {LeavingPod, Finished} ==> p.closes == 1)
    && (p.fan == NotStarted <==> p.pc in {Created, Counted})
    && (p.fan.StoppingNext? ==> p.closes == 1 && p.fan.next <= |p.containers|)
    && (p.fan.StoppingNext? ==> forall i | 0 <= i < p.fan.next :: p.containers[i].closes == 1)
    && forall i | 0 <= i < |p.containers| :: ContainerInv(p.containers[i])
  }

  predicate Counts(p: Pod) {
    && p.busy == Total(p.containers, Busy)
    && (p.pc in {Stopping, LeavingPod, Finished} ==> p.busy == 0)
  }

  predicate PodInv(p: Pod) {
    StartedInOrder(p) && Stops(p) && Counts(p)
  }

  lemma ContainerKeepsInv(c: Container, l: ContainerLabel)
    requires ContainerInv(c) && ContainerEnabled(c, l)
    ensures ContainerInv(ContainerStep(c, l)) && Busy(ContainerStep(c, l)) == Busy(c) == 1
    ensures ContainerStep(c, l).closes >= c.closes && ContainerStep(c, l).pc != Idle
    ensures c.closes > 0 ==> ContainerLeft(ContainerStep(c, l)) < ContainerLeft(c)
  {
  }

  // ----- Every step keeps the invariant -----

  lemma StepKeepsOrder(p: Pod, l: PodLabel)
    requires PodInv(p) && PodEnabled(p, l)
    ensures StartedInOrder(PodStep(p, l))
  {
    if l.InContainer? {
      ContainerKeepsInv(p.containers[l.index], l.step);
    }
    hide ContainerInv, ContainerStep, ContainerEnabled, Total;
  }

  lemma StepKeepsStops(p: Pod, l: PodLabel)
    requires PodInv(p) && PodEnabled(p, l)
    ensures Stops(PodStep(p, l))
  {
    if l.InContainer? {
      ContainerKeepsInv(p.containers[l.index], l.step);
    }
    hide Total, Counts;
  }

  lemma StepKeepsCounts(p: Pod, l: PodLabel)
    requires PodInv(p) && PodEnabled(p, l)
    ensures Counts(PodStep(p, l))
  {
    var next := PodStep(p, l);
    match l {
      case Launch => TotalUpdated(p.containers, p.pc.next, next.containers[p.pc.next], Busy);
      case StopNext => TotalUpdated(p.containers, p.fan.next, next.containers[p.fan.next], Busy);
      case InContainer(i, step) =>
        ContainerKeepsInv(p.containers[i], step);
        TotalUpdated(p.containers, i, next.containers[i], Busy);
      case ContainerDone(i) => TotalUpdated(p.containers, i, next.containers[i], Busy);
      case _ =>
    }
  }

  lemma StepKeepsPod(p: Pod, l: PodLabel)
    requires PodInv(p) && PodEnabled(p, l)
    ensures PodInv(PodStep(p, l))
  {
    StepKeepsOrder(p, l);
    StepKeepsStops(p, l);
    StepKeepsCounts(p, l);
  }

  // ----- What a pod's stream does -----

  /**
    When the pod's stream has returned, each of its containers has: a container whose follow stream
    opened has flushed exactly once and is stopped, the others have not flushed.
  */
  lemma FinishedPodFlushed(p: Pod)
    requires PodInv(p) && p.pc in {LeavingPod, Finished}
    ensures p.closes == 1
    ensures forall i | 0 <= i < |p.containers| ::
              var c := p.containers[i];
              c.pc == Ended && c.flushes == (if c.open then 1 else 0) && (c.open ==> c.closes == 1)
  {
    TotalZero(p.containers, Busy);
    forall i | 0 <= i < |p.containers|
      ensures p.containers[i].pc == Ended
    {
      assert Busy(p.containers[i]) == 0;
    }
  }

  /** A container is stopped exactly by the fan-out or by itself, so with the fan-out done all of them are. */
  predicate FannedOut(p: Pod) {
    p.fan == StoppingNext(|p.containers|)
  }

  /** A step a busy container can take unless it is leaving. */
  function NextOf(pc: ContainerPc): ContainerLabel {
    match pc
    case Opening => OpenFailed
    case Selecting => Select
    case Reading => ReadEnded
    case StoppingSelf => StopSelf
    case _ => FlushStep
  }

  /** A stopped pod whose goroutine was started is never stuck, and its fan-out can always go on. */
  lemma StoppedPodCanStep(p: Pod)
    requires PodInv(p) && p.closes == 1 && p.pc != Created
    ensures p.pc in {LeavingPod, Finished} || exists l :: PodEnabled(p, l)
    ensures p.pc == Counted || FannedOut(p) || PodEnabled(p, SeeStop) || PodEnabled(p, StopNext)
  {
    if p.pc == Waiting && p.busy > 0 {
      TotalZero(p.containers, Busy);
      var i: nat :| i < |p.containers| && Busy(p.containers[i]) != 0;
      assert PodEnabled(p, ContainerDone(i)) || PodEnabled(p, InContainer(i, NextOf(p.containers[i].pc)));
    } else if p.pc !in {LeavingPod, Finished} {
      var l := match p.pc
        case Counted => Start
        case Launching(next) => if next < |p.containers| then Launch else Launched
        case Waiting => ContainersDone
        case _ => StopPodSelf;
      assert PodEnabled(p, l);
    }
  }

  /** Steps left of the pod and its containers once all of them are stopped. */
  function PodLeft(p: Pod): nat {
    Total(p.containers, ContainerLeft)
    + match p.pc
      case Created => |p.containers| + 6
      case Counted => |p.containers| + 5
      case Launching(next) => (if next < |p.containers| then |p.containers| - next else 0) + 4
      case Waiting => 3
      case Stopping => 2
      case LeavingPod => 1
      case Finished => 0
  }

  /** Every step of a pod whose fan-out is done brings its end nearer. */
  lemma FannedOutPodEnds(p: Pod, l: PodLabel)
    requires PodInv(p) && FannedOut(p) && PodEnabled(p, l)
    ensures FannedOut(PodStep(p, l)) && PodLeft(PodStep(p, l)) < PodLeft(p)
  {
    var next := PodStep(p, l);
    match l {
      case Launch => TotalUpdated(p.containers, p.pc.next, next.containers[p.pc.next], ContainerLeft);
      case InContainer(i, step) =>
        ContainerKeepsInv(p.containers[i], step);
        TotalUpdated(p.containers, i, next.containers[i], ContainerLeft);
      case ContainerDone(i) => TotalUpdated(p.containers, i, next.containers[i], ContainerLeft);
      case _ =>
    }
  }
}
