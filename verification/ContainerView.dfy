/**
  The container that a pod starts (`PodStream`) and the goroutines of its stream (`ContainerRun`) are one
  thing seen twice: what a pod sees of a container's run are the steps of its container.
*/
module ContainerView {
  import PodStream
  import opened ContainerRun

  /** Where the pod's container is; a flush is done for it when the call returned. */
  function ViewPc(s: State): PodStream.ContainerPc {
    match s.main
    case Selecting => PodStream.Selecting
    case Following => PodStream.Reading
    case AtStop => PodStream.FlushingStopped
    case AtEnd => PodStream.FlushingEnded
    case StoppingSelf => PodStream.StoppingSelf
    case ClosingFollow => PodStream.Leaving
    case ClosingWriter => PodStream.Leaving
    case Returned => PodStream.Leaving
    case _ => if s.ended then PodStream.FlushingEnded else PodStream.FlushingStopped
  }

  function View(s: State): PodStream.Container {
    PodStream.Container(ViewPc(s), true, s.closes, if AfterFlush(s.main) then 1 else 0)
  }

  /** What the pod sees of a step: one of the container's, a stop, or nothing. */
  datatype Seen = Nothing | Stop | Step(step: PodStream.ContainerLabel)

  function SeenOf(c: Input, l: Label): Seen {
    match l
    case InMain(Select) => Step(PodStream.Select)
    case InMain(FollowLine) => Step(PodStream.ReadLine)
    case InMain(FollowEnds) => Step(PodStream.ReadEnded)
    case InMain(BeginFlush) => if c.timeoutSet then Nothing else Step(PodStream.FlushStep)
    case InMain(OpenFlush(ok)) => if ok then Nothing else Step(PodStream.FlushStep)
    case InMain(LeaveContext) => Step(PodStream.FlushStep)
    case InMain(StopSelf) => Step(PodStream.StopSelf)
    case StopByOther => Stop
    case _ => Nothing
  }

  ghost predicate SeenSteps(c: PodStream.Container, seen: Seen, next: PodStream.Container) {
    match seen
    case Nothing => next == c
    case Stop => next == PodStream.StopContainer(c)
    case Step(l) => PodStream.ContainerEnabled(c, l) && next == PodStream.ContainerStep(c, l)
  }

  lemma MainSeen(c: Input, s: State, l: MainStep)
    requires MainInv(s) && MainEnabled(s, l)
    ensures SeenSteps(View(s), SeenOf(c, InMain(l)), View(MainApply(c, s, l)))
  {
    hide NoLine, FollowedLine, FollowedTail;
  }

  /** Every step of a container's goroutines is, for the pod, a step of its container, a stop, or none. */
  lemma StepSeen(c: Input, s: State, l: Label)
    requires MainInv(s) && Enabled(c, s, l)
    ensures SeenSteps(View(s), SeenOf(c, l), View(Apply(c, s, l)))
  {
    match l {
      case InMain(step) => MainSeen(c, s, step);
      case _ => hide MainInv, ReaderEnabled, ReaderApply, MainEnabled, MainApply;
    }
  }

  /** A container whose follow stream opens is at the start of such a run, stopped before or not. */
  lemma OpenedIsStart(c: Input, stopped: bool)
    ensures var opening := PodStream.Container(PodStream.Opening, false, if stopped then 1 else 0, 0);
            && PodStream.ContainerEnabled(opening, PodStream.Opened)
            && PodStream.ContainerStep(opening, PodStream.Opened)
               == View(if stopped then Apply(c, Start(c), StopByOther) else Start(c))
  {
  }

  /** One whose follow stream does not open only leaves: it can take no step, and never flushes. */
  lemma FailedOnlyLeaves(c: PodStream.Container)
    requires PodStream.ContainerInv(c) && c.pc == PodStream.Opening
    ensures PodStream.ContainerEnabled(c, PodStream.OpenFailed)
    ensures var t := PodStream.ContainerStep(c, PodStream.OpenFailed);
            && t.pc == PodStream.Leaving && !t.open && t.flushes == 0 && t.closes == c.closes
            && forall l :: !PodStream.ContainerEnabled(t, l)
  {
  }

  // ----- Runs -----

  function SeenAll(c: Input, labels: seq<Label>): seq<Seen> {
    if labels == [] then [] else [SeenOf(c, labels[0])] + SeenAll(c, labels[1..])
  }

  /** The pod's container takes these steps one after the other. */
  ghost predicate SeenRun(c: PodStream.Container, seen: seq<Seen>, end: PodStream.Container)
    decreases |seen|
  {
    if seen == [] then c == end
    else exists next :: SeenSteps(c, seen[0], next) && SeenRun(next, seen[1..], end)
  }

  /**
    Every run of a container's goroutines is a run of the pod's container: it reads lines until a stop is
    seen or the stream ends, flushes, stops itself if it was not stopped, and leaves.
  */
  lemma {:induction false} RunSeen(c: Input, s: State, labels: seq<Label>)
    requires Inv(c, s) && IsRun(c, s, labels)
    ensures SeenRun(View(s), SeenAll(c, labels), View(End(c, s, labels)))
    decreases |labels|
  {
    hide Inv, Enabled, Apply, View, SeenOf, SeenSteps;
    if labels != [] {
      StepKeepsInv(c, s, labels[0]);
      StepSeenInRun(c, s, labels[0]);
      var next := Apply(c, s, labels[0]);
      RunSeen(c, next, labels[1..]);
      assert SeenAll(c, labels)[1..] == SeenAll(c, labels[1..]);
    }
  }

  lemma StepSeenInRun(c: Input, s: State, l: Label)
    requires Inv(c, s) && Enabled(c, s, l)
    ensures SeenSteps(View(s), SeenOf(c, l), View(Apply(c, s, l)))
  {
    StepSeen(c, s, l);
    hide SeenSteps, View, Apply, Enabled, SeenOf;
  }

  /** Each thing the pod's container can do next is what the goroutines do, and the text decides what is read. */
  lemma ViewCanStep(c: Input, s: State)
    requires MainInv(s)
    ensures PodStream.ContainerEnabled(View(s), PodStream.Select) <==> Enabled(c, s, InMain(Select))
    ensures PodStream.ContainerEnabled(View(s), PodStream.StopSelf) <==> Enabled(c, s, InMain(StopSelf))
    ensures var reading := PodStream.ContainerEnabled(View(s), PodStream.ReadLine);
            && (PodStream.ContainerEnabled(View(s), PodStream.ReadEnded) <==> reading)
            && (reading && '\n' in s.follower.rest <==> Enabled(c, s, InMain(FollowLine)))
            && (reading && '\n' !in s.follower.rest <==> Enabled(c, s, InMain(FollowEnds)))
    ensures PodStream.ContainerEnabled(View(s), PodStream.FlushStep) <==>
            s.main == AtStop || s.main == AtEnd || s.main == OpeningFlush || InFlush(s.main)
  {
  }
}
