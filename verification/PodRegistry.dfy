/**
  The pod streamers of a workload (`podStreamers` of k8s/logs/workload_streamer.go): any number of
  goroutines add and remove pods under one mutex and wait for the streamers, while the streamers run.

  `mu` is free, or says how far its holder has come. A label is one atomic step of one goroutine.
*/
module PodRegistry {
  import opened Totals
  import opened PodStream

  datatype Mutex =
    | Free
    | Adding(name: string, size: nat)
    | Inserted(pod: nat)
    | CountedPod(pod: nat)
    | Removing(name: string)
    | Stopped(name: string)

  /** `streamers` maps a pod's name to its streamer, an index into `pods`; `count` is the WaitGroup's counter. */
  datatype State = State(streamers: map<string, nat>, pods: seq<Pod>, mu: Mutex, count: int)

  datatype Label =
    | EnterAdd(name: string, size: nat)
    | SkipAdd
    | Insert
    | CountOne
    | Spawn
    | EnterRemove(name: string)
    | SkipRemove
    | StopRemoved
    | Delete
    | InPod(pod: nat, step: PodLabel)
    | PodDone(pod: nat)
    | WaitReturns

  const INITIAL := State(map[], [], Free, 0)

  predicate Enabled(s: State, l: Label) {
    match l
    case EnterAdd(_, _) => s.mu == Free
    case SkipAdd => s.mu.Adding? && s.mu.name in s.streamers
    case Insert => s.mu.Adding? && s.mu.name !in s.streamers
    case CountOne => s.mu.Inserted? && s.mu.pod < |s.pods|
    case Spawn => s.mu.CountedPod? && s.mu.pod < |s.pods| && PodEnabled(s.pods[s.mu.pod], Start)
    case EnterRemove(_) => s.mu == Free
    case SkipRemove => s.mu.Removing? && s.mu.name !in s.streamers
    case StopRemoved => s.mu.Removing? && s.mu.name in s.streamers && s.streamers[s.mu.name] < |s.pods|
    case Delete => s.mu.Stopped?
    case InPod(i, step) => i < |s.pods| && step != Start && PodEnabled(s.pods[i], step)
    case PodDone(i) => i < |s.pods| && s.pods[i].pc == LeavingPod
    case WaitReturns => s.count == 0
  }

  function Apply(s: State, l: Label): State
    requires Enabled(s, l)
  {
    match l
    case EnterAdd(name, size) => s.(mu := Adding(name, size))
    case SkipAdd => s.(mu := Free)
    case Insert =>
      var i := |s.pods|;
      State(s.streamers[s.mu.name := i], s.pods + [NewPod(s.mu.name, s.mu.size)], Inserted(i), s.count)
    case CountOne =>
      var i := s.mu.pod;
      State(s.streamers, s.pods[i := s.pods[i].(pc := Counted)], CountedPod(i), s.count + 1)
    case Spawn =>
      var i := s.mu.pod;
      s.(pods := s.pods[i := PodStep(s.pods[i], Start)], mu := Free)
    case EnterRemove(name) => s.(mu := Removing(name))
    case SkipRemove => s.(mu := Free)
    case StopRemoved =>
      var i := s.streamers[s.mu.name];
      s.(pods := s.pods[i := StopPod(s.pods[i])], mu := Stopped(s.mu.name))
    case Delete => s.(streamers := s.streamers - {s.mu.name}, mu := Free)
    case InPod(i, step) => s.(pods := s.pods[i := PodStep(s.pods[i], step)])
    case PodDone(i) => s.(pods := s.pods[i := s.pods[i].(pc := Finished)], count := s.count - 1)
    case WaitReturns => s
  }

  predicate IsRun(s: State, labels: seq<Label>)
    decreases |labels|
  {
    labels == [] || (Enabled(s, labels[0]) && IsRun(Apply(s, labels[0]), labels[1..]))
  }

  function End(s: State, labels: seq<Label>): State
    requires IsRun(s, labels)
    decreases |labels|
  {
    if labels == [] then s else End(Apply(s, labels[0]), labels[1..])
  }

  // ----- The invariant -----

  /** A pod the WaitGroup counts. */
  function Active(p: Pod): nat {
    if p.pc == Created || p.pc == Finished then 0 else 1
  }

  /** Only the holder of the mutex has a pod whose goroutine was not started. */
  predicate Phases(pods: seq<Pod>, mu: Mutex) {
    && (forall i | 0 <= i < |pods| ::
          && (pods[i].pc == Created <==> mu == Inserted(i))
          && (pods[i].pc == Counted <==> mu == CountedPod(i)))
    && (mu.Inserted? || mu.CountedPod? ==> mu.pod < |pods|)
  }

  /** A streamer is in the map under its pod's name or it is stopped. */
  predicate ListedOrStopped(streamers: map<string, nat>, pods: seq<Pod>) {
    && (forall name <- streamers :: streamers[name] < |pods| && pods[streamers[name]].name == name)
    && (forall i | 0 <= i < |pods| && pods[i].closes == 0 ::
          pods[i].name in streamers && streamers[pods[i].name] == i)
  }

  predicate Listed(s: State) {
    && ListedOrStopped(s.streamers, s.pods)
    && (s.mu.Stopped? ==> s.mu.name in s.streamers && s.pods[s.streamers[s.mu.name]].closes > 0)
  }

  predicate Pods(s: State) {
    forall i | 0 <= i < |s.pods| :: PodInv(s.pods[i])
  }

  predicate Inv(s: State) {
    Phases(s.pods, s.mu) && Listed(s) && Pods(s) && s.count == Total(s.pods, Active)
  }

  /** What a step makes of the pod it changes. */
  lemma PodStepFacts(p: Pod, l: PodLabel)
    requires PodInv(p) && PodEnabled(p, l)
    ensures var next := PodStep(p, l);
            && next.name == p.name && next.closes >= p.closes && (p.closes > 0 ==> next.closes > 0)
            && (l != Start ==> p.pc != Counted) && p.pc != Created
            && next.pc != Created && next.pc != Counted && (p.pc == Finished <==> next.pc == Finished)
  {
  }

  /** The same of a pod that is listed. */
  lemma ListedPodFacts(s: State, i: nat, l: PodLabel)
    requires Pods(s) && i < |s.pods| && PodEnabled(s.pods[i], l)
    ensures var p, next := s.pods[i], PodStep(s.pods[i], l);
            && next.name == p.name && next.closes >= p.closes && (p.closes > 0 ==> next.closes > 0)
            && (l != Start ==> p.pc != Counted) && p.pc != Created
            && next.pc != Created && next.pc != Counted && (p.pc == Finished <==> next.pc == Finished)
  {
    assert PodInv(s.pods[i]);
    hide PodInv, PodStep, PodEnabled;
    PodStepFacts(s.pods[i], l);
  }

  lemma NewPodKept(name: string, size: nat)
    ensures PodInv(NewPod(name, size))
  {
    TotalZero(NewPod(name, size).containers, Busy);
  }

  /** The changes the registry makes to a pod itself. */
  lemma PodKept(p: Pod)
    requires PodInv(p)
    ensures PodInv(StopPod(p))
    ensures p.pc == Created ==> PodInv(p.(pc := Counted))
    ensures p.pc == LeavingPod ==> PodInv(p.(pc := Finished))
  {
  }

  lemma StepKeepsPods(s: State, l: Label)
    requires Inv(s) && Enabled(s, l)
    ensures Pods(Apply(s, l))
  {
    hide PodStep, PodEnabled, PodInv, StopPod, Listed, Total, NewPod;
    match l {
      case Insert => NewPodKept(s.mu.name, s.mu.size);
      case CountOne => PodKept(s.pods[s.mu.pod]);
      case Spawn => StepKeepsPod(s.pods[s.mu.pod], Start);
      case StopRemoved => PodKept(s.pods[s.streamers[s.mu.name]]);
      case InPod(i, step) => StepKeepsPod(s.pods[i], step);
      case PodDone(i) => PodKept(s.pods[i]);
      case _ =>
    }
  }

  lemma ChangeKeepsPhases(pods: seq<Pod>, mu: Mutex, i: nat, p: Pod)
    requires Phases(pods, mu) && i < |pods|
    requires (p.pc == Created <==> pods[i].pc == Created) && (p.pc == Counted <==> pods[i].pc == Counted)
    ensures Phases(pods[i := p], mu)
  {
  }

  lemma StepKeepsPhases(s: State, l: Label)
    requires Inv(s) && Enabled(s, l)
    ensures Phases(Apply(s, l).pods, Apply(s, l).mu)
  {
    hide Pods, PodInv, PodStep, PodEnabled, Listed, Total;
    var next := Apply(s, l);
    match l {
      case Spawn => ListedPodFacts(s, s.mu.pod, Start);
      case StopRemoved =>
        ChangeKeepsPhases(s.pods, s.mu, s.streamers[s.mu.name], next.pods[s.streamers[s.mu.name]]);
      case InPod(i, step) =>
        ListedPodFacts(s, i, step);
        ChangeKeepsPhases(s.pods, s.mu, i, next.pods[i]);
      case PodDone(i) => ChangeKeepsPhases(s.pods, s.mu, i, next.pods[i]);
      case _ =>
    }
  }

  lemma ChangeKeepsListed(streamers: map<string, nat>, pods: seq<Pod>, i: nat, p: Pod)
    requires ListedOrStopped(streamers, pods) && i < |pods|
    requires p.name == pods[i].name && (pods[i].closes > 0 ==> p.closes > 0)
    ensures ListedOrStopped(streamers, pods[i := p])
  {
  }

  lemma StepKeepsListed(s: State, l: Label)
    requires Inv(s) && Enabled(s, l)
    ensures ListedOrStopped(Apply(s, l).streamers, Apply(s, l).pods)
  {
    hide Pods, PodInv, PodStep, PodEnabled, Phases, Total;
    var next := Apply(s, l);
    match l {
      case CountOne => ChangeKeepsListed(s.streamers, s.pods, s.mu.pod, next.pods[s.mu.pod]);
      case Spawn =>
        ListedPodFacts(s, s.mu.pod, Start);
        ChangeKeepsListed(s.streamers, s.pods, s.mu.pod, next.pods[s.mu.pod]);
      case StopRemoved =>
        ChangeKeepsListed(s.streamers, s.pods, s.streamers[s.mu.name], next.pods[s.streamers[s.mu.name]]);
      case InPod(i, step) =>
        ListedPodFacts(s, i, step);
        ChangeKeepsListed(s.streamers, s.pods, i, next.pods[i]);
      case PodDone(i) => ChangeKeepsListed(s.streamers, s.pods, i, next.pods[i]);
      case _ =>
    }
  }

  /** The mutex keeps a stopped streamer in the map until its remover deletes it. */
  lemma StepKeepsStopped(s: State, l: Label)
    requires Inv(s) && Enabled(s, l)
    ensures var next := Apply(s, l);
            next.mu.Stopped? ==> next.mu.name in next.streamers && next.pods[next.streamers[next.mu.name]].closes > 0
  {
    hide Pods, PodStep, PodInv, PodEnabled, Phases, Total;
    if l.InPod? {
      ListedPodFacts(s, l.pod, l.step);
    }
  }

  lemma StepKeepsCount(s: State, l: Label)
    requires Inv(s) && Enabled(s, l)
    ensures Apply(s, l).count == Total(Apply(s, l).pods, Active)
  {
    hide Pods, PodStep, PodEnabled, PodInv, Listed, Total;
    var next := Apply(s, l);
    match l {
      case Insert => TotalAppended(s.pods, NewPod(s.mu.name, s.mu.size), Active);
      case CountOne => TotalUpdated(s.pods, s.mu.pod, next.pods[s.mu.pod], Active);
      case Spawn =>
        ListedPodFacts(s, s.mu.pod, Start);
        TotalUpdated(s.pods, s.mu.pod, next.pods[s.mu.pod], Active);
      case StopRemoved =>
        TotalUpdated(s.pods, s.streamers[s.mu.name], next.pods[s.streamers[s.mu.name]], Active);
      case InPod(i, step) =>
        ListedPodFacts(s, i, step);
        TotalUpdated(s.pods, i, next.pods[i], Active);
      case PodDone(i) => TotalUpdated(s.pods, i, next.pods[i], Active);
      case _ =>
    }
  }

  lemma StepKeepsInv(s: State, l: Label)
    requires Inv(s) && Enabled(s, l)
    ensures Inv(Apply(s, l))
  {
    StepKeepsPods(s, l);
    StepKeepsPhases(s, l);
    StepKeepsListed(s, l);
    StepKeepsStopped(s, l);
    StepKeepsCount(s, l);
    hide Phases, ListedOrStopped, Pods, Enabled, Apply;
  }

  lemma {:induction false} RunKeepsInv(s: State, labels: seq<Label>)
    requires Inv(s) && IsRun(s, labels)
    ensures Inv(End(s, labels))
    decreases |labels|
  {
    if labels != [] {
      StepKeepsInv(s, labels[0]);
      hide Inv, Enabled, Apply;
      RunKeepsInv(Apply(s, labels[0]), labels[1..]);
    }
  }

  // ----- What holds in every run -----

  lemma InitialInv()
    ensures Inv(INITIAL)
  {
  }

  /**
    However adds, removes, waits and streamers interleave: a streamer is in the map under its pod's
    name or it is stopped, so no two streamers of one name are both running, and no stop channel is
    closed twice.
  */
  lemma OneStreamerPerName(labels: seq<Label>)
    requires IsRun(INITIAL, labels)
    ensures var s := End(INITIAL, labels);
            && (forall i | 0 <= i < |s.pods| :: s.pods[i].closes <= 1)
            && (forall i | 0 <= i < |s.pods| && s.pods[i].closes == 0 ::
                  s.pods[i].name in s.streamers && s.streamers[s.pods[i].name] == i)
            && (forall i, j | 0 <= i < j < |s.pods| && s.pods[i].name == s.pods[j].name ::
                  s.pods[i].closes == 1 || s.pods[j].closes == 1)
  {
    InitialInv();
    RunKeepsInv(INITIAL, labels);
    var s := End(INITIAL, labels);
    hide IsRun, End, StartedInOrder, Counts, Phases;
    assert forall i | 0 <= i < |s.pods| :: PodInv(s.pods[i]);
  }

  function Spawned(p: Pod): nat {
    if p.pc == Created then 0 else 1
  }

  function Done(p: Pod): nat {
    if p.pc == Finished then 1 else 0
  }

  lemma {:induction false} ActiveIsDifference(pods: seq<Pod>)
    ensures Total(pods, Active) == Total(pods, Spawned) - Total(pods, Done)
  {
    if pods != [] {
      ActiveIsDifference(pods[1..]);
    }
  }

  /** The WaitGroup's counter is the number of streamers spawned less those finished; it is never negative. */
  lemma CounterIsConserved(labels: seq<Label>)
    requires IsRun(INITIAL, labels)
    ensures var s := End(INITIAL, labels);
            s.count >= 0 && s.count == Total(s.pods, Spawned) - Total(s.pods, Done)
  {
    InitialInv();
    RunKeepsInv(INITIAL, labels);
    ActiveIsDifference(End(INITIAL, labels).pods);
    hide IsRun, End, Total;
  }

  /**
    `Wait` can return exactly when every streamer that was counted has finished, and then each container
    whose follow stream opened has flushed exactly once. A streamer not yet counted is not waited for.
  */
  lemma WaitSeesAllFinished(labels: seq<Label>)
    requires IsRun(INITIAL, labels)
    ensures var s := End(INITIAL, labels);
            && (Enabled(s, WaitReturns) <==>
                forall i | 0 <= i < |s.pods| :: s.pods[i].pc == Created || s.pods[i].pc == Finished)
            && forall i | 0 <= i < |s.pods| && s.pods[i].pc == Finished ::
                 && s.pods[i].closes == 1
                 && forall c <- s.pods[i].containers :: c.pc == Ended && c.flushes == (if c.open then 1 else 0)
  {
    InitialInv();
    RunKeepsInv(INITIAL, labels);
    var s := End(INITIAL, labels);
    hide IsRun, End, Listed, Phases;
    forall i | 0 <= i < |s.pods| && s.pods[i].pc == Finished
      ensures s.pods[i].closes == 1
      ensures forall c <- s.pods[i].containers :: c.pc == Ended && c.flushes == (if c.open then 1 else 0)
    {
      FinishedPodFlushed(s.pods[i]);
    }
    TotalZero(s.pods, Active);
    assert forall i | 0 <= i < |s.pods| ::
        Active(s.pods[i]) == 0 <==> s.pods[i].pc == Created || s.pods[i].pc == Finished;
  }

  lemma RunCons(s: State, l: Label, rest: seq<Label>)
    requires Enabled(s, l) && IsRun(Apply(s, l), rest)
    ensures IsRun(s, [l] + rest) && End(s, [l] + rest) == End(Apply(s, l), rest)
  {
    assert ([l] + rest)[1..] == rest;
    hide Enabled, Apply;
  }

  /**
    In particular it can return before the first pod is seen; a streamer that is added then runs on with
    nobody waiting for it.
  */
  lemma WaitReturnsEarly(name: string, size: nat)
    ensures var labels := [WaitReturns] + ([EnterAdd(name, size)] + ([Insert] + ([CountOne] + ([Spawn] + []))));
            && IsRun(INITIAL, labels)
            && var s := End(INITIAL, labels); |s.pods| == 1 && s.pods[0].name == name && Active(s.pods[0]) == 1
  {
    var entered := Apply(INITIAL, EnterAdd(name, size));
    var inserted := Apply(entered, Insert);
    var counted := Apply(inserted, CountOne);
    var spawned := Apply(counted, Spawn);
    assert Enabled(INITIAL, WaitReturns) && Apply(INITIAL, WaitReturns) == INITIAL;
    assert |spawned.pods| == 1 && spawned.pods[0].name == name && Active(spawned.pods[0]) == 1;
    assert IsRun(spawned, []) && End(spawned, []) == spawned;
    hide Apply, Enabled, IsRun, End;
    RunCons(counted, Spawn, []);
    RunCons(inserted, CountOne, [Spawn] + []);
    RunCons(entered, Insert, [CountOne] + ([Spawn] + []));
    RunCons(INITIAL, EnterAdd(name, size), [Insert] + ([CountOne] + ([Spawn] + [])));
    RunCons(INITIAL, WaitReturns, [EnterAdd(name, size)] + ([Insert] + ([CountOne] + ([Spawn] + []))));
  }

  lemma HolderCanStep(s: State)
    requires Inv(s) && s.mu != Free
    ensures exists l: Label :: !l.InPod? && !l.PodDone? && !l.WaitReturns? && Enabled(s, l)
  {
    var l := match s.mu
      case Adding(name, _) => if name in s.streamers then SkipAdd else Insert
      case Inserted(_) => CountOne
      case CountedPod(_) => Spawn
      case Removing(name) => if name in s.streamers then StopRemoved else SkipRemove
      case _ => Delete;
    hide Pods, Total;
    assert Enabled(s, l);
  }

  ghost predicate CanStep(s: State, i: nat) {
    Enabled(s, PodDone(i)) || exists step :: Enabled(s, InPod(i, step))
  }

  lemma StreamerCanStep(s: State, i: nat)
    requires Inv(s) && i < |s.pods| && s.pods[i].closes > 0 && s.pods[i].pc !in {Created, Counted, Finished}
    ensures CanStep(s, i)
  {
    hide Phases, Listed, Total;
    StoppedPodCanStep(s.pods[i]);
    if s.pods[i].pc != LeavingPod {
      var step :| PodEnabled(s.pods[i], step);
      assert Enabled(s, InPod(i, step));
    }
  }

  /** The holder of the mutex can always go on, and so can a stopped streamer whose goroutine runs. */
  lemma NeverStuck(labels: seq<Label>)
    requires IsRun(INITIAL, labels)
    ensures var s := End(INITIAL, labels);
            && (s.mu != Free ==> exists l: Label :: !l.InPod? && !l.PodDone? && !l.WaitReturns? && Enabled(s, l))
            && forall i | 0 <= i < |s.pods| && s.pods[i].closes > 0 && s.pods[i].pc !in {Created, Counted, Finished} ::
                 CanStep(s, i)
  {
    InitialInv();
    RunKeepsInv(INITIAL, labels);
    var s := End(INITIAL, labels);
    hide IsRun, End, Inv, CanStep, Enabled;
    if s.mu != Free {
      HolderCanStep(s);
    }
    forall i: nat | i < |s.pods| && s.pods[i].closes > 0 && s.pods[i].pc !in {Created, Counted, Finished}
      ensures CanStep(s, i)
    {
      StreamerCanStep(s, i);
    }
  }

  function StepsOf(labels: seq<Label>, i: nat): nat {
    if labels == [] then 0
    else
      (if (labels[0].InPod? || labels[0].PodDone?) && labels[0].pod == i then 1 else 0) + StepsOf(labels[1..], i)
  }

  /** After the fan-out of pod `i` it stays done, and only the pod's own steps use up what is left. */
  lemma StepAfterFanOut(s: State, l: Label, i: nat)
    requires Inv(s) && Enabled(s, l) && i < |s.pods| && FannedOut(s.pods[i])
    ensures var next := Apply(s, l);
            && i < |next.pods| && FannedOut(next.pods[i])
            && PodLeft(next.pods[i]) + StepsOf([l], i) <= PodLeft(s.pods[i])
  {
    var next := Apply(s, l);
    assert StepsOf([l], i) == if (l.InPod? || l.PodDone?) && l.pod == i then 1 else 0;
    if l.InPod? && l.pod == i {
      FannedOutPodEnds(s.pods[i], l.step);
    } else {
      hide PodStep, PodEnabled, Total, StartedInOrder, Counts;
    }
  }

  /** Once the fan-out of a stopped pod is done, at most a fixed number of its steps are left in any run. */
  lemma {:induction false} StoppedPodEnds(s: State, labels: seq<Label>, i: nat)
    requires Inv(s) && IsRun(s, labels) && i < |s.pods| && FannedOut(s.pods[i])
    ensures StepsOf(labels, i) <= PodLeft(s.pods[i])
    decreases |labels|
  {
    if labels != [] {
      StepKeepsInv(s, labels[0]);
      StepAfterFanOut(s, labels[0], i);
      assert StepsOf([labels[0]], i) + StepsOf(labels[1..], i) == StepsOf(labels, i);
      hide Inv, Enabled, Apply, PodLeft, FannedOut, StepsOf;
      StoppedPodEnds(Apply(s, labels[0]), labels[1..], i);
    }
  }
}
