/**
  What a watch returns and logs, told from what the cluster answered alone (k8s/deploy_watcher.go): the
  labels of a run, not its states.
*/
module DeployVerdicts {
  import opened Text
  import opened DeployWatch

  // ----- The deciding label -----

  /** A fetch that found the deployment. */
  predicate Found(l: Label) {
    l.PollAnswered? && l.generation.Some?
  }

  predicate FoundBefore(labels: seq<Label>, i: nat)
    requires i <= |labels|
  {
    exists j :: 0 <= j < i && Found(labels[j])
  }

  /** The last fetch that was answered. */
  function LastAnswer(labels: seq<Label>): (last: Option<Label>)
    ensures last.Some? ==> last.value.PollAnswered?
  {
    if labels == [] then None
    else var n := |labels| - 1; if labels[n].PollAnswered? then Some(labels[n]) else LastAnswer(labels[..n])
  }

  /**
    The generation that is compared at this step: the first one found is compared when the start was sent,
    any later one at once.
  */
  ghost function Compared(labels: seq<Label>, i: nat): Option<int>
    requires i < |labels|
  {
    if labels[i].Rendezvous? && LastAnswer(labels[..i]).Some? then LastAnswer(labels[..i]).value.generation
    else if labels[i].PollAnswered? && FoundBefore(labels, i) then labels[i].generation
    else None
  }

  /** A generation was found that is newer than the one the watch is for. */
  ghost predicate FoundNewer(generation: int, labels: seq<Label>, i: nat)
    requires i < |labels|
  {
    generation != 0 && Compared(labels, i).Some? && Compared(labels, i).value > generation
  }

  ghost predicate Decides(generation: int, labels: seq<Label>, i: nat)
    requires i < |labels|
  {
    || labels[i].PollFailed? || labels[i].ContextEnded?
    || (labels[i].Checked? && labels[i].status != Some(InProgress))
    || FoundNewer(generation, labels, i)
  }

  ghost predicate IsFirst(generation: int, labels: seq<Label>, i: nat) {
    i < |labels| && Decides(generation, labels, i) && forall j: nat | j < i :: !Decides(generation, labels, j)
  }

  /** What each verdict says of the label that decided. */
  ghost predicate Means(v: Verdict, generation: int, labels: seq<Label>, i: nat)
    requires i < |labels|
  {
    var l := labels[i];
    && (v == Succeeded <==> l.Checked? && l.status == Some(Complete))
    && (forall r :: v == Failure(r) <==>
                    (l.Checked? && l.status == None && l.reason == r) || l == PollFailed(Other(r)))
    && (v == Deleted <==> l == PollFailed(NotFound))
    && (v == TimedOut <==> l == PollFailed(ContextCanceled(true)) || l == ContextEnded(true))
    && (v == Cancelled <==> l == PollFailed(ContextCanceled(false)) || l == ContextEnded(false))
    && (v == Invalidated <==> FoundNewer(generation, labels, i))
  }

  // ----- Runs, step by step from the front -----

  lemma {:induction false} RunToLast(s: State, labels: seq<Label>)
    requires IsRun(s, labels) && labels != []
    ensures var n := |labels| - 1;
            && IsRun(s, labels[..n]) && Enabled(End(s, labels[..n]), labels[n])
            && End(s, labels) == Apply(End(s, labels[..n]), labels[n])
    decreases |labels|
  {
    hide Enabled, Apply;
    var n := |labels| - 1;
    if n > 0 {
      RunToLast(Apply(s, labels[0]), labels[1..]);
      assert labels[1..][..n - 1] == labels[..n][1..];
    }
  }

  lemma DecidesBefore(generation: int, labels: seq<Label>, n: nat, i: nat)
    requires i < n <= |labels|
    ensures Decides(generation, labels[..n], i) == Decides(generation, labels, i)
    ensures FoundNewer(generation, labels[..n], i) == FoundNewer(generation, labels, i)
  {
    assert labels[..n][..i] == labels[..i];
    assert FoundBefore(labels[..n], i) == FoundBefore(labels, i);
  }

  lemma FirstBefore(generation: int, labels: seq<Label>, n: nat, i: nat)
    requires n <= |labels|
    ensures IsFirst(generation, labels[..n], i) <==> i < n && IsFirst(generation, labels, i)
  {
    hide Decides;
    forall j: nat | j < n
      ensures Decides(generation, labels[..n], j) == Decides(generation, labels, j)
    {
      DecidesBefore(generation, labels, n, j);
    }
  }

  lemma MeansBefore(v: Verdict, generation: int, labels: seq<Label>, n: nat, i: nat)
    requires i < n <= |labels|
    ensures Means(v, generation, labels[..n], i) == Means(v, generation, labels, i)
  {
    DecidesBefore(generation, labels, n, i);
    hide FoundNewer;
  }

  /** What the labels say of a state, the verdict aside. */
  ghost predicate Follows(s: State, generation: int, labels: seq<Label>) {
    && s.generation == generation && (s.initialized <==> FoundBefore(labels, |labels|))
    && (s.monitor.Sending? ==>
          LastAnswer(labels) == Some(PollAnswered(Some(s.monitor.observed), s.monitor.start)))
  }

  lemma FoundNext(labels: seq<Label>)
    requires labels != []
    ensures var n := |labels| - 1; FoundBefore(labels, n + 1) <==> FoundBefore(labels[..n], n) || Found(labels[n])
  {
    hide Found;
    var n := |labels| - 1;
    if j :| 0 <= j < n && Found(labels[..n][j]) {
      assert Found(labels[j]);
    }
    if j :| 0 <= j < n + 1 && Found(labels[j]) {
      assert j < n ==> Found(labels[..n][j]);
    }
  }

  lemma StepFollows(s: State, generation: int, labels: seq<Label>)
    requires labels != [] && Follows(s, generation, labels[..|labels| - 1]) && Enabled(s, labels[|labels| - 1])
    ensures Follows(Apply(s, labels[|labels| - 1]), generation, labels)
  {
    FoundNext(labels);
    hide FoundBefore, Kept;
  }

  /** One step decides exactly if its label does, and as its label says. */
  lemma StepDecides(s: State, generation: int, labels: seq<Label>)
    requires labels != [] && Follows(s, generation, labels[..|labels| - 1]) && Enabled(s, labels[|labels| - 1])
    requires s.verdict == None
    ensures var n := |labels| - 1; var t := Apply(s, labels[n]);
            if t.verdict == None then !Decides(generation, labels, n) else
            Decides(generation, labels, n) && Means(t.verdict.value, generation, labels, n)
  {
    var n := |labels| - 1;
    FoundNext(labels);
    assert FoundBefore(labels, n) == FoundBefore(labels[..n], n) by {
      assert forall j | 0 <= j < n :: labels[..n][j] == labels[j];
    }
    hide FoundBefore, Kept;
  }

  lemma StepKeepsVerdict(s: State, l: Label, now: nat)
    requires Inv(s, now) && s.verdict.Some? && Enabled(s, l)
    ensures Apply(s, l).verdict == s.verdict
  {
    DecidedStep(s, l, now);
  }

  ghost predicate Told(s: State, generation: int, labels: seq<Label>) {
    && (s.verdict == None <==> forall i: nat | i < |labels| :: !Decides(generation, labels, i))
    && (s.verdict.Some? ==>
          exists i: nat :: IsFirst(generation, labels, i) && Means(s.verdict.value, generation, labels, i))
  }

  lemma TellsNext(s: State, generation: int, labels: seq<Label>, now: nat)
    requires labels != [] && Follows(s, generation, labels[..|labels| - 1]) && Enabled(s, labels[|labels| - 1])
    requires Inv(s, now) && Told(s, generation, labels[..|labels| - 1])
    ensures Told(Apply(s, labels[|labels| - 1]), generation, labels)
  {
    var n := |labels| - 1;
    forall j: nat | j < n
      ensures Decides(generation, labels[..n], j) == Decides(generation, labels, j)
    {
      DecidesBefore(generation, labels, n, j);
    }
    if s.verdict == None {
      StepDecides(s, generation, labels);
      hide Decides, Apply, Enabled, Means, Follows, Inv;
      assert Decides(generation, labels, n) ==> IsFirst(generation, labels, n);
    } else {
      StepKeepsVerdict(s, labels[n], now);
      hide Decides, Apply, Enabled, Means, Follows, Inv;
      var i: nat :| IsFirst(generation, labels[..n], i) && Means(s.verdict.value, generation, labels[..n], i);
      FirstBefore(generation, labels, n, i);
      MeansBefore(s.verdict.value, generation, labels, n, i);
      assert Decides(generation, labels, i);
    }
  }

  lemma {:induction false} RunTells(generation: int, now: nat, labels: seq<Label>)
    requires IsRun(Start(generation, now), labels)
    ensures var s := End(Start(generation, now), labels); Follows(s, generation, labels) && Told(s, generation, labels)
    decreases |labels|
  {
    if labels != [] {
      var n := |labels| - 1;
      RunToLast(Start(generation, now), labels);
      hide *;
      RunTells(generation, now, labels[..n]);
      StartKeeps(generation, now, labels[..n]);
      var s := End(Start(generation, now), labels[..n]);
      StepFollows(s, generation, labels);
      TellsNext(s, generation, labels, now);
    }
  }

  lemma StartKeeps(generation: int, now: nat, labels: seq<Label>)
    requires IsRun(Start(generation, now), labels)
    ensures Inv(End(Start(generation, now), labels), now)
  {
    RunKeepsInv(Start(generation, now), labels, now);
  }

  /**
    The verdict of every run is that of the first label that decides: success is a check that said the
    rollout is complete; a failure is a check that failed, or a fetch that failed otherwise, with its
    reason; deleted is a fetch that found nothing; timed out and cancelled are the end of the context, with
    and without a deadline; invalidated is a generation newer than the one that is watched, if that is not 0.
  */
  lemma DecidedByFirst(generation: int, now: nat, labels: seq<Label>, i: nat)
    requires IsRun(Start(generation, now), labels)
    ensures var s := End(Start(generation, now), labels);
            && (s.verdict.Some? <==> exists j: nat :: IsFirst(generation, labels, j))
            && (IsFirst(generation, labels, i) ==> Means(s.verdict.value, generation, labels, i))
  {
    RunTells(generation, now, labels);
    hide Decides, Means, IsRun, End;
    if j: nat :| IsFirst(generation, labels, j) {
      assert Decides(generation, labels, j);
    }
    if IsFirst(generation, labels, i) {
      var s := End(Start(generation, now), labels);
      var j: nat :| IsFirst(generation, labels, j) && Means(s.verdict.value, generation, labels, j);
      assert i == j;
    }
  }

  // ----- What is logged -----

  function ReadAt(l: Label): seq<Event> {
    match l
    case Listed(events) => events
    case GotEvent(Some(event)) => [event]
    case _ => []
  }

  /** All events that were listed or received, in order. */
  function Read(labels: seq<Label>): seq<Event> {
    if labels == [] then [] else var n := |labels| - 1; Read(labels[..n]) + ReadAt(labels[n])
  }

  /** The time that was sent as the start, or the beginning of the watch. */
  function Earliest(now: nat, labels: seq<Label>): nat {
    if labels == [] then now
    else
      var n := |labels| - 1;
      if labels[n].Rendezvous? && LastAnswer(labels[..n]).Some? && LastAnswer(labels[..n]).value.start.Some?
      then LastAnswer(labels[..n]).value.start.value
      else Earliest(now, labels[..n])
  }

  /** Of the events read, those are kept that are tracked and not too old: each by itself, in their order. */
  lemma {:induction false} KeptEach(a: seq<Event>, b: seq<Event>, e: Event, earliest: nat)
    ensures Kept([], earliest) == [] && Kept(a + b, earliest) == Kept(a, earliest) + Kept(b, earliest)
    ensures Kept([e], earliest) == if e.tracked && e.at >= earliest then [e] else []
    decreases |a|
  {
    assert [e][1..] == [];
    if a == [] {
      assert a + b == b;
    } else {
      KeptEach(a[1..], b, e, earliest);
      assert (a + b)[1..] == a[1..] + b;
    }
  }

  ghost predicate LogsRead(s: State, now: nat, labels: seq<Label>) {
    s.earliest == Earliest(now, labels) && s.emitted == Kept(Read(labels), s.earliest)
    && (s.streamer == Receiving ==> Read(labels) == [])
  }

  lemma StepReads(s: State, l: Label)
    requires Enabled(s, l) && (s.streamer == Receiving ==> s.emitted == [])
    ensures Apply(s, l).emitted == s.emitted + Kept(ReadAt(l), s.earliest)
    ensures ReadAt(l) != [] ==> s.streamer != Receiving
    ensures Apply(s, l).streamer == Receiving ==> s.streamer == Receiving && ReadAt(l) == []
  {
    assert Kept([], s.earliest) == [];
    hide Kept;
    assert forall r: seq<Event> :: r + [] == r;
  }

  lemma StepSets(s: State, generation: int, now: nat, labels: seq<Label>)
    requires labels != [] && Follows(s, generation, labels[..|labels| - 1]) && Enabled(s, labels[|labels| - 1])
    requires s.earliest == Earliest(now, labels[..|labels| - 1])
    ensures var l := labels[|labels| - 1];
            && Apply(s, l).earliest == Earliest(now, labels)
            && (Apply(s, l).earliest == s.earliest || s.streamer == Receiving)
  {
    hide Kept, FoundBefore;
  }

  lemma StepLogs(s: State, generation: int, now: nat, labels: seq<Label>)
    requires labels != [] && Follows(s, generation, labels[..|labels| - 1]) && Enabled(s, labels[|labels| - 1])
    requires LogsRead(s, now, labels[..|labels| - 1])
    ensures LogsRead(Apply(s, labels[|labels| - 1]), now, labels)
  {
    var n := |labels| - 1;
    KeptEach(Read(labels[..n]), ReadAt(labels[n]), Event(0, false), s.earliest);
    assert Kept([], s.earliest) == [] && Kept([], Apply(s, labels[n]).earliest) == [];
    assert Read(labels) == Read(labels[..n]) + ReadAt(labels[n]);
    hide Kept, Apply, Enabled, Earliest, Follows, Read, ReadAt;
    StepReads(s, labels[n]);
    StepSets(s, generation, now, labels);
  }

  /**
    In every run the log holds, in order, exactly the tracked ones of the events that were listed or
    received which are not older than the start that was sent, or than the beginning of the watch.
  */
  lemma {:induction false} LogsExactly(generation: int, now: nat, labels: seq<Label>)
    requires IsRun(Start(generation, now), labels)
    ensures var s := End(Start(generation, now), labels);
            LogsRead(s, now, labels)
    decreases |labels|
  {
    if labels != [] {
      var n := |labels| - 1;
      RunToLast(Start(generation, now), labels);
      hide *;
      LogsExactly(generation, now, labels[..n]);
      RunTells(generation, now, labels[..n]);
      StepLogs(End(Start(generation, now), labels[..n]), generation, now, labels);
    }
  }
}
