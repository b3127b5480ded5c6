/**
  Which pods have a streamer, told from the adds and removes alone (`podStreamers` of
  k8s/logs/workload_streamer.go): the labels of a run, not its states.
*/
module PodNames {
  import opened Text
  import opened PodStream
  import opened PodRegistry

  predicate Enters(l: Label) {
    l.EnterAdd? || l.EnterRemove?
  }

  /** The goroutine that took the mutex last, by what it came for. */
  function Holder(labels: seq<Label>): (entered: Option<Label>)
    ensures entered.Some? ==> Enters(entered.value)
  {
    if labels == [] then None
    else var n := |labels| - 1; if Enters(labels[n]) then Some(labels[n]) else Holder(labels[..n])
  }

  /** The holder at this step is about this name. */
  predicate HeldFor(labels: seq<Label>, i: nat, name: string)
    requires i < |labels|
  {
    Holder(labels[..i]).Some? && Holder(labels[..i]).value.name == name
  }

  /** An insert of the name was completed, and no delete of it since. */
  ghost predicate AddedLast(labels: seq<Label>, name: string) {
    exists i: nat :: InsertedLast(labels, i, name)
  }

  ghost predicate InsertedLast(labels: seq<Label>, i: nat, name: string) {
    && i < |labels| && labels[i] == Insert && HeldFor(labels, i, name)
    && forall j: nat | i < j < |labels| && labels[j] == Delete :: !HeldFor(labels, j, name)
  }

  lemma HeldBefore(labels: seq<Label>, n: nat, i: nat, name: string)
    requires i < n <= |labels|
    ensures HeldFor(labels[..n], i, name) == HeldFor(labels, i, name)
  {
    assert labels[..n][..i] == labels[..i];
  }

  lemma InsertedBefore(labels: seq<Label>, i: nat, name: string)
    requires labels != [] && i < |labels| - 1
    ensures var n := |labels| - 1;
            InsertedLast(labels, i, name) <==>
            InsertedLast(labels[..n], i, name) && !(labels[n] == Delete && HeldFor(labels, n, name))
  {
    var n := |labels| - 1;
    forall j: nat | j < n
      ensures HeldFor(labels[..n], j, name) == HeldFor(labels, j, name)
    {
      HeldBefore(labels, n, j, name);
    }
    hide HeldFor;
  }

  lemma AddedNext(labels: seq<Label>, name: string)
    requires labels != []
    ensures var n := |labels| - 1; var held := HeldFor(labels, n, name);
            AddedLast(labels, name) <==>
            (labels[n] == Insert && held) || (AddedLast(labels[..n], name) && !(labels[n] == Delete && held))
  {
    var n := |labels| - 1;
    forall i: nat | i < n
      ensures InsertedLast(labels, i, name) <==>
              InsertedLast(labels[..n], i, name) && !(labels[n] == Delete && HeldFor(labels, n, name))
    {
      InsertedBefore(labels, i, name);
    }
    assert InsertedLast(labels, n, name) <==> labels[n] == Insert && HeldFor(labels, n, name);
    assert forall i: nat | InsertedLast(labels, i, name) :: i <= n;
    assert forall i: nat | InsertedLast(labels[..n], i, name) :: i < n;
    hide InsertedLast, HeldFor;
  }

  lemma {:induction false} RunToLast(s: State, labels: seq<Label>)
    requires IsRun(s, labels) && labels != []
    ensures var n := |labels| - 1;
            && IsRun(s, labels[..n]) && Enabled(End(s, labels[..n]), labels[n])
            && End(s, labels) == Apply(End(s, labels[..n]), labels[n])
    decreases |labels|
  {
    hide Enabled, Apply;
    var n := |labels| - 1;
    if n > 0 {
      RunToLast(Apply(s, labels[0]), labels[1..]);
      assert labels[1..][..n - 1] == labels[..n][1..];
    }
  }

  /** What the last to enter says of the mutex. */
  predicate Holds(mu: Mutex, holder: Option<Label>) {
    && (mu.Adding? ==> holder == Some(EnterAdd(mu.name, mu.size)))
    && (mu.Removing? || mu.Stopped? ==> holder == Some(EnterRemove(mu.name)))
  }

  /** What the labels say of the mutex and of the map. */
  ghost predicate Follows(s: State, labels: seq<Label>) {
    Holds(s.mu, Holder(labels)) && forall name :: name in s.streamers <==> AddedLast(labels, name)
  }

  /** What a step does to the mutex and to the map. */
  lemma StepFacts(s: State, l: Label, holder: Option<Label>)
    requires Enabled(s, l) && Holds(s.mu, holder)
    ensures var t := Apply(s, l);
            && Holds(t.mu, if Enters(l) then Some(l) else holder)
            && (l == Insert || l == Delete ==> holder.Some? && Enters(holder.value) && s.mu.name == holder.value.name)
            && t.streamers.Keys == (if l == Insert then s.streamers.Keys + {s.mu.name}
                                    else if l == Delete then s.streamers.Keys - {s.mu.name}
                                    else s.streamers.Keys)
  {
    hide PodStep, PodEnabled, NewPod, StopPod;
  }

  lemma StepFollows(s: State, labels: seq<Label>)
    requires labels != [] && Follows(s, labels[..|labels| - 1]) && Enabled(s, labels[|labels| - 1])
    ensures Follows(Apply(s, labels[|labels| - 1]), labels)
  {
    var n := |labels| - 1;
    StepFacts(s, labels[n], Holder(labels[..n]));
    hide AddedLast, Apply, Enabled, Holds;
    var t := Apply(s, labels[n]);
    forall name
      ensures name in t.streamers <==> AddedLast(labels, name)
    {
      AddedNext(labels, name);
      assert name in t.streamers <==> name in t.streamers.Keys;
      assert name in s.streamers <==> name in s.streamers.Keys;
    }
  }

  lemma {:induction false} RunFollows(labels: seq<Label>)
    requires IsRun(INITIAL, labels)
    ensures Follows(End(INITIAL, labels), labels)
    decreases |labels|
  {
    if labels != [] {
      var n := |labels| - 1;
      RunToLast(INITIAL, labels);
      RunFollows(labels[..n]);
      hide IsRun, End, Enabled, Apply, Follows;
      StepFollows(End(INITIAL, labels[..n]), labels);
    }
  }

  /** In every run a name is in the map exactly if it was inserted and not deleted since. */
  lemma ListedIfAddedLast(labels: seq<Label>, name: string)
    requires IsRun(INITIAL, labels)
    ensures name in End(INITIAL, labels).streamers <==> AddedLast(labels, name)
  {
    RunFollows(labels);
    hide IsRun, End, AddedLast;
  }

  // ----- Adding and removing -----

  /** An add that holds the mutex creates a running streamer exactly if the name was not added last. */
  lemma AddStarts(labels: seq<Label>, name: string, size: nat)
    requires IsRun(INITIAL, labels) && End(INITIAL, labels).mu == Adding(name, size)
    ensures var s := End(INITIAL, labels);
            && (Enabled(s, Insert) <==> !AddedLast(labels, name)) && (Enabled(s, SkipAdd) <==> AddedLast(labels, name))
            && Holder(labels) == Some(EnterAdd(name, size))
            && (Enabled(s, Insert) ==>
                  var t := Apply(s, Insert); var i := |s.pods|;
                  && t.pods[..i] == s.pods && |t.pods| == i + 1 && t.streamers == s.streamers[name := i]
                  && t.pods[i].name == name && t.pods[i].closes == 0 && t.pods[i].pc == Created
                  && |t.pods[i].containers| == size
                  && forall c <- t.pods[i].containers :: c == Container(Idle, false, 0, 0))
            && (Enabled(s, SkipAdd) ==> Apply(s, SkipAdd) == s.(mu := Free))
  {
    RunFollows(labels);
    hide IsRun, End, AddedLast;
  }

  /** A remove that holds the mutex finds a streamer exactly if the name was added last, and stops just that one. */
  lemma RemoveStops(labels: seq<Label>, name: string)
    requires IsRun(INITIAL, labels) && End(INITIAL, labels).mu == Removing(name)
    ensures var s := End(INITIAL, labels);
            && (Enabled(s, StopRemoved) <==> AddedLast(labels, name))
            && (Enabled(s, SkipRemove) <==> !AddedLast(labels, name))
            && (Enabled(s, StopRemoved) ==>
                  var t := Apply(s, StopRemoved); var i := s.streamers[name];
                  && s.pods[i].name == name && t.pods[i] == s.pods[i].(closes := 1)
                  && t.pods == s.pods[i := t.pods[i]] && t.streamers == s.streamers)
            && (Enabled(s, SkipRemove) ==> Apply(s, SkipRemove) == s.(mu := Free))
  {
    RunFollows(labels);
    ListedPods(labels);
    RemoveFacts(End(INITIAL, labels), name);
    hide IsRun, End, AddedLast, Inv, Apply, Enabled, INITIAL;
  }

  lemma RemoveFacts(s: State, name: string)
    requires s.mu == Removing(name)
    requires name in s.streamers ==> s.streamers[name] < |s.pods| && s.pods[s.streamers[name]].closes <= 1
    ensures (Enabled(s, StopRemoved) <==> name in s.streamers) && (Enabled(s, SkipRemove) <==> name !in s.streamers)
    ensures name in s.streamers ==>
              var t := Apply(s, StopRemoved); var i := s.streamers[name];
              && t.pods[i] == s.pods[i].(closes := 1) && t.pods == s.pods[i := t.pods[i]] && t.streamers == s.streamers
    ensures name !in s.streamers ==> Apply(s, SkipRemove) == s.(mu := Free)
  {
  }

  lemma ListedPods(labels: seq<Label>)
    requires IsRun(INITIAL, labels)
    ensures var s := End(INITIAL, labels);
            && Inv(s)
            && (forall n <- s.streamers :: s.streamers[n] < |s.pods| && s.pods[s.streamers[n]].name == n)
            && (forall i | 0 <= i < |s.pods| :: s.pods[i].closes <= 1)
  {
    InitialInv();
    RunKeepsInv(INITIAL, labels);
    OneStreamerPerName(labels);
    hide IsRun, End, PodInv, Phases;
  }

  /** Whatever a remove takes out of the map is stopped, and nothing else changes. */
  lemma DeletedIsStopped(labels: seq<Label>)
    requires IsRun(INITIAL, labels) && Enabled(End(INITIAL, labels), Delete)
    ensures var s := End(INITIAL, labels); var name := s.mu.name; var t := Apply(s, Delete);
            && Holder(labels) == Some(EnterRemove(name))
            && name in s.streamers && s.streamers[name] < |s.pods|
            && s.pods[s.streamers[name]].name == name && s.pods[s.streamers[name]].closes == 1
            && t == s.(streamers := s.streamers - {name}, mu := Free)
  {
    RunFollows(labels);
    ListedPods(labels);
    hide IsRun, End, AddedLast, Phases, Pods;
  }

  /** A pod that is added, removed and added again gets a second streamer. */
  lemma AddedAgain(name: string, size: nat)
    ensures var labels := [EnterAdd(name, size)] + ([Insert] + ([CountOne] + ([Spawn] + ([EnterRemove(name)]
                          + ([StopRemoved] + ([Delete] + ([EnterAdd(name, size)] + [])))))));
            IsRun(INITIAL, labels) && Enabled(End(INITIAL, labels), Insert) && |End(INITIAL, labels).pods| == 1
  {
    var a := Apply(INITIAL, EnterAdd(name, size));
    var b := Apply(a, Insert);
    var c := Apply(b, CountOne);
    var d := Apply(c, Spawn);
    var e := Apply(d, EnterRemove(name));
    var f := Apply(e, StopRemoved);
    var g := Apply(f, Delete);
    var h := Apply(g, EnterAdd(name, size));
    assert Enabled(h, Insert) && |h.pods| == 1 && IsRun(h, []) && End(h, []) == h;
    hide Apply, Enabled, IsRun, End;
    RunCons(g, EnterAdd(name, size), []);
    RunCons(f, Delete, [EnterAdd(name, size)] + []);
    RunCons(e, StopRemoved, [Delete] + ([EnterAdd(name, size)] + []));
    RunCons(d, EnterRemove(name), [StopRemoved] + ([Delete] + ([EnterAdd(name, size)] + [])));
    RunCons(c, Spawn, [EnterRemove(name)] + ([StopRemoved] + ([Delete] + ([EnterAdd(name, size)] + []))));
    RunCons(b, CountOne, [Spawn] + ([EnterRemove(name)] + ([StopRemoved] + ([Delete] + ([EnterAdd(name, size)] + [])))));
    RunCons(a, Insert, [CountOne] + ([Spawn] + ([EnterRemove(name)]
                       + ([StopRemoved] + ([Delete] + ([EnterAdd(name, size)] + []))))));
    RunCons(INITIAL, EnterAdd(name, size), [Insert] + ([CountOne] + ([Spawn] + ([EnterRemove(name)]
                                           + ([StopRemoved] + ([Delete] + ([EnterAdd(name, size)] + [])))))));
  }
}
