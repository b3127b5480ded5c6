/**
  Stopping a streamer (`Stop` and `init` of k8s/logs/pod_streamer.go and k8s/logs/container_streamer.go)
  under any number of concurrent callers: make the channel once, lock, look whether the channel is
  closed, close it if not, unlock. A step is one of these, by one caller.
*/
module StopOnce {
  import opened Text

  datatype Pc = Arriving | Locking | Testing | Closing | Unlocking | Returned

  /** `made` counts channels made, `panicked` records a second close. */
  datatype State = State(callers: seq<Pc>, made: nat, holder: Option<nat>, closes: nat, panicked: bool)

  datatype Label = Call | Step(caller: nat)

  const INITIAL := State([], 0, None, 0, false)

  predicate Enabled(s: State, l: Label) {
    match l
    case Call => true
    case Step(i) =>
      && i < |s.callers| && !s.panicked && s.callers[i] != Returned
      && (s.callers[i] == Locking ==> s.holder == None)
  }

  function Move(s: State, i: nat, pc: Pc): State
    requires i < |s.callers|
  {
    s.(callers := s.callers[i := pc])
  }

  function Apply(s: State, l: Label): State
    requires Enabled(s, l)
  {
    match l
    case Call => s.(callers := s.callers + [Arriving])
    case Step(i) =>
      match s.callers[i]
      case Arriving => Move(s, i, Locking).(made := if s.made == 0 then 1 else s.made)
      case Locking => Move(s, i, Testing).(holder := Some(i))
      case Testing => Move(s, i, if s.closes > 0 then Unlocking else Closing)
      case Closing => Move(s, i, Unlocking).(closes := s.closes + 1, panicked := s.closes > 0)
      case Unlocking => Move(s, i, Returned).(holder := None)
  }

  predicate IsRun(s: State, labels: seq<Label>)
    decreases |labels|
  {
    labels == [] || (Enabled(s, labels[0]) && IsRun(Apply(s, labels[0]), labels[1..]))
  }

  function End(s: State, labels: seq<Label>): State
    requires IsRun(s, labels)
    decreases |labels|
  {
    if labels == [] then s else End(Apply(s, labels[0]), labels[1..])
  }

  predicate Inside(pc: Pc) {
    pc == Testing || pc == Closing || pc == Unlocking
  }

  predicate Inv(s: State) {
    && !s.panicked && s.closes <= 1 && s.made <= 1
    && (s.holder.Some? ==> s.holder.value < |s.callers| && Inside(s.callers[s.holder.value]))
    && forall i | 0 <= i < |s.callers| ::
         && (Inside(s.callers[i]) ==> s.holder == Some(i))
         && (s.callers[i] == Closing ==> s.closes == 0)
         && (s.callers[i] in {Unlocking, Returned} ==> s.closes == 1)
         && (s.callers[i] != Arriving ==> s.made == 1)
  }

  predicate Past(pc: Pc) {
    pc == Unlocking || pc == Returned
  }

  /** Only a call closes the channel, and only a call makes it. */
  predicate ByCalls(s: State) {
    && (s.closes > 0 ==> exists i :: 0 <= i < |s.callers| && Past(s.callers[i]))
    && (s.made > 0 ==> exists i :: 0 <= i < |s.callers| && s.callers[i] != Arriving)
  }

  lemma StepKeepsInv(s: State, l: Label)
    requires Inv(s) && Enabled(s, l)
    ensures Inv(Apply(s, l))
  {
  }

  lemma StepKeepsByCalls(s: State, l: Label)
    requires ByCalls(s) && Enabled(s, l)
    ensures ByCalls(Apply(s, l))
  {
    var t := Apply(s, l);
    if l.Step? && t.closes > 0 {
      var i :| 0 <= i < |t.callers| && (if s.closes > 0 then Past(s.callers[i]) else i == l.caller);
      assert Past(t.callers[i]);
    } else if t.closes > 0 {
      var i :| 0 <= i < |s.callers| && Past(s.callers[i]);
      assert Past(t.callers[i]);
    }
    if t.made > 0 {
      var i :| 0 <= i < |s.callers| && (s.callers[i] != Arriving || (l.Step? && i == l.caller));
      assert t.callers[i] != Arriving;
    }
  }

  function Calls(labels: seq<Label>): nat {
    if labels == [] then 0 else (if labels[0] == Call then 1 else 0) + Calls(labels[1..])
  }

  lemma {:induction false} RunKeepsInv(s: State, labels: seq<Label>)
    requires Inv(s) && ByCalls(s) && IsRun(s, labels)
    ensures Inv(End(s, labels)) && ByCalls(End(s, labels))
    ensures |End(s, labels).callers| == |s.callers| + Calls(labels)
    decreases |labels|
  {
    if labels != [] {
      StepKeepsInv(s, labels[0]);
      StepKeepsByCalls(s, labels[0]);
      assert |Apply(s, labels[0]).callers| == |s.callers| + if labels[0] == Call then 1 else 0;
      hide Inv, ByCalls, Enabled, Apply;
      RunKeepsInv(Apply(s, labels[0]), labels[1..]);
    }
  }

  /**
    However many callers stop a streamer at once: one channel is made, by the calls, and it is never closed
    twice. It is closed exactly if some call got past its test, so when any of them returns, and while a
    call has not returned some call can go on. Another call can always be made.
  */
  lemma ClosedOnce(labels: seq<Label>)
    requires IsRun(INITIAL, labels)
    ensures var s := End(INITIAL, labels);
            && !s.panicked && s.closes <= 1 && s.made <= 1 && (Closing in s.callers ==> s.closes == 0)
            && |s.callers| == Calls(labels) && Enabled(s, Call)
            && (s.closes == 1 <==> exists i :: 0 <= i < |s.callers| && Past(s.callers[i]))
            && (s.made == 1 <==> exists i :: 0 <= i < |s.callers| && s.callers[i] != Arriving)
            && ((exists i :: 0 <= i < |s.callers| && s.callers[i] != Returned) ==> exists i :: Enabled(s, Step(i)))
  {
    var s := End(INITIAL, labels);
    RunKeepsInv(INITIAL, labels);
    if i :| 0 <= i < |s.callers| && s.callers[i] != Returned {
      assert Enabled(s, Step(if s.holder.Some? then s.holder.value else i));
    }
  }

  /** Steps left of one call. */
  function Left(pc: Pc): nat {
    match pc
    case Arriving => 5
    case Locking => 4
    case Testing => 3
    case Closing => 2
    case Unlocking => 1
    case Returned => 0
  }

  function AllLeft(callers: seq<Pc>): nat {
    if callers == [] then 0 else Left(callers[0]) + AllLeft(callers[1..])
  }

  lemma {:induction false} AllLeftMoves(callers: seq<Pc>, i: nat, pc: Pc)
    requires i < |callers|
    ensures AllLeft(callers[i := pc]) == AllLeft(callers) - Left(callers[i]) + Left(pc)
  {
    if i > 0 {
      AllLeftMoves(callers[1..], i - 1, pc);
      assert callers[i := pc][1..] == callers[1..][i - 1 := pc];
    } else {
      assert callers[i := pc][1..] == callers[1..];
    }
  }

  predicate NoCalls(labels: seq<Label>) {
    forall l <- labels :: l.Step?
  }

  /** The calls that have arrived take at most five steps each, in any order: no call is kept waiting for ever. */
  lemma {:induction false} CallsReturn(s: State, labels: seq<Label>)
    requires IsRun(s, labels) && NoCalls(labels)
    ensures |labels| <= AllLeft(s.callers)
    decreases |labels|
  {
    if labels != [] {
      var l := labels[0];
      assert l in labels;
      var next := Apply(s, l);
      AllLeftMoves(s.callers, l.caller, next.callers[l.caller]);
      CallsReturn(next, labels[1..]);
    }
  }
}
