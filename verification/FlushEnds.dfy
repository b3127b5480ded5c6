/**
  Why and when the flush of a container's stream returns, told from what happened alone (the loop of
  `flush` in k8s/logs/container_streamer.go): the labels of a run, not its states.
*/
module FlushEnds {
  import opened Text
  import opened ContainerRun
  import opened LogLines

  /** The last label of this kind. */
  function Last(labels: seq<Label>, kind: Label -> bool): (last: Option<Label>)
    ensures last.Some? ==> kind(last.value) && last.value in labels
    ensures last.None? ==> forall l <- labels :: !kind(l)
  {
    if labels == [] then None
    else var n := |labels| - 1; if kind(labels[n]) then Some(labels[n]) else Last(labels[..n], kind)
  }

  /** A step of the streamer that decides why the flush returns, or whether it goes on. */
  predicate Decides(l: Label) {
    l.InMain? && (l.main.BeginFlush? || l.main.OpenFlush? || l.main.TakeDone? || l.main.TakeIdle? || l.main.TakeContext?)
  }

  /** A step of the loop, or the one that enters it. */
  predicate OfLoop(l: Label) {
    && l.InMain?
    && (l.main.OpenFlush? || l.main.TakeDone? || l.main.TakeLine? || l.main.TakeIdle? || l.main.TakeContext?
        || l.main.StopTimer? || l.main.ResetTimer?)
  }

  /** The idle timer fired, or was set going. */
  predicate OfTimer(l: Label) {
    l == IdleFires || l == InMain(OpenFlush(true)) || l == InMain(ResetTimer)
  }

  /** A line was signalled, or its signal taken. */
  predicate OfSignal(l: Label) {
    l == InReader(Signal) || l == InMain(TakeLine)
  }

  /** The cause that the last deciding label leaves. */
  function CauseAfter(c: Input, last: Option<Label>): Option<Cause> {
    if last == Some(InMain(TakeDone)) then Some(Done)
    else if last == Some(InMain(TakeIdle)) then Some(Idle)
    else if last == Some(InMain(TakeContext)) then Some(OutOfTime)
    else if last == Some(InMain(OpenFlush(false))) then Some(NotRun)
    else if last == Some(InMain(BeginFlush)) && !c.timeoutSet then Some(NotRun)
    else None
  }

  lemma {:induction false} RunToLast(c: Input, s: State, labels: seq<Label>)
    requires IsRun(c, s, labels) && labels != []
    ensures var n := |labels| - 1;
            && IsRun(c, s, labels[..n]) && Enabled(c, End(c, s, labels[..n]), labels[n])
            && End(c, s, labels) == Apply(c, End(c, s, labels[..n]), labels[n])
    decreases |labels|
  {
    hide Enabled, Apply;
    var n := |labels| - 1;
    if n > 0 {
      RunToLast(c, Apply(c, s, labels[0]), labels[1..]);
      assert labels[1..][..n - 1] == labels[..n][1..];
    }
  }

  // ----- What the labels say of the streamer -----

  predicate LoopTold(s: State, last: Option<Label>) {
    && (s.main == Waiting <==> last == Some(InMain(OpenFlush(true))) || last == Some(InMain(ResetTimer)))
    && (s.main == StoppingTimer <==> last == Some(InMain(TakeLine)))
    && (s.main == Resetting <==> last == Some(InMain(StopTimer)))
    && (BeforeFlush(s.main) || s.main == OpeningFlush ==> last == None)
  }

  predicate TimerTold(s: State, last: Option<Label>) {
    && (s.main == Waiting || s.main == StoppingTimer ==>
          s.flush.idle == (if last == Some(IdleFires) then Fired else Running))
    && (s.main == Resetting ==> s.flush.idle == Off)
  }

  predicate SignalTold(s: State, last: Option<Label>) {
    s.flush.lineSignal <==> last == Some(InReader(Signal))
  }

  predicate OnceTold(s: State, labels: seq<Label>) {
    && (s.flush.doneCloses > 0 <==> InReader(CloseDone) in labels)
    && (s.flush.timedOut <==> TimesOut in labels)
    && (s.closes > 0 <==> StopByOther in labels || InMain(StopSelf) in labels)
    && (InMain(StopSelf) in labels ==> Closing(s.main))
  }

  predicate CauseTold(c: Input, s: State, last: Option<Label>) {
    s.cause == CauseAfter(c, last)
  }

  /** The context is cancelled as the flush returns, whether it opened its stream or not. */
  predicate CancelTold(c: Input, s: State) {
    && (s.main == OpeningFlush || InFlush(s.main) ==> c.timeoutSet)
    && (s.flush.cancelled <==> c.timeoutSet && AfterFlush(s.main))
  }

  /** The goroutine that closes the flush stream. */
  predicate CloserTold(s: State, labels: seq<Label>) {
    && (s.flush.closer == NoCloser <==> InMain(OpenFlush(true)) !in labels)
    && (s.flush.closer == CloserGone <==> CloserStep in labels)
  }

  predicate Told(c: Input, s: State, labels: seq<Label>) {
    && LoopTold(s, Last(labels, OfLoop)) && TimerTold(s, Last(labels, OfTimer)) && SignalTold(s, Last(labels, OfSignal))
    && OnceTold(s, labels) && CauseTold(c, s, Last(labels, Decides)) && CancelTold(c, s)
    && CloserTold(s, labels)
  }

  function Next(last: Option<Label>, l: Label, kind: Label -> bool): Option<Label> {
    if kind(l) then Some(l) else last
  }

  lemma MainOnce(c: Input, s: State, l: MainStep)
    requires MainEnabled(s, l)
    ensures var t := MainApply(c, s, l);
            && t.flush.doneCloses == s.flush.doneCloses && t.flush.timedOut == s.flush.timedOut
            && (t.closes > 0 <==> s.closes > 0 || l == StopSelf)
            && (t.flush.lineSignal <==> s.flush.lineSignal && l != TakeLine)
  {
    hide NoLine, FollowedLine, FollowedTail, MainEnabled;
  }

  lemma MainCloses(c: Input, s: State, l: MainStep)
    requires MainEnabled(s, l)
    ensures l == StopSelf || Closing(s.main) ==> Closing(MainApply(c, s, l).main)
  {
    hide NoLine, FollowedLine, FollowedTail;
  }

  lemma LoopNext(c: Input, s: State, l: Label, last: Option<Label>)
    requires LoopTold(s, last) && Enabled(c, s, l) && MainInv(s)
    ensures LoopTold(Apply(c, s, l), Next(last, l, OfLoop))
  {
    hide NoLine, ReaderEnabled, ReaderApply, FollowedLine, FollowedTail, Signalled;
  }

  lemma MainTimer(c: Input, s: State, l: MainStep, last: Option<Label>)
    requires TimerTold(s, last) && MainEnabled(s, l)
    ensures TimerTold(MainApply(c, s, l), Next(last, InMain(l), OfTimer))
  {
    hide NoLine, FollowedLine, FollowedTail;
  }

  lemma TimerNext(c: Input, s: State, l: Label, last: Option<Label>)
    requires TimerTold(s, last) && Enabled(c, s, l)
    ensures TimerTold(Apply(c, s, l), Next(last, l, OfTimer))
  {
    if l.InMain? {
      MainTimer(c, s, l.main, last);
      hide TimerTold, MainEnabled, MainApply;
    } else {
      hide NoLine, ReaderEnabled, ReaderApply, MainEnabled, MainApply;
    }
  }

  lemma SignalNext(c: Input, s: State, l: Label, last: Option<Label>)
    requires SignalTold(s, last) && Enabled(c, s, l)
    ensures SignalTold(Apply(c, s, l), Next(last, l, OfSignal))
  {
    if l.InMain? {
      MainOnce(c, s, l.main);
    }
    hide NoLine, ReaderEnabled, ReaderApply, MainEnabled, MainApply;
  }

  lemma CauseNext(c: Input, s: State, l: Label, last: Option<Label>)
    requires CauseTold(c, s, last) && Enabled(c, s, l) && MainInv(s)
    ensures CauseTold(c, Apply(c, s, l), Next(last, l, Decides))
  {
    hide NoLine, ReaderEnabled, ReaderApply, FollowedLine, FollowedTail, Signalled;
  }

  /** What a step does to what happens once. */
  lemma OnceNext(c: Input, s: State, l: Label)
    requires Enabled(c, s, l)
    ensures var t := Apply(c, s, l);
            && t.flush.doneCloses == s.flush.doneCloses + (if l == InReader(CloseDone) then 1 else 0)
            && (t.flush.timedOut <==> s.flush.timedOut || l == TimesOut)
            && (t.closes > 0 <==> s.closes > 0 || l == StopByOther || l == InMain(StopSelf))
            && (l == InMain(StopSelf) || Closing(s.main) ==> Closing(t.main))
  {
    if l.InMain? {
      MainOnce(c, s, l.main);
      MainCloses(c, s, l.main);
    }
    hide NoLine, ReaderEnabled, ReaderApply, MainEnabled, MainApply, Closing;
  }

  lemma StepKeepsOnce(c: Input, s: State, labels: seq<Label>, l: Label)
    requires OnceTold(s, labels) && Enabled(c, s, l)
    ensures OnceTold(Apply(c, s, l), labels + [l])
  {
    OnceNext(c, s, l);
    hide Apply, Enabled;
  }

  lemma MainCancel(c: Input, s: State, l: MainStep)
    requires CancelTold(c, s) && MainEnabled(s, l) && MainInv(s)
    ensures CancelTold(c, MainApply(c, s, l))
  {
    hide NoLine, FollowedLine, FollowedTail;
  }

  lemma CancelNext(c: Input, s: State, l: Label)
    requires CancelTold(c, s) && Enabled(c, s, l) && MainInv(s)
    ensures CancelTold(c, Apply(c, s, l))
  {
    if l.InMain? {
      MainCancel(c, s, l.main);
      hide CancelTold, MainInv, MainEnabled, MainApply;
    } else {
      hide NoLine, ReaderEnabled, ReaderApply, MainEnabled, MainApply, MainInv;
    }
  }

  lemma MainCloser(c: Input, s: State, l: MainStep)
    requires MainEnabled(s, l) && FlushInv(s)
    ensures MainApply(c, s, l).flush.closer == if l == OpenFlush(true) then AwaitingContext else s.flush.closer
    ensures l == OpenFlush(true) ==> s.flush.closer == NoCloser
  {
    hide NoLine, FollowedLine, FollowedTail;
  }

  lemma CloserNext(c: Input, s: State, labels: seq<Label>, l: Label)
    requires CloserTold(s, labels) && Enabled(c, s, l) && FlushInv(s)
    ensures CloserTold(Apply(c, s, l), labels + [l])
  {
    if l.InMain? {
      MainCloser(c, s, l.main);
    }
    hide NoLine, ReaderEnabled, ReaderApply, MainEnabled, MainApply, FlushInv;
  }

  lemma LastNext(labels: seq<Label>, l: Label, kind: Label -> bool)
    ensures Last(labels + [l], kind) == Next(Last(labels, kind), l, kind)
  {
    assert (labels + [l])[..|labels|] == labels;
  }

  lemma StepTold(c: Input, s: State, labels: seq<Label>, l: Label)
    requires Told(c, s, labels) && Enabled(c, s, l) && MainInv(s) && FlushInv(s)
    ensures Told(c, Apply(c, s, l), labels + [l])
  {
    hide Enabled, Apply, LoopTold, TimerTold, SignalTold, OnceTold, CauseTold, CancelTold, CloserTold, MainInv, FlushInv;
    hide Last, Next;
    LastNext(labels, l, OfLoop);
    LastNext(labels, l, OfTimer);
    LastNext(labels, l, OfSignal);
    LastNext(labels, l, Decides);
    LoopNext(c, s, l, Last(labels, OfLoop));
    TimerNext(c, s, l, Last(labels, OfTimer));
    SignalNext(c, s, l, Last(labels, OfSignal));
    CauseNext(c, s, l, Last(labels, Decides));
    StepKeepsOnce(c, s, labels, l);
    CancelNext(c, s, l);
    CloserNext(c, s, labels, l);
  }

  lemma StartTold(c: Input)
    ensures Told(c, Start(c), [])
  {
  }

  lemma {:induction false} RunTold(c: Input, labels: seq<Label>)
    requires IsRun(c, Start(c), labels)
    ensures Told(c, End(c, Start(c), labels), labels) && Inv(c, End(c, Start(c), labels))
    decreases |labels|
  {
    hide Enabled, Apply, Told, ReaderInv, FlushInv, MainInv, CauseInv, FollowInv, Start, Last;
    StartInv(c);
    RunKeepsInv(c, Start(c), labels);
    if labels == [] {
      StartTold(c);
    } else {
      var n := |labels| - 1;
      RunToLast(c, Start(c), labels);
      hide IsRun, End;
      RunTold(c, labels[..n]);
      StepTold(c, End(c, Start(c), labels[..n]), labels[..n], labels[n]);
      assert labels[..n] + [labels[n]] == labels;
    }
  }

  // ----- The laws -----

  /** When each step of the loop can be taken, in terms of the state. */
  lemma LoopSteps(c: Input, s: State)
    requires FlushInv(s)
    ensures Enabled(c, s, InMain(StopTimer)) <==> s.main == StoppingTimer
    ensures Enabled(c, s, InMain(ResetTimer)) <==> s.main == Resetting
    ensures s.main == Waiting ==>
              && (Enabled(c, s, InMain(TakeDone)) <==> s.flush.doneCloses > 0)
              && (Enabled(c, s, InMain(TakeLine)) <==> s.flush.lineSignal)
              && (Enabled(c, s, InMain(TakeIdle)) <==> s.flush.idle == Fired)
              && (Enabled(c, s, InMain(TakeContext)) <==> s.flush.timedOut)
  {
  }

  /**
    Why a flush returned is its last deciding step: the end of the reader, the idle timer, the context, or
    that it was switched off or not opened. A line that is taken decides nothing.
  */
  lemma WhyItReturned(c: Input, labels: seq<Label>)
    requires IsRun(c, Start(c), labels)
    ensures var s := End(c, Start(c), labels); var last := Last(labels, Decides);
            && (s.cause == Some(Done) <==> last == Some(InMain(TakeDone)))
            && (s.cause == Some(Idle) <==> last == Some(InMain(TakeIdle)))
            && (s.cause == Some(OutOfTime) <==> last == Some(InMain(TakeContext)))
            && (s.cause == Some(NotRun) <==>
                last == Some(InMain(OpenFlush(false))) || (last == Some(InMain(BeginFlush)) && !c.timeoutSet))
            && (s.cause.Some? <==> Leaving(s.main) || AfterFlush(s.main))
            && (s.flush.cancelled <==> c.timeoutSet && AfterFlush(s.main))
  {
    RunTold(c, labels);
    hide IsRun, End, LoopTold, TimerTold, SignalTold, OnceTold, ReaderInv, FlushInv, CauseInv, FollowInv, Last;
  }

  /** The flush waits again after each line, until one of the three other cases is taken. */
  lemma GoesOnWaiting(c: Input, labels: seq<Label>)
    requires IsRun(c, Start(c), labels)
    ensures var s := End(c, Start(c), labels); var last := Last(labels, OfLoop);
            && (s.main == Waiting <==> last == Some(InMain(OpenFlush(true))) || last == Some(InMain(ResetTimer)))
            && (last == Some(InMain(TakeLine)) <==> Enabled(c, s, InMain(StopTimer)))
            && (last == Some(InMain(StopTimer)) <==> Enabled(c, s, InMain(ResetTimer)))
  {
    RunTold(c, labels);
    LoopSteps(c, End(c, Start(c), labels));
    hide IsRun, End, CauseTold, TimerTold, SignalTold, OnceTold, MainInv, FlushInv, ReaderInv, CauseInv, FollowInv;
    hide Last, Enabled, Start;
  }

  /**
    What a waiting flush can take: the end of its reader once that ended, a line signalled since the last
    was taken, the idle timer if it fired since the flush began or the last line was taken, and the
    context once its time is up.
  */
  lemma WhatItTakes(c: Input, labels: seq<Label>)
    requires IsRun(c, Start(c), labels) && End(c, Start(c), labels).main == Waiting
    ensures var s := End(c, Start(c), labels);
            && (Enabled(c, s, InMain(TakeDone)) <==> InReader(CloseDone) in labels)
            && (Enabled(c, s, InMain(TakeLine)) <==> Last(labels, OfSignal) == Some(InReader(Signal)))
            && (Enabled(c, s, InMain(TakeIdle)) <==> Last(labels, OfTimer) == Some(IdleFires))
            && (Enabled(c, s, InMain(TakeContext)) <==> TimesOut in labels)
  {
    RunTold(c, labels);
    LoopSteps(c, End(c, Start(c), labels));
    hide IsRun, End, CauseTold, LoopTold, MainInv, FlushInv, ReaderInv, CauseInv, FollowInv, Last, Enabled, Start;
  }

  /** A stop is seen exactly by a select after it. */
  lemma SelectSeesStop(c: Input, labels: seq<Label>)
    requires IsRun(c, Start(c), labels) && Enabled(c, End(c, Start(c), labels), InMain(Select))
    ensures var t := Apply(c, End(c, Start(c), labels), InMain(Select));
            && (StopByOther in labels ==> t.main == AtStop && Enabled(c, t, InMain(BeginFlush)))
            && (StopByOther !in labels ==> t.main == Following && !Enabled(c, t, InMain(BeginFlush)))
  {
    RunTold(c, labels);
    hide IsRun, End, CauseTold, LoopTold, TimerTold, SignalTold, Inv, Last;
  }

  /**
    The goroutine that closes the flush stream goes on exactly once the time is up or the flush has returned,
    so it is not left waiting. The time runs until the flush returns.
  */
  lemma CloserGoesOn(c: Input, labels: seq<Label>)
    requires IsRun(c, Start(c), labels)
    ensures var s := End(c, Start(c), labels); var begun := InMain(OpenFlush(true)) in labels;
            && (Enabled(c, s, CloserStep) <==>
                begun && CloserStep !in labels && (TimesOut in labels || AfterFlush(s.main)))
            && (Enabled(c, s, TimesOut) <==> begun && !AfterFlush(s.main))
  {
    RunTold(c, labels);
    CloserAt(c, End(c, Start(c), labels));
    hide IsRun, End, LoopTold, TimerTold, SignalTold, CauseTold, Last, MainInv, FlushInv, ReaderInv, CauseInv, FollowInv;
    hide Enabled, Start;
  }

  lemma CloserAt(c: Input, s: State)
    requires FlushInv(s) && CancelTold(c, s)
    ensures Enabled(c, s, CloserStep) <==>
            s.flush.closer == AwaitingContext && (s.flush.timedOut || AfterFlush(s.main))
    ensures Enabled(c, s, TimesOut) <==> s.flush.closer != NoCloser && !AfterFlush(s.main)
  {
  }

  /**
    What the reader of the flush does next: with a line in its buffer it takes that; without, it waits for
    more text while the stream is open and some is left, and fails otherwise. It is never stuck before its end.
  */
  lemma ReaderGoesOn(c: Input, labels: seq<Label>, count: nat)
    requires IsRun(c, Start(c), labels) && End(c, Start(c), labels).reader.pc == Reading
    ensures var s := End(c, Start(c), labels); var r := s.reader;
            && InBuffer(c.stream, r)
            && var line, open := '\n' in Buffered(c.stream, r), !s.flush.streamClosed && r.fetched < |c.stream|;
               && (Enabled(c, s, InReader(ReadLine)) <==> line)
               && (Enabled(c, s, InReader(Fetch(count))) <==> !line && open && 0 < count <= |c.stream| - r.fetched)
               && (Enabled(c, s, InReader(ReadFails)) <==> !line && !open)
  {
    RunTold(c, labels);
    ReaderAt(c, End(c, Start(c), labels), count);
    hide IsRun, End, Told, MainInv, FlushInv, CauseInv, FollowInv, Enabled, Start, Lines, Ended;
  }

  lemma ReaderAt(c: Input, s: State, count: nat)
    requires InBuffer(c.stream, s.reader) && s.reader.pc == Reading
    ensures var r := s.reader; var line := '\n' in Buffered(c.stream, r);
            var open := !s.flush.streamClosed && r.fetched < |c.stream|;
            && (Enabled(c, s, InReader(ReadLine)) <==> line)
            && (Enabled(c, s, InReader(Fetch(count))) <==> !line && open && 0 < count <= |c.stream| - r.fetched)
            && (Enabled(c, s, InReader(ReadFails)) <==> !line && !open)
  {
  }
}
