/**
  The goroutines of one container's stream (k8s/logs/container_streamer.go, from the opened follow
  stream on): the streamer itself, and, once its `flush` runs, the reader of the flush stream, the
  goroutine that closes that stream when the context is done, and two timers.

  A stream is the text it delivers before it ends, with an EOF or another error. A label is one atomic
  step of one goroutine, of a timer, or of another goroutine's `Stop`.
*/
module ContainerRun {
  import opened Text
  import opened LogLines

  /** The streamer; `AtStop` and `AtEnd` are the two calls of `flush`, `Leaving...` its deferred calls. */
  datatype Main =
    | Selecting
    | Following
    | AtStop
    | AtEnd
    | OpeningFlush
    | Waiting
    | StoppingTimer
    | Resetting
    | LeavingTimer
    | LeavingStream
    | LeavingContext
    | StoppingSelf
    | ClosingFollow
    | ClosingWriter
    | Returned

  /** Why `flush` returned; `NotRun` is switched off or not opened. */
  datatype Cause = NotRun | Done | Idle | OutOfTime

  /** The reader goroutine of `flush`; `Writing` has a line, or the tail with the error that ended it. */
  datatype ReaderPc = NotStarted | Reading | Writing(line: string, failed: bool) | Signalling | ClosingDone | Gone

  datatype CloserPc = NoCloser | AwaitingContext | CloserGone

  /** What does not change: the text of both streams, and whether a flush timeout is set. */
  datatype Input = Input(follow: string, stream: string, timeoutSet: bool)

  /** What is left of a stream's text, and the lines written of it. */
  datatype Follower = Follower(rest: string, written: seq<string>)

  /** `fetched` is how much of the flush stream is in the buffer, `pos` how much `ReadString` returned of that. */
  datatype Reader = Reader(pc: ReaderPc, fetched: nat, pos: nat, written: seq<string>)

  /** The idle timer: counting down, or expired with its value not received. */
  datatype Timer = Off | Running | Fired

  /** The channels and the context of the flush. */
  datatype Flush = Flush(streamClosed: bool, lineSignal: bool, doneCloses: nat, closer: CloserPc,
                         timedOut: bool, cancelled: bool, idle: Timer)

  datatype State = State(main: Main, follower: Follower, closes: nat, flushes: nat, ended: bool, cause: Option<Cause>,
                         writerCloses: nat, reader: Reader, flush: Flush)

  /** Steps of the streamer. */
  datatype MainStep =
    | Select
    | FollowLine
    | FollowEnds
    | BeginFlush
    | OpenFlush(ok: bool)
    | TakeDone
    | TakeLine
    | TakeIdle
    | TakeContext
    | StopTimer
    | ResetTimer
    | LeaveTimer
    | LeaveStream
    | LeaveContext
    | StopSelf
    | CloseFollow
    | CloseWriter

  /** Steps of the reader goroutine. */
  datatype ReaderStep = Fetch(count: nat) | ReadLine | ReadFails | WriteStep | Signal | CloseDone

  datatype Label =
    | InMain(main: MainStep)
    | InReader(reader: ReaderStep)
    | StopByOther
    | CloserStep
    | IdleFires
    | TimesOut

  function Start(c: Input): State {
    State(Selecting, Follower(c.follow, []), 0, 0, false, None, 0, Reader(NotStarted, 0, 0, []),
          Flush(false, false, 0, NoCloser, false, false, Off))
  }

  /** The context of the flush is done: timed out, or cancelled by the deferred call. */
  predicate ContextDone(f: Flush) {
    f.timedOut || f.cancelled
  }

  predicate NoLine(text: string) {
    FirstNewline(text) == |text|
  }

  /** A tail is written unless it is empty. */
  function Tail(text: string): seq<string> {
    if text == "" then [] else [text]
  }

  // ----- Following -----

  function FollowedLine(f: Follower): Follower
    requires !NoLine(f.rest)
  {
    var n := FirstNewline(f.rest);
    Follower(f.rest[n + 1..], f.written + [f.rest[..n]])
  }

  function FollowedTail(f: Follower): Follower {
    Follower("", f.written + Tail(f.rest))
  }

  // ----- The reader of the flush stream -----

  predicate InBuffer(stream: string, r: Reader) {
    r.pos <= r.fetched <= |stream|
  }

  /** What the reader's buffer still holds. */
  function Buffered(stream: string, r: Reader): string
    requires InBuffer(stream, r)
  {
    stream[r.pos..r.fetched]
  }

  /** `Signal` is a send that does not wait: it fills the one slot of the channel or does nothing. */
  predicate ReaderEnabled(stream: string, r: Reader, closed: bool, l: ReaderStep) {
    InBuffer(stream, r)
    && match l
       case Fetch(count) =>
         r.pc == Reading && !closed && NoLine(Buffered(stream, r)) && 0 < count && r.fetched + count <= |stream|
       case ReadLine => r.pc == Reading && !NoLine(Buffered(stream, r))
       case ReadFails => r.pc == Reading && NoLine(Buffered(stream, r)) && (closed || r.fetched == |stream|)
       case WriteStep => r.pc.Writing?
       case Signal => r.pc == Signalling
       case CloseDone => r.pc == ClosingDone
  }

  function ReaderApply(stream: string, r: Reader, closed: bool, l: ReaderStep): Reader
    requires ReaderEnabled(stream, r, closed, l)
  {
    match l
    case Fetch(count) => r.(fetched := r.fetched + count)
    case ReadLine =>
      var n := FirstNewline(Buffered(stream, r));
      r.(pc := Writing(Buffered(stream, r)[..n], false), pos := r.pos + n + 1)
    case ReadFails => r.(pc := Writing(Buffered(stream, r), true), pos := r.fetched)
    case WriteStep =>
      if r.pc.failed then r.(written := r.written + Tail(r.pc.line), pc := ClosingDone)
      else r.(written := r.written + [r.pc.line], pc := Signalling)
    case Signal => r.(pc := Reading)
    case CloseDone => r.(pc := Gone)
  }

  // ----- The streamer -----

  predicate MainEnabled(s: State, l: MainStep) {
    match l
    case Select => s.main == Selecting
    case FollowLine => s.main == Following && !NoLine(s.follower.rest)
    case FollowEnds => s.main == Following && NoLine(s.follower.rest)
    case BeginFlush => s.main == AtStop || s.main == AtEnd
    case OpenFlush(_) => s.main == OpeningFlush
    case TakeDone => s.main == Waiting && s.flush.doneCloses > 0
    case TakeLine => s.main == Waiting && s.flush.lineSignal
    case TakeIdle => s.main == Waiting && s.flush.idle == Fired
    case TakeContext => s.main == Waiting && ContextDone(s.flush)
    case StopTimer => s.main == StoppingTimer
    case ResetTimer => s.main == Resetting
    case LeaveTimer => s.main == LeavingTimer
    case LeaveStream => s.main == LeavingStream
    case LeaveContext => s.main == LeavingContext
    case StopSelf => s.main == StoppingSelf
    case CloseFollow => s.main == ClosingFollow
    case CloseWriter => s.main == ClosingWriter
  }

  /** `flush` returns to the call it came from. */
  function BackFromFlush(s: State): State {
    s.(main := if s.ended then StoppingSelf else ClosingFollow)
  }

  function StopOnce(s: State): State {
    if s.closes > 0 then s else s.(closes := 1)
  }

  function MainApply(c: Input, s: State, l: MainStep): State
    requires MainEnabled(s, l)
  {
    var f := s.flush;
    match l
    case Select => s.(main := if s.closes > 0 then AtStop else Following)
    case FollowLine => s.(main := Selecting, follower := FollowedLine(s.follower))
    case FollowEnds => s.(main := AtEnd, follower := FollowedTail(s.follower))
    case BeginFlush =>
      var begun := s.(flushes := s.flushes + 1, ended := s.main == AtEnd);
      if c.timeoutSet then begun.(main := OpeningFlush) else BackFromFlush(begun.(cause := Some(NotRun)))
    case OpenFlush(false) => BackFromFlush(s.(cause := Some(NotRun), flush := f.(cancelled := true)))
    case OpenFlush(true) =>
      s.(main := Waiting, reader := s.reader.(pc := Reading), flush := f.(closer := AwaitingContext, idle := Running))
    case TakeDone => s.(main := LeavingTimer, cause := Some(Done))
    case TakeLine => s.(main := StoppingTimer, flush := f.(lineSignal := false))
    case TakeIdle => s.(main := LeavingTimer, cause := Some(Idle), flush := f.(idle := Off))
    case TakeContext => s.(main := LeavingTimer, cause := Some(OutOfTime))
    case StopTimer => s.(main := Resetting, flush := f.(idle := Off))
    case ResetTimer => s.(main := Waiting, flush := f.(idle := Running))
    case LeaveTimer => s.(main := LeavingStream, flush := f.(idle := Off))
    case LeaveStream => s.(main := LeavingContext, flush := f.(streamClosed := true))
    case LeaveContext => BackFromFlush(s.(flush := f.(cancelled := true)))
    case StopSelf => StopOnce(s).(main := ClosingFollow)
    case CloseFollow => s.(main := ClosingWriter)
    case CloseWriter => s.(main := Returned, writerCloses := s.writerCloses + 1)
  }

  // ----- All goroutines -----

  predicate Enabled(c: Input, s: State, l: Label) {
    match l
    case InMain(step) => MainEnabled(s, step)
    case InReader(step) => ReaderEnabled(c.stream, s.reader, s.flush.streamClosed, step)
    case StopByOther => true
    case CloserStep => s.flush.closer == AwaitingContext && ContextDone(s.flush)
    case IdleFires => s.flush.idle == Running
    case TimesOut => s.flush.closer != NoCloser && !s.flush.cancelled
  }

  /** What a step of the reader does to the channels. */
  function Signalled(f: Flush, l: ReaderStep): Flush {
    match l
    case Signal => f.(lineSignal := true)
    case CloseDone => f.(doneCloses := f.doneCloses + 1)
    case _ => f
  }

  function Apply(c: Input, s: State, l: Label): State
    requires Enabled(c, s, l)
  {
    match l
    case InMain(step) => MainApply(c, s, step)
    case InReader(step) =>
      s.(reader := ReaderApply(c.stream, s.reader, s.flush.streamClosed, step), flush := Signalled(s.flush, step))
    case StopByOther => StopOnce(s)
    case CloserStep => s.(flush := s.flush.(closer := CloserGone, streamClosed := true))
    case IdleFires => s.(flush := s.flush.(idle := Fired))
    case TimesOut => s.(flush := s.flush.(timedOut := true))
  }

  predicate IsRun(c: Input, s: State, labels: seq<Label>)
    decreases |labels|
  {
    labels == [] || (Enabled(c, s, labels[0]) && IsRun(c, Apply(c, s, labels[0]), labels[1..]))
  }

  function End(c: Input, s: State, labels: seq<Label>): State
    requires IsRun(c, s, labels)
    decreases |labels|
  {
    if labels == [] then s else End(c, Apply(c, s, labels[0]), labels[1..])
  }

  // ----- The invariant -----

  predicate BeforeFlush(m: Main) {
    m == Selecting || m == Following || m == AtStop || m == AtEnd
  }

  predicate InFlush(m: Main) {
    m == Waiting || m == StoppingTimer || m == Resetting || Leaving(m)
  }

  predicate Leaving(m: Main) {
    m == LeavingTimer || m == LeavingStream || m == LeavingContext
  }

  predicate AfterFlush(m: Main) {
    m == StoppingSelf || Closing(m)
  }

  predicate Closing(m: Main) {
    m == ClosingFollow || m == ClosingWriter || m == Returned
  }

  /** The streamer: one flush, and what it knows before and after it. */
  predicate MainInv(s: State) {
    && s.closes <= 1
    && s.flushes == (if BeforeFlush(s.main) then 0 else 1)
    && (s.main == AtStop ==> s.closes == 1)
    && (s.main == AtEnd || s.ended ==> s.follower.rest == "")
    && (s.ended ==> s.flushes == 1)
    && (s.flushes == 1 && !s.ended ==> s.closes == 1)
    && (s.main == StoppingSelf ==> s.ended)
    && (Closing(s.main) ==> s.closes == 1)
    && s.writerCloses == (if s.main == Returned then 1 else 0)
    && (s.cause.Some? <==> Leaving(s.main) || AfterFlush(s.main))
  }

  /** The flush's goroutines and timers run only once it opened its stream; its reader closes `doneCh` last. */
  predicate FlushInv(s: State) {
    var f := s.flush;
    && (s.reader.pc == NotStarted <==> f.closer == NoCloser)
    && (s.reader.pc == NotStarted <==> BeforeFlush(s.main) || s.main == OpeningFlush || s.cause == Some(NotRun))
    && (InFlush(s.main) ==> s.reader.pc != NotStarted)
    && (f.cancelled ==> AfterFlush(s.main))
    && (s.reader.pc == NotStarted ==> !f.streamClosed && !f.timedOut)
    && f.doneCloses == (if s.reader.pc == Gone then 1 else 0)
    && (f.idle != Off ==> s.main == Waiting || s.main == StoppingTimer || s.main == LeavingTimer)
    && (f.streamClosed ==> f.timedOut || s.main == LeavingContext || AfterFlush(s.main))
    && (s.reader.pc != NotStarted && AfterFlush(s.main) ==> f.streamClosed && f.cancelled)
    && (s.main == LeavingContext ==> f.streamClosed)
  }

  lemma MainKeepsMain(c: Input, s: State, l: MainStep)
    requires MainInv(s) && MainEnabled(s, l)
    ensures MainInv(MainApply(c, s, l))
  {
    hide NoLine, FollowedLine, Tail;
  }

  lemma MainKeepsFlush(c: Input, s: State, l: MainStep)
    requires MainInv(s) && FlushInv(s) && MainEnabled(s, l)
    ensures FlushInv(MainApply(c, s, l))
  {
    hide NoLine, FollowedLine, FollowedTail;
  }

  lemma OthersKeepFlush(c: Input, s: State, l: Label)
    requires MainInv(s) && FlushInv(s) && Enabled(c, s, l) && !l.InMain?
    ensures MainInv(Apply(c, s, l)) && FlushInv(Apply(c, s, l))
  {
    hide NoLine, Buffered, InBuffer, Tail;
  }

  /** The reader has read everything its stream gave: the stream had ended or was closed. */
  predicate ReadAll(stream: string, r: Reader, closed: bool) {
    r.pos == r.fetched && (closed || r.fetched == |stream|)
  }

  /** What was written, and what is about to be, are the lines of what was read. */
  predicate ReaderInv(stream: string, r: Reader, closed: bool) {
    InBuffer(stream, r)
    && var done := stream[..r.pos];
       match r.pc
       case NotStarted => r.fetched == 0 && r.written == []
       case Reading => Ended(done) && r.written == Lines(done)
       case Signalling => Ended(done) && r.written == Lines(done)
       case Writing(line, false) => Ended(done) && r.written + [line] == Lines(done)
       case Writing(line, true) => r.written + Tail(line) == Lines(done) && ReadAll(stream, r, closed)
       case ClosingDone => r.written == Lines(done) && ReadAll(stream, r, closed)
       case Gone => r.written == Lines(done) && ReadAll(stream, r, closed)
  }

  lemma LineTaken(s: string, from: nat, to: nat, n: nat)
    requires from + n < to <= |s| && s[from..to][n] == '\n'
    ensures var next := from + n + 1; Ended(s[..next]) && s[..next] == s[..from] + (s[from..to][..n] + "\n" + "")
  {
    var next := from + n + 1;
    assert s[..next][next - 1] == s[from..to][n];
    assert s[..next] == s[..from] + s[from..next];
    assert s[from..to][..n] == s[from..next][..n];
    CutAt(s[from..next], n, '\n');
    assert s[from..next][n + 1..] == "";
  }

  lemma LineJoined(done: string, line: string, next: string)
    requires Ended(done) && '\n' !in line && next == done + (line + "\n" + "")
    ensures Lines(next) == Lines(done) + [line]
  {
    assert Lines("") == [];
    hide *;
    LinesJoin(done, line + "\n" + "");
    LinesCons(line, "");
  }

  lemma ReadsLine(stream: string, r: Reader)
    requires InBuffer(stream, r) && Ended(stream[..r.pos]) && !NoLine(Buffered(stream, r))
    ensures var n := FirstNewline(Buffered(stream, r)); var next := r.pos + n + 1;
            && next <= r.fetched && Ended(stream[..next])
            && Lines(stream[..next]) == Lines(stream[..r.pos]) + [Buffered(stream, r)[..n]]
  {
    var n := FirstNewline(Buffered(stream, r));
    LineTaken(stream, r.pos, r.fetched, n);
    hide FirstNewline, Lines, Ended;
    LineJoined(stream[..r.pos], Buffered(stream, r)[..n], stream[..r.pos + n + 1]);
  }

  lemma ReadsTail(stream: string, r: Reader)
    requires InBuffer(stream, r) && Ended(stream[..r.pos]) && NoLine(Buffered(stream, r))
    ensures Lines(stream[..r.fetched]) == Lines(stream[..r.pos]) + Tail(Buffered(stream, r))
  {
    assert stream[..r.fetched] == stream[..r.pos] + Buffered(stream, r);
    LinesJoin(stream[..r.pos], Buffered(stream, r));
  }

  lemma ReaderReads(stream: string, r: Reader, closed: bool, l: ReaderStep)
    requires ReaderInv(stream, r, closed) && ReaderEnabled(stream, r, closed, l) && (l == ReadLine || l == ReadFails)
    ensures ReaderInv(stream, ReaderApply(stream, r, closed, l), closed)
  {
    if l == ReadLine {
      ReadsLine(stream, r);
    } else {
      ReadsTail(stream, r);
    }
    hide NoLine, Ended, Lines, FirstNewline, Tail;
  }

  lemma ReaderKeeps(stream: string, r: Reader, closed: bool, l: ReaderStep)
    requires ReaderInv(stream, r, closed) && ReaderEnabled(stream, r, closed, l)
    ensures ReaderInv(stream, ReaderApply(stream, r, closed, l), closed)
  {
    if l == ReadLine || l == ReadFails {
      ReaderReads(stream, r, closed, l);
    } else {
      hide NoLine, Ended, Lines, Tail;
    }
  }

  lemma ReaderStarts(stream: string, r: Reader, closed: bool)
    requires ReaderInv(stream, r, closed)
    ensures ReaderInv(stream, r, true)
    ensures r.pc == NotStarted ==> ReaderInv(stream, r.(pc := Reading), closed)
  {
    assert stream[..0] == "";
  }

  lemma FollowerKeeps(f: Follower)
    ensures !NoLine(f.rest) ==>
              FollowedLine(f).written + Lines(FollowedLine(f).rest) == f.written + Lines(f.rest)
    ensures NoLine(f.rest) ==> FollowedTail(f).written + Lines(FollowedTail(f).rest) == f.written + Lines(f.rest)
  {
    FirstLine(f.rest);
    FirstLine("");
    hide Lines, FirstNewline;
    var n := FirstNewline(f.rest);
    assert n < |f.rest| ==> f.rest[..n + 1][..n] == f.rest[..n];
    assert n < |f.rest| ==> Lines(f.rest) == Lines(f.rest)[..1] + Lines(f.rest)[1..];
  }

  /** Why it returned: `doneCh` was closed, and with time left only because the stream had ended. */
  predicate CauseInv(c: Input, s: State) {
    && (s.cause == Some(Done) ==> s.reader.pc == Gone && (s.reader.fetched == |c.stream| || s.flush.timedOut))
    && (s.cause == Some(OutOfTime) ==> s.flush.timedOut)
  }

  predicate FollowInv(c: Input, s: State) {
    s.follower.written + Lines(s.follower.rest) == Lines(c.follow)
  }

  predicate Inv(c: Input, s: State) {
    MainInv(s) && FlushInv(s) && ReaderInv(c.stream, s.reader, s.flush.streamClosed) && CauseInv(c, s) && FollowInv(c, s)
  }

  lemma StartInv(c: Input)
    ensures Inv(c, Start(c))
  {
  }

  /** What the streamer's steps leave of the reader and of what was followed. */
  lemma MainFacts(c: Input, s: State, l: MainStep)
    requires FlushInv(s) && MainEnabled(s, l)
    ensures var t := MainApply(c, s, l);
            && t.reader == (if l == OpenFlush(true) then s.reader.(pc := Reading) else s.reader)
            && (l == OpenFlush(true) ==> s.reader.pc == NotStarted)
            && (s.flush.streamClosed ==> t.flush.streamClosed)
            && t.follower == (match l
                              case FollowLine => FollowedLine(s.follower)
                              case FollowEnds => FollowedTail(s.follower)
                              case _ => s.follower)
  {
    hide NoLine, FollowedLine, FollowedTail;
  }

  lemma StepKeepsReader(c: Input, s: State, l: Label)
    requires Inv(c, s) && Enabled(c, s, l)
    ensures ReaderInv(c.stream, Apply(c, s, l).reader, Apply(c, s, l).flush.streamClosed)
  {
    hide ReaderInv, MainInv, CauseInv, FollowInv, MainApply, ReaderApply, MainEnabled, ReaderEnabled;
    match l {
      case InReader(step) => ReaderKeeps(c.stream, s.reader, s.flush.streamClosed, step);
      case InMain(step) =>
        MainFacts(c, s, step);
        ReaderStarts(c.stream, s.reader, s.flush.streamClosed);
        ReaderStarts(c.stream, Apply(c, s, l).reader, s.flush.streamClosed);
      case _ => ReaderStarts(c.stream, s.reader, s.flush.streamClosed);
    }
  }

  lemma MainKeepsCause(c: Input, s: State, l: MainStep)
    requires Inv(c, s) && MainEnabled(s, l)
    ensures CauseInv(c, MainApply(c, s, l))
  {
    hide NoLine, FollowedLine, FollowedTail, Tail, FollowInv, Lines, Ended;
  }

  lemma OthersKeepCause(c: Input, s: State, l: Label)
    requires Inv(c, s) && Enabled(c, s, l) && !l.InMain?
    ensures CauseInv(c, Apply(c, s, l))
  {
    hide NoLine, Tail, FollowInv, Lines, Ended, FlushInv, MainInv, ReaderInv;
  }

  lemma StepKeepsFollow(c: Input, s: State, l: Label)
    requires Inv(c, s) && Enabled(c, s, l)
    ensures FollowInv(c, Apply(c, s, l))
  {
    hide ReaderInv, MainInv, CauseInv, Lines, MainApply, ReaderApply, FollowedLine, FollowedTail;
    if l.InMain? {
      MainFacts(c, s, l.main);
      FollowerKeeps(s.follower);
    }
  }

  lemma StepKeepsInv(c: Input, s: State, l: Label)
    requires Inv(c, s) && Enabled(c, s, l)
    ensures Inv(c, Apply(c, s, l))
  {
    match l {
      case InMain(step) =>
        MainKeepsMain(c, s, step);
        MainKeepsFlush(c, s, step);
        MainKeepsCause(c, s, step);
      case _ =>
        OthersKeepFlush(c, s, l);
        OthersKeepCause(c, s, l);
    }
    StepKeepsReader(c, s, l);
    StepKeepsFollow(c, s, l);
    hide MainInv, FlushInv, ReaderInv, CauseInv, FollowInv, MainApply, ReaderApply;
  }

  lemma {:induction false} RunKeepsInv(c: Input, s: State, labels: seq<Label>)
    requires Inv(c, s) && IsRun(c, s, labels)
    ensures Inv(c, End(c, s, labels))
    decreases |labels|
  {
    hide Inv, Enabled, Apply;
    if labels != [] {
      StepKeepsInv(c, s, labels[0]);
      RunKeepsInv(c, Apply(c, s, labels[0]), labels[1..]);
    }
  }

  // ----- What holds in every run -----

  /**
    Whether a stop or the end of the follow stream came first, `flush` is called exactly once by the
    time the stream returns, and no channel is closed twice.
  */
  lemma FlushesOnce(c: Input, labels: seq<Label>)
    requires IsRun(c, Start(c), labels)
    ensures var s := End(c, Start(c), labels);
            && s.flushes <= 1 && s.closes <= 1 && s.flush.doneCloses <= 1 && s.writerCloses <= 1
            && (s.main == Returned ==> s.flushes == 1 && s.closes == 1 && s.writerCloses == 1)
            && (s.flush.doneCloses == 1 <==> s.reader.pc == Gone)
  {
    StartInv(c);
    RunKeepsInv(c, Start(c), labels);
    hide IsRun, End, ReaderInv, FollowInv, CauseInv;
  }

  lemma StepAfterFlushBegan(c: Input, s: State, l: Label)
    requires Inv(c, s) && s.flushes == 1 && Enabled(c, s, l)
    ensures Apply(c, s, l).follower == s.follower && Apply(c, s, l).flushes == 1
  {
    hide NoLine, ReaderApply, ReaderEnabled, ReaderInv, FollowInv, CauseInv, Signalled;
  }

  /** Once the flush began, nothing more of the follow stream is written. */
  lemma {:induction false} NothingFollowedAfter(c: Input, s: State, labels: seq<Label>)
    requires Inv(c, s) && s.flushes == 1 && IsRun(c, s, labels)
    ensures End(c, s, labels).follower == s.follower
    decreases |labels|
  {
    if labels != [] {
      StepAfterFlushBegan(c, s, labels[0]);
      StepKeepsInv(c, s, labels[0]);
      hide Inv, Enabled, Apply;
      NothingFollowedAfter(c, Apply(c, s, labels[0]), labels[1..]);
    }
  }

  /** What is written of the follow stream are its first lines, and all of them if its end was seen. */
  lemma FollowedInOrder(c: Input, labels: seq<Label>)
    requires IsRun(c, Start(c), labels)
    ensures var s := End(c, Start(c), labels);
            && s.follower.written <= Lines(c.follow)
            && (s.flushes == 1 && s.ended ==> s.follower.written == Lines(c.follow))
  {
    StartInv(c);
    RunKeepsInv(c, Start(c), labels);
    FirstLine("");
    hide IsRun, End, ReaderInv, FlushInv, CauseInv, Lines;
  }

  /**
    The reader of the flush writes exactly the lines of what it fetched, in order, up to the one it
    is at, and it never waits to signal a line. A flush that returned because `doneCh` was closed has
    left nothing of that unwritten, and nothing of its stream at all unless its time was up.
  */
  lemma FlushedInOrder(c: Input, labels: seq<Label>)
    requires IsRun(c, Start(c), labels)
    ensures var s := End(c, Start(c), labels);
            && s.reader.fetched <= |c.stream| && s.reader.written <= Lines(c.stream[..s.reader.fetched])
            && (s.reader.pc == Signalling ==> Enabled(c, s, InReader(Signal)))
            && (s.reader.pc == Gone ==> s.reader.written == Lines(c.stream[..s.reader.fetched]))
            && (s.cause == Some(Done) ==>
                s.reader.pc == Gone && (s.flush.timedOut || s.reader.written == Lines(c.stream)))
  {
    StartInv(c);
    RunKeepsInv(c, Start(c), labels);
    var s := End(c, Start(c), labels);
    hide IsRun, End, MainInv, FlushInv, FollowInv;
    assert c.stream[..|c.stream|] == c.stream;
    WrittenIsPrefix(c.stream, s.reader, s.flush.streamClosed);
  }

  lemma WrittenIsPrefix(stream: string, r: Reader, closed: bool)
    requires ReaderInv(stream, r, closed)
    ensures r.written <= Lines(stream[..r.fetched])
    ensures LeftToWrite(stream, r) <==> r.written != Lines(stream[..r.fetched])
  {
    var done, rest := stream[..r.pos], Buffered(stream, r);
    assert stream[..r.fetched] == done + rest;
    FirstLine(rest);
    if r.pc == NotStarted {
      FirstLine("");
      assert stream[..0] == "";
    } else if Ended(done) {
      LinesJoin(done, rest);
      hide Lines, Ended, FirstNewline;
    } else {
      assert rest == "" && done + rest == done;
      hide Lines, Ended, FirstNewline;
    }
  }

  /** The reader has text that it has not written. */
  predicate LeftToWrite(stream: string, r: Reader)
    requires InBuffer(stream, r)
  {
    match r.pc
    case NotStarted => false
    case Reading => r.pos < r.fetched
    case Signalling => r.pos < r.fetched
    case Writing(line, failed) => !failed || line != ""
    case ClosingDone => false
    case Gone => false
  }

  // ----- After the flush returned -----

  /** Steps the reader has left once its stream is closed. */
  function ReaderLeft(r: Reader): nat {
    (if r.pos < r.fetched then 3 * (r.fetched - r.pos) else 0)
    + match r.pc
      case NotStarted => 0
      case Writing(_, failed) => if failed then 2 else 5
      case Signalling => 4
      case Reading => 3
      case ClosingDone => 1
      case Gone => 0
  }

  function ReaderSteps(labels: seq<Label>): nat {
    if labels == [] then 0 else (if labels[0].InReader? then 1 else 0) + ReaderSteps(labels[1..])
  }

  lemma ReaderStepsDown(stream: string, r: Reader, l: ReaderStep)
    requires ReaderInv(stream, r, true) && ReaderEnabled(stream, r, true, l)
    ensures ReaderApply(stream, r, true, l).fetched == r.fetched
    ensures ReaderLeft(ReaderApply(stream, r, true, l)) < ReaderLeft(r)
    ensures r.written <= ReaderApply(stream, r, true, l).written
  {
    hide Lines, Ended;
  }

  lemma StepAfterClose(c: Input, s: State, l: Label)
    requires Inv(c, s) && s.flush.streamClosed && Enabled(c, s, l)
    ensures var t := Apply(c, s, l);
            && t.flush.streamClosed && t.reader.fetched == s.reader.fetched && s.reader.written <= t.reader.written
            && ReaderLeft(t.reader) + (if l.InReader? then 1 else 0) <= ReaderLeft(s.reader)
  {
    hide MainInv, CauseInv, FollowInv, MainApply, MainEnabled, ReaderApply, ReaderEnabled, ReaderInv;
    match l {
      case InReader(step) => ReaderStepsDown(c.stream, s.reader, step);
      case InMain(step) => MainFacts(c, s, step);
      case _ =>
    }
  }

  /**
    Once the flush stream is closed, which the return of `flush` does, nothing more is fetched, and the
    reader ends after a bounded number of steps, whatever the others do. By then it has written exactly
    the lines of what it had fetched.
  */
  lemma {:induction false} ReaderEnds(c: Input, s: State, labels: seq<Label>)
    requires Inv(c, s) && s.flush.streamClosed && IsRun(c, s, labels)
    ensures var t := End(c, s, labels);
            && t.flush.streamClosed && t.reader.fetched == s.reader.fetched && s.reader.written <= t.reader.written
            && ReaderLeft(t.reader) + ReaderSteps(labels) <= ReaderLeft(s.reader)
            && t.reader.written <= Lines(c.stream[..s.reader.fetched])
            && (t.reader.pc == Gone ==> t.reader.written == Lines(c.stream[..s.reader.fetched]))
    decreases |labels|
  {
    if labels == [] {
      WrittenIsPrefix(c.stream, s.reader, true);
      hide Lines;
    } else {
      StepAfterClose(c, s, labels[0]);
      StepKeepsInv(c, s, labels[0]);
      hide Inv, Enabled, Apply, Lines, ReaderLeft;
      ReaderEnds(c, Apply(c, s, labels[0]), labels[1..]);
    }
  }

  /** The step a reader can take when its stream is closed. */
  function NextRead(stream: string, r: Reader): ReaderStep
    requires InBuffer(stream, r)
  {
    match r.pc
    case Reading => if NoLine(Buffered(stream, r)) then ReadFails else ReadLine
    case Signalling => Signal
    case ClosingDone => CloseDone
    case _ => WriteStep
  }

  /** The reader can always go on to its end by itself. */
  lemma {:induction false} ReaderFinishes(c: Input, s: State) returns (labels: seq<Label>)
    requires Inv(c, s) && s.flush.streamClosed
    ensures IsRun(c, s, labels) && End(c, s, labels).reader.pc == Gone
    decreases ReaderLeft(s.reader)
  {
    if s.reader.pc == Gone {
      labels := [];
    } else {
      var l := InReader(NextRead(c.stream, s.reader));
      assert Enabled(c, s, l);
      StepAfterClose(c, s, l);
      StepKeepsInv(c, s, l);
      hide Inv, Enabled, Apply, ReaderLeft;
      var rest := ReaderFinishes(c, Apply(c, s, l));
      labels := [l] + rest;
    }
  }

  /**
    After `flush` returned, no further line of its stream is written in any continuation exactly if its
    reader has no text left that it has not written. In particular that is so if the reader had ended.
  */
  lemma LateLines(c: Input, s: State)
    requires Inv(c, s) && s.flush.streamClosed
    ensures (forall labels | IsRun(c, s, labels) :: End(c, s, labels).reader.written == s.reader.written)
            <==> !LeftToWrite(c.stream, s.reader)
    ensures s.reader.pc == Gone ==> !LeftToWrite(c.stream, s.reader)
  {
    WrittenIsPrefix(c.stream, s.reader, true);
    var all := ReaderFinishes(c, s);
    ReaderEnds(c, s, all);
    forall labels | IsRun(c, s, labels)
      ensures s.reader.written <= End(c, s, labels).reader.written <= Lines(c.stream[..s.reader.fetched])
    {
      ReaderEnds(c, s, labels);
    }
    hide Lines, ReaderInv, MainInv, FlushInv, CauseInv, FollowInv, IsRun, End;
  }

  /** A stream whose flush opened has closed the flush stream when it returns. */
  lemma ReturnedClosed(c: Input, labels: seq<Label>)
    requires IsRun(c, Start(c), labels)
    ensures var s := End(c, Start(c), labels);
            Inv(c, s) && (AfterFlush(s.main) && s.cause != Some(NotRun) ==> s.flush.streamClosed)
  {
    StartInv(c);
    RunKeepsInv(c, Start(c), labels);
    hide IsRun, End, ReaderInv, FollowInv, CauseInv;
  }

  /** What the streamer does next when it does not wait; while it waits, the context may be done. */
  function NextStep(s: State): (step: MainStep)
    ensures MainEnabled(s, step) || s.main == Returned || (s.main == Waiting && !ContextDone(s.flush))
  {
    match s.main
    case Selecting => Select
    case Following => if NoLine(s.follower.rest) then FollowEnds else FollowLine
    case AtStop => BeginFlush
    case AtEnd => BeginFlush
    case OpeningFlush => OpenFlush(false)
    case Waiting => TakeContext
    case StoppingTimer => StopTimer
    case Resetting => ResetTimer
    case LeavingTimer => LeaveTimer
    case LeavingStream => LeaveStream
    case LeavingContext => LeaveContext
    case StoppingSelf => StopSelf
    case ClosingFollow => CloseFollow
    case _ => CloseWriter
  }

  /** The streamer is never stuck: while its flush waits, the time of the context still has to run out. */
  lemma NeverStuck(c: Input, labels: seq<Label>)
    requires IsRun(c, Start(c), labels)
    ensures var s := End(c, Start(c), labels);
            || s.main == Returned || (exists step :: MainEnabled(s, step))
            || (s.main == Waiting && Enabled(c, s, TimesOut))
  {
    StartInv(c);
    RunKeepsInv(c, Start(c), labels);
    var s := End(c, Start(c), labels);
    hide IsRun, End, ReaderInv, FollowInv, CauseInv, NextStep, MainEnabled;
    assert MainEnabled(s, NextStep(s)) || s.main == Returned || (s.main == Waiting && !ContextDone(s.flush));
  }

  lemma {:induction false} OneMore(c: Input, s: State, labels: seq<Label>, l: Label)
    requires IsRun(c, s, labels) && Enabled(c, End(c, s, labels), l)
    ensures IsRun(c, s, labels + [l]) && End(c, s, labels + [l]) == Apply(c, End(c, s, labels), l)
    decreases |labels|
  {
    hide Enabled, Apply;
    if labels == [] {
      assert [l][1..] == [];
      assert IsRun(c, Apply(c, s, l), []);
    } else {
      assert (labels + [l])[1..] == labels[1..] + [l];
      OneMore(c, Apply(c, s, labels[0]), labels[1..], l);
    }
  }

  /** The steps of a flush that goes idle after part of a line arrived, up to the return of the stream. */
  const IDLE_RUN := [
    InMain(Select), InMain(FollowEnds), InMain(BeginFlush), InMain(OpenFlush(true)), InReader(Fetch(3)), IdleFires,
    InMain(TakeIdle), InMain(LeaveTimer), InMain(LeaveStream), InMain(LeaveContext), InMain(StopSelf),
    InMain(CloseFollow), InMain(CloseWriter)]

  const IDLE_INPUT := Input("", "abc", true)

  const IDLE_MAIN := [
    Selecting, Following, AtEnd, OpeningFlush, Waiting, Waiting, Waiting, LeavingTimer, LeavingStream, LeavingContext,
    StoppingSelf, ClosingFollow, ClosingWriter, Returned]

  /** The state after the first `k` of them. */
  function IdleState(k: nat): State
    requires k <= 13
  {
    State(
      IDLE_MAIN[k], Follower("", []), if k < 11 then 0 else 1, if k < 3 then 0 else 1, k >= 3,
      if k < 7 then None else Some(Idle), if k < 13 then 0 else 1,
      Reader(if k < 4 then NotStarted else Reading, if k < 5 then 0 else 3, 0, []),
      Flush(k >= 9, false, 0, if k < 4 then NoCloser else AwaitingContext, false, k >= 10,
            if k < 4 then Off else if k < 6 then Running else if k < 7 then Fired else Off))
  }

  lemma IdleStep(k: nat)
    requires k < 13
    ensures Enabled(IDLE_INPUT, IdleState(k), IDLE_RUN[k])
    ensures Apply(IDLE_INPUT, IdleState(k), IDLE_RUN[k]) == IdleState(k + 1)
  {
    assert NoLine("") && Tail("") == [];
    if k == 4 {
      assert IDLE_INPUT.stream[0..0] == "";
    }
    hide NoLine, Tail, FirstNewline;
  }

  lemma {:induction false} IdleRun(k: nat)
    requires k <= 13
    ensures IsRun(IDLE_INPUT, Start(IDLE_INPUT), IDLE_RUN[..k])
    ensures End(IDLE_INPUT, Start(IDLE_INPUT), IDLE_RUN[..k]) == IdleState(k)
  {
    if k > 0 {
      IdleRun(k - 1);
      IdleStep(k - 1);
      assert IDLE_RUN[..k] == IDLE_RUN[..k - 1] + [IDLE_RUN[k - 1]];
      hide *;
      OneMore(IDLE_INPUT, Start(IDLE_INPUT), IDLE_RUN[..k - 1], IDLE_RUN[k - 1]);
    }
  }

  /** A line can be written after the writer was closed: the flush went idle after "abc" without a newline. */
  lemma LateLineWritten() returns (before: seq<Label>, after: seq<Label>)
    ensures var c := Input("", "abc", true);
            && IsRun(c, Start(c), before) && End(c, Start(c), before).main == Returned
            && End(c, Start(c), before).reader.written == []
            && IsRun(c, End(c, Start(c), before), after)
            && End(c, End(c, Start(c), before), after).reader.written == ["abc"]
  {
    var c := IDLE_INPUT;
    IdleRun(13);
    before := IDLE_RUN[..13];
    ReturnedClosed(c, before);
    var s := End(c, Start(c), before);
    after := ReaderFinishes(c, s);
    ReaderEnds(c, s, after);
    assert c.stream[..3] == "abc";
    FirstLine("abc");
  }
}
