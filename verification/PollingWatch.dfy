/**
  Watching a deployment by polling (app/polling_deploy_watcher.go, `Watch`).

  The provider, the timers and the context are inputs: step `k` of a script says what poll `k`
  answered, how long it took, and which of the three channels the `select` after it took.
  Durations are nanoseconds, as in Go; a negative one has passed as soon as it starts.
*/
module PollingWatch {
  import opened Text

  const DEFAULT_TIMEOUT := 900_000_000_000
  const DEFAULT_DELAY := 5_000_000_000

  datatype RolloutStatus = Unknown | Pending | InProgress | Complete | Failed | Cancelled

  /** What `ctx.Err()` says once the context is done. */
  datatype ContextError = NoError | DeadlineExceeded | Canceled(reason: string)

  datatype Wake = Tick | TimerFired | ContextDone(error: ContextError)

  datatype Step = Step(status: RolloutStatus, error: Option<string>, took: nat, wake: Wake)

  datatype Verdict = Succeeded | ErrFailed | ErrTimeout | CancelError(reason: string)

  class StatusGetter {
    ghost var polls: nat
    ghost var closes: nat

    constructor ()
      ensures polls == 0 && closes == 0
    {
      polls, closes := 0, 0;
    }

    method GetDeployStatus(step: Step) returns (status: RolloutStatus, error: Option<string>)
      modifies this`polls
      ensures polls == old(polls) + 1 && status == step.status && error == step.error
    {
      status, error := step.status, step.error;
      polls := polls + 1;
    }

    method Close()
      modifies this`closes
      ensures closes == old(closes) + 1
    {
      closes := closes + 1;
    }
  }

  /** The poll of a step ends the watch with `v`. */
  predicate PollEnds(step: Step, v: Verdict) {
    match v
    case Succeeded => step.error == None && step.status == Complete
    case ErrFailed => step.error == None && step.status == Failed
    case CancelError(reason) => step.error == Some(reason) && step.status == Cancelled
    case ErrTimeout => false
  }

  predicate PollDecides(step: Step) {
    if step.error == None then step.status in {Complete, Failed} else step.status == Cancelled
  }

  /** The step ends the watch with `v`: its poll does, or else the channel the `select` took. */
  predicate Ends(step: Step, v: Verdict) {
    || PollEnds(step, v)
    || (!PollDecides(step) && step.wake == TimerFired && v == ErrTimeout)
    || (!PollDecides(step) && step.wake == ContextDone(DeadlineExceeded) && v == ErrTimeout)
    || (!PollDecides(step) && step.wake == ContextDone(NoError) && v == CancelError(""))
    || (!PollDecides(step) && v.CancelError? && step.wake == ContextDone(Canceled(v.reason)))
  }

  /** The step leads to another poll. */
  predicate Quiet(step: Step) {
    !PollDecides(step) && step.wake == Tick
  }

  /** The watch polled `polls` times and ended with `result`, or is still waiting after the whole script. */
  predicate Watched(script: seq<Step>, polls: nat, result: Option<Verdict>) {
    polls <= |script|
    && match result
       case None => polls == |script| && forall k | 0 <= k < polls :: Quiet(script[k])
       case Some(v) => polls > 0 && Ends(script[polls - 1], v) && forall k | 0 <= k < polls - 1 :: Quiet(script[k])
  }

  class PollingDeployWatcher {
    const getter: StatusGetter
    const delay: int
    const timeout: int

    constructor (getter: StatusGetter, delay: int, timeout: int)
      ensures this.getter == getter && this.delay == delay && this.timeout == timeout
    {
      this.getter, this.delay, this.timeout := getter, delay, timeout;
    }

    /** The getter is closed once whenever the watch returns, and not before. */
    method Watch(reference: string, script: seq<Step>) returns (result: Option<Verdict>)
      modifies getter
      ensures reference == "" ==> result == Some(Succeeded) && getter.polls == old(getter.polls)
      ensures getter.polls >= old(getter.polls)
      ensures reference != "" ==> Watched(script, getter.polls - old(getter.polls), result)
      ensures getter.closes == old(getter.closes) + if result.Some? then 1 else 0
      ensures IdealClock(script, delay, timeout) && delay >= 0
         ==> getter.polls - old(getter.polls) <= MostPolls(delay, timeout)
    {
      if reference == "" {
        getter.Close();
        return Some(Succeeded);
      }
      result := Poll(script);
      if result.Some? {
        getter.Close();
      }
      if IdealClock(script, delay, timeout) && delay >= 0 {
        AtMostPolls(script, getter.polls - old(getter.polls), result, delay, timeout);
      }
    }

    method Poll(script: seq<Step>) returns (result: Option<Verdict>)
      modifies getter`polls
      ensures getter.polls >= old(getter.polls)
      ensures Watched(script, getter.polls - old(getter.polls), result)
    {
      var i := 0;
      while i < |script|
        invariant 0 <= i <= |script| && getter.polls == old(getter.polls) + i
        invariant forall k | 0 <= k < i :: Quiet(script[k])
      {
        var status, error := getter.GetDeployStatus(script[i]);
        if error.Some? {
          if status == Cancelled {
            return Some(CancelError(error.value));
          }
        } else {
          if status == Failed {
            return Some(ErrFailed);
          }
          if status == Complete {
            return Some(Succeeded);
          }
        }

        match script[i].wake {
          case ContextDone(err) =>
            if err != NoError {
              if err == DeadlineExceeded {
                return Some(ErrTimeout);
              }
              return Some(CancelError(err.reason));
            }
            return Some(CancelError(""));
          case TimerFired =>
            return Some(ErrTimeout);
          case Tick =>
        }
        i := i + 1;
      }
      return None;
    }
  }

  /** Step `k` is the first that does not lead to another poll. */
  predicate FirstDecisive(script: seq<Step>, k: nat) {
    k < |script| && !Quiet(script[k]) && forall j | 0 <= j < k :: Quiet(script[j])
  }

  lemma EndsOnce(step: Step, v: Verdict, w: Verdict)
    requires Ends(step, v)
    ensures !Quiet(step) && (Ends(step, w) ==> v == w)
  {
  }

  /** The watch ends exactly if some step is decisive. */
  lemma EndsIfDecisive(script: seq<Step>, polls: nat, result: Option<Verdict>)
    requires Watched(script, polls, result)
    ensures result.Some? <==> exists k: nat :: FirstDecisive(script, k)
    ensures result.Some? ==> FirstDecisive(script, polls - 1)
  {
    if result.Some? {
      EndsOnce(script[polls - 1], result.value, result.value);
      assert FirstDecisive(script, polls - 1);
    }
  }

  /**
    The first decisive step decides: the watch succeeds exactly if its poll said complete without an
    error, fails exactly if it said failed without an error, and is cancelled or times out exactly as
    listed. Whatever the steps before it answered (errors, unknown states, "cancelled" without an
    error) changes nothing.
  */
  lemma DecidedByFirst(script: seq<Step>, polls: nat, result: Option<Verdict>, k: nat)
    requires Watched(script, polls, result) && FirstDecisive(script, k)
    ensures polls == k + 1
    ensures result == Some(Succeeded) <==> script[k].error == None && script[k].status == Complete
    ensures result == Some(ErrFailed) <==> script[k].error == None && script[k].status == Failed
    ensures result == Some(ErrTimeout)
       <==> !PollDecides(script[k]) && script[k].wake in {TimerFired, ContextDone(DeadlineExceeded)}
    ensures result.Some? && result.value.CancelError?
       <==> (script[k].error.Some? && script[k].status == Cancelled)
            || (!PollDecides(script[k]) && script[k].wake.ContextDone? && script[k].wake.error != DeadlineExceeded)
    ensures forall r :: result == Some(CancelError(r)) <==>
              || (script[k].error == Some(r) && script[k].status == Cancelled)
              || (!PollDecides(script[k]) && script[k].wake == ContextDone(Canceled(r)))
              || (!PollDecides(script[k]) && script[k].wake == ContextDone(NoError) && r == "")
  {
  }

  /** A step that does not lead to another poll ends the watch in some way. */
  lemma DecisiveEnds(step: Step) returns (v: Verdict)
    requires !Quiet(step)
    ensures Ends(step, v)
  {
    if PollDecides(step) {
      v := if step.error.Some? then CancelError(step.error.value)
      else if step.status == Complete then Succeeded
      else ErrFailed;
    } else if step.wake == TimerFired || step.wake == ContextDone(DeadlineExceeded) {
      v := ErrTimeout;
    } else {
      v := CancelError(if step.wake.error == NoError then "" else step.wake.error.reason);
    }
  }

  /** Every script has an outcome: the watch ends at its first decisive step, or is still waiting after it. */
  lemma {:induction false} HasOutcome(script: seq<Step>) returns (polls: nat, result: Option<Verdict>)
    ensures Watched(script, polls, result)
    ensures forall k: nat | FirstDecisive(script, k) :: polls == k + 1 && result.Some?
    ensures result == None ==> forall k: nat :: !FirstDecisive(script, k)
  {
    if script == [] {
      polls, result := 0, None;
    } else {
      var n := |script| - 1;
      polls, result := HasOutcome(script[..n]);
      hide Quiet, Ends;
      if result == None && Quiet(script[n]) {
        polls := n + 1;
      } else if result == None {
        var v := DecisiveEnds(script[n]);
        polls, result := n + 1, Some(v);
      }
    }
    OutcomeFits(script, polls, result);
  }

  lemma OutcomeFits(script: seq<Step>, polls: nat, result: Option<Verdict>)
    requires Watched(script, polls, result)
    ensures forall k: nat | FirstDecisive(script, k) :: polls == k + 1 && result.Some?
    ensures result == None ==> forall k: nat :: !FirstDecisive(script, k)
  {
    EndsIfDecisive(script, polls, result);
    forall k: nat | FirstDecisive(script, k)
      ensures polls == k + 1
    {
      DecidedByFirst(script, polls, result, k);
    }
  }

  /** One script allows one outcome. */
  lemma OneOutcome(script: seq<Step>, polls: nat, result: Option<Verdict>, polls': nat, result': Option<Verdict>)
    requires Watched(script, polls, result) && Watched(script, polls', result')
    ensures polls == polls' && result == result'
  {
    EndsIfDecisive(script, polls, result);
    EndsIfDecisive(script, polls', result');
    if result.Some? {
      DecidedByFirst(script, polls, result, polls - 1);
      DecidedByFirst(script, polls', result', polls - 1);
      EndsOnce(script[polls - 1], result.value, result'.value);
    }
  }

  // ----- How often it polls -----

  function OrDefault(d: int, default: int): int {
    if d != 0 then d else default
  }

  function NotNegative(d: int): nat {
    if d < 0 then 0 else d
  }

  /** timeout / delay + 1, of the configured delay and timeout. */
  function MostPolls(delay: int, timeout: int): nat
    requires delay >= 0
  {
    NotNegative(OrDefault(timeout, DEFAULT_TIMEOUT)) / OrDefault(delay, DEFAULT_DELAY) + 1
  }

  /** When poll `k` starts, if each `select` before it took the tick. */
  function StartOf(script: seq<Step>, delay: int, k: nat): nat
    requires k <= |script|
  {
    if k == 0 then 0 else StartOf(script, delay, k - 1) + script[k - 1].took + NotNegative(delay)
  }

  /**
    An ideal clock: the tick is taken only if the timer has not fired before it, and the other way
    round. `delay` and `timeout` are the configured ones; zero means the default.
  */
  predicate IdealClock(script: seq<Step>, delay: int, timeout: int) {
    var effective, limit := OrDefault(delay, DEFAULT_DELAY), NotNegative(OrDefault(timeout, DEFAULT_TIMEOUT));
    forall k | 0 <= k < |script| ::
      && (script[k].wake == Tick ==> StartOf(script, effective, k + 1) <= limit)
      && (script[k].wake == TimerFired ==> limit <= StartOf(script, effective, k + 1))
  }

  lemma {:induction false} StartsApart(script: seq<Step>, delay: int, k: nat)
    requires k <= |script| && delay > 0
    ensures StartOf(script, delay, k) >= k * delay
  {
    if k > 0 {
      StartsApart(script, delay, k - 1);
      assert k * delay == (k - 1) * delay + delay;
    }
  }

  /** With a delay that is not negative there are at most timeout / delay + 1 polls, however long each one takes. */
  lemma AtMostPolls(script: seq<Step>, polls: nat, result: Option<Verdict>, delay: int, timeout: int)
    requires Watched(script, polls, result) && IdealClock(script, delay, timeout) && delay >= 0
    ensures polls <= MostPolls(delay, timeout)
  {
    var effective, limit := OrDefault(delay, DEFAULT_DELAY), NotNegative(OrDefault(timeout, DEFAULT_TIMEOUT));
    if polls > 1 {
      StartsApart(script, effective, polls - 1);
      assert Quiet(script[polls - 2]);
      AtMostQuotient(polls - 1, effective, limit);
    } else {
      assert limit / effective >= 0;
    }
  }

  lemma AtMostQuotient(n: nat, d: int, t: nat)
    requires d > 0 && n * d <= t
    ensures n <= t / d
  {
    var q := t / d;
    assert t < (q + 1) * d;
    if n > q {
      MonotoneProduct(q + 1, n, d);
    }
  }

  lemma MonotoneProduct(m: nat, n: nat, d: nat)
    requires m <= n
    ensures m * d <= n * d
  {
  }

  /** With nothing configured there are at most 181 polls. */
  lemma AtMostDefaultPolls(script: seq<Step>, polls: nat, result: Option<Verdict>)
    requires Watched(script, polls, result) && IdealClock(script, 0, 0)
    ensures polls <= 181
  {
    AtMostPolls(script, polls, result, 0, 0);
  }

  function Idle(n: nat): seq<Step> {
    seq(n, i => Step(InProgress, None, 0, Tick))
  }

  lemma {:induction false} IdleStarts(n: nat, delay: int, k: nat)
    requires k <= n && delay <= 0
    ensures StartOf(Idle(n), delay, k) == 0
  {
    if k > 0 {
      IdleStarts(n, delay, k - 1);
    }
  }

  /** The bound needs a delay that is not negative: a negative one allows any number of polls. */
  lemma UnboundedIfNegative(n: nat, delay: int, timeout: int)
    requires delay < 0
    ensures IdealClock(Idle(n), delay, timeout) && Watched(Idle(n), n, None)
  {
    forall k {:trigger Idle(n)[k]} | 0 <= k < n
      ensures StartOf(Idle(n), delay, k + 1) == 0
    {
      IdleStarts(n, delay, k + 1);
    }
  }
}
