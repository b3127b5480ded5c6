/**
  Emitting the events of a log group as they appear (aws/cloudwatch/write_latest_events.go).

  What the log service answers is an input. `Honest` says what it promises for one poll: the events
  stored in the queried window, in ascending time order, cut into pages.
*/
module LogEvents {
  import opened Text

  /** Times are in milliseconds. */
  datatype Event = Event(id: string, time: int)

  datatype Response = Page(events: seq<Event>, more: bool) | Failure

  /** The answers one poll gets: pages with a next token, then one without or a failure. */
  predicate OnePoll(responses: seq<Response>) {
    && responses != [] && (forall i | 0 <= i < |responses| - 1 :: responses[i].Page? && responses[i].more)
    && (responses[|responses| - 1].Page? ==> !responses[|responses| - 1].more)
  }

  predicate Succeeds(responses: seq<Response>) {
    responses != [] && responses[|responses| - 1].Page?
  }

  function EventsOf(responses: seq<Response>): seq<Event> {
    if responses == [] || responses[0].Failure? then [] else responses[0].events + EventsOf(responses[1..])
  }

  /** What the closure keeps between polls, and what it has emitted. */
  datatype Progress = Progress(visited: set<string>, last: Option<int>, emitted: seq<Event>)

  function Take(p: Progress, e: Event): Progress {
    if e.id in p.visited then p else Progress(p.visited + {e.id}, Some(e.time), p.emitted + [e])
  }

  function TakeAll(p: Progress, events: seq<Event>): Progress
    decreases |events|
  {
    if events == [] then p else TakeAll(Take(p, events[0]), events[1..])
  }

  const NOTHING := Progress({}, None, [])

  class Writer {
    var startTime: Option<int>
    var lastEventTime: Option<int>
    var visited: set<string>
    var emitted: seq<Event>

    constructor (start: Option<int>)
      ensures startTime == start && State() == NOTHING
    {
      startTime := start;
      lastEventTime := None;
      visited := {};
      emitted := [];
    }

    function State(): Progress
      reads this
    {
      Progress(visited, lastEventTime, emitted)
    }

    /** One poll. The responses are those to queries from `startTime`, as it is after the first step. */
    method WriteLatest(responses: seq<Response>) returns (ok: bool)
      requires OnePoll(responses)
      modifies this
      ensures startTime == if old(lastEventTime) != None then old(lastEventTime) else old(startTime)
      ensures State() == TakeAll(old(State()), EventsOf(responses))
      ensures ok <==> Succeeds(responses)
      ensures ok <==> Failure !in responses
    {
      if lastEventTime != None {
        startTime := lastEventTime;
      }
      ghost var start := State();
      var next := 0;
      while true
        invariant 0 <= next < |responses|
        invariant startTime == if old(lastEventTime) != None then old(lastEventTime) else old(startTime)
        invariant TakeAll(State(), EventsOf(responses[next..])) == TakeAll(start, EventsOf(responses))
        decreases |responses| - next
      {
        var out := responses[next];
        assert responses[next..][0] == out && responses[next..][1..] == responses[next + 1..];
        if out.Failure? {
          return false;
        }
        ghost var before := State();
        EmitAll(out.events);
        TakeSplit(before, out.events, EventsOf(responses[next + 1..]));
        if !out.more {
          assert responses[next + 1..] == [];
          return true;
        }
        next := next + 1;
      }
    }

    method EmitAll(events: seq<Event>)
      modifies this
      ensures startTime == old(startTime) && State() == TakeAll(old(State()), events)
    {
      for i := 0 to |events|
        invariant startTime == old(startTime) && TakeAll(State(), events[i..]) == TakeAll(old(State()), events)
      {
        assert events[i..][0] == events[i] && events[i..][1..] == events[i + 1..];
        if events[i].id in visited {
          continue;
        }
        lastEventTime := Some(events[i].time);
        visited := visited + {events[i].id};
        emitted := emitted + [events[i]];
      }
    }
  }

  lemma {:induction false} TakeSplit(p: Progress, a: seq<Event>, b: seq<Event>)
    ensures TakeAll(p, a + b) == TakeAll(TakeAll(p, a), b)
    decreases |a|
  {
    if a == [] {
      assert a + b == b;
    } else {
      assert (a + b)[0] == a[0] && (a + b)[1..] == a[1..] + b;
      TakeSplit(Take(p, a[0]), a[1..], b);
    }
  }

  // ----- Nothing twice, whatever the service answers -----

  predicate NoRepeat(p: Progress) {
    && (forall i | 0 <= i < |p.emitted| :: p.emitted[i].id in p.visited)
    && (forall i, j | 0 <= i < j < |p.emitted| :: p.emitted[i].id != p.emitted[j].id)
  }

  lemma {:induction false} NeverTwice(p: Progress, events: seq<Event>)
    requires NoRepeat(p)
    ensures NoRepeat(TakeAll(p, events))
    decreases |events|
  {
    if events != [] {
      NeverTwice(Take(p, events[0]), events[1..]);
    }
  }

  // ----- All events, in order, from an honest service -----

  function After(start: Option<int>, time: int): bool {
    start.Some? ==> start.value <= time
  }

  function Window(store: set<Event>, start: Option<int>, end: Option<int>): set<Event> {
    set e | e in store && After(start, e.time) && (end.Some? ==> e.time <= end.value)
  }

  predicate TimeAscending(events: seq<Event>) {
    forall i, j | 0 <= i < j < |events| :: events[i].time <= events[j].time
  }

  /** A full answer to the query: the window in ascending time order. Events may be listed again. */
  predicate IsAnswer(events: seq<Event>, window: set<Event>) {
    TimeAscending(events) && (forall e <- events :: e in window) && forall e <- window :: e in events
  }

  /** The poll got the answer to its query, or the beginning of it and then a failure. */
  ghost predicate Honest(responses: seq<Response>, window: set<Event>) {
    exists rest :: IsAnswer(EventsOf(responses) + rest, window) && (Succeeds(responses) ==> rest == [])
  }

  /** An event is known by its id. */
  predicate UniqueIds(store: set<Event>) {
    forall d, e | d in store && e in store && d.id == e.id :: d == e
  }

  /** What was emitted so far is of `target` and in time order; what of it was not is not older than the last event. */
  predicate Consistent(p: Progress, target: set<Event>) {
    && (forall e <- p.emitted :: e in target) && TimeAscending(p.emitted)
    && p.visited == (set e | e in p.emitted :: e.id)
    && (p.last == if p.emitted == [] then None else Some(p.emitted[|p.emitted| - 1].time))
    && (forall e | e in target && e !in p.emitted :: After(p.last, e.time))
  }

  function QueryStart(p: Progress, start: Option<int>): Option<int> {
    if p.last != None then p.last else start
  }

  predicate NoEarlier(before: Option<int>, after: Option<int>) {
    before.Some? ==> after.Some? && before.value <= after.value
  }

  lemma TakeOne(p: Progress, e: Event, target: set<Event>, ahead: seq<Event>)
    requires UniqueIds(target) && Consistent(p, target) && e in target && After(p.last, e.time)
    requires TimeAscending([e] + ahead)
    requires forall d | d in target && d !in p.emitted :: d == e || d in ahead
    ensures Consistent(Take(p, e), target) && NoEarlier(p.last, Take(p, e).last)
    ensures forall d | d in target && d !in Take(p, e).emitted :: d in ahead
    ensures forall d | d in ahead :: After(Take(p, e).last, d.time)
  {
    var next := Take(p, e);
    forall d | d in ahead
      ensures e.time <= d.time
    {
      var j :| 0 <= j < |ahead| && ahead[j] == d;
      assert ([e] + ahead)[0] == e && ([e] + ahead)[j + 1] == d;
    }
    if e.id in p.visited {
      assert e in p.emitted;
    } else {
      assert e !in p.emitted;
      assert forall i | 0 <= i < |p.emitted| :: p.emitted[i] in p.emitted;
    }
  }

  /** Taking the next events of an answer that holds everything not yet emitted. */
  lemma {:induction false} TakeInOrder(p: Progress, events: seq<Event>, rest: seq<Event>, target: set<Event>)
    requires UniqueIds(target) && Consistent(p, target) && TimeAscending(events + rest)
    requires forall e <- events :: e in target && After(p.last, e.time)
    requires forall d | d in target && d !in p.emitted :: d in events + rest
    ensures Consistent(TakeAll(p, events), target) && NoEarlier(p.last, TakeAll(p, events).last)
    ensures forall d | d in target && d !in TakeAll(p, events).emitted :: d in rest
    decreases |events|
  {
    if events == [] {
      assert events + rest == rest;
    } else {
      var ahead := events[1..] + rest;
      assert events + rest == [events[0]] + ahead;
      assert TimeAscending(ahead) by {
        assert forall i | 0 <= i < |ahead| :: ahead[i] == (events + rest)[i + 1];
      }
      TakeOne(p, events[0], target, ahead);
      assert forall e | e in events[1..] :: e in ahead;
      hide Consistent, Take, TimeAscending, UniqueIds, After;
      TakeInOrder(Take(p, events[0]), events[1..], rest, target);
    }
  }

  /** Everything of the window that is not of `target` is older than the last event. */
  predicate Passed(p: Progress, window: set<Event>, target: set<Event>) {
    target <= window && forall e | e in window && e !in target :: !After(p.last, e.time)
  }

  /** One honest poll keeps that, and if it succeeded, nothing of `target` is left out. */
  lemma PollTakes(p: Progress, responses: seq<Response>, store: set<Event>, start: Option<int>, end: Option<int>,
                  target: set<Event>)
    requires UniqueIds(store) && Consistent(p, target) && Passed(p, Window(store, start, end), target)
    requires Honest(responses, Window(store, QueryStart(p, start), end))
    ensures var next := TakeAll(p, EventsOf(responses));
            && Consistent(next, target) && Passed(next, Window(store, start, end), target)
            && (Succeeds(responses) ==> (set e | e in next.emitted) == target)
  {
    var events := EventsOf(responses);
    var asked := Window(store, QueryStart(p, start), end);
    var rest :| IsAnswer(events + rest, asked) && (Succeeds(responses) ==> rest == []);
    assert p.emitted != [] ==> p.emitted[|p.emitted| - 1] in p.emitted;
    assert asked <= Window(store, start, end);
    assert forall e | e in asked :: e in target;
    assert forall e | e in events :: e in events + rest;
    TakeInOrder(p, events, rest, target);
  }

  // ----- Whole runs -----

  /** What is stored at the time of a poll, and what the poll is answered. */
  datatype Poll = Poll(store: set<Event>, responses: seq<Response>)

  function Polled(polls: seq<Poll>): Progress
    decreases |polls|
  {
    if polls == [] then NOTHING
    else var n := |polls| - 1; TakeAll(Polled(polls[..n]), EventsOf(polls[n].responses))
  }

  /** What was stored before the last poll is asked. */
  function Known(before: seq<Poll>): set<Event> {
    if before == [] then {} else before[|before| - 1].store
  }

  /** Events stay stored, ids are unique, and every poll is answered from what is stored, perhaps not to the end. */
  ghost predicate HonestRun(polls: seq<Poll>, start: Option<int>, end: Option<int>)
    decreases |polls|
  {
    polls != [] ==>
      var n := |polls| - 1;
      && HonestRun(polls[..n], start, end)
      && UniqueIds(polls[n].store) && Known(polls[..n]) <= polls[n].store
      && Honest(polls[n].responses, Window(polls[n].store, QueryStart(Polled(polls[..n]), start), end))
  }

  /** The events of the window that are newly stored at the last poll and older than the last event emitted by then. */
  function LateNow(polls: seq<Poll>, start: Option<int>, end: Option<int>): set<Event>
    requires polls != []
  {
    var n := |polls| - 1;
    set e | e in Window(polls[n].store, start, end) && e !in Known(polls[..n]) && !After(Polled(polls[..n]).last, e.time)
  }

  function Late(polls: seq<Poll>, start: Option<int>, end: Option<int>): set<Event>
    decreases |polls|
  {
    if polls == [] then {} else Late(polls[..|polls| - 1], start, end) + LateNow(polls, start, end)
  }

  /** The events of the window that were stored in time. */
  function Timely(polls: seq<Poll>, start: Option<int>, end: Option<int>): set<Event> {
    Window(Known(polls), start, end) - Late(polls, start, end)
  }

  lemma ArrivalsKeep(polls: seq<Poll>, start: Option<int>, end: Option<int>)
    requires HonestRun(polls, start, end) && polls != []
    requires var before := polls[..|polls| - 1];
             Consistent(Polled(before), Timely(before, start, end))
             && Passed(Polled(before), Window(Known(before), start, end), Timely(before, start, end))
             && Late(before, start, end) <= Window(Known(before), start, end)
    ensures var before, store := polls[..|polls| - 1], Known(polls);
            && Consistent(Polled(before), Timely(polls, start, end))
            && Passed(Polled(before), Window(store, start, end), Timely(polls, start, end))
            && Late(polls, start, end) <= Window(store, start, end)
  {
    var n := |polls| - 1;
    var before, store, p := polls[..n], polls[n].store, Polled(polls[..n]);
    var late, now := Late(before, start, end), LateNow(polls, start, end);
    assert Known(polls) == store && Late(polls, start, end) == late + now;
    hide Honest, HonestRun, TimeAscending, Polled, Late;
    assert forall e | e in Window(store, start, end) && e in Known(before) :: e in Window(Known(before), start, end);
    assert forall e | e in Timely(before, start, end) :: e in Timely(polls, start, end);
  }

  /** In every honest run what was emitted is timely and in order, what is late stays behind, a success catches up. */
  lemma {:induction false} RunConsistent(polls: seq<Poll>, start: Option<int>, end: Option<int>)
    requires HonestRun(polls, start, end)
    ensures Consistent(Polled(polls), Timely(polls, start, end))
    ensures Passed(Polled(polls), Window(Known(polls), start, end), Timely(polls, start, end))
    ensures Late(polls, start, end) <= Window(Known(polls), start, end)
    ensures polls != [] && Succeeds(polls[|polls| - 1].responses) ==>
              (set e | e in Polled(polls).emitted) == Timely(polls, start, end)
    decreases |polls|
  {
    if polls != [] {
      var n := |polls| - 1;
      RunConsistent(polls[..n], start, end);
      ArrivalsKeep(polls, start, end);
      hide Consistent, Honest, UniqueIds, TakeAll, Timely, Passed, Late, Succeeds, Window;
      PollTakes(Polled(polls[..n]), polls[n].responses, polls[n].store, start, end, Timely(polls, start, end));
    }
  }

  /**
    Polling refines a full scan, but for late events: whenever a poll has succeeded, the events emitted
    since the beginning are those stored in the window without the late ones, in ascending time order,
    failed polls before it or not.
  */
  lemma EmitsTheTimely(polls: seq<Poll>, start: Option<int>, end: Option<int>)
    requires HonestRun(polls, start, end) && polls != [] && Succeeds(polls[|polls| - 1].responses)
    ensures TimeAscending(Polled(polls).emitted)
    ensures (set e | e in Polled(polls).emitted)
            == Window(polls[|polls| - 1].store, start, end) - Late(polls, start, end)
  {
    RunConsistent(polls, start, end);
    hide HonestRun, Succeeds, Polled, Late, Window;
  }

  /** At poll `k` an event of the window is newly stored. */
  predicate Arrives(polls: seq<Poll>, k: nat, e: Event, start: Option<int>, end: Option<int>) {
    k < |polls| && e in Window(polls[k].store, start, end) && e !in Known(polls[..k])
  }

  lemma {:induction false} LateArrivals(polls: seq<Poll>, start: Option<int>, end: Option<int>, e: Event)
    ensures e in Late(polls, start, end) <==>
            exists k: nat :: Arrives(polls, k, e, start, end) && !After(Polled(polls[..k]).last, e.time)
    decreases |polls|
  {
    if polls != [] {
      var n := |polls| - 1;
      LateArrivals(polls[..n], start, end, e);
      forall k: nat | k < n
        ensures Arrives(polls, k, e, start, end) <==> Arrives(polls[..n], k, e, start, end)
        ensures polls[..n][..k] == polls[..k]
      {
        assert polls[..n][..k] == polls[..k];
      }
      hide Polled, Window, After;
      assert forall k: nat :: Arrives(polls, k, e, start, end) ==> k <= n;
      assert forall k: nat :: Arrives(polls[..n], k, e, start, end) ==> k < n;
      assert e in LateNow(polls, start, end) <==>
             Arrives(polls, n, e, start, end) && !After(Polled(polls[..n]).last, e.time);
    }
  }

  /**
    The whole window is emitted exactly if every event of it was, when it was stored, not older than
    the last event emitted until then. Events outside the window may be stored at any time.
  */
  lemma EmitsExactlyTheWindow(polls: seq<Poll>, start: Option<int>, end: Option<int>)
    requires HonestRun(polls, start, end) && polls != [] && Succeeds(polls[|polls| - 1].responses)
    ensures (set e | e in Polled(polls).emitted) == Window(polls[|polls| - 1].store, start, end) <==>
            forall k: nat, e | Arrives(polls, k, e, start, end) :: After(Polled(polls[..k]).last, e.time)
  {
    EmitsTheTimely(polls, start, end);
    RunConsistent(polls, start, end);
    forall e
      ensures e in Late(polls, start, end) <==>
              exists k: nat :: Arrives(polls, k, e, start, end) && !After(Polled(polls[..k]).last, e.time)
    {
      LateArrivals(polls, start, end, e);
    }
    hide HonestRun, Succeeds, Late, Window, After, Consistent, Passed, Polled, Arrives;
    var all, late := Window(polls[|polls| - 1].store, start, end), Late(polls, start, end);
    assert late <= all && (all - late == all <==> late == {});
    assert late == {} <==> forall e :: e !in late;
  }

  /** A late event is never emitted, by any later poll either. */
  lemma LateEventMissed(polls: seq<Poll>, start: Option<int>, end: Option<int>, e: Event)
    requires HonestRun(polls, start, end) && e in Late(polls, start, end)
    ensures e !in Polled(polls).emitted
  {
    RunConsistent(polls, start, end);
  }

  /** Two polls that are answered with one event, and between them an older event is stored. */
  function OlderStored(e: Event, older: Event): seq<Poll> {
    var answer := [Page([e], false)];
    [Poll({e}, answer), Poll({e, older}, answer)]
  }

  lemma OnePollMore(polls: seq<Poll>, p: Poll, start: Option<int>, end: Option<int>)
    requires HonestRun(polls, start, end) && UniqueIds(p.store) && Known(polls) <= p.store
    requires Honest(p.responses, Window(p.store, QueryStart(Polled(polls), start), end))
    ensures HonestRun(polls + [p], start, end)
    ensures Polled(polls + [p]) == TakeAll(Polled(polls), EventsOf(p.responses))
  {
    assert (polls + [p])[..|polls|] == polls;
    hide Honest, TakeAll, EventsOf, Window, UniqueIds;
  }

  lemma OlderHonest(e: Event, older: Event)
    requires e.id != older.id && older.time < e.time
    ensures var polls := OlderStored(e, older);
            HonestRun(polls, None, None) && Polled(polls[..1]).last == Some(e.time)
  {
    var answer, polls := [Page([e], false)], OlderStored(e, older);
    var first, second := Poll({e}, answer), Poll({e, older}, answer);
    assert polls[..1] == [] + [first] && polls == [first] + [second] && [] + [first] == [first];
    assert Window({e}, None, None) == {e} && Window({e, older}, Some(e.time), None) == {e};
    OneEvent(e);
    hide Honest, TakeAll, EventsOf, Window;
    AnswersOne(answer, e, {e});
    OnePollMore([], first, None, None);
    assert Polled([first]).last == Some(e.time) && Known([first]) == {e};
    hide Polled, HonestRun, Known;
    OnePollMore([first], second, None, None);
  }

  /** Where one is missed: both polls succeed, and the older event is not emitted. */
  lemma OlderEventMissed(e: Event, older: Event)
    requires e.id != older.id && older.time < e.time
    ensures var polls := OlderStored(e, older);
            && HonestRun(polls, None, None) && Succeeds(polls[1].responses)
            && older in Window(polls[1].store, None, None) && older !in Polled(polls).emitted
  {
    var polls := OlderStored(e, older);
    OlderHonest(e, older);
    hide HonestRun, Polled;
    assert Known(polls[..1]) == {e};
    assert older in LateNow(polls, None, None);
    LateEventMissed(polls, None, None, older);
  }

  lemma OneEvent(e: Event)
    ensures EventsOf([Page([e], false)]) == [e] && TakeAll(NOTHING, [e]) == Progress({e.id}, Some(e.time), [e])
  {
    var answer := [Page([e], false)];
    assert answer[1..] == [] && EventsOf(answer[1..]) == [] && [e][1..] == [];
  }

  lemma AnswersOne(answer: seq<Response>, e: Event, window: set<Event>)
    requires EventsOf(answer) == [e] && window == {e}
    ensures Honest(answer, window)
  {
    assert [e] + [] == [e];
    assert IsAnswer(EventsOf(answer) + [], window);
  }

  /** No event id is ever emitted twice, whatever the service answers. */
  lemma {:induction false} RunNeverTwice(polls: seq<Poll>)
    ensures NoRepeat(Polled(polls))
    decreases |polls|
  {
    if polls != [] {
      var n := |polls| - 1;
      RunNeverTwice(polls[..n]);
      NeverTwice(Polled(polls[..n]), EventsOf(polls[n].responses));
    }
  }
}
