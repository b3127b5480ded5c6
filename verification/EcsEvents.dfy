/**
  Logging the events of an ECS service during a deployment (aws/ecs/deploy_logger.go, `refresh`,
  `initLastSeenEvent` and `logNewEvents`).

  Times are naturals; 0 is Go's zero time, so an event without a creation time reads as 0.
*/
module EcsEvents {
  import opened Text
  import opened EcsMessages

  datatype ServiceEvent = ServiceEvent(id: string, createdAt: Option<nat>, message: string)

  /** How far a refresh came before an error: see the returns of `refresh`. */
  datatype Reach = BeforeSeeding | AfterSeeding | Complete

  function ToTime(t: Option<nat>): nat {
    match t
    case None => 0
    case Some(time) => time
  }

  /** The newest creation time, or `since` if there is none newer. */
  function Newest(events: seq<ServiceEvent>, since: nat): (t: nat)
    ensures since <= t && (forall e <- events :: ToTime(e.createdAt) <= t)
    ensures t == since || exists e :: e in events && ToTime(e.createdAt) == t
  {
    if events == [] then since
    else
      var n := |events| - 1;
      var t := Newest(events[..n], since);
      assert forall e | e in events :: e in events[..n] || e == events[n];
      if ToTime(events[n].createdAt) > t then ToTime(events[n].createdAt) else t
  }

  function Fresh(events: seq<ServiceEvent>, since: nat): seq<LogEvent> {
    if events == [] then []
    else
      var n := |events| - 1;
      Fresh(events[..n], since)
      + if ToTime(events[n].createdAt) > since then
          [LogEvent(events[n].id, events[n].createdAt.value, events[n].message)]
        else []
  }

  /** One more event: what the newest time and the new events become. */
  lemma ReadOneMore(events: seq<ServiceEvent>, since: nat, i: nat)
    requires i < |events|
    ensures var e, before := events[i], Newest(events[..i], since);
            && Newest(events[..i + 1], since) == (if ToTime(e.createdAt) > before then ToTime(e.createdAt) else before)
            && Fresh(events[..i + 1], since) == Fresh(events[..i], since)
               + if ToTime(e.createdAt) > since then [LogEvent(e.id, e.createdAt.value, e.message)] else []
  {
    assert events[..i + 1][..i] == events[..i];
  }

  // ----- Go's stable sort by time -----

  function InsertByTime(e: LogEvent, s: seq<LogEvent>): seq<LogEvent> {
    if s == [] || e.at <= s[0].at then [e] + s else [s[0]] + InsertByTime(e, s[1..])
  }

  /** Elements are inserted from the last to the first, each before its equals: equal times keep their order. */
  function SortByTime(s: seq<LogEvent>): seq<LogEvent> {
    if s == [] then [] else InsertByTime(s[0], SortByTime(s[1..]))
  }

  predicate InTimeOrder(s: seq<LogEvent>) {
    forall i, j | 0 <= i < j < |s| :: s[i].at <= s[j].at
  }

  lemma {:induction false} InsertSorts(e: LogEvent, s: seq<LogEvent>)
    requires InTimeOrder(s)
    ensures InTimeOrder(InsertByTime(e, s)) && multiset(InsertByTime(e, s)) == multiset(s) + multiset{e}
  {
    if s == [] || e.at <= s[0].at {
      PutFirst(e, s);
    } else {
      InsertSorts(e, s[1..]);
      var rest := InsertByTime(e, s[1..]);
      NoEarlier(s, e, rest);
      PutFirst(s[0], rest);
      assert s == [s[0]] + s[1..];
    }
  }

  lemma PutFirst(e: LogEvent, s: seq<LogEvent>)
    requires InTimeOrder(s) && (s != [] ==> e.at <= s[0].at)
    ensures InTimeOrder([e] + s)
  {
  }

  lemma NoEarlier(s: seq<LogEvent>, e: LogEvent, rest: seq<LogEvent>)
    requires s != [] && InTimeOrder(s) && s[0].at < e.at && multiset(rest) == multiset(s[1..]) + multiset{e}
    ensures forall i | 0 <= i < |rest| :: s[0].at <= rest[i].at
  {
    forall i | 0 <= i < |rest|
      ensures s[0].at <= rest[i].at
    {
      assert rest[i] in multiset(rest);
      assert rest[i] == e || rest[i] in s[1..];
    }
  }

  lemma {:induction false} SortSorts(s: seq<LogEvent>)
    ensures InTimeOrder(SortByTime(s)) && multiset(SortByTime(s)) == multiset(s)
  {
    if s != [] {
      SortSorts(s[1..]);
      InsertSorts(s[0], SortByTime(s[1..]));
      assert s == [s[0]] + s[1..];
    }
  }

  /** The elements of one time, in order. */
  function AtTime(s: seq<LogEvent>, t: nat): seq<LogEvent> {
    if s == [] then [] else (if s[0].at == t then [s[0]] else []) + AtTime(s[1..], t)
  }

  lemma {:induction false} InsertKeepsTies(e: LogEvent, s: seq<LogEvent>, t: nat)
    ensures AtTime(InsertByTime(e, s), t) == AtTime([e], t) + AtTime(s, t)
  {
    assert AtTime([e], t) == if e.at == t then [e] else [];
    if s != [] && e.at > s[0].at {
      InsertKeepsTies(e, s[1..], t);
    }
  }

  /** The sort is stable: events of one time are printed in the order the service lists them. */
  lemma {:induction false} SortKeepsTies(s: seq<LogEvent>, t: nat)
    ensures AtTime(SortByTime(s), t) == AtTime(s, t)
  {
    if s != [] {
      SortKeepsTies(s[1..], t);
      InsertKeepsTies(s[0], SortByTime(s[1..]), t);
      assert AtTime([s[0]], t) == if s[0].at == t then [s[0]] else [];
    }
  }

  // ----- The code -----

  /** What the logger keeps between refreshes, and what it has printed. */
  datatype Progress = Progress(lastSeen: nat, printed: seq<LogEvent>)

  function Seed(p: Progress, events: seq<ServiceEvent>): Progress {
    if p.lastSeen != 0 then p else p.(lastSeen := Newest(events, 0))
  }

  function LogNew(p: Progress, events: seq<ServiceEvent>): Progress {
    Progress(Newest(events, p.lastSeen), p.printed + SortByTime(Fresh(events, p.lastSeen)))
  }

  function Refreshed(p: Progress, events: seq<ServiceEvent>, reach: Reach): Progress {
    match reach
    case BeforeSeeding => p
    case AfterSeeding => Seed(p, events)
    case Complete => LogNew(Seed(p, events), events)
  }

  class DeployLogger {
    const serviceName: string
    const deploymentId: string
    var lastSeenEventAt: nat
    var stdout: seq<Line>
    ghost var printed: seq<LogEvent>

    constructor (serviceName: string, deploymentId: string)
      ensures Valid() && State() == Progress(0, [])
      ensures this.serviceName == serviceName && this.deploymentId == deploymentId
    {
      this.serviceName, this.deploymentId := serviceName, deploymentId;
      lastSeenEventAt := 0;
      stdout, printed := [], [];
    }

    /** What was written is what was logged, as it is shown. */
    ghost predicate Valid()
      reads this
    {
      stdout == ShownAll(serviceName, deploymentId, printed)
    }

    ghost function State(): Progress
      reads this
    {
      Progress(lastSeenEventAt, printed)
    }

    /** One refresh that found the deployment. */
    method Refresh(events: seq<ServiceEvent>, reach: Reach)
      requires Valid()
      modifies this
      ensures Valid() && State() == Refreshed(old(State()), events, reach)
    {
      if reach.BeforeSeeding? {
        return;
      }
      InitLastSeenEvent(events);
      if reach.AfterSeeding? {
        return;
      }
      LogNewEvents(events);
    }

    method InitLastSeenEvent(events: seq<ServiceEvent>)
      modifies this`lastSeenEventAt
      ensures State() == Seed(old(State()), events)
    {
      if lastSeenEventAt != 0 {
        return;
      }
      for i := 0 to |events|
        invariant lastSeenEventAt == Newest(events[..i], 0)
      {
        assert events[..i + 1][..i] == events[..i];
        if ToTime(events[i].createdAt) > lastSeenEventAt {
          lastSeenEventAt := events[i].createdAt.value;
        }
      }
      assert events[..|events|] == events;
    }

    method LogNewEvents(events: seq<ServiceEvent>)
      requires Valid()
      modifies this
      ensures Valid() && State() == LogNew(old(State()), events)
    {
      var since := lastSeenEventAt;
      var newEvents: seq<LogEvent> := [];
      assert Newest([], since) == since && Fresh([], since) == [];
      hide SortByTime, Newest, Fresh, Shown;
      for i := 0 to |events|
        invariant printed == old(printed) && Valid()
        invariant lastSeenEventAt == Newest(events[..i], since) && newEvents == Fresh(events[..i], since)
      {
        ReadOneMore(events, since, i);
        var evt := events[i];
        if evt.createdAt != None && evt.createdAt.value > since {
          newEvents := newEvents + [LogEvent(evt.id, evt.createdAt.value, evt.message)];
          if evt.createdAt.value > lastSeenEventAt {
            lastSeenEventAt := evt.createdAt.value;
          }
        }
      }
      assert events[..|events|] == events;
      newEvents := SortByTime(newEvents);
      for i := 0 to |newEvents|
        invariant lastSeenEventAt == Newest(events, since) && printed == old(printed) + newEvents[..i] && Valid()
      {
        stdout := stdout + [Shown(serviceName, deploymentId, newEvents[i])];
        printed := printed + [newEvents[i]];
      }
      assert newEvents[..|newEvents|] == newEvents;
    }
  }

  // ----- Whole runs -----

  datatype Poll = Poll(events: seq<ServiceEvent>, reach: Reach)

  function Run(polls: seq<Poll>): Progress
    decreases |polls|
  {
    if polls == [] then Progress(0, [])
    else var n := |polls| - 1; Refreshed(Run(polls[..n]), polls[n].events, polls[n].reach)
  }

  /** What was printed is in time order and no newer than the newest event seen. */
  predicate Orderly(p: Progress) {
    InTimeOrder(p.printed) && forall e <- p.printed :: e.at <= p.lastSeen
  }

  lemma {:induction false} FreshIsNewer(events: seq<ServiceEvent>, since: nat)
    ensures forall e <- Fresh(events, since) :: since < e.at <= Newest(events, since)
    ensures forall e <- Fresh(events, since) :: exists s :: s in events && s.id == e.id && s.createdAt == Some(e.at)
    decreases |events|
  {
    if events != [] {
      var n := |events| - 1;
      FreshIsNewer(events[..n], since);
      assert events[n] in events && forall s | s in events[..n] :: s in events;
      forall e | e in Fresh(events, since)
        ensures exists s :: s in events && s.id == e.id && s.createdAt == Some(e.at)
      {
        if e in Fresh(events[..n], since) {
          var s :| s in events[..n] && s.id == e.id && s.createdAt == Some(e.at);
        }
      }
    }
  }

  lemma SortedMembers(s: seq<LogEvent>)
    ensures forall e :: e in SortByTime(s) <==> e in s
  {
    SortSorts(s);
    assert forall e :: e in SortByTime(s) <==> e in multiset(SortByTime(s));
    assert forall e :: e in s <==> e in multiset(s);
  }

  lemma LogNewAdds(p: Progress, events: seq<ServiceEvent>)
    requires Orderly(p)
    ensures var next := LogNew(p, events);
            && Orderly(next) && p.lastSeen <= next.lastSeen
            && p.printed <= next.printed && next.printed[|p.printed|..] == SortByTime(Fresh(events, p.lastSeen))
            && forall e <- next.printed[|p.printed|..] :: e.at > p.lastSeen
  {
    var added := SortByTime(Fresh(events, p.lastSeen));
    FreshIsNewer(events, p.lastSeen);
    SortedMembers(Fresh(events, p.lastSeen));
    SortSorts(Fresh(events, p.lastSeen));
    hide Fresh, SortByTime;
    assert LogNew(p, events).printed[|p.printed|..] == added;
    assert forall i | 0 <= i < |p.printed| :: p.printed[i] in p.printed;
    assert forall i | 0 <= i < |added| :: added[i] in added;
  }

  lemma {:induction false} FreshHasAll(events: seq<ServiceEvent>, since: nat, s: ServiceEvent)
    requires s in events && ToTime(s.createdAt) > since
    ensures LogEvent(s.id, s.createdAt.value, s.message) in Fresh(events, since)
    decreases |events|
  {
    var n := |events| - 1;
    if s != events[n] {
      assert events == events[..n] + [events[n]];
      FreshHasAll(events[..n], since, s);
    }
  }

  /** No event that is newer than everything seen before is skipped by a refresh that gets to print. */
  lemma RefreshPrintsAll(p: Progress, events: seq<ServiceEvent>, s: ServiceEvent)
    requires p.lastSeen != 0 && s in events && ToTime(s.createdAt) > p.lastSeen
    ensures LogEvent(s.id, s.createdAt.value, s.message) in Refreshed(p, events, Complete).printed
  {
    FreshHasAll(events, p.lastSeen, s);
    SortedMembers(Fresh(events, p.lastSeen));
  }

  /** The refresh that sets the starting point prints nothing. */
  lemma SeedingPrintsNothing(events: seq<ServiceEvent>)
    ensures SortByTime(Fresh(events, Newest(events, 0))) == []
  {
    FreshIsNewer(events, Newest(events, 0));
    if Fresh(events, Newest(events, 0)) != [] {
      HasMember(Fresh(events, Newest(events, 0)));
    }
  }

  /** A refresh only adds events that are newer than everything seen before it. */
  lemma RefreshAdds(p: Progress, events: seq<ServiceEvent>, reach: Reach)
    requires Orderly(p)
    ensures var next := Refreshed(p, events, reach);
            && Orderly(next) && p.lastSeen <= next.lastSeen && p.printed <= next.printed
            && (forall e <- next.printed[|p.printed|..] :: e.at > p.lastSeen)
            && (p.lastSeen == 0 ==> next.printed == p.printed)
  {
    if reach == Complete {
      LogNewAdds(Seed(p, events), events);
      SeedingPrintsNothing(events);
      hide Fresh, SortByTime, Newest, LogNew, Orderly;
    }
  }

  /**
    Over a whole run: what is printed stays printed, in ascending time order, and everything printed
    after any refresh is strictly newer than the newest event that refresh had seen.
  */
  lemma {:induction false} RunInOrder(polls: seq<Poll>, k: nat)
    requires k <= |polls|
    ensures var before, after := Run(polls[..k]), Run(polls);
            && Orderly(after) && before.lastSeen <= after.lastSeen && before.printed <= after.printed
            && (forall e <- after.printed[|before.printed|..] :: e.at > before.lastSeen)
            && (after.lastSeen == 0 ==> after.printed == [])
    decreases |polls|
  {
    if polls != [] {
      var n := |polls| - 1;
      RunInOrder(polls[..n], if k < n then k else n);
      var middle := Run(polls[..n]);
      RefreshAdds(middle, polls[n].events, polls[n].reach);
      if k < |polls| {
        assert polls[..n][..k] == polls[..k];
        SuffixSplit(Run(polls[..k]), middle, Run(polls));
      } else {
        assert polls[..k] == polls;
      }
    }
  }

  lemma SuffixSplit(before: Progress, middle: Progress, after: Progress)
    requires before.printed <= middle.printed <= after.printed && before.lastSeen <= middle.lastSeen
    requires forall e <- middle.printed[|before.printed|..] :: e.at > before.lastSeen
    requires forall e <- after.printed[|middle.printed|..] :: e.at > middle.lastSeen
    ensures forall e <- after.printed[|before.printed|..] :: e.at > before.lastSeen
  {
  }

  // ----- Each event once -----

  /** An event keeps its creation time, and a service lists it once. */
  predicate FixedTimes(polls: seq<Poll>, times: map<string, nat>) {
    forall i | 0 <= i < |polls| ::
      && (forall e <- polls[i].events :: e.createdAt.Some? ==> e.id in times && times[e.id] == e.createdAt.value)
      && (forall j, k | 0 <= j < k < |polls[i].events| :: polls[i].events[j].id != polls[i].events[k].id)
  }

  predicate Once(s: seq<LogEvent>) {
    forall i, j | 0 <= i < j < |s| :: s[i].id != s[j].id
  }

  lemma {:induction false} FreshOnce(events: seq<ServiceEvent>, since: nat)
    requires forall j, k | 0 <= j < k < |events| :: events[j].id != events[k].id
    ensures Once(Fresh(events, since))
    decreases |events|
  {
    if events != [] {
      var n := |events| - 1;
      FreshOnce(events[..n], since);
      FreshIsNewer(events[..n], since);
      hide Newest;
      var before := Fresh(events[..n], since);
      forall i | 0 <= i < |before|
        ensures before[i].id != events[n].id
      {
        assert before[i] in before;
        var s :| s in events[..n] && s.id == before[i].id;
      }
    }
  }

  lemma {:induction false} InsertOnce(e: LogEvent, s: seq<LogEvent>)
    requires Once(s) && forall d <- s :: d.id != e.id
    ensures Once(InsertByTime(e, s)) && forall d :: d in InsertByTime(e, s) <==> d == e || d in s
  {
    if s != [] && e.at > s[0].at {
      InsertOnce(e, s[1..]);
      assert s == [s[0]] + s[1..];
      assert forall i | 0 <= i < |InsertByTime(e, s[1..])| :: InsertByTime(e, s[1..])[i] in InsertByTime(e, s[1..]);
    }
  }

  lemma {:induction false} SortOnce(s: seq<LogEvent>)
    requires Once(s)
    ensures Once(SortByTime(s))
  {
    if s != [] {
      SortOnce(s[1..]);
      SortedMembers(s[1..]);
      InsertOnce(s[0], SortByTime(s[1..]));
    }
  }

  /** Over a whole run no service event is printed twice. */
  lemma {:induction false} RunPrintsOnce(polls: seq<Poll>, times: map<string, nat>)
    requires FixedTimes(polls, times)
    ensures var p := Run(polls);
            Once(p.printed) && forall e <- p.printed :: e.id in times && times[e.id] == e.at
    decreases |polls|
  {
    if polls != [] {
      var n := |polls| - 1;
      var before, poll := Run(polls[..n]), polls[n];
      RunPrintsOnce(polls[..n], times);
      RunInOrder(polls[..n], 0);
      if poll.reach == Complete {
        var since := Seed(before, poll.events).lastSeen;
        var newer := Fresh(poll.events, since);
        FreshOnce(poll.events, since);
        FreshIsNewer(poll.events, since);
        SortOnce(newer);
        SortedMembers(newer);
        hide Fresh, SortByTime, Newest;
        forall e | e in newer
          ensures e.id in times && times[e.id] == e.at
        {
          var s :| s in poll.events && s.id == e.id && s.createdAt == Some(e.at);
        }
        JoinOnce(before.printed, SortByTime(newer), since, times);
      }
    }
  }

  lemma JoinOnce(a: seq<LogEvent>, b: seq<LogEvent>, since: nat, times: map<string, nat>)
    requires Once(a) && Once(b) && (forall e <- a :: e.at <= since) && (forall e <- b :: e.at > since)
    requires forall e <- a :: e.id in times && times[e.id] == e.at
    requires forall e <- b :: e.id in times && times[e.id] == e.at
    ensures Once(a + b)
  {
  }

  // ----- Which events a run prints -----

  function AsLogged(s: ServiceEvent): LogEvent
    requires s.createdAt.Some?
  {
    LogEvent(s.id, s.createdAt.value, s.message)
  }

  /** The newest time seen by the time refresh `k` looks for new events: the starting point is set by then. */
  function Since(polls: seq<Poll>, k: nat): nat
    requires k < |polls|
  {
    Seed(Run(polls[..k]), polls[k].events).lastSeen
  }

  /** Refresh `k` gets to print, and lists an event as newer than everything seen before. */
  predicate PrintsAt(polls: seq<Poll>, k: nat, s: ServiceEvent) {
    k < |polls| && polls[k].reach == Complete && s in polls[k].events && ToTime(s.createdAt) > Since(polls, k)
  }

  lemma {:induction false} FreshIsListed(events: seq<ServiceEvent>, since: nat, e: LogEvent)
    ensures e in Fresh(events, since) <==> exists s :: s in events && ToTime(s.createdAt) > since && AsLogged(s) == e
    decreases |events|
  {
    if events != [] {
      var n := |events| - 1;
      FreshIsListed(events[..n], since, e);
      assert events == events[..n] + [events[n]];
      if s :| s in events && ToTime(s.createdAt) > since && AsLogged(s) == e {
        assert s in events[..n] || s == events[n];
      }
      if e in Fresh(events, since) && e !in Fresh(events[..n], since) {
        assert events[n] in events && AsLogged(events[n]) == e;
      }
    }
  }

  lemma RefreshPrints(p: Progress, events: seq<ServiceEvent>, reach: Reach, e: LogEvent)
    ensures e in Refreshed(p, events, reach).printed <==>
            e in p.printed || (reach == Complete && e in Fresh(events, Seed(p, events).lastSeen))
  {
    SortedMembers(Fresh(events, Seed(p, events).lastSeen));
    hide Fresh, SortByTime, Newest;
  }

  lemma SameBefore(polls: seq<Poll>, n: nat, k: nat, s: ServiceEvent)
    requires k < n <= |polls|
    ensures Since(polls[..n], k) == Since(polls, k) && (PrintsAt(polls[..n], k, s) <==> PrintsAt(polls, k, s))
  {
    assert polls[..n][..k] == polls[..k];
  }

  lemma LastPrints(polls: seq<Poll>, e: LogEvent)
    requires polls != []
    ensures var n := |polls| - 1;
            e in Run(polls).printed <==>
            e in Run(polls[..n]).printed || exists s :: PrintsAt(polls, n, s) && AsLogged(s) == e
  {
    var n := |polls| - 1;
    RefreshPrints(Run(polls[..n]), polls[n].events, polls[n].reach, e);
    FreshIsListed(polls[n].events, Since(polls, n), e);
    hide Fresh, Refreshed, Newest;
    forall s
      ensures PrintsAt(polls, n, s) <==>
              polls[n].reach == Complete && s in polls[n].events && ToTime(s.createdAt) > Since(polls, n)
    {
    }
  }

  /** A run prints exactly the events that some refresh lists as newer than everything seen before. */
  lemma {:induction false} RunPrints(polls: seq<Poll>, e: LogEvent)
    ensures e in Run(polls).printed <==> exists k: nat, s :: PrintsAt(polls, k, s) && AsLogged(s) == e
    decreases |polls|
  {
    if polls != [] {
      var n := |polls| - 1;
      RunPrints(polls[..n], e);
      LastPrints(polls, e);
      forall k: nat, s | k < n
        ensures PrintsAt(polls[..n], k, s) <==> PrintsAt(polls, k, s)
      {
        SameBefore(polls, n, k, s);
      }
      hide Run;
      assert forall k: nat, s :: PrintsAt(polls, k, s) ==> k <= n;
      assert forall k: nat, s :: PrintsAt(polls[..n], k, s) ==> k < n;
    }
  }

  // ----- The starting point, and what a run skips -----

  /** The newest time the first refresh lists that sets a starting point; 0 if none does. */
  function StartingPoint(polls: seq<Poll>): nat
    decreases |polls|
  {
    if polls == [] then 0
    else
      var n := |polls| - 1;
      var before := StartingPoint(polls[..n]);
      if before != 0 || polls[n].reach == BeforeSeeding then before else Newest(polls[n].events, 0)
  }

  /** Refresh `k` gets to print and lists the event. */
  predicate Lists(polls: seq<Poll>, k: nat, s: ServiceEvent) {
    k < |polls| && polls[k].reach == Complete && s in polls[k].events
  }

  /** `t` is later than everything listed by the refreshes before `k` that got to print. */
  ghost predicate LaterThanListed(polls: seq<Poll>, k: nat, t: nat) {
    forall j: nat, d | j < k && Lists(polls, j, d) :: ToTime(d.createdAt) < t
  }

  lemma {:induction false} StartIsSeen(polls: seq<Poll>)
    ensures StartingPoint(polls) <= Run(polls).lastSeen && (StartingPoint(polls) == 0 <==> Run(polls).lastSeen == 0)
    decreases |polls|
  {
    if polls != [] {
      StartIsSeen(polls[..|polls| - 1]);
      hide Fresh, SortByTime;
    }
  }

  lemma {:induction false} StartStays(polls: seq<Poll>, k: nat)
    requires k <= |polls| && StartingPoint(polls[..k]) != 0
    ensures StartingPoint(polls) == StartingPoint(polls[..k])
    decreases |polls|
  {
    if k < |polls| {
      var n := |polls| - 1;
      assert polls[..n][..k] == polls[..k];
      StartStays(polls[..n], k);
    } else {
      assert polls[..k] == polls;
    }
  }

  lemma LaterThanLast(polls: seq<Poll>, t: nat)
    requires polls != []
    ensures var n := |polls| - 1;
            LaterThanListed(polls, n + 1, t) <==>
            LaterThanListed(polls[..n], n, t)
            && (polls[n].reach == Complete ==> forall d <- polls[n].events :: ToTime(d.createdAt) < t)
  {
    var n := |polls| - 1;
    hide ToTime;
    assert forall j: nat, d | j < n :: Lists(polls, j, d) <==> Lists(polls[..n], j, d);
    assert forall d :: Lists(polls, n, d) <==> polls[n].reach == Complete && d in polls[n].events;
  }

  /** What has been seen is the starting point and what the refreshes that got to print listed. */
  lemma {:induction false} SeenIsListed(polls: seq<Poll>, t: nat)
    ensures t > Run(polls).lastSeen <==> t > StartingPoint(polls) && LaterThanListed(polls, |polls|, t)
    decreases |polls|
  {
    if polls != [] {
      var n := |polls| - 1;
      SeenIsListed(polls[..n], t);
      StartIsSeen(polls[..n]);
      LaterThanLast(polls, t);
      hide Fresh, SortByTime, LaterThanListed, Lists;
    }
  }

  /** A refresh prints an event later than the starting point exactly if it is later than everything listed before. */
  lemma PrintsIfLater(polls: seq<Poll>, k: nat, s: ServiceEvent)
    requires Lists(polls, k, s) && ToTime(s.createdAt) > StartingPoint(polls)
    ensures PrintsAt(polls, k, s) <==> LaterThanListed(polls, k, ToTime(s.createdAt))
  {
    var t, before := ToTime(s.createdAt), Run(polls[..k]);
    assert polls[..k + 1][..k] == polls[..k];
    SeenIsListed(polls[..k], t);
    StartIsSeen(polls[..k]);
    if StartingPoint(polls[..k + 1]) != 0 {
      StartStays(polls, k + 1);
    }
    hide Run, Refreshed;
    assert forall j: nat, d | j < k :: Lists(polls, j, d) <==> Lists(polls[..k], j, d);
    assert LaterThanListed(polls, k, t) <==> LaterThanListed(polls[..k], k, t);
  }

  /** Everything printed is strictly later than the starting point. */
  lemma RunPrintsOnlyLater(polls: seq<Poll>, e: LogEvent)
    requires e in Run(polls).printed
    ensures e.at > StartingPoint(polls) > 0
  {
    RunPrints(polls, e);
    var k: nat, s :| PrintsAt(polls, k, s) && AsLogged(s) == e;
    var before := Run(polls[..k]);
    assert polls[..k + 1][..k] == polls[..k];
    StartIsSeen(polls[..k]);
    StartStays(polls, k + 1);
  }

  /** An event later than the starting point that a refresh listed, and the run has not printed. */
  ghost predicate Skips(polls: seq<Poll>, k: nat, s: ServiceEvent) {
    Lists(polls, k, s) && ToTime(s.createdAt) > StartingPoint(polls) && AsLogged(s) !in Run(polls).printed
  }

  /** The refresh is the first that lists the event. */
  ghost predicate FirstLists(polls: seq<Poll>, k: nat, s: ServiceEvent) {
    Lists(polls, k, s) && forall j: nat | j < k :: !Lists(polls, j, s)
  }

  lemma {:induction false} FirstListing(polls: seq<Poll>, k: nat, s: ServiceEvent) returns (j: nat)
    requires Lists(polls, k, s)
    ensures j <= k && FirstLists(polls, j, s)
  {
    if i: nat :| i < k && Lists(polls, i, s) {
      j := FirstListing(polls, i, s);
    } else {
      j := k;
    }
  }

  /** One later than the starting point is printed exactly if, when first listed, it is later than all listed before. */
  lemma PrintedIfLaterAtFirst(polls: seq<Poll>, k: nat, s: ServiceEvent)
    requires FirstLists(polls, k, s) && ToTime(s.createdAt) > StartingPoint(polls)
    ensures AsLogged(s) in Run(polls).printed <==> LaterThanListed(polls, k, ToTime(s.createdAt))
  {
    RunPrints(polls, AsLogged(s));
    PrintsIfLater(polls, k, s);
    if j: nat, d :| PrintsAt(polls, j, d) && AsLogged(d) == AsLogged(s) {
      assert Lists(polls, j, d) && d == s;
      PrintsIfLater(polls, j, s);
    }
  }

  /**
    A run prints every listed event that is later than the starting point, exactly if each is later,
    when it is first listed, than everything listed before.
  */
  lemma RunSkipsNone(polls: seq<Poll>)
    ensures (forall k, s :: !Skips(polls, k, s)) <==>
            forall k, s | FirstLists(polls, k, s) && ToTime(s.createdAt) > StartingPoint(polls) ::
              LaterThanListed(polls, k, ToTime(s.createdAt))
  {
    forall k: nat, s | FirstLists(polls, k, s) && ToTime(s.createdAt) > StartingPoint(polls)
      ensures Skips(polls, k, s) <==> !LaterThanListed(polls, k, ToTime(s.createdAt))
    {
      PrintedIfLaterAtFirst(polls, k, s);
    }
    forall k: nat, s | Skips(polls, k, s)
      ensures exists j :: FirstLists(polls, j, s) && Skips(polls, j, s)
    {
      var j := FirstListing(polls, k, s);
    }
  }

  /** Two events of one second, the second listed a refresh later, are such a case. */
  lemma SameTimeSkipped()
    ensures var start, one, two :=
              ServiceEvent("0", Some(5), ""), ServiceEvent("1", Some(7), ""), ServiceEvent("2", Some(7), "");
            Skips([Poll([start], Complete), Poll([one, start], Complete), Poll([two, one, start], Complete)], 2, two)
  {
    var start, one := ServiceEvent("0", Some(5), ""), ServiceEvent("1", Some(7), "");
    var two := ServiceEvent("2", Some(7), "");
    var polls := [Poll([start], Complete), Poll([one, start], Complete), Poll([two, one, start], Complete)];
    assert polls[..1] == [polls[0]] && [polls[0]][..0] == [];
    assert [start][..0] == [] && Newest([start], 0) == 5;
    assert StartingPoint(polls[..1]) == 5;
    StartStays(polls, 1);
    assert Lists(polls, 1, one) && two in polls[2].events;
    PrintedIfLaterAtFirst(polls, 2, two);
  }
}
