/** What changed between two states of a service's endpoints (k8s/service_watcher.go). */
module Endpoints {
  import opened Text

  datatype Address = Address(ip: string, nodeName: Option<string>, targetName: Option<string>)

  datatype Subset = Subset(addresses: seq<Address>, notReadyAddresses: seq<Address>)

  type Addresses = map<string, Address>

  datatype State = State(ready: Addresses, notReady: Addresses)

  datatype Diff = Diff(removed: Addresses, addedToReady: Addresses, addedToNotReady: Addresses,
                       promotedToReady: Addresses, demotedToNotReady: Addresses)

  function OrEmpty(s: Option<string>): string {
    match s
    case None => ""
    case Some(value) => value
  }

  function EndpointKey(a: Address): string {
    a.ip + "/" + OrEmpty(a.nodeName) + "/" + OrEmpty(a.targetName)
  }

  // ----- States -----

  function AddAll(m: Addresses, addresses: seq<Address>): Addresses {
    if addresses == [] then m
    else var n := |addresses| - 1; AddAll(m, addresses[..n])[EndpointKey(addresses[n]) := addresses[n]]
  }

  function StateOf(subsets: seq<Subset>): State {
    if subsets == [] then State(map[], map[])
    else
      var n := |subsets| - 1;
      var before := StateOf(subsets[..n]);
      State(AddAll(before.ready, subsets[n].addresses), AddAll(before.notReady, subsets[n].notReadyAddresses))
  }

  method AddAddresses(start: Addresses, addresses: seq<Address>) returns (m: Addresses)
    ensures m == AddAll(start, addresses)
  {
    m := start;
    for i := 0 to |addresses|
      invariant m == AddAll(start, addresses[..i])
    {
      m := m[EndpointKey(addresses[i]) := addresses[i]];
      assert addresses[..i + 1][..i] == addresses[..i];
    }
    assert addresses[..|addresses|] == addresses;
  }

  method EndpointsStateFromSubsets(subsets: seq<Subset>) returns (state: State)
    ensures state == StateOf(subsets)
  {
    state := State(map[], map[]);
    for i := 0 to |subsets|
      invariant state == StateOf(subsets[..i])
    {
      var ready := AddAddresses(state.ready, subsets[i].addresses);
      var notReady := AddAddresses(state.notReady, subsets[i].notReadyAddresses);
      state := State(ready, notReady);
      assert subsets[..i + 1][..i] == subsets[..i];
    }
    assert subsets[..|subsets|] == subsets;
  }

  function Side(state: State, ready: bool): Addresses {
    if ready then state.ready else state.notReady
  }

  function Offers(subset: Subset, ready: bool): seq<Address> {
    if ready then subset.addresses else subset.notReadyAddresses
  }

  /** A key is ready exactly if some subset lists an address with it as ready; and likewise not ready. */
  lemma {:induction false} ReadyKeys(subsets: seq<Subset>, ready: bool, key: string)
    ensures key in Side(StateOf(subsets), ready) <==>
            exists i, j :: 0 <= i < |subsets| && 0 <= j < |Offers(subsets[i], ready)|
                           && EndpointKey(Offers(subsets[i], ready)[j]) == key
  {
    if subsets != [] {
      var n := |subsets| - 1;
      ReadyKeys(subsets[..n], ready, key);
      AddedKeys(Side(StateOf(subsets[..n]), ready), Offers(subsets[n], ready), key);
      assert Side(StateOf(subsets), ready) == AddAll(Side(StateOf(subsets[..n]), ready), Offers(subsets[n], ready));
      hide EndpointKey, AddAll, StateOf, Side, Offers;
      if i, j :| 0 <= i < n && 0 <= j < |Offers(subsets[..n][i], ready)|
                 && EndpointKey(Offers(subsets[..n][i], ready)[j]) == key {
        assert subsets[..n][i] == subsets[i];
      }
      if i, j :| 0 <= i < |subsets| && 0 <= j < |Offers(subsets[i], ready)|
                 && EndpointKey(Offers(subsets[i], ready)[j]) == key {
        assert i < n ==> subsets[..n][i] == subsets[i];
      }
    }
  }

  lemma {:induction false} AddedKeys(m: Addresses, addresses: seq<Address>, key: string)
    ensures key in AddAll(m, addresses) <==>
            key in m || exists j :: 0 <= j < |addresses| && EndpointKey(addresses[j]) == key
    decreases |addresses|
  {
    if addresses != [] {
      var n := |addresses| - 1;
      AddedKeys(m, addresses[..n], key);
      hide EndpointKey;
      if j :| 0 <= j < n && EndpointKey(addresses[..n][j]) == key {
        assert addresses[..n][j] == addresses[j];
      }
      if j :| 0 <= j < |addresses| && EndpointKey(addresses[j]) == key {
        assert j < n ==> addresses[..n][j] == addresses[j];
      }
    }
  }

  // ----- Differences -----

  function All(s: State): Addresses {
    s.ready + s.notReady
  }

  /** Entries of `m` whose keys satisfy the membership given. */
  function Without(m: Addresses, keys: set<string>): Addresses {
    map k | k in m && k !in keys :: m[k]
  }

  function Within(m: Addresses, keys: set<string>): Addresses {
    map k | k in m && k in keys :: m[k]
  }

  /** The difference, where a new address is filed as not ready if its key is in `lookIn`. */
  function DiffLooking(a: State, b: State, lookIn: Addresses): Diff {
    var prev, cur := All(a), All(b);
    var added := Without(cur, prev.Keys);
    Diff(Without(prev, cur.Keys),
         Without(added, lookIn.Keys), Within(added, lookIn.Keys),
         Within(a.notReady, b.ready.Keys), Within(a.ready, b.notReady.Keys))
  }

  /** As written: new addresses are looked up in the old state. */
  function DiffOf(a: State, b: State): Diff {
    DiffLooking(a, b, a.notReady)
  }

  method Select(m: Addresses, keys: set<string>, inside: bool) returns (picked: Addresses)
    ensures picked == if inside then Within(m, keys) else Without(m, keys)
  {
    picked := map[];
    var todo := m.Keys;
    while todo != {}
      invariant todo <= m.Keys
      invariant picked == map k | k in m && k !in todo && (k in keys) == inside :: m[k]
      decreases todo
    {
      var key :| key in todo;
      todo := todo - {key};
      if (key in keys) == inside {
        picked := picked[key := m[key]];
      }
    }
  }

  method SplitAdded(cur: Addresses, prev: Addresses, lookIn: Addresses) returns (ready: Addresses, notReady: Addresses)
    ensures ready == Without(Without(cur, prev.Keys), lookIn.Keys)
    ensures notReady == Within(Without(cur, prev.Keys), lookIn.Keys)
  {
    ready, notReady := map[], map[];
    var todo := cur.Keys;
    while todo != {}
      invariant todo <= cur.Keys
      invariant ready == map k | k in cur && k !in prev && k !in todo && k !in lookIn :: cur[k]
      invariant notReady == map k | k in cur && k !in prev && k !in todo && k in lookIn :: cur[k]
      decreases todo
    {
      var key :| key in todo;
      todo := todo - {key};
      if key !in prev {
        if key in lookIn {
          notReady := notReady[key := cur[key]];
        } else {
          ready := ready[key := cur[key]];
        }
      }
    }
  }

  method ComputeDiff(a: State, b: State) returns (diff: Diff)
    ensures diff == DiffOf(a, b)
  {
    hide Within, Without, All;
    var prev, cur := All(a), All(b);
    var removed := Select(prev, cur.Keys, false);
    var addedToReady, addedToNotReady := SplitAdded(cur, prev, a.notReady);
    var promoted := Select(a.notReady, b.ready.Keys, true);
    var demoted := Select(a.ready, b.notReady.Keys, true);
    diff := Diff(removed, addedToReady, addedToNotReady, promoted, demoted);
  }

  /** Which keys each part of a difference has. */
  lemma DiffKeys(a: State, b: State, lookIn: Addresses)
    ensures var d := DiffLooking(a, b, lookIn);
            var prev, cur := a.ready.Keys + a.notReady.Keys, b.ready.Keys + b.notReady.Keys;
            && d.removed.Keys == prev - cur
            && d.addedToReady.Keys == cur - prev - lookIn.Keys && d.addedToNotReady.Keys == (cur - prev) * lookIn.Keys
            && d.promotedToReady.Keys == a.notReady.Keys * b.ready.Keys
            && d.demotedToNotReady.Keys == a.ready.Keys * b.notReady.Keys
  {
  }

  /** The old addresses without the removed ones, and with those added on either side, are the new ones. */
  lemma DiffExact(a: State, b: State)
    ensures var d := DiffOf(a, b);
            && d.removed.Keys <= All(a).Keys && d.removed.Keys !! All(b).Keys
            && d.addedToReady.Keys !! d.addedToNotReady.Keys
            && (d.addedToReady.Keys + d.addedToNotReady.Keys) !! All(a).Keys
            && Replay(All(a).Keys, d) == All(b).Keys
            && (forall k | k in d.addedToReady :: d.addedToReady[k] == All(b)[k])
            && (forall k | k in d.removed :: d.removed[k] == All(a)[k])
  {
  }

  function Replay(keys: set<string>, d: Diff): set<string> {
    keys - d.removed.Keys + d.addedToReady.Keys + d.addedToNotReady.Keys
  }

  // ----- Readiness -----

  predicate Disjoint(s: State) {
    s.ready.Keys !! s.notReady.Keys
  }

  /** Each address that stays is promoted, demoted or as ready as before, and never two of these. */
  lemma SurvivorsSplit(a: State, b: State, key: string)
    requires Disjoint(a) && Disjoint(b) && key in All(a) && key in All(b)
    ensures var d := DiffOf(a, b);
            && (key in d.promotedToReady <==> key in a.notReady && key in b.ready)
            && (key in d.demotedToNotReady <==> key in a.ready && key in b.notReady)
            && !(key in d.promotedToReady && key in d.demotedToNotReady)
            && (key !in d.promotedToReady && key !in d.demotedToNotReady <==> (key in a.ready <==> key in b.ready))
  {
  }

  /** The readiness of each address after a diff, as a reader of the diffs would track it. */
  function ReplayReady(ready: set<string>, d: Diff): set<string> {
    ready - d.removed.Keys - d.demotedToNotReady.Keys + d.promotedToReady.Keys + d.addedToReady.Keys
  }

  function ReplayNotReady(notReady: set<string>, d: Diff): set<string> {
    notReady - d.removed.Keys - d.promotedToReady.Keys + d.demotedToNotReady.Keys + d.addedToNotReady.Keys
  }

  predicate TracksReadiness(a: State, b: State, d: Diff) {
    ReplayReady(a.ready.Keys, d) == b.ready.Keys && ReplayNotReady(a.notReady.Keys, d) == b.notReady.Keys
  }

  /**
    As written, no address is ever reported as added but not ready: all new ones are reported as
    ready. So the diff tells the readiness of the new state exactly if no new address is not ready.
  */
  lemma AddedNotReadyIsMissed(a: State, b: State)
    requires Disjoint(a) && Disjoint(b)
    ensures DiffOf(a, b).addedToNotReady == map[]
    ensures TracksReadiness(a, b, DiffOf(a, b)) <==> b.notReady.Keys <= All(a).Keys
  {
    DiffKeys(a, b, a.notReady);
    assert DiffOf(a, b).addedToNotReady.Keys == {};
    hide DiffLooking;
    AllAsReady(a.ready.Keys, a.notReady.Keys, b.ready.Keys, b.notReady.Keys);
    assert (b.ready.Keys + b.notReady.Keys - (a.ready.Keys + a.notReady.Keys)) - a.notReady.Keys
           == b.ready.Keys + b.notReady.Keys - (a.ready.Keys + a.notReady.Keys);
  }

  /** For one: a first address that is not ready is reported as ready. */
  lemma FirstAddressReportedReady(address: Address)
    ensures var a, b := StateOf([]), StateOf([Subset([], [address])]);
            var d := DiffOf(a, b);
            && b == State(map[], map[EndpointKey(address) := address])
            && d.addedToReady == map[EndpointKey(address) := address] && d.addedToNotReady == map[]
            && !TracksReadiness(a, b, d)
  {
    hide EndpointKey;
    var a, b, key := StateOf([]), StateOf([Subset([], [address])]), EndpointKey(address);
    assert AddAll(map[], []) == map[] && AddAll(map[], [address]) == map[key := address];
    assert a == State(map[], map[]) && b == State(map[], map[key := address]);
    AddedNotReadyIsMissed(a, b);
    assert key in b.notReady && key !in All(a);
    DiffExact(a, b);
  }

  /** Filing every new key as ready is right exactly if no new key is not ready. */
  lemma AllAsReady(r: set<string>, n: set<string>, r': set<string>, n': set<string>)
    requires r !! n && r' !! n'
    ensures var removed, added := (r + n) - (r' + n'), (r' + n') - (r + n);
            r - removed - r * n' + n * r' + added == r' && n - removed - n * r' + r * n' + {} == n' <==> n' <= r + n
  {
    var removed, added := (r + n) - (r' + n'), (r' + n') - (r + n);
    if k :| k in n' && k !in r + n {
      assert k in r - removed - r * n' + n * r' + added && k !in r';
    }
  }

  /** Looking new addresses up in the new state instead, the diff tells the readiness of every new state. */
  lemma LookingInNewState(a: State, b: State)
    requires Disjoint(a) && Disjoint(b)
    ensures TracksReadiness(a, b, DiffLooking(a, b, b.notReady))
  {
  }

  // ----- The stream of differences -----

  datatype Event = Changed(subsets: seq<Subset>) | NotEndpoints | Deleted | Failed

  /** The states seen before the stream ends. */
  function States(events: seq<Event>): seq<State> {
    if events == [] || events[0].Deleted? || events[0].Failed? then []
    else if events[0].NotEndpoints? then States(events[1..])
    else [StateOf(events[0].subsets)] + States(events[1..])
  }

  function Diffs(prev: State, states: seq<State>): seq<Diff>
    decreases |states|
  {
    if states == [] then [] else [DiffOf(prev, states[0])] + Diffs(states[0], states[1..])
  }

  const EMPTY := State(map[], map[])

  method Stream(events: seq<Event>) returns (emitted: seq<Diff>)
    ensures emitted == Diffs(EMPTY, States(events))
  {
    emitted := [];
    var prevState := EMPTY;
    for i := 0 to |events|
      invariant emitted + Diffs(prevState, States(events[i..])) == Diffs(EMPTY, States(events))
    {
      assert events[i..][1..] == events[i + 1..];
      if events[i].NotEndpoints? {
        continue;
      }
      if events[i].Deleted? || events[i].Failed? {
        break;
      }
      var newState := EndpointsStateFromSubsets(events[i].subsets);
      var diff := ComputeDiff(prevState, newState);
      NextDiff(prevState, newState, States(events[i + 1..]));
      emitted := emitted + [diff];
      prevState := newState;
    }
  }

  lemma NextDiff(prev: State, next: State, rest: seq<State>)
    ensures Diffs(prev, [next] + rest) == [DiffOf(prev, next)] + Diffs(next, rest)
  {
  }

  function ReplayAll(keys: set<string>, diffs: seq<Diff>): set<string>
    decreases |diffs|
  {
    if diffs == [] then keys else ReplayAll(Replay(keys, diffs[0]), diffs[1..])
  }

  /** Replaying all differences gives the addresses of the last state. */
  lemma {:induction false} ReplayGivesLast(prev: State, states: seq<State>)
    ensures ReplayAll(All(prev).Keys, Diffs(prev, states))
            == All(if states == [] then prev else states[|states| - 1]).Keys
    decreases |states|
  {
    hide DiffOf, All, Replay;
    if states != [] {
      DiffExact(prev, states[0]);
      ReplayGivesLast(states[0], states[1..]);
    }
  }

  lemma StreamReplays(events: seq<Event>)
    ensures var states := States(events);
            ReplayAll({}, Diffs(EMPTY, states)) == if states == [] then {} else All(states[|states| - 1]).Keys
  {
    assert All(EMPTY).Keys == {};
    ReplayGivesLast(EMPTY, States(events));
  }
}
