/** Endpoint states, differences and their stream, by the addresses themselves (k8s/service_watcher.go). */
module EndpointLaws {
  import opened Text
  import opened Endpoints

  // ----- Keys -----

  /** The address, the node and the target with slashes between them; a name that is not given is empty. */
  lemma KeyText(a: Address)
    ensures EndpointKey(a) == a.ip + ("/" + (OrEmpty(a.nodeName) + ("/" + OrEmpty(a.targetName))))
    ensures OrEmpty(None) == "" && forall s :: OrEmpty(Some(s)) == s
  {
  }

  predicate NoSlash(s: string) {
    forall i | 0 <= i < |s| :: s[i] != '/'
  }

  lemma CutOnce(a: string, x: string, b: string, y: string)
    requires NoSlash(a) && NoSlash(b) && a + ("/" + x) == b + ("/" + y)
    ensures a == b && x == y
  {
    var s := a + ("/" + x);
    assert s[|a|] == '/' && s[|b|] == '/';
    assert forall i | 0 <= i < |a| :: s[i] == a[i];
    assert forall i | 0 <= i < |b| :: s[i] == b[i];
    assert s[..|a|] == a && s[..|b|] == b && s[|a| + 1..] == x && s[|b| + 1..] == y;
  }

  /** Two addresses have one key exactly if they agree in all three parts; neither IPs nor node names hold slashes. */
  lemma OneKey(a: Address, b: Address)
    requires NoSlash(a.ip) && NoSlash(b.ip) && NoSlash(OrEmpty(a.nodeName)) && NoSlash(OrEmpty(b.nodeName))
    ensures EndpointKey(a) == EndpointKey(b) <==>
            a.ip == b.ip && OrEmpty(a.nodeName) == OrEmpty(b.nodeName) && OrEmpty(a.targetName) == OrEmpty(b.targetName)
  {
    KeyText(a);
    KeyText(b);
    hide NoSlash;
    if EndpointKey(a) == EndpointKey(b) {
      CutOnce(a.ip, OrEmpty(a.nodeName) + ("/" + OrEmpty(a.targetName)),
              b.ip, OrEmpty(b.nodeName) + ("/" + OrEmpty(b.targetName)));
      CutOnce(OrEmpty(a.nodeName), OrEmpty(a.targetName), OrEmpty(b.nodeName), OrEmpty(b.targetName));
    }
  }

  // ----- States -----

  /** The address at place `j` of a list is the last one with its key. */
  predicate LastInList(addresses: seq<Address>, j: nat) {
    j < |addresses| && forall k | j < k < |addresses| :: EndpointKey(addresses[k]) != EndpointKey(addresses[j])
  }

  lemma AddedLastly(m: Addresses, addresses: seq<Address>)
    requires addresses != []
    ensures var n := |addresses| - 1;
            AddAll(m, addresses) == AddAll(m, addresses[..n])[EndpointKey(addresses[n]) := addresses[n]]
  {
  }

  lemma {:induction false} ListValue(m: Addresses, addresses: seq<Address>, j: nat)
    requires LastInList(addresses, j)
    ensures var e := addresses[j];
            EndpointKey(e) in AddAll(m, addresses) && AddAll(m, addresses)[EndpointKey(e)] == e
    decreases |addresses|
  {
    var n := |addresses| - 1;
    AddedLastly(m, addresses);
    hide EndpointKey, AddAll;
    if j < n {
      assert addresses[..n][j] == addresses[j];
      assert EndpointKey(addresses[n]) != EndpointKey(addresses[j]);
      assert forall k | j < k < n :: addresses[..n][k] == addresses[k];
      ListValue(m, addresses[..n], j);
    }
  }

  predicate Lists(addresses: seq<Address>, key: string) {
    exists k :: 0 <= k < |addresses| && EndpointKey(addresses[k]) == key
  }

  lemma {:induction false} ListLeaves(m: Addresses, addresses: seq<Address>, key: string)
    requires !Lists(addresses, key)
    ensures key in AddAll(m, addresses) <==> key in m
    ensures key in m ==> AddAll(m, addresses)[key] == m[key]
    decreases |addresses|
  {
    if addresses != [] {
      var n := |addresses| - 1;
      AddedLastly(m, addresses);
      hide EndpointKey, AddAll;
      assert EndpointKey(addresses[n]) != key;
      assert forall k | 0 <= k < n :: addresses[..n][k] == addresses[k];
      ListLeaves(m, addresses[..n], key);
    }
  }

  lemma SideGrows(subsets: seq<Subset>, ready: bool)
    requires subsets != []
    ensures var n := |subsets| - 1;
            Side(StateOf(subsets), ready) == AddAll(Side(StateOf(subsets[..n]), ready), Offers(subsets[n], ready))
  {
    hide AddAll;
  }

  /** Of several addresses of a key on one side, the last one listed, in the last subset, is the one in the state. */
  lemma {:induction false} StateValue(subsets: seq<Subset>, ready: bool, i: nat, j: nat)
    requires i < |subsets| && LastInList(Offers(subsets[i], ready), j)
    requires forall l | i < l < |subsets| :: !Lists(Offers(subsets[l], ready), EndpointKey(Offers(subsets[i], ready)[j]))
    ensures var e := Offers(subsets[i], ready)[j];
            EndpointKey(e) in Side(StateOf(subsets), ready) && Side(StateOf(subsets), ready)[EndpointKey(e)] == e
    decreases |subsets|
  {
    var n := |subsets| - 1;
    var key := EndpointKey(Offers(subsets[i], ready)[j]);
    SideGrows(subsets, ready);
    var before := Side(StateOf(subsets[..n]), ready);
    hide EndpointKey, AddAll, StateOf, Offers, Side, Lists, LastInList;
    if i < n {
      assert subsets[..n][i] == subsets[i];
      forall l | i < l < n
        ensures !Lists(Offers(subsets[..n][l], ready), key)
      {
        assert subsets[..n][l] == subsets[l];
      }
      StateValue(subsets[..n], ready, i, j);
      ListLeaves(before, Offers(subsets[n], ready), key);
    } else {
      ListValue(before, Offers(subsets[n], ready), j);
    }
  }

  // ----- Differences -----

  /** What is known of a key: an address that is not ready goes before a ready one. */
  function Known(s: State, k: string): Option<Address> {
    if k in s.notReady then Some(s.notReady[k]) else if k in s.ready then Some(s.ready[k]) else None
  }

  predicate Holds(m: Addresses, k: string, value: Option<Address>) {
    match value
    case None => k !in m
    case Some(e) => k in m && m[k] == e
  }

  /**
    The five parts, key by key: a known address that is gone is removed, with what was known of it; one that
    was not known is added as ready, with what is known now; one that was not ready and is ready now is
    promoted, one that was ready and is not now is demoted, each as it was.
  */
  lemma DiffByKey(a: State, b: State, k: string)
    ensures var d := DiffOf(a, b);
            && Holds(d.removed, k, if Known(b, k) == None then Known(a, k) else None)
            && Holds(d.addedToReady, k, if Known(a, k) == None then Known(b, k) else None)
            && Holds(d.addedToNotReady, k, None)
            && Holds(d.promotedToReady, k, if k in a.notReady && k in b.ready then Some(a.notReady[k]) else None)
            && Holds(d.demotedToNotReady, k, if k in a.ready && k in b.notReady then Some(a.ready[k]) else None)
  {
  }

  // ----- The stream -----

  predicate Goes(e: Event) {
    e.Changed? || e.NotEndpoints?
  }

  lemma StatesCons(e: Event, rest: seq<Event>)
    ensures States([e] + rest) == match e
                                  case Changed(subsets) => [StateOf(subsets)] + States(rest)
                                  case NotEndpoints => States(rest)
                                  case Deleted => []
                                  case Failed => []
  {
    hide StateOf;
    assert ([e] + rest)[1..] == rest && ([e] + rest)[0] == e;
  }

  /** The watch sees the changes in order, skips other objects, and ends at a deletion or an error. */
  lemma {:induction false} StatesInOrder(before: seq<Event>, after: seq<Event>)
    requires forall e <- before :: Goes(e)
    ensures States(before + after) == States(before) + States(after)
    decreases |before|
  {
    hide StateOf, States;
    if before == [] {
      assert before + after == after && States([]) == [] by { StatesOfNone(); }
    } else {
      assert Goes(before[0]) && forall e <- before[1..] :: Goes(e);
      assert before + after == [before[0]] + (before[1..] + after) && before == [before[0]] + before[1..];
      StatesCons(before[0], before[1..] + after);
      StatesCons(before[0], before[1..]);
      StatesInOrder(before[1..], after);
      assert forall x: seq<State> ::
          (x + States(before[1..])) + States(after) == x + (States(before[1..]) + States(after));
    }
  }

  lemma StatesOfNone()
    ensures States([]) == []
  {
  }

  /** Each difference is that of a state to the one before it, the first to nothing. */
  lemma {:induction false} EachDiff(prev: State, states: seq<State>, i: nat)
    requires i < |states|
    ensures |Diffs(prev, states)| == |states|
    ensures Diffs(prev, states)[i] == DiffOf(if i == 0 then prev else states[i - 1], states[i])
    decreases |states|
  {
    hide DiffOf;
    if i > 0 {
      EachDiff(states[0], states[1..], i - 1);
    } else if |states| > 1 {
      EachDiff(states[0], states[1..], 0);
    }
  }
}
