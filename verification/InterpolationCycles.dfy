/**
  Cycles of references are where the visiting order shows (env-vars/user.go): a user variable that reaches
  a variable on a cycle, which does not refer to itself, is left with different values by different orders.
*/
module InterpolationCycles {
  import opened Templates
  import opened References
  import opened Visiting
  import opened Interpolation

  // ----- Visited last, a variable on a cycle stays referred to -----

  lemma LinkKept(std: Templates, ts: Templates, r: string, a: string, b: string)
    requires r in std + ts && a in ts && Mentions(ts[a], b)
    ensures b != r ==> Mentions(VisitTemplates(std, ts, r)[a], b)
  {
    MentionsSubst(ts[a], r, (std + ts)[r], b);
    hide Mentions, Subst;
  }

  lemma LinkThrough(std: Templates, ts: Templates, r: string, a: string, b: string)
    requires r in ts && a in ts && a != r && Mentions(ts[a], r) && Mentions(ts[r], b)
    ensures Mentions(VisitTemplates(std, ts, r)[a], b)
  {
    MentionsSubst(ts[a], r, ts[r], b);
    hide Mentions, Subst;
    assert (std + ts)[r] == ts[r];
  }

  lemma LinksKept(std: Templates, ts: Templates, r: string, c: seq<string>)
    requires Linked(ts, c) && r in std + ts && forall i | 0 < i < |c| :: c[i] != r
    ensures Linked(VisitTemplates(std, ts, r), c)
  {
    hide Mentions, VisitTemplates;
    forall i | 0 <= i < |c| - 1
      ensures Mentions(VisitTemplates(std, ts, r)[c[i]], c[i + 1])
    {
      LinkKept(std, ts, r, c[i], c[i + 1]);
    }
  }

  /** Visiting a name leads past it. */
  lemma LinksPast(std: Templates, ts: Templates, r: string, c: seq<string>, m: nat)
    requires Linked(ts, c) && 0 < m < |c| - 1 && c[m] == r && forall i | 0 <= i < |c| && i != m :: c[i] != r
    ensures r in ts && Linked(VisitTemplates(std, ts, r), c[..m] + c[m + 1..])
  {
    hide Mentions, VisitTemplates;
    var d := c[..m] + c[m + 1..];
    forall i | 0 <= i < |d| - 1
      ensures d[i] in ts && Mentions(VisitTemplates(std, ts, r)[d[i]], d[i + 1])
    {
      if i == m - 1 {
        LinkThrough(std, ts, r, c[m - 1], c[m + 1]);
      } else {
        var j := if i < m then i else i + 1;
        LinkKept(std, ts, r, c[j], c[j + 1]);
      }
    }
  }

  /** A visit of another name leaves a cycle without that name. */
  lemma VisitCycle(std: Templates, ts: Templates, r: string, c: seq<string>, x: string) returns (d: seq<string>)
    requires IsCycle(ts, c, x) && r in std + ts && r != x
    ensures IsCycle(VisitTemplates(std, ts, r), d, x) && r !in d && forall a <- d :: a in c
  {
    hide Mentions, VisitTemplates, Linked;
    assert forall i | 0 < i < |c| :: c[i] == c[1..][i - 1];
    if r !in c {
      d := c;
      LinksKept(std, ts, r, c);
    } else {
      var m :| 0 <= m < |c| && c[m] == r;
      d := c[..m] + c[m + 1..];
      LinksPast(std, ts, r, c, m);
      assert d[1..] == c[1..m] + c[m + 1..];
    }
  }

  /** A visit of another name than `x` leaves a way to `x` without that name, unless it starts there. */
  lemma VisitWay(std: Templates, ts: Templates, r: string, w: seq<string>, z: string, x: string) returns (v: seq<string>)
    requires IsWay(ts, w, z, x) && r in std + ts && r != x
    ensures IsWay(VisitTemplates(std, ts, r), v, z, x) && (r == z || r !in v) && forall a <- v :: a in w
  {
    hide Mentions, VisitTemplates, Linked;
    if r == z || r !in w {
      v := w;
      LinksKept(std, ts, r, w);
    } else {
      var m :| 0 <= m < |w| && w[m] == r;
      v := w[..m] + w[m + 1..];
      LinksPast(std, ts, r, w, m);
    }
  }

  lemma {:induction false} SweepCycle(std: Templates, ts: Templates, order: seq<string>, k: nat, c: seq<string>,
                                      x: string)
    returns (d: seq<string>)
    requires IsCycle(ts, c, x) && k <= |order| && x !in order[..k]
    ensures IsCycle(SweepTemplates(std, ts, order, k), d, x)
    ensures forall i | 0 <= i < k :: order[i] in std + ts ==> order[i] !in d
    decreases k
  {
    hide IsCycle, VisitTemplates;
    if k == 0 {
      d := c;
    } else {
      assert order[k - 1] in order[..k] && order[..k - 1] == order[..k][..k - 1];
      d := SweepCycle(std, ts, order, k - 1, c, x);
      if order[k - 1] in std + ts {
        d := VisitCycle(std, SweepTemplates(std, ts, order, k - 1), order[k - 1], d, x);
      }
    }
  }

  lemma {:induction false} SweepWay(std: Templates, ts: Templates, order: seq<string>, k: nat, w: seq<string>,
                                    z: string, x: string)
    returns (v: seq<string>)
    requires IsWay(ts, w, z, x) && k <= |order| && x !in order[..k]
    ensures IsWay(SweepTemplates(std, ts, order, k), v, z, x)
    ensures forall i | 0 <= i < k :: order[i] in std + ts ==> order[i] == z || order[i] !in v
    decreases k
  {
    hide IsWay, VisitTemplates;
    if k == 0 {
      v := w;
    } else {
      assert order[k - 1] in order[..k] && order[..k - 1] == order[..k][..k - 1];
      v := SweepWay(std, ts, order, k - 1, w, z, x);
      if order[k - 1] in std + ts {
        v := VisitWay(std, SweepTemplates(std, ts, order, k - 1), order[k - 1], v, z, x);
      }
    }
  }

  /** Both `z` and `x` itself refer to `x`. */
  predicate Both(ts: Templates, z: string, x: string) {
    z in ts && x in ts && Mentions(ts[z], x) && Mentions(ts[x], x)
  }

  /** With nothing else left on the way and on the cycle. */
  lemma ShortWay(ts: Templates, v: seq<string>, d: seq<string>, z: string, x: string)
    requires IsWay(ts, v, z, x) && IsCycle(ts, d, x)
    requires (forall a <- v :: a in ts ==> a == x || a == z) && forall a <- d :: a in ts ==> a == x
    ensures Both(ts, z, x)
  {
    hide Mentions;
    assert d[1] == x;
    assert |v| > 1 ==> v[1] == x;
  }

  lemma VisitKeepsBoth(std: Templates, ts: Templates, r: string, z: string, x: string)
    requires r in std + ts && Both(ts, z, x)
    ensures Both(VisitTemplates(std, ts, r), z, x)
  {
    if r != x {
      LinkKept(std, ts, r, x, x);
      LinkKept(std, ts, r, z, x);
    } else if z != x {
      LinkThrough(std, ts, x, z, x);
    }
    hide Mentions, Subst;
  }

  lemma {:induction false} SweepKeepsBoth(std: Templates, ts: Templates, order: seq<string>, j: nat, k: nat, z: string,
                                          x: string)
    requires j <= k <= |order| && Both(SweepTemplates(std, ts, order, j), z, x)
    ensures Both(SweepTemplates(std, ts, order, k), z, x)
    decreases k
  {
    hide Both, VisitTemplates;
    if j < k {
      SweepKeepsBoth(std, ts, order, j, k - 1, z, x);
      if order[k - 1] in std + ts {
        VisitKeepsBoth(std, SweepTemplates(std, ts, order, k - 1), order[k - 1], z, x);
      }
    }
  }

  predicate StartingWith(orders: seq<seq<string>>, x: string) {
    forall i | 0 <= i < |orders| :: orders[i] != [] && orders[i][0] == x
  }

  predicate EndingWith(orders: seq<seq<string>>, x: string) {
    forall i | 0 <= i < |orders| :: orders[i] != [] && orders[i][|orders[i]| - 1] == x
  }

  /** Orders that visit `x` first in every pass, or last. */
  lemma OrdersFrom(names: set<string>, x: string, n: nat) returns (orders: seq<seq<string>>)
    requires x in names
    ensures AllOrders(orders, names) && |orders| == n && StartingWith(orders, x)
  {
    var others := AnyOrder(names - {x});
    var order := [x] + others;
    assert IsOrder(order, names);
    hide IsOrder;
    orders := seq(n, _ => order);
  }

  lemma OrdersTo(names: set<string>, x: string, n: nat) returns (orders: seq<seq<string>>)
    requires x in names
    ensures AllOrders(orders, names) && |orders| == n && EndingWith(orders, x)
  {
    var others := AnyOrder(names - {x});
    var order := others + [x];
    assert IsOrder(order, names) && order[|order| - 1] == x;
    hide IsOrder;
    orders := seq(n, _ => order);
  }

  /** A variable `z`, a way to `x` and a cycle of `x`. */
  predicate Reaching(ts: Templates, w: seq<string>, c: seq<string>, z: string, x: string) {
    IsWay(ts, w, z, x) && IsCycle(ts, c, x)
  }

  lemma VisitedLast(std: Templates, ts: Templates, order: seq<string>, w: seq<string>, c: seq<string>, z: string,
                    x: string)
    requires Reaching(ts, w, c, z, x) && order != [] && order[|order| - 1] == x && x !in order[..|order| - 1]
    requires Covers(order, std, ts)
    ensures Both(SweepTemplates(std, ts, order, |order|), z, x)
  {
    var k := |order| - 1;
    var d := SweepCycle(std, ts, order, k, c, x);
    var v := SweepWay(std, ts, order, k, w, z, x);
    var last := SweepTemplates(std, ts, order, k);
    forall a | a in ts
      ensures (a in d ==> a == x) && (a in v ==> a == x || a == z)
    {
      assert a in Listed(order, |order|);
    }
    hide Both, SweepTemplates, IsCycle, IsWay, Covers;
    ShortWay(last, v, d, z, x);
    SweepKeepsBoth(std, ts, order, k, |order|, z, x);
  }

  lemma {:induction false} PassesKeepBoth(std: Templates, ts: Templates, orders: seq<seq<string>>, k: nat, z: string,
                                          x: string)
    requires 0 < k <= |orders| && Both(SweepTemplates(std, ts, orders[0], |orders[0]|), z, x)
    ensures Both(PassesTemplates(std, ts, orders, k), z, x)
    decreases k
  {
    hide Both, SweepTemplates;
    if k == 1 {
      assert PassesTemplates(std, ts, orders, 0) == ts;
    } else {
      PassesKeepBoth(std, ts, orders, k - 1, z, x);
      var before, order := PassesTemplates(std, ts, orders, k - 1), orders[k - 1];
      NoVisit(std, before, order);
      SweepKeepsBoth(std, before, order, 0, |order|, z, x);
    }
  }

  lemma NoVisit(std: Templates, ts: Templates, order: seq<string>)
    ensures SweepTemplates(std, ts, order, 0) == ts
  {
  }

  // ----- Visited first, it takes every reference to itself away -----

  /** No standard value that a user did not replace refers to `x`. */
  predicate StdFree(std: Templates, ts: Templates, x: string) {
    forall s | s in std && s !in ts :: !Mentions(std[s], x)
  }

  predicate Free(ts: Templates, x: string) {
    forall n | n in ts :: !Mentions(ts[n], x)
  }

  lemma VisitFree(std: Templates, ts: Templates, r: string, x: string)
    requires StdFree(std, ts, x) && x in ts && !Mentions(ts[x], x) && r in std + ts && (r == x || Free(ts, x))
    ensures Free(VisitTemplates(std, ts, r), x) && StdFree(std, VisitTemplates(std, ts, r), x)
  {
    hide Mentions, Subst;
    forall n | n in ts
      ensures !Mentions(VisitTemplates(std, ts, r)[n], x)
    {
      MentionsSubst(ts[n], r, (std + ts)[r], x);
    }
  }

  lemma {:induction false} SweepFree(std: Templates, ts: Templates, order: seq<string>, k: nat, x: string)
    requires StdFree(std, ts, x) && x in ts && !Mentions(ts[x], x) && 0 < k <= |order| && order[0] == x
    ensures Free(SweepTemplates(std, ts, order, k), x) && StdFree(std, SweepTemplates(std, ts, order, k), x)
    decreases k
  {
    hide Mentions, VisitTemplates;
    if k == 1 {
      NoVisit(std, ts, order);
      VisitFree(std, ts, x, x);
    } else {
      SweepFree(std, ts, order, k - 1, x);
      if order[k - 1] in std + ts {
        VisitFree(std, SweepTemplates(std, ts, order, k - 1), order[k - 1], x);
      }
    }
  }

  lemma {:induction false} PassesFree(std: Templates, ts: Templates, orders: seq<seq<string>>, k: nat, x: string)
    requires StdFree(std, ts, x) && x in ts && !Mentions(ts[x], x) && k <= |orders| && StartingWith(orders, x)
    ensures var last := PassesTemplates(std, ts, orders, k);
            StdFree(std, last, x) && !Mentions(last[x], x) && (k > 0 ==> Free(last, x))
    decreases k
  {
    hide Mentions, SweepTemplates;
    if k > 0 {
      PassesFree(std, ts, orders, k - 1, x);
      SweepFree(std, PassesTemplates(std, ts, orders, k - 1), orders[k - 1], |orders[k - 1]|, x);
    }
  }

  // ----- The two results differ -----

  lemma {:induction false} SubstGrows(t: Template, name: string, value: Template)
    requires Mentions(t, name)
    ensures |Render(Subst(t, name, value))| >= |Render(value)|
  {
    hide Strip, Mentions;
    assert t != [] by { NoMentions(name); }
    RenderConcat(SubstToken(t[0], name, value), Subst(t[1..], name, value));
    if !(t[0].Ref? && Strip(t[0].body) == name) {
      assert t == [t[0]] + t[1..];
      MentionsParts([t[0]], t[1..], name);
      MentionsOne(t[0], name);
      SubstGrows(t[1..], name, value);
    }
  }

  /** A value that refers to a name is not spelled like one that does not. */
  lemma SpelledApart(t: Template, u: Template, x: string)
    requires Clean(t) && Clean(u) && IsName(x) && Mentions(t, x) && !Mentions(u, x)
    ensures Render(t) != Render(u)
  {
    hide *;
    var long: string := seq(|Render(t)| + 1, _ => 'a');
    LiteralRendered(long);
    SubstGrows(t, x, [Lit(long)]);
    ReplaceRendered(t, x, [Lit(long)]);
    ReplaceNone(u, x, long);
  }

  lemma PartValue(std: Env, resolved: Env, gs: Templates, ts: Templates, x: string)
    requires IsPart(std, resolved, gs, ts) && x in ts
    ensures x in resolved && resolved[x] == Render(ts[x]) && Clean(ts[x]) && IsName(x)
  {
    hide Clean, Render, IsName, Apart;
  }

  /** What both runs need: the variable on the cycle does not refer to itself, and no standard value refers to it. */
  predicate Restless(gs: Templates, ts: Templates, w: seq<string>, c: seq<string>, z: string, x: string) {
    Reaching(ts, w, c, z, x) && x in ts && !Mentions(ts[x], x) && StdFree(gs, ts, x)
  }

  lemma RestlessNames(gs: Templates, ts: Templates, w: seq<string>, c: seq<string>, z: string, x: string)
    requires Restless(gs, ts, w, c, z, x)
    ensures z in ts
  {
    hide Mentions, StdFree;
  }

  /** `x` first in every pass: `z` ends without a reference to it. */
  lemma FirstRun(std: Env, users: Env, gs: Templates, ts: Templates, w: seq<string>, c: seq<string>, z: string,
                 x: string, orders: seq<seq<string>>, k: nat)
    requires IsPart(std, users, gs, ts) && Restless(gs, ts, w, c, z, x)
    requires AllOrders(orders, (std + users).Keys) && 0 < k <= |orders| && StartingWith(orders, x)
    ensures var last := PassesTemplates(gs, ts, orders, k);
            && z in last && z in users && !Mentions(last[z], x) && Clean(last[z])
            && Passes(std, users, orders, k)[z] == Render(last[z])
  {
    RestlessNames(gs, ts, w, c, z, x);
    PassesFree(gs, ts, orders, k, x);
    hide IsPart, Mentions, Clean, Render, Reaching, StartingWith, AllOrders, Passes, PassesTemplates;
    PartValue(std, users, gs, ts, z);
    PassesPart(std, users, gs, ts, orders, k);
    PartValue(std, Passes(std, users, orders, k), gs, PassesTemplates(gs, ts, orders, k), z);
  }

  /** `x` last in the first pass: `z` ends with one. */
  lemma LastRun(std: Env, users: Env, gs: Templates, ts: Templates, w: seq<string>, c: seq<string>, z: string, x: string,
                orders: seq<seq<string>>, k: nat)
    requires IsPart(std, users, gs, ts) && Restless(gs, ts, w, c, z, x)
    requires AllOrders(orders, (std + users).Keys) && 0 < k <= |orders| && EndingWith(orders, x)
    ensures var last := PassesTemplates(gs, ts, orders, k);
            && z in last && z in users && Mentions(last[z], x) && Clean(last[z])
            && Passes(std, users, orders, k)[z] == Render(last[z])
  {
    RestlessNames(gs, ts, w, c, z, x);
    assert IsOrder(orders[0], (std + users).Keys) && orders[0] != [] && orders[0][|orders[0]| - 1] == x;
    assert x !in orders[0][..|orders[0]| - 1];
    hide IsPart, Mentions, Clean, Render, Reaching, EndingWith, AllOrders, Passes, PassesTemplates, IsOrder, Covers;
    PartCovered(std, users, gs, ts, orders[0]);
    VisitedLast(gs, ts, orders[0], w, c, z, x);
    PassesKeepBoth(gs, ts, orders, k, z, x);
    PartValue(std, users, gs, ts, z);
    PassesPart(std, users, gs, ts, orders, k);
    PartValue(std, Passes(std, users, orders, k), gs, PassesTemplates(gs, ts, orders, k), z);
  }

  /**
    A user variable that reaches one on a cycle, which does not refer to itself and to which no standard
    value refers, gets different values in different orders, however many passes are run: if the one on the
    cycle is visited first in every pass, no reference to it is left; if it is visited last in the first
    pass, one stays for good.
  */
  lemma CyclesDependOnOrder(std: Env, users: Env, gs: Templates, ts: Templates, w: seq<string>, c: seq<string>,
                            z: string, x: string, n: nat)
    returns (one: seq<seq<string>>, other: seq<seq<string>>)
    requires IsPart(std, users, gs, ts) && Restless(gs, ts, w, c, z, x) && n > 0
    ensures AllOrders(one, (std + users).Keys) && AllOrders(other, (std + users).Keys) && |one| == |other| == n
    ensures z in users && Passes(std, users, one, n)[z] != Passes(std, users, other, n)[z]
  {
    assert x in ts;
    hide *;
    PartValue(std, users, gs, ts, x);
    one := OrdersFrom((std + users).Keys, x, n);
    other := OrdersTo((std + users).Keys, x, n);
    FirstRun(std, users, gs, ts, w, c, z, x, one, n);
    LastRun(std, users, gs, ts, w, c, z, x, other, n);
    SpelledApart(PassesTemplates(gs, ts, other, n)[z], PassesTemplates(gs, ts, one, n)[z], x);
  }

  /** So `ResolveUser` may return either of two results. */
  lemma ResolutionsDiffer(meta: DeployMetadata, std: Templates, users: Templates, w: seq<string>, c: seq<string>,
                          z: string, x: string)
    returns (a: Env, b: Env)
    requires IsPart(GetStandard(meta), meta.envVars, std, users) && Restless(std, users, w, c, z, x)
    ensures IsResolution(meta, a) && IsResolution(meta, b) && z in a && z in b && a[z] != b[z]
  {
    hide IsPart, Restless, AllOrders, Passes;
    var one, other := CyclesDependOnOrder(GetStandard(meta), meta.envVars, std, users, w, c, z, x, MAX_PASSES);
    a := Passes(GetStandard(meta), meta.envVars, one, MAX_PASSES);
    b := Passes(GetStandard(meta), meta.envVars, other, MAX_PASSES);
    assert IsFullRun(meta, a, one) && IsFullRun(meta, b, other);
  }
}
