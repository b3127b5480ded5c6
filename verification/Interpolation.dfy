/**
  Interpolation of deploy-time environment variables (env-vars/user.go).

  A map is iterated in an arbitrary order: the code below picks any key not yet visited, and
  statements quantify over `orders`, one visiting order of the lookup map for each pass.
*/
module Interpolation {
  import opened Text
  import opened ReferencePattern
  import opened Templates
  import opened Visiting

  type Env = map<string, string>

  datatype DeployMetadata = DeployMetadata(version: string, commitSha: string, envVars: Env)

  const MAX_PASSES: nat := 100

  function GetStandard(meta: DeployMetadata): Env {
    map["NULLSTONE_VERSION" := meta.version, "NULLSTONE_COMMIT_SHA" := meta.commitSha]
  }

  // ----- One pass and a whole run, as functions of the visiting order -----

  /** Replacing the references to `refName` in every other value. */
  function Visit(std: Env, resolved: Env, refName: string): (next: Env)
    requires refName in std + resolved
    ensures next.Keys == resolved.Keys
  {
    map name | name in resolved :: NextValue(resolved[name], name, refName, (std + resolved)[refName])
  }

  function NextValue(value: string, name: string, refName: string, refValue: string): string {
    if name == refName then value else ReplaceAll(value, refName, refValue)
  }

  /** The map after one pass has visited the first `k` names of its order. */
  function Sweep(std: Env, resolved: Env, order: seq<string>, k: nat): (next: Env)
    requires k <= |order| && Within(order, (std + resolved).Keys)
    ensures next.Keys == resolved.Keys
  {
    if k == 0 then resolved else Visit(std, Sweep(std, resolved, order, k - 1), order[k - 1])
  }

  /** Nothing is left to replace: every visit leaves the map as it is. */
  ghost predicate Settled(std: Env, resolved: Env) {
    forall r | r in std + resolved :: Visit(std, resolved, r) == resolved
  }

  ghost predicate AllOrders(orders: seq<seq<string>>, names: set<string>) {
    forall i | 0 <= i < |orders| :: IsOrder(orders[i], names)
  }

  /** The resolved map after `k` passes in the given orders. */
  ghost function Passes(std: Env, users: Env, orders: seq<seq<string>>, k: nat): (resolved: Env)
    requires k <= |orders| && AllOrders(orders, (std + users).Keys)
    ensures resolved.Keys == users.Keys
  {
    if k == 0 then users
    else
      var before := Passes(std, users, orders, k - 1);
      assert (std + before).Keys == (std + users).Keys;
      Sweep(std, before, orders[k - 1], |orders[k - 1]|)
  }

  /** What `ResolveUser` may return: the map after all passes, in some orders. */
  ghost predicate IsResolution(meta: DeployMetadata, resolved: Env) {
    exists orders :: IsFullRun(meta, resolved, orders)
  }

  ghost predicate IsFullRun(meta: DeployMetadata, resolved: Env, orders: seq<seq<string>>) {
    && |orders| == MAX_PASSES && AllOrders(orders, (GetStandard(meta) + meta.envVars).Keys)
    && resolved == Passes(GetStandard(meta), meta.envVars, orders, MAX_PASSES)
  }

  // ----- The same on templates -----

  function VisitTemplates(std: Templates, ts: Templates, refName: string): (next: Templates)
    requires refName in std + ts
    ensures next.Keys == ts.Keys
  {
    map name | name in ts :: NextTemplate(ts[name], name, refName, (std + ts)[refName])
  }

  function NextTemplate(value: Template, name: string, refName: string, refValue: Template): Template {
    if name == refName then value else Subst(value, refName, refValue)
  }

  /** The templates after the first `k` names of an order; names they do not have are passed over. */
  function SweepTemplates(std: Templates, ts: Templates, order: seq<string>, k: nat): (next: Templates)
    requires k <= |order|
    ensures next.Keys == ts.Keys
  {
    if k == 0 then ts
    else
      var before := SweepTemplates(std, ts, order, k - 1);
      if order[k - 1] in std + before then VisitTemplates(std, before, order[k - 1]) else before
  }

  /** Names and values that read as the pattern intends. */
  ghost predicate CleanAll(ts: Templates) {
    forall name | name in ts :: IsName(name) && Clean(ts[name])
  }

  /** The templates are what the values of their names read as. */
  ghost predicate Agree(env: Env, ts: Templates) {
    forall n | n in ts :: n in env && env[n] == Render(ts[n])
  }

  /** The values refer to no name of the environment outside the templates. */
  ghost predicate Apart(std: Env, resolved: Env, gs: Templates, ts: Templates) {
    forall n, r | n in gs + ts && r in std + resolved && Mentions((gs + ts)[n], r) :: r in gs + ts
  }

  /**
    Part of an environment, as templates: some standard and some user variables that refer to no others.
    The other variables may have any values.
  */
  ghost predicate IsPart(std: Env, resolved: Env, gs: Templates, ts: Templates) {
    && (forall r | r in std + resolved :: IsName(r)) && CleanAll(gs) && CleanAll(ts)
    && Agree(std, gs) && Agree(resolved, ts) && (forall n | n in gs && n in resolved :: n in ts)
    && Apart(std, resolved, gs, ts)
  }

  lemma NextRendered(value: Template, name: string, refName: string, refValue: Template)
    requires Clean(value) && Clean(refValue) && IsName(refName)
    ensures NextValue(Render(value), name, refName, Render(refValue))
            == Render(NextTemplate(value, name, refName, refValue))
    ensures Clean(NextTemplate(value, name, refName, refValue))
  {
    if name != refName {
      ReplaceRendered(value, refName, refValue);
      CleanSubst(value, refName, refValue);
    }
  }

  /** A value that does not refer to a name is left as it is, whatever the name's value is. */
  lemma ReplaceNone(t: Template, name: string, value: string)
    requires Clean(t) && IsName(name) && !Mentions(t, name)
    ensures ReplaceAll(Render(t), name, value) == Render(t)
  {
    hide *;
    ReplaceRendered(t, name, [Lit(value)]);
    LiteralRendered(value);
    SubstNone(t, name, [Lit(value)]);
  }

  lemma LiteralRendered(value: string)
    ensures Render([Lit(value)]) == value
  {
    assert Render([Lit(value)]) == value + Render([Lit(value)][1..]);
  }

  /** The template of a name after a visit of the environment. */
  function Visited(gs: Templates, ts: Templates, refName: string): (next: Templates)
    ensures next.Keys == ts.Keys
  {
    if refName in gs + ts then VisitTemplates(gs, ts, refName) else ts
  }

  lemma VisitedValue(std: Env, resolved: Env, gs: Templates, ts: Templates, refName: string, n: string)
    requires IsPart(std, resolved, gs, ts) && refName in std + resolved && n in ts
    ensures Visit(std, resolved, refName)[n] == Render(Visited(gs, ts, refName)[n])
    ensures Clean(Visited(gs, ts, refName)[n])
  {
    hide IsName, Clean, Render, Mentions, ReplaceAll, Subst;
    if refName in gs + ts {
      NextRendered(ts[n], n, refName, (gs + ts)[refName]);
    } else {
      assert (gs + ts)[n] == ts[n];
      ReplaceNone(ts[n], refName, (std + resolved)[refName]);
    }
  }

  lemma VisitedApart(std: Env, resolved: Env, gs: Templates, ts: Templates, refName: string)
    requires Apart(std, resolved, gs, ts)
    ensures Apart(std, resolved, gs, Visited(gs, ts, refName))
  {
    hide Mentions, Subst;
    var next := Visited(gs, ts, refName);
    forall n, r | n in gs + next && r in std + resolved && Mentions((gs + next)[n], r)
      ensures r in gs + ts
    {
      if n in ts && refName in gs + ts && n != refName {
        MentionsSubst(ts[n], refName, (gs + ts)[refName], r);
        assert (gs + ts)[n] == ts[n];
      } else {
        assert (gs + next)[n] == (gs + ts)[n];
      }
    }
  }

  lemma ApartByNames(std: Env, resolved: Env, next: Env, gs: Templates, ts: Templates)
    requires Apart(std, resolved, gs, ts) && next.Keys == resolved.Keys
    ensures Apart(std, next, gs, ts)
  {
    hide Mentions;
  }

  /** A visit rewrites the part as if there were nothing else. */
  lemma VisitPart(std: Env, resolved: Env, gs: Templates, ts: Templates, refName: string)
    requires IsPart(std, resolved, gs, ts) && refName in std + resolved
    ensures IsPart(std, Visit(std, resolved, refName), gs, Visited(gs, ts, refName))
  {
    var next, rendered := Visited(gs, ts, refName), Visit(std, resolved, refName);
    VisitedApart(std, resolved, gs, ts, refName);
    hide IsName, Clean, Render, Visit, Visited, Apart;
    ApartByNames(std, resolved, rendered, gs, next);
    forall n | n in ts
      ensures rendered[n] == Render(next[n]) && Clean(next[n])
    {
      VisitedValue(std, resolved, gs, ts, refName, n);
    }
  }

  lemma {:induction false} SweepPart(std: Env, resolved: Env, gs: Templates, ts: Templates, order: seq<string>, k: nat)
    requires IsPart(std, resolved, gs, ts) && Within(order, (std + resolved).Keys) && k <= |order|
    ensures IsPart(std, Sweep(std, resolved, order, k), gs, SweepTemplates(gs, ts, order, k))
    decreases k
  {
    hide IsPart, Visit, VisitTemplates;
    if k > 0 {
      SweepPart(std, resolved, gs, ts, order, k - 1);
      VisitPart(std, Sweep(std, resolved, order, k - 1), gs, SweepTemplates(gs, ts, order, k - 1), order[k - 1]);
    } else {
      assert Sweep(std, resolved, order, 0) == resolved && SweepTemplates(gs, ts, order, 0) == ts;
    }
  }

  // ----- Passes bring every reference down in rank -----

  function Pow2(n: nat): (p: nat)
    ensures p >= 1
  {
    if n == 0 then 1 else 2 * Pow2(n - 1)
  }

  /** How far references have come down after `k` passes: the distance doubles until it is `unit`. */
  function Gap(k: nat, unit: nat): (d: nat)
    ensures d >= 1
  {
    if k == 0 then 1 else Gap(k - 1, unit) + Min(Gap(k - 1, unit), unit)
  }

  lemma {:induction false} PowersGrow(k: nat, n: nat)
    requires k <= n
    ensures Pow2(k) <= Pow2(n)
    decreases n
  {
    if k < n {
      PowersGrow(k, n - 1);
    }
  }

  lemma {:induction false} GapDoubles(k: nat, n: nat)
    requires k <= n
    ensures Gap(k, Pow2(n)) == Pow2(k)
  {
    if k > 0 {
      GapDoubles(k - 1, n);
      PowersGrow(k - 1, n);
    }
  }

  lemma GapAfter(n: nat)
    ensures Gap(n + 2, Pow2(n)) == 3 * Pow2(n)
  {
    GapDoubles(n, n);
    assert Gap(n + 1, Pow2(n)) == 2 * Pow2(n);
  }

  type Weights = map<string, nat>

  /** The references of a value of weight `top` to the given names are lighter by at least `d`. */
  ghost predicate Lighter(t: Template, names: set<string>, weight: Weights, top: nat, d: nat)
    requires names <= weight.Keys
  {
    forall r | r in names && Mentions(t, r) :: weight[r] + d <= top
  }

  ghost predicate Lowered(ts: Templates, names: set<string>, weight: Weights, d: nat)
    requires ts.Keys <= weight.Keys && names <= weight.Keys
  {
    forall n | n in ts :: Lighter(ts[n], names, weight, weight[n], d)
  }

  /** The standard values, which no pass rewrites, lower by `unit` at once. */
  ghost predicate StdLowered(std: Templates, users: set<string>, weight: Weights, unit: nat)
    requires std.Keys + users <= weight.Keys
  {
    forall n | n in std && n !in users :: Lighter(std[n], std.Keys + users, weight, weight[n], unit)
  }

  lemma NextLighter(value: Template, n: string, name: string, refValue: Template, names: set<string>, done: set<string>,
                    weight: Weights, d: nat, e: nat)
    requires n in weight && name in names && names <= weight.Keys && done <= names && 0 < d && e <= d
    requires Lighter(value, names, weight, weight[n], d) && Lighter(value, done, weight, weight[n], d + e)
    requires Lighter(refValue, names, weight, weight[name], e)
    ensures var next := NextTemplate(value, n, name, refValue);
            Lighter(next, names, weight, weight[n], d) && Lighter(next, done + {name}, weight, weight[n], d + e)
  {
    var next := NextTemplate(value, n, name, refValue);
    forall r | r in names && Mentions(next, r)
      ensures weight[r] + d <= weight[n] && (r in done || r == name ==> weight[r] + d + e <= weight[n])
    {
      if n != name {
        MentionsSubst(value, name, refValue, r);
      }
    }
  }

  lemma VisitLowers(std: Templates, ts: Templates, name: string, done: set<string>, weight: Weights, d: nat, e: nat,
                    unit: nat)
    requires std.Keys + ts.Keys <= weight.Keys && name in std.Keys + ts.Keys && done <= std.Keys + ts.Keys
    requires 0 < d && e <= d && e <= unit && StdLowered(std, ts.Keys, weight, unit)
    requires Lowered(ts, std.Keys + ts.Keys, weight, d) && Lowered(ts, done, weight, d + e)
    ensures var next := VisitTemplates(std, ts, name);
            Lowered(next, std.Keys + ts.Keys, weight, d) && Lowered(next, done + {name}, weight, d + e)
  {
    var names := std.Keys + ts.Keys;
    var value := (std + ts)[name];
    assert Lighter(value, names, weight, weight[name], e) by {
      assert if name in ts then Lighter(ts[name], names, weight, weight[name], d)
             else Lighter(std[name], names, weight, weight[name], unit);
    }
    forall n | n in ts
      ensures Lighter(NextTemplate(ts[n], n, name, value), names, weight, weight[n], d)
      ensures Lighter(NextTemplate(ts[n], n, name, value), done + {name}, weight, weight[n], d + e)
    {
      NextLighter(ts[n], n, name, value, names, done, weight, d, e);
    }
  }

  /** What a pass starts from: every value lowered by `d`, the standard ones by `unit`. */
  ghost predicate PassStart(std: Templates, ts: Templates, weight: Weights, d: nat, e: nat, unit: nat) {
    && std.Keys + ts.Keys <= weight.Keys
    && 0 < d && e <= d && e <= unit && StdLowered(std, ts.Keys, weight, unit)
    && Lowered(ts, std.Keys + ts.Keys, weight, d)
  }

  /** Of the first `k` names visited, those the templates have. */
  function Seen(std: Templates, ts: Templates, order: seq<string>, k: nat): set<string>
    requires k <= |order|
  {
    Listed(order, k) * (std.Keys + ts.Keys)
  }

  /** After `k` visits every value is lowered by `d`, and by `e` more for the names visited. */
  ghost predicate InSweep(std: Templates, ts: Templates, order: seq<string>, k: nat, weight: Weights, d: nat, e: nat) {
    && std.Keys + ts.Keys <= weight.Keys && k <= |order|
    && Lowered(SweepTemplates(std, ts, order, k), std.Keys + ts.Keys, weight, d)
    && Lowered(SweepTemplates(std, ts, order, k), Seen(std, ts, order, k), weight, d + e)
  }

  /** One pass lowers the references to every name it visits once more. */
  lemma {:induction false} SweepLowers(std: Templates, ts: Templates, order: seq<string>, k: nat,
                                       weight: Weights, d: nat, e: nat, unit: nat)
    requires PassStart(std, ts, weight, d, e, unit) && k <= |order|
    ensures InSweep(std, ts, order, k, weight, d, e)
    decreases k
  {
    hide *;
    if k == 0 {
      SweepLowersFirst(std, ts, order, weight, d, e, unit);
    } else {
      SweepLowers(std, ts, order, k - 1, weight, d, e, unit);
      SweepLowersNext(std, ts, order, k, weight, d, e, unit);
    }
  }

  lemma SweepLowersFirst(std: Templates, ts: Templates, order: seq<string>, weight: Weights, d: nat, e: nat, unit: nat)
    requires PassStart(std, ts, weight, d, e, unit)
    ensures InSweep(std, ts, order, 0, weight, d, e)
  {
    assert SweepTemplates(std, ts, order, 0) == ts && Seen(std, ts, order, 0) == {};
    hide StdLowered, SweepTemplates, Seen;
  }

  lemma SweepLowersNext(std: Templates, ts: Templates, order: seq<string>, k: nat,
                        weight: Weights, d: nat, e: nat, unit: nat)
    requires PassStart(std, ts, weight, d, e, unit)
    requires 0 < k <= |order| && InSweep(std, ts, order, k - 1, weight, d, e)
    ensures InSweep(std, ts, order, k, weight, d, e)
  {
    var before, name, done := SweepTemplates(std, ts, order, k - 1), order[k - 1], Seen(std, ts, order, k - 1);
    assert done <= std.Keys + ts.Keys;
    SweepStep(std, ts, order, k);
    hide StdLowered, VisitTemplates, SweepTemplates, Lowered, Lighter, Seen;
    if name in std.Keys + ts.Keys {
      VisitLowers(std, before, name, done, weight, d, e, unit);
    }
  }

  lemma SweepStep(std: Templates, ts: Templates, order: seq<string>, k: nat)
    requires 0 < k <= |order|
    ensures var before, name := SweepTemplates(std, ts, order, k - 1), order[k - 1];
            if name in std.Keys + ts.Keys
            then SweepTemplates(std, ts, order, k) == VisitTemplates(std, before, name)
                 && Seen(std, ts, order, k) == Seen(std, ts, order, k - 1) + {name}
            else SweepTemplates(std, ts, order, k) == before && Seen(std, ts, order, k) == Seen(std, ts, order, k - 1)
  {
    assert Listed(order, k) == Listed(order, k - 1) + {order[k - 1]};
    hide VisitTemplates, Listed;
  }

  // ----- Every run without cycles returns the full expansion -----

  /** Every value still means its full expansion. */
  ghost predicate Means(std: Templates, ts: Templates, full: Templates) {
    full.Keys == std.Keys + ts.Keys && forall n | n in full :: Flatten(full, (std + ts)[n]) == full[n]
  }

  lemma VisitMeans(std: Templates, ts: Templates, full: Templates, name: string)
    requires Means(std, ts, full) && name in std + ts
    ensures Means(std, VisitTemplates(std, ts, name), full)
  {
    var value := (std + ts)[name];
    var next := VisitTemplates(std, ts, name);
    forall n | n in full
      ensures Flatten(full, (std + next)[n]) == full[n]
    {
      if n in ts {
        FlattenSubst(full, ts[n], name, value);
        assert (std + ts)[n] == ts[n] && (std + next)[n] == NextTemplate(ts[n], n, name, value);
      } else {
        assert (std + ts)[n] == std[n] && (std + next)[n] == std[n];
      }
    }
  }

  lemma {:induction false} SweepMeans(std: Templates, ts: Templates, full: Templates, order: seq<string>, k: nat)
    requires Means(std, ts, full) && k <= |order|
    ensures Means(std, SweepTemplates(std, ts, order, k), full)
    decreases k
  {
    hide Means, VisitTemplates;
    if k > 0 {
      SweepMeans(std, ts, full, order, k - 1);
      var before := SweepTemplates(std, ts, order, k - 1);
      if order[k - 1] in std + before {
        VisitMeans(std, before, full, order[k - 1]);
      }
    }
  }

  lemma {:induction false} SettledSweep(std: Env, resolved: Env, order: seq<string>, j: nat, k: nat)
    requires j <= k <= |order| && Within(order, (std + resolved).Keys) && Settled(std, Sweep(std, resolved, order, j))
    ensures Sweep(std, resolved, order, k) == Sweep(std, resolved, order, j)
    decreases k
  {
    hide Visit;
    if j < k {
      SettledSweep(std, resolved, order, j, k - 1);
    }
  }

  /** The order lists every name of the templates. */
  predicate Covers(order: seq<string>, std: Templates, ts: Templates) {
    std.Keys + ts.Keys <= Listed(order, |order|)
  }

  /** One more pass brings the references down by one more step of `Gap`. */
  lemma PassLowers(std: Templates, ts: Templates, order: seq<string>, weight: Weights, k: nat, unit: nat)
    requires std.Keys + ts.Keys <= weight.Keys && Covers(order, std, ts)
    requires StdLowered(std, ts.Keys, weight, unit) && Lowered(ts, std.Keys + ts.Keys, weight, Gap(k, unit))
    ensures SweepTemplates(std, ts, order, |order|).Keys == ts.Keys
    ensures Lowered(SweepTemplates(std, ts, order, |order|), std.Keys + ts.Keys, weight, Gap(k + 1, unit))
  {
    var d := Gap(k, unit);
    SweepLowers(std, ts, order, |order|, weight, d, Min(d, unit), unit);
    assert Seen(std, ts, order, |order|) == std.Keys + ts.Keys;
  }

  function PassesTemplates(std: Templates, users: Templates, orders: seq<seq<string>>, k: nat): (resolved: Templates)
    requires k <= |orders|
    ensures resolved.Keys == users.Keys
  {
    if k == 0 then users
    else SweepTemplates(std, PassesTemplates(std, users, orders, k - 1), orders[k - 1], |orders[k - 1]|)
  }

  lemma PartCovered(std: Env, users: Env, gs: Templates, ts: Templates, order: seq<string>)
    requires IsPart(std, users, gs, ts) && IsOrder(order, (std + users).Keys)
    ensures Covers(order, gs, ts)
  {
    hide IsName, Clean, Render, Apart;
    AllListed(order, (std + users).Keys);
  }

  /** Passes rewrite the part as if there were nothing else. */
  lemma {:induction false} PassesPart(std: Env, users: Env, gs: Templates, ts: Templates, orders: seq<seq<string>>,
                                      k: nat)
    requires IsPart(std, users, gs, ts) && AllOrders(orders, (std + users).Keys) && k <= |orders|
    ensures IsPart(std, Passes(std, users, orders, k), gs, PassesTemplates(gs, ts, orders, k))
    decreases k
  {
    hide IsPart, Sweep, SweepTemplates;
    if k > 0 {
      var before := Passes(std, users, orders, k - 1);
      PassesPart(std, users, gs, ts, orders, k - 1);
      assert (std + before).Keys == (std + users).Keys;
      SweepPart(std, before, gs, PassesTemplates(gs, ts, orders, k - 1), orders[k - 1], |orders[k - 1]|);
    }
  }

  /** What holds after `k` passes. */
  ghost predicate After(k: nat, std: Templates, ts: Templates, full: Templates, weight: Weights, unit: nat) {
    && Means(std, ts, full) && std.Keys + ts.Keys <= weight.Keys
    && StdLowered(std, ts.Keys, weight, unit) && Lowered(ts, std.Keys + ts.Keys, weight, Gap(k, unit))
  }

  lemma PassKeeps(k: nat, std: Templates, ts: Templates, full: Templates, weight: Weights, unit: nat, order: seq<string>)
    requires After(k, std, ts, full, weight, unit) && Covers(order, std, ts)
    ensures After(k + 1, std, SweepTemplates(std, ts, order, |order|), full, weight, unit)
  {
    hide Means, StdLowered, Lowered, SweepTemplates, Gap, Covers;
    SweepMeans(std, ts, full, order, |order|);
    PassLowers(std, ts, order, weight, k, unit);
  }

  lemma {:induction false} PassesKeep(std: Templates, users: Templates, full: Templates, weight: Weights, unit: nat,
                                      orders: seq<seq<string>>, k: nat)
    requires After(0, std, users, full, weight, unit) && k <= |orders|
    requires forall i | 0 <= i < |orders| :: Covers(orders[i], std, users)
    ensures After(k, std, PassesTemplates(std, users, orders, k), full, weight, unit)
    decreases k
  {
    hide After, SweepTemplates;
    if k > 0 {
      var before := PassesTemplates(std, users, orders, k - 1);
      PassesKeep(std, users, full, weight, unit, orders, k - 1);
      assert Covers(orders[k - 1], std, before) by { assert Covers(orders[k - 1], std, users); }
      PassKeeps(k - 1, std, before, full, weight, unit, orders[k - 1]);
    }
  }

  /** With every reference lowered below all weights, no reference is left. */
  lemma NoneLeft(k: nat, std: Templates, ts: Templates, full: Templates, weight: Weights, unit: nat)
    requires After(k, std, ts, full, weight, unit) && forall n | n in ts :: weight[n] < Gap(k, unit)
    ensures forall n | n in ts :: n in full && ts[n] == full[n]
  {
    hide Gap, StdLowered;
    forall n | n in ts
      ensures ts[n] == full[n]
    {
      assert Lighter(ts[n], std.Keys + ts.Keys, weight, weight[n], Gap(k, unit));
      FlattenClosed(full, ts[n]);
      assert (std + ts)[n] == ts[n];
    }
  }

  // ----- Weights from ranks -----

  function Lower(names: set<string>, rank: map<string, nat>, k: nat): set<string>
    requires names <= rank.Keys
  {
    set m | m in names && rank[m] < k
  }

  lemma SubsetSize(a: set<string>, b: set<string>)
    requires a <= b
    ensures |a| <= |b|
  {
    assert |b| == |a| + |b - a| by { assert b == a + (b - a); }
  }

  lemma LowerGrows(names: set<string>, rank: map<string, nat>, k: nat, m: string, l: nat)
    requires names <= rank.Keys && k <= l
    ensures |Lower(names, rank, k)| <= |Lower(names, rank, l)|
    ensures m in names && k <= rank[m] < l ==> |Lower(names, rank, k)| + 1 <= |Lower(names, rank, l)|
  {
    SubsetSize(Lower(names, rank, k), Lower(names, rank, l));
    if m in names && k <= rank[m] < l {
      SubsetSize(Lower(names, rank, k) + {m}, Lower(names, rank, l));
    }
  }

  /** The rank, and `unit` for each fixed name met on the way. */
  function Weight(fixed: set<string>, rank: map<string, nat>, n: string, unit: nat): nat
    requires n in rank && fixed <= rank.Keys
  {
    rank[n] + unit * |Lower(fixed, rank, rank[n] + 1)|
  }

  lemma {:induction false} MulGrows(unit: nat, low: nat, high: nat)
    requires low <= high
    ensures unit * low <= unit * high && (low < high ==> unit * low + unit <= unit * high)
  {
    if low < high {
      MulGrows(unit, low, high - 1);
      assert unit * high == unit * (high - 1) + unit;
    }
  }

  lemma WeightDrops(fixed: set<string>, rank: map<string, nat>, n: string, r: string, unit: nat)
    requires n in rank && r in rank && fixed <= rank.Keys && rank[r] < rank[n]
    ensures Weight(fixed, rank, r, unit) + 1 <= Weight(fixed, rank, n, unit)
    ensures n in fixed ==> Weight(fixed, rank, r, unit) + unit <= Weight(fixed, rank, n, unit)
  {
    LowerGrows(fixed, rank, rank[r] + 1, n, rank[n] + 1);
    MulGrows(unit, |Lower(fixed, rank, rank[r] + 1)|, |Lower(fixed, rank, rank[n] + 1)|);
  }

  lemma WeightBound(fixed: set<string>, rank: map<string, nat>, n: string, unit: nat)
    requires n in rank && fixed <= rank.Keys && |fixed| <= 2 && rank[n] < unit
    ensures Weight(fixed, rank, n, unit) < 3 * unit
  {
    SubsetSize(Lower(fixed, rank, rank[n] + 1), fixed);
    MulGrows(unit, |Lower(fixed, rank, rank[n] + 1)|, 2);
  }

  function WeightMap(fixed: set<string>, rank: map<string, nat>, unit: nat): (weight: Weights)
    requires fixed <= rank.Keys
    ensures weight.Keys == rank.Keys
  {
    map n | n in rank :: Weight(fixed, rank, n, unit)
  }

  lemma WeightsLower(all: Templates, fixed: set<string>, rank: map<string, nat>, n: string, unit: nat)
    requires Ranked(all, rank) && fixed <= all.Keys && n in all
    ensures var weight := WeightMap(fixed, rank, unit);
            && Lighter(all[n], all.Keys, weight, weight[n], 1)
            && (n in fixed ==> Lighter(all[n], all.Keys, weight, weight[n], unit))
  {
    var weight := WeightMap(fixed, rank, unit);
    forall r | r in all.Keys && Mentions(all[n], r)
      ensures weight[r] + 1 <= weight[n] && (n in fixed ==> weight[r] + unit <= weight[n])
    {
      WeightDrops(fixed, rank, n, r, unit);
    }
  }

  /** No chain of references is longer than `bound`. */
  ghost predicate ShortChains(rank: map<string, nat>, bound: nat) {
    forall n | n in rank :: rank[n] < bound
  }

  lemma WeightsExist(std: Templates, users: Templates, rank: map<string, nat>, unit: nat) returns (weight: Weights)
    requires Ranked(std + users, rank) && ShortChains(rank, unit) && |std| <= 2
    ensures std.Keys + users.Keys <= weight.Keys && forall n | n in users :: weight[n] < 3 * unit
    ensures StdLowered(std, users.Keys, weight, unit) && Lowered(users, std.Keys + users.Keys, weight, 1)
  {
    var all := std + users;
    assert all.Keys == std.Keys + users.Keys && all.Keys <= rank.Keys;
    hide Ranked, Lighter, Weight, Lower;
    var fixed := std.Keys - users.Keys;
    SubsetSize(fixed, std.Keys);
    weight := WeightMap(fixed, rank, unit);
    forall n | n in users
      ensures weight[n] < 3 * unit && Lighter(users[n], all.Keys, weight, weight[n], 1)
    {
      WeightBound(fixed, rank, n, unit);
      WeightsLower(all, fixed, rank, n, unit);
    }
    forall n | n in std && n !in users.Keys
      ensures Lighter(std[n], all.Keys, weight, weight[n], unit)
    {
      WeightsLower(all, fixed, rank, n, unit);
    }
  }

  lemma ExpandAllMeans(std: Templates, users: Templates, rank: map<string, nat>)
    requires Ranked(std + users, rank)
    ensures Means(std, users, ExpandAll(std + users, rank))
  {
    var all := std + users;
    forall n | n in all
      ensures Flatten(ExpandAll(all, rank), all[n]) == ExpandAll(all, rank)[n]
    {
      ExpandIsFlatten(all, rank, n, all[n]);
    }
  }

  lemma FirstAfter(std: Templates, users: Templates, full: Templates, weight: Weights, unit: nat)
    requires Means(std, users, full) && std.Keys + users.Keys <= weight.Keys
    requires StdLowered(std, users.Keys, weight, unit) && Lowered(users, std.Keys + users.Keys, weight, 1)
    ensures After(0, std, users, full, weight, unit)
  {
  }

  /** No cycles, and at most two standard names. */
  ghost predicate Acyclic(std: Templates, users: Templates, rank: map<string, nat>) {
    |std| <= 2 && Ranked(std + users, rank)
  }

  lemma StartAfter(n: nat, std: Templates, users: Templates, rank: map<string, nat>) returns (weight: Weights)
    requires Acyclic(std, users, rank) && ShortChains(rank, Pow2(n))
    ensures After(0, std, users, ExpandAll(std + users, rank), weight, Pow2(n))
    ensures forall name | name in users :: name in weight && weight[name] < Gap(n + 2, Pow2(n))
  {
    hide Pow2, Gap, Ranked, Means, StdLowered, Lowered, After, ExpandAll, ShortChains;
    GapAfter(n);
    ExpandAllMeans(std, users, rank);
    weight := WeightsExist(std, users, rank, Pow2(n));
    FirstAfter(std, users, ExpandAll(std + users, rank), weight, Pow2(n));
  }

  /** Each of the names has its value fully expanded. */
  ghost predicate Expanded(resolved: Env, ts: Templates, rank: map<string, nat>, names: set<string>)
    requires Ranked(ts, rank) && names <= ts.Keys
  {
    forall name | name in names :: name in resolved && resolved[name] == Render(Expand(ts, rank, name))
  }

  lemma PassesExpand(n: nat, std: Templates, users: Templates, rank: map<string, nat>, orders: seq<seq<string>>)
    requires Acyclic(std, users, rank) && ShortChains(rank, Pow2(n)) && n + 2 <= |orders|
    requires forall i | 0 <= i < |orders| :: Covers(orders[i], std, users)
    ensures var last := PassesTemplates(std, users, orders, n + 2);
            forall name | name in last :: last[name] == Expand(std + users, rank, name)
  {
    var full := ExpandAll(std + users, rank);
    assert forall name | name in full :: full[name] == Expand(std + users, rank, name);
    hide Pow2, Gap, Ranked, After, PassesTemplates, ExpandAll, ShortChains, Expand, Covers;
    var weight := StartAfter(n, std, users, rank);
    PassesKeep(std, users, full, weight, Pow2(n), orders, n + 2);
    NoneLeft(n + 2, std, PassesTemplates(std, users, orders, n + 2), full, weight, Pow2(n));
  }

  lemma PartExpanded(std: Env, resolved: Env, gs: Templates, last: Templates, ts: Templates, rank: map<string, nat>)
    requires IsPart(std, resolved, gs, last) && Ranked(ts, rank) && last.Keys <= ts.Keys
    requires forall name | name in last :: last[name] == Expand(ts, rank, name)
    ensures Expanded(resolved, ts, rank, last.Keys)
  {
    hide Expand, Ranked, Render, IsName, Clean, Apart;
  }

  /**
    Variables without cycles, among others that may have any: whatever order the maps are visited in,
    `n + 2` passes expand each of them fully if no chain of their references has 2^n variables. Each pass
    doubles how far references have come down, and each of the (at most two) standard names, whose values
    no pass rewrites, costs one more.
  */
  lemma ResolvesWithin(n: nat, std: Env, users: Env, gs: Templates, ts: Templates, rank: map<string, nat>,
                       orders: seq<seq<string>>)
    requires IsPart(std, users, gs, ts) && Acyclic(gs, ts, rank) && ShortChains(rank, Pow2(n))
    requires n + 2 <= |orders| && AllOrders(orders, (std + users).Keys)
    ensures Expanded(Passes(std, users, orders, n + 2), gs + ts, rank, ts.Keys)
  {
    hide Pow2, IsPart, Ranked, Passes, PassesTemplates, ShortChains, Expanded, IsOrder, Covers, Expand;
    forall i | 0 <= i < |orders|
      ensures Covers(orders[i], gs, ts)
    {
      PartCovered(std, users, gs, ts, orders[i]);
    }
    PassesPart(std, users, gs, ts, orders, n + 2);
    PassesExpand(n, gs, ts, rank, orders);
    PartExpanded(std, Passes(std, users, orders, n + 2), gs, PassesTemplates(gs, ts, orders, n + 2), gs + ts, rank);
  }

  /**
    The cap of 100 passes is enough for every variable that reaches no cycle, whatever the others hold,
    unless a chain of its references has 2^98 variables or more.
  */
  lemma ResolveUserExpands(meta: DeployMetadata, resolved: Env, std: Templates, users: Templates, rank: map<string, nat>)
    requires IsResolution(meta, resolved) && IsPart(GetStandard(meta), meta.envVars, std, users)
    requires Ranked(std + users, rank) && ShortChains(rank, Pow2(98))
    ensures Expanded(resolved, std + users, rank, users.Keys)
  {
    TwoStandardNames(meta, std);
    hide Passes, Ranked, IsPart, Expanded, Pow2, ShortChains, AllOrders;
    var orders :| IsFullRun(meta, resolved, orders);
    ResolvesWithin(98, GetStandard(meta), meta.envVars, std, users, rank, orders);
  }

  lemma TwoStandardNames(meta: DeployMetadata, std: Templates)
    requires Agree(GetStandard(meta), std)
    ensures |std| <= 2
  {
    var names := {"NULLSTONE_VERSION", "NULLSTONE_COMMIT_SHA"};
    assert std.Keys <= names;
    hide Agree;
    SubsetSize(std.Keys, names);
    assert |std| == |std.Keys|;
  }

  // ----- Every run, cyclic or not -----

  lemma SettledOnce(std: Env, users: Env, orders: seq<seq<string>>, k: nat)
    requires 0 < k <= |orders| && AllOrders(orders, (std + users).Keys)
             && Settled(std, Passes(std, users, orders, k - 1))
    ensures Passes(std, users, orders, k) == Passes(std, users, orders, k - 1)
  {
    var before := Passes(std, users, orders, k - 1);
    assert (std + before).Keys == (std + users).Keys;
    assert Within(orders[k - 1], (std + before).Keys);
    hide Visit, AllOrders, IsOrder, Settled;
    assert Sweep(std, before, orders[k - 1], 0) == before;
    SettledSweep(std, before, orders[k - 1], 0, |orders[k - 1]|);
  }

  /**
    Once a pass changes nothing, no later pass does: writing any known value into any other value
    again is without effect, so stopping early returns what all passes would.
  */
  lemma {:induction false} SettledForGood(std: Env, users: Env, orders: seq<seq<string>>, k: nat, n: nat)
    requires k <= n <= |orders| && AllOrders(orders, (std + users).Keys) && Settled(std, Passes(std, users, orders, k))
    ensures Passes(std, users, orders, n) == Passes(std, users, orders, k)
    decreases n
  {
    hide *;
    if k < n {
      SettledForGood(std, users, orders, k, n - 1);
      SettledOnce(std, users, orders, n);
    }
  }

  /** Later orders do not matter to the passes before them. */
  lemma {:induction false} PassesOfPrefix(std: Env, users: Env, orders: seq<seq<string>>, more: seq<seq<string>>, k: nat)
    requires k <= |orders| && AllOrders(orders, (std + users).Keys) && AllOrders(orders + more, (std + users).Keys)
    ensures Passes(std, users, orders + more, k) == Passes(std, users, orders, k)
    decreases k
  {
    hide Sweep, IsOrder;
    if k > 0 {
      PassesOfPrefix(std, users, orders, more, k - 1);
    }
  }

  // ----- The code -----

  /** Replaces the references to one name in every other value; the lookup map follows. */
  method SubstituteRef(std: Env, start: Env, startContext: Env, refName: string, refValue: string)
    returns (resolved: Env, context: Env, changed: bool)
    requires startContext == std + start && refName in startContext && refValue == startContext[refName]
    ensures resolved == Visit(std, start, refName) && context == std + resolved
    ensures changed <==> resolved != start
    ensures context[refName] == refValue
  {
    hide ReplaceAll;
    resolved, context, changed := start, startContext, false;
    var names := resolved.Keys;
    while names != {}
      invariant names <= start.Keys && resolved.Keys == start.Keys && context == std + resolved
      invariant forall n | n in start :: resolved[n] ==
                  if n in names then start[n] else NextValue(start[n], n, refName, refValue)
      invariant changed <==> resolved != start
      decreases names
    {
      var name :| name in names;
      names := names - {name};
      if name == refName {
        continue;
      }
      var value := resolved[name];
      var result := ReplaceAll(value, refName, refValue);
      if result != value {
        changed := true;
        resolved := resolved[name := result];
        context := context[name := result];
      }
    }
  }

  /** How far a pass has come: the names visited, in this order, and what was changed. */
  ghost predicate InPass(std: Env, start: Env, visited: set<string>, order: seq<string>, resolved: Env, changed: bool) {
    && IsOrder(order, visited) && visited <= (std + start).Keys
    && resolved.Keys == start.Keys && resolved == Sweep(std, start, order, |order|)
    && (!changed ==> resolved == start && forall r | r in visited :: Visit(std, start, r) == start)
    && (changed ==> !Settled(std, start))
  }

  lemma VisitNext(std: Env, start: Env, visited: set<string>, order: seq<string>, resolved: Env, changed: bool,
                  r: string)
    requires InPass(std, start, visited, order, resolved, changed) && r in std + start && r !in visited
    ensures r in std + resolved
    ensures var next := Visit(std, resolved, r);
            InPass(std, start, visited + {r}, order + [r], next, changed || next != resolved)
  {
    hide Visit, Sweep;
    assert Within(order + [r], (std + start).Keys);
    SweepNext(std, start, order, r);
  }

  lemma PassStarts(std: Env, start: Env)
    ensures InPass(std, start, {}, [], start, false)
  {
  }

  lemma {:induction false} SweepOfPrefix(std: Env, start: Env, order: seq<string>, r: string, k: nat)
    requires Within(order, (std + start).Keys) && r in std + start && k <= |order|
    requires Within(order + [r], (std + start).Keys)
    ensures Sweep(std, start, order + [r], k) == Sweep(std, start, order, k)
    decreases k
  {
    hide Visit;
    if k > 0 {
      SweepOfPrefix(std, start, order, r, k - 1);
    }
  }

  lemma SweepNext(std: Env, start: Env, order: seq<string>, r: string)
    requires Within(order, (std + start).Keys) && Within(order + [r], (std + start).Keys) && r in std + start
    ensures r in std + Sweep(std, start, order, |order|)
    ensures Sweep(std, start, order + [r], |order + [r]|) == Visit(std, Sweep(std, start, order, |order|), r)
  {
    hide Visit;
    SweepOfPrefix(std, start, order, r, |order|);
  }

  /** One pass over the names of the lookup map, in an arbitrary order. */
  method RunPass(std: Env, start: Env, startContext: Env)
    returns (resolved: Env, context: Env, changed: bool, ghost order: seq<string>)
    requires startContext == std + start
    ensures IsOrder(order, (std + start).Keys) && resolved == Sweep(std, start, order, |order|)
    ensures context == std + resolved
    ensures changed <==> !Settled(std, start)
    ensures !changed ==> resolved == start
  {
    hide Settled, Visit, IsOrder, Sweep, InPass;
    resolved, context, changed := start, startContext, false;
    var refs := context.Keys;
    order := [];
    PassStarts(std, start);
    assert startContext.Keys - refs == {};
    while refs != {}
      invariant refs <= startContext.Keys && context == std + resolved && resolved.Keys == start.Keys
      invariant InPass(std, start, startContext.Keys - refs, order, resolved, changed)
      decreases refs
    {
      var refName :| refName in refs;
      VisitNext(std, start, startContext.Keys - refs, order, resolved, changed, refName);
      assert startContext.Keys - refs + {refName} == startContext.Keys - (refs - {refName});
      refs := refs - {refName};
      var hit: bool;
      resolved, context, hit := SubstituteRef(std, resolved, context, refName, context[refName]);
      changed := changed || hit;
      order := order + [refName];
    }
    assert startContext.Keys - refs == startContext.Keys;
    PassDone(std, start, order, resolved, changed);
  }

  lemma PassDone(std: Env, start: Env, order: seq<string>, resolved: Env, changed: bool)
    requires InPass(std, start, (std + start).Keys, order, resolved, changed)
    ensures IsOrder(order, (std + start).Keys) && resolved == Sweep(std, start, order, |order|)
    ensures (changed <==> !Settled(std, start)) && (!changed ==> resolved == start)
  {
  }

  /** The passes run so far, and whether to go on. */
  ghost predicate InRun(std: Env, users: Env, orders: seq<seq<string>>, resolved: Env, changed: bool) {
    && AllOrders(orders, (std + users).Keys) && resolved == Passes(std, users, orders, |orders|)
    && (!changed ==> Settled(std, resolved))
  }

  lemma RunNext(std: Env, users: Env, orders: seq<seq<string>>, resolved: Env, order: seq<string>, next: Env,
                changed: bool)
    requires InRun(std, users, orders, resolved, true) && (std + resolved).Keys == (std + users).Keys
    requires IsOrder(order, (std + resolved).Keys) && next == Sweep(std, resolved, order, |order|)
    requires !changed ==> Settled(std, next)
    ensures InRun(std, users, orders + [order], next, changed)
  {
    PassesOfPrefix(std, users, orders, [order], |orders|);
    hide Settled, Sweep, IsOrder;
  }

  /** Stopping before the cap returns what all the passes up to the cap would. */
  lemma RunOut(std: Env, users: Env, orders: seq<seq<string>>, resolved: Env, limit: nat) returns (all: seq<seq<string>>)
    requires InRun(std, users, orders, resolved, |orders| == limit) && |orders| <= limit
    ensures |all| == limit && AllOrders(all, (std + users).Keys) && resolved == Passes(std, users, all, limit)
  {
    if |orders| == limit {
      all := orders;
    } else {
      var order := AnyOrder((std + users).Keys);
      var more := seq(limit - |orders|, _ => order);
      all := orders + more;
      PassesOfPrefix(std, users, orders, more, |orders|);
      SettledForGood(std, users, all, |orders|, limit);
    }
  }

  method ResolveUser(meta: DeployMetadata) returns (resolved: Env)
    ensures IsResolution(meta, resolved) && resolved.Keys == meta.envVars.Keys
  {
    hide Settled, Passes, AllOrders, Sweep;
    var std := GetStandard(meta);
    ghost var orders: seq<seq<string>> := [];
    if |meta.envVars| == 0 {
      resolved := map[];
      orders := NoUsers(std, meta.envVars);
      assert IsFullRun(meta, resolved, orders);
      return;
    }
    resolved := meta.envVars;
    var context := std + resolved;
    var changed, pass := true, 0;
    RunStarts(std, meta.envVars);
    while changed && pass < MAX_PASSES
      invariant 0 <= pass == |orders| <= MAX_PASSES && context == std + resolved && resolved.Keys == meta.envVars.Keys
      invariant InRun(std, meta.envVars, orders, resolved, changed)
      decreases MAX_PASSES - pass
    {
      ghost var order: seq<string>;
      ghost var before := resolved;
      resolved, context, changed, order := RunPass(std, resolved, context);
      RunNext(std, meta.envVars, orders, before, order, resolved, changed);
      orders := orders + [order];
      pass := pass + 1;
    }
    orders := RunOut(std, meta.envVars, orders, resolved, MAX_PASSES);
    assert IsFullRun(meta, resolved, orders);
  }

  lemma RunStarts(std: Env, users: Env)
    ensures InRun(std, users, [], users, true)
  {
  }

  lemma NoUsers(std: Env, users: Env) returns (orders: seq<seq<string>>)
    requires |users| == 0
    ensures |orders| == MAX_PASSES && AllOrders(orders, (std + users).Keys)
    ensures map[] == Passes(std, users, orders, MAX_PASSES)
  {
    assert users == map[];
    assert InRun(std, users, [], users, false);
    orders := RunOut(std, users, [], users, MAX_PASSES);
  }
}
