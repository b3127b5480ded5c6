/** How many passes the interpolation makes at most (env-vars/user.go:15, 49), seen from a value that never settles. */
module InterpolationCap {
  import opened Templates
  import opened Visiting
  import opened Interpolation
  import StandardReferences

  function Letters(count: nat): Template {
    seq(count, i => Lit("x"))
  }

  function Times(c: char, count: nat): string {
    seq(count, i => c)
  }

  /** `{{B}}` and this many letters. */
  function Grown(count: nat): Template {
    [Ref("B")] + Letters(count)
  }

  lemma {:induction false} LettersRender(count: nat)
    ensures Render(Letters(count)) == Times('x', count)
  {
    if count > 0 {
      LettersRender(count - 1);
      assert Letters(count)[1..] == Letters(count - 1);
      assert Times('x', count) == "x" + Times('x', count - 1);
    }
  }

  lemma NameB()
    ensures IsName("B") && IsName("A") && Strip("B") == "B" && BraceFree("B") && PlainText("x")
  {
    StripUnique("B", 0, "B");
  }

  lemma GrownRenders(count: nat)
    ensures Render(Grown(count)) == "{{B}}" + Times('x', count)
  {
    LettersRender(count);
    hide Letters, Times;
    assert Grown(count)[1..] == Letters(count) && "{{" + "B" + "}}" == "{{B}}";
  }

  lemma GrownMentions(count: nat)
    ensures forall r :: Mentions(Grown(count), r) <==> r == "B"
    ensures Clean(Grown(count)) && !Mentions(Letters(count), "B")
  {
    NameB();
    assert Grown(count)[0] == Ref("B");
    hide Strip, BraceFree, PlainText;
  }

  /** A visit of B adds one letter, one of A changes nothing. */
  lemma GrownNext(count: nat)
    ensures Subst(Grown(count), "B", Grown(1)) == Grown(count + 1)
    ensures forall v :: Subst(Grown(count), "A", v) == Grown(count)
  {
    NameB();
    GrownMentions(count);
    SubstNone(Letters(count), "B", Grown(1));
    forall v
      ensures Subst(Grown(count), "A", v) == Grown(count)
    {
      SubstNone(Grown(count), "A", v);
    }
    hide Strip, Mentions;
    assert Grown(count)[1..] == Letters(count);
    assert Grown(1) + Letters(count) == Grown(count + 1);
  }

  function After(count: nat): Templates {
    map["A" := Grown(count), "B" := Grown(1)]
  }

  lemma AfterVisit(count: nat, name: string)
    ensures Visited(map[], After(count), name) == After(if name == "B" then count + 1 else count)
  {
    GrownNext(count);
    GrownNext(1);
    hide Grown, Subst;
    assert map[] + After(count) == After(count);
  }

  predicate Has(order: seq<string>, k: nat)
    requires k <= |order|
  {
    exists i :: 0 <= i < k && order[i] == "B"
  }

  lemma HasNext(order: seq<string>, k: nat)
    requires 0 < k <= |order| && forall i, j | 0 <= i < j < |order| :: order[i] != order[j]
    ensures Has(order, k) <==> Has(order, k - 1) || order[k - 1] == "B"
    ensures order[k - 1] == "B" ==> !Has(order, k - 1)
  {
  }

  lemma SweepVisits(ts: Templates, order: seq<string>, k: nat)
    requires 0 < k <= |order|
    ensures SweepTemplates(map[], ts, order, k) == Visited(map[], SweepTemplates(map[], ts, order, k - 1), order[k - 1])
  {
    hide VisitTemplates;
  }

  lemma {:induction false} SweepAfter(order: seq<string>, k: nat, count: nat)
    requires k <= |order| && forall i, j | 0 <= i < j < |order| :: order[i] != order[j]
    ensures SweepTemplates(map[], After(count), order, k) == After(if Has(order, k) then count + 1 else count)
  {
    if k > 0 {
      hide *;
      SweepAfter(order, k - 1, count);
      SweepVisits(After(count), order, k);
      AfterVisit(if Has(order, k - 1) then count + 1 else count, order[k - 1]);
      HasNext(order, k);
    }
  }

  /** Every pass adds one letter, in any order. */
  lemma PassAfter(std: Env, resolved: Env, order: seq<string>, count: nat)
    requires IsPart(std, resolved, map[], After(count)) && IsOrder(order, (std + resolved).Keys) && "B" in resolved
    ensures IsPart(std, Sweep(std, resolved, order, |order|), map[], After(count + 1))
  {
    hide IsPart, After, Sweep, SweepTemplates;
    assert Has(order, |order|);
    SweepPart(std, resolved, map[], After(count), order, |order|);
    SweepAfter(order, |order|, count);
  }

  lemma PassesNext(std: Env, users: Env, orders: seq<seq<string>>, k: nat)
    requires 0 < k <= |orders| && AllOrders(orders, (std + users).Keys)
    ensures var before := Passes(std, users, orders, k - 1); var order := orders[k - 1];
            && IsOrder(order, (std + before).Keys) && before.Keys == users.Keys
            && Passes(std, users, orders, k) == Sweep(std, before, order, |order|)
  {
    hide Sweep;
    assert (std + Passes(std, users, orders, k - 1)).Keys == (std + users).Keys;
  }

  ghost predicate AfterPasses(std: Env, users: Env, orders: seq<seq<string>>, k: nat) {
    k <= |orders| && AllOrders(orders, (std + users).Keys) && IsPart(std, Passes(std, users, orders, k), map[], After(k))
  }

  lemma NoPass(std: Env, users: Env, orders: seq<seq<string>>)
    requires AllOrders(orders, (std + users).Keys) && IsPart(std, users, map[], After(0))
    ensures AfterPasses(std, users, orders, 0)
  {
    hide IsPart, AllOrders;
  }

  lemma OnePass(std: Env, users: Env, orders: seq<seq<string>>, k: nat)
    requires 0 < k <= |orders| && "B" in users.Keys && AfterPasses(std, users, orders, k - 1)
    ensures AfterPasses(std, users, orders, k)
  {
    hide IsPart, Sweep, Passes, AllOrders, IsOrder, After;
    PassesNext(std, users, orders, k);
    PassAfter(std, Passes(std, users, orders, k - 1), orders[k - 1], k - 1);
  }

  lemma {:induction false} PassesAfter(std: Env, users: Env, orders: seq<seq<string>>, k: nat)
    requires k <= |orders| && "B" in users.Keys && AfterPasses(std, users, orders, 0)
    ensures AfterPasses(std, users, orders, k)
  {
    hide *;
    if k > 0 {
      PassesAfter(std, users, orders, k - 1);
      OnePass(std, users, orders, k);
    }
  }

  lemma TwoClean()
    ensures CleanAll(After(0))
  {
    NameB();
    GrownMentions(0);
    GrownMentions(1);
    hide IsName, Clean, Mentions, Grown;
  }

  lemma TwoAgree(env: Env)
    requires env == map["A" := "{{B}}", "B" := "{{B}}x"]
    ensures Agree(env, After(0))
  {
    GrownRenders(0);
    GrownRenders(1);
    assert Times('x', 0) == "" && Times('x', 1) == "x" && "{{B}}" + "" == "{{B}}" && "{{B}}" + "x" == "{{B}}x";
    hide Render, Grown, Times;
  }

  lemma TwoApart(std: Env, env: Env)
    ensures Apart(std, env, map[], After(0))
  {
    GrownMentions(0);
    GrownMentions(1);
    hide Mentions, Grown;
    assert map[] + After(0) == After(0);
  }

  lemma StartPart(meta: DeployMetadata)
    requires meta.envVars == map["A" := "{{B}}", "B" := "{{B}}x"]
    ensures IsPart(GetStandard(meta), meta.envVars, map[], After(0))
  {
    NameB();
    assert StandardReferences.AllNames(meta.envVars);
    hide IsName, CleanAll, Agree, Apart, After, StandardReferences.AllNames, GetStandard;
    StandardReferences.StandardNamesAreNames(meta);
    StandardReferences.NamesTogether(GetStandard(meta), meta.envVars);
    TwoClean();
    TwoAgree(meta.envVars);
    TwoApart(GetStandard(meta), meta.envVars);
    assert CleanAll(map[]) && Agree(GetStandard(meta), map[]) by { NoneIsClean(GetStandard(meta)); }
  }

  lemma NoneIsClean(env: Env)
    ensures CleanAll(map[]) && Agree(env, map[])
  {
  }

  /**
    A value that grows in every pass shows that there are exactly one hundred of them, whatever the order:
    `A` refers to `B`, which refers to itself.
  */
  lemma CapCounts(meta: DeployMetadata, resolved: Env)
    requires meta.envVars == map["A" := "{{B}}", "B" := "{{B}}x"] && IsResolution(meta, resolved)
    ensures resolved == map["A" := "{{B}}" + Times('x', 100), "B" := "{{B}}x"]
  {
    hide *;
    HundredPasses(meta, resolved);
    CapReads(GetStandard(meta), resolved);
  }

  lemma HundredPasses(meta: DeployMetadata, resolved: Env)
    requires meta.envVars == map["A" := "{{B}}", "B" := "{{B}}x"] && IsResolution(meta, resolved)
    ensures IsPart(GetStandard(meta), resolved, map[], After(100)) && resolved.Keys == {"A", "B"}
  {
    var orders :| IsFullRun(meta, resolved, orders);
    assert |orders| == 100;
    hide IsPart, Passes, After, AllOrders, GetStandard;
    StartPart(meta);
    NoPass(GetStandard(meta), meta.envVars, orders);
    PassesAfter(GetStandard(meta), meta.envVars, orders, 100);
  }

  lemma CapReads(std: Env, resolved: Env)
    requires IsPart(std, resolved, map[], After(100)) && resolved.Keys == {"A", "B"}
    ensures resolved == map["A" := "{{B}}" + Times('x', 100), "B" := "{{B}}x"]
  {
    PartReads(std, resolved, After(100), "A");
    PartReads(std, resolved, After(100), "B");
    hide IsPart, Grown, Times, Render;
    GrownRenders(100);
    GrownRenders(1);
    assert "{{B}}" + Times('x', 1) == "{{B}}x" by { OneLetter(); }
  }

  lemma PartReads(std: Env, resolved: Env, ts: Templates, n: string)
    requires IsPart(std, resolved, map[], ts)
    ensures n in ts ==> n in resolved && resolved[n] == Render(ts[n])
  {
    hide Render, CleanAll, Apart, IsName;
  }

  lemma OneLetter()
    ensures "{{B}}" + Times('x', 1) == "{{B}}x"
  {
    assert Times('x', 1) == "x";
  }
}
