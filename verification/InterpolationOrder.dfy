/**
  Exactly when the visiting order of the maps shows in a resolved variable (env-vars/user.go): when it
  reaches a cycle of references.
*/
module InterpolationOrder {
  import opened Templates
  import opened References
  import opened Interpolation
  import opened InterpolationCycles

  /** Every result that `ResolveUser` may return has the same value for `z`. */
  ghost predicate OneResult(meta: DeployMetadata, z: string) {
    forall a, b | IsResolution(meta, a) && IsResolution(meta, b) :: z in a && z in b && a[z] == b[z]
  }

  // ----- What reaches no cycle is expanded -----

  function Kept(ts: Templates, names: set<string>): Templates {
    map n | n in ts && n in names :: ts[n]
  }

  /** Names that reach no cycle refer to no others. */
  lemma CalmPart(std: Env, users: Env, gs: Templates, ts: Templates)
    requires IsPart(std, users, gs, ts)
    ensures var calm := Calm(gs + ts); IsPart(std, users, Kept(gs, calm), Kept(ts, calm))
  {
    hide IsName, Clean, Render, Mentions, ReachesCycle;
    var calm := Calm(gs + ts);
    forall n, r | n in Kept(gs, calm) + Kept(ts, calm) && r in std + users && Mentions((gs + ts)[n], r)
      ensures r in calm
    {
      if ReachesCycle(gs + ts, r) {
        StepReaches(gs + ts, n, r);
      }
    }
    KeptValues(gs, ts, calm);
  }

  lemma KeptValues(gs: Templates, ts: Templates, names: set<string>)
    ensures var kept := Kept(gs, names) + Kept(ts, names);
            kept.Keys == (gs + ts).Keys * names && forall n | n in kept :: kept[n] == (gs + ts)[n]
  {
  }

  lemma DescendsRanked(ts: Templates, kept: Templates, rank: map<string, nat>)
    requires Descends(ts, kept.Keys, rank) && forall n | n in kept :: kept[n] == ts[n]
    ensures Ranked(kept, rank)
  {
    hide Mentions;
  }

  lemma FewNames(ts: Templates, names: set<string>, rank: map<string, nat>, bound: nat)
    requires names <= ts.Keys && rank.Keys == names && (forall n <- names :: rank[n] < |names|) && |ts| <= bound
    ensures ShortChains(rank, bound)
  {
    SubsetSize(names, ts.Keys);
    assert |ts.Keys| == |ts|;
  }

  lemma KeptNames(gs: Templates, ts: Templates, names: set<string>)
    requires names <= (gs + ts).Keys
    ensures (Kept(gs, names) + Kept(ts, names)).Keys == names
  {
    KeptValues(gs, ts, names);
  }

  lemma CalmRanked(gs: Templates, ts: Templates) returns (rank: map<string, nat>)
    ensures var calm := Calm(gs + ts); Ranked(Kept(gs, calm) + Kept(ts, calm), rank)
    ensures |gs + ts| <= Pow2(98) ==> ShortChains(rank, Pow2(98))
  {
    hide Calm, Kept, Ranked, ShortChains, Pow2, Mentions;
    var all, calm := gs + ts, Calm(gs + ts);
    rank := CalmRank(all);
    assert rank.Keys == calm;
    hide Descends;
    KeptValues(gs, ts, calm);
    KeptNames(gs, ts, calm);
    DescendsRanked(all, Kept(gs, calm) + Kept(ts, calm), rank);
    if |all| <= Pow2(98) {
      FewNames(all, calm, rank, Pow2(98));
    }
  }

  /** Every variable that reaches no cycle is fully expanded, if there are no more than 2^98 variables. */
  lemma CalmExpands(meta: DeployMetadata, std: Templates, users: Templates) returns (rank: map<string, nat>)
    requires IsPart(GetStandard(meta), meta.envVars, std, users) && |std + users| <= Pow2(98)
    ensures var calm := Calm(std + users); var (s, u) := (Kept(std, calm), Kept(users, calm));
            && Ranked(s + u, rank) && u.Keys <= (s + u).Keys
            && forall a | IsResolution(meta, a) :: Expanded(a, s + u, rank, u.Keys)
  {
    var calm := Calm(std + users);
    var s, u := Kept(std, calm), Kept(users, calm);
    hide IsPart, Ranked, Expanded, IsResolution, Pow2, ShortChains;
    rank := CalmRanked(std, users);
    CalmPart(GetStandard(meta), meta.envVars, std, users);
    forall a | IsResolution(meta, a)
      ensures Expanded(a, s + u, rank, u.Keys)
    {
      ResolveUserExpands(meta, a, s, u, rank);
    }
  }

  lemma CalmAgrees(meta: DeployMetadata, std: Templates, users: Templates, z: string)
    requires IsPart(GetStandard(meta), meta.envVars, std, users) && |std + users| <= Pow2(98)
    requires z in users && !ReachesCycle(std + users, z)
    ensures OneResult(meta, z)
  {
    var u := Kept(users, Calm(std + users));
    hide IsPart, Ranked, IsResolution, Pow2, Expand, Render, ReachesCycle;
    var rank := CalmExpands(meta, std, users);
    assert z in u;
  }

  // ----- What reaches a cycle is not -----

  /** No variable that `z` reaches refers to itself. */
  ghost predicate NoSelfReached(ts: Templates, z: string) {
    forall w, x | IsWay(ts, w, z, x) && x in ts :: !Mentions(ts[x], x)
  }

  /** `z` reaches a variable on a cycle that does not refer to itself. */
  ghost predicate ReachesRestless(ts: Templates, z: string) {
    exists w, c, x :: IsWay(ts, w, z, x) && IsCycle(ts, c, x) && x in ts && !Mentions(ts[x], x)
  }

  lemma ReachedCycleIsRestless(ts: Templates, z: string)
    requires ReachesCycle(ts, z) && NoSelfReached(ts, z)
    ensures ReachesRestless(ts, z)
  {
    hide IsWay, Mentions;
    var w, c, x :| IsWay(ts, w, z, x) && IsCycle(ts, c, x);
    assert x in ts && !Mentions(ts[x], x);
  }

  /** If the standard values refer to no known name: `z` has different results if it reaches such a variable. */
  lemma RestlessDiffers(meta: DeployMetadata, std: Templates, users: Templates, z: string)
    requires IsPart(GetStandard(meta), meta.envVars, std, users) && StdPlain(std, users)
    requires ReachesRestless(std + users, z)
    ensures !OneResult(meta, z)
  {
    var w, c, x :| IsWay(std + users, w, z, x) && IsCycle(std + users, c, x)
                   && x in std + users && !Mentions((std + users)[x], x);
    hide IsPart, IsWay, IsCycle, Mentions, IsResolution;
    UserCycle(std, users, w, c, z, x);
    assert StdFree(std, users, x);
    var a, b := ResolutionsDiffer(meta, std, users, w, c, z, x);
  }

  /**
    If no variable that `z` reaches refers to itself, and the standard values refer to no known name: all
    results agree on `z` exactly if it reaches no cycle.
  */
  lemma OrderMatters(meta: DeployMetadata, std: Templates, users: Templates, z: string)
    requires IsPart(GetStandard(meta), meta.envVars, std, users) && z in users && |std + users| <= Pow2(98)
    requires StdPlain(std, users) && NoSelfReached(std + users, z)
    ensures OneResult(meta, z) <==> !ReachesCycle(std + users, z)
  {
    hide *;
    if ReachesCycle(std + users, z) {
      ReachedCycleIsRestless(std + users, z);
      RestlessDiffers(meta, std, users, z);
    } else {
      CalmAgrees(meta, std, users, z);
    }
  }

  // ----- An example -----

  /** `z` refers to `a`, and `a` and `b` to each other. */
  function Triangle(z: string, a: string, b: string): Templates {
    map[z := [Ref(a)], a := [Ref(b)], b := [Ref(a)]]
  }

  predicate ThreeNames(z: string, a: string, b: string) {
    IsName(z) && IsName(a) && IsName(b) && z != a && z != b && a != b
  }

  lemma RefFacts(body: string)
    requires IsName(body)
    ensures Render([Ref(body)]) == "{{" + body + "}}" && Clean([Ref(body)])
    ensures forall r :: Mentions([Ref(body)], r) <==> r == body
  {
    assert [Ref(body)][1..] == [] && Render([Ref(body)][1..]) == "";
    StripUnique(body, 0, body);
    hide Strip, IsName, Render;
    forall r
      ensures Mentions([Ref(body)], r) <==> r == body
    {
      MentionsOne(Ref(body), r);
    }
  }

  lemma StandardNames(meta: DeployMetadata)
    ensures forall r | r in GetStandard(meta) :: IsName(r)
  {
  }

  lemma TriangleAgrees(env: Env, z: string, a: string, b: string)
    requires ThreeNames(z, a, b) && env == map[z := "{{" + a + "}}", a := "{{" + b + "}}", b := "{{" + a + "}}"]
    ensures CleanAll(Triangle(z, a, b)) && Agree(env, Triangle(z, a, b))
  {
    RefFacts(a);
    RefFacts(b);
    hide Render, Mentions, IsName, Clean;
  }

  lemma TriangleApart(std: Env, env: Env, z: string, a: string, b: string)
    requires ThreeNames(z, a, b)
    ensures Apart(std, env, map[], Triangle(z, a, b))
  {
    RefFacts(a);
    RefFacts(b);
    var ts := Triangle(z, a, b);
    assert map[] + ts == ts;
    hide Mentions, IsName, Render, Clean;
    forall n, r | n in ts && Mentions(ts[n], r)
      ensures r in ts
    {
    }
  }

  lemma TriangleIsPart(meta: DeployMetadata, z: string, a: string, b: string)
    requires ThreeNames(z, a, b)
    requires meta.envVars == map[z := "{{" + a + "}}", a := "{{" + b + "}}", b := "{{" + a + "}}"]
    ensures IsPart(GetStandard(meta), meta.envVars, map[], Triangle(z, a, b))
  {
    StandardNames(meta);
    TriangleAgrees(meta.envVars, z, a, b);
    TriangleApart(GetStandard(meta), meta.envVars, z, a, b);
    assert forall r | r in meta.envVars :: IsName(r);
    hide IsName, Apart, Clean, Render, GetStandard, Triangle;
  }

  lemma TriangleLinks(ts: Templates, z: string, a: string, b: string)
    requires z != a && z != b && a != b && z in ts && a in ts && b in ts
    requires Mentions(ts[z], a) && Mentions(ts[a], b) && Mentions(ts[b], a)
    ensures IsWay(ts, [z, a], z, a) && IsWay(ts, [a], a, a) && IsCycle(ts, [a, b, a], a)
  {
    hide Mentions;
    assert [a, b, a][1..] == [b, a];
  }

  lemma TriangleReaches(z: string, a: string, b: string)
    requires ThreeNames(z, a, b)
    ensures Restless(map[], Triangle(z, a, b), [z, a], [a, b, a], z, a)
    ensures Restless(map[], Triangle(z, a, b), [a], [a, b, a], a, a)
  {
    var ts := Triangle(z, a, b);
    RefFacts(a);
    RefFacts(b);
    assert Mentions(ts[z], a) && Mentions(ts[a], b) && Mentions(ts[b], a) && !Mentions(ts[a], a);
    assert z in ts && a in ts && b in ts && StdFree(map[], ts, a);
    hide Mentions, IsName, Triangle, IsWay, IsCycle, StdFree;
    TriangleLinks(ts, z, a, b);
  }

  lemma ApartResults(meta: DeployMetadata, ts: Templates, w: seq<string>, c: seq<string>, z: string, x: string)
    requires IsPart(GetStandard(meta), meta.envVars, map[], ts) && Restless(map[], ts, w, c, z, x)
    ensures !OneResult(meta, z)
  {
    hide IsPart, Restless, IsResolution;
    var one, other := ResolutionsDiffer(meta, map[], ts, w, c, z, x);
  }

  /** Of a variable that refers to one of two that refer to each other, and of these, there are different results. */
  lemma TriangleDiffers(meta: DeployMetadata, z: string, a: string, b: string)
    requires ThreeNames(z, a, b)
    requires meta.envVars == map[z := "{{" + a + "}}", a := "{{" + b + "}}", b := "{{" + a + "}}"]
    ensures !OneResult(meta, z) && !OneResult(meta, a)
  {
    hide *;
    TriangleIsPart(meta, z, a, b);
    TriangleReaches(z, a, b);
    ApartResults(meta, Triangle(z, a, b), [z, a], [a, b, a], z, a);
    ApartResults(meta, Triangle(z, a, b), [a], [a, b, a], a, a);
  }

  /** For one, whatever the version and the commit. */
  lemma TwoResults(meta: DeployMetadata)
    requires meta.envVars == map["z" := "{{a}}", "a" := "{{b}}", "b" := "{{a}}"]
    ensures !OneResult(meta, "z") && !OneResult(meta, "a")
  {
    assert ThreeNames("z", "a", "b") && "{{" + "a" + "}}" == "{{a}}" && "{{" + "b" + "}}" == "{{b}}";
    hide *;
    TriangleDiffers(meta, "z", "a", "b");
  }
}
