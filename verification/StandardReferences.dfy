/**
  User variables that refer to the version or the commit of a deploy (env-vars/standard.go:8-13,
  env-vars/user.go:14-68): what every result of the interpolation holds, by the names themselves.
*/
module StandardReferences {
  import opened Templates
  import opened Interpolation

  /** A value that is text around one reference to `name`, with blanks inside the braces as they may be. */
  predicate TextAround(value: string, before: string, body: string, name: string, after: string) {
    && value == before + ("{{" + body + "}}" + after) && PlainText(before) && PlainText(after)
    && BraceFree(body) && Strip(body) == name
  }

  /** Read as text and references, the value refers to no variable. */
  ghost predicate RefersToNone(value: string, vars: Env) {
    exists t: Template :: Clean(t) && value == Render(t) && MentionsNone(t, vars)
  }

  ghost predicate MentionsNone(t: Template, vars: Env) {
    forall r | Mentions(t, r) :: r !in vars && r != "NULLSTONE_VERSION" && r != "NULLSTONE_COMMIT_SHA"
  }

  ghost predicate AllNames(vars: Env) {
    forall n | n in vars :: IsName(n)
  }

  lemma {:induction false} ExpandNone(ts: Templates, rank: map<string, nat>, name: string, t: Template)
    requires Ranked(ts, rank) && name in ts && forall r | r in ts :: !Mentions(t, r)
    ensures ExpandTokens(ts, rank, name, t) == t
  {
    hide Strip;
    if t != [] {
      assert forall r | Mentions(t[1..], r) :: Mentions(t, r);
      if t[0].Ref? {
        assert Mentions(t, Strip(t[0].body));
      }
      ExpandNone(ts, rank, name, t[1..]);
      assert t == [t[0]] + t[1..];
    }
  }

  lemma AroundMentions(before: string, body: string, after: string, r: string)
    ensures Mentions([Lit(before), Ref(body), Lit(after)], r) <==> Strip(body) == r
  {
    hide Strip;
    var t := [Lit(before), Ref(body), Lit(after)];
    assert t[1] == Ref(body) && t[0].Lit? && t[2].Lit?;
  }

  lemma AroundRenders(before: string, body: string, after: string)
    ensures Render([Lit(before), Ref(body), Lit(after)]) == before + ("{{" + body + "}}" + after)
  {
    var t := [Lit(before), Ref(body), Lit(after)];
    assert t[1..] == [Ref(body), Lit(after)] && t[1..][1..] == [Lit(after)] && [Lit(after)][1..] == [];
    assert Render([Lit(after)]) == after + "";
  }

  lemma OneClean(n: string, t: Template)
    requires IsName(n) && Clean(t)
    ensures CleanAll(map[n := t])
  {
    hide IsName, Clean;
  }

  lemma OneAgrees(env: Env, n: string, t: Template)
    requires n in env && env[n] == Render(t)
    ensures Agree(env, map[n := t])
  {
    hide Render;
  }

  lemma TwoApart(std: Env, vars: Env, s: string, v: Template, n: string, t: Template)
    requires forall r | Mentions(v, r) :: r !in vars && r !in std
    requires forall r | Mentions(t, r) :: r == s
    ensures Apart(std, vars, map[s := v], map[n := t])
  {
    hide Mentions;
    assert (map[s := v] + map[n := t]).Keys == {s, n};
  }

  lemma AroundClean(before: string, body: string, after: string)
    requires PlainText(before) && PlainText(after) && BraceFree(body)
    ensures Clean([Lit(before), Ref(body), Lit(after)])
  {
    hide PlainText, BraceFree;
  }

  lemma NamesTogether(std: Env, vars: Env)
    requires AllNames(std) && AllNames(vars)
    ensures forall r | r in std + vars :: IsName(r)
  {
    hide IsName;
  }

  /** The part of the environment that is the variable and the standard name. */
  lemma AroundIsPart(std: Env, vars: Env, n: string, t: Template, s: string, v: Template, before: string, body: string,
                     after: string)
    requires AllNames(std) && AllNames(vars) && n in vars && s in std && s !in vars
    requires TextAround(vars[n], before, body, s, after) && t == [Lit(before), Ref(body), Lit(after)]
    requires Clean(v) && std[s] == Render(v) && forall r | Mentions(v, r) :: r !in vars && r !in std
    ensures IsPart(std, vars, map[s := v], map[n := t])
  {
    hide IsName, Clean, Render, Mentions, Strip, PlainText, BraceFree, CleanAll, Agree, Apart;
    AroundRenders(before, body, after);
    AroundClean(before, body, after);
    forall r
      ensures Mentions(t, r) <==> r == s
    {
      AroundMentions(before, body, after, r);
    }
    NamesTogether(std, vars);
    OneClean(s, v);
    OneClean(n, t);
    OneAgrees(std, s, v);
    OneAgrees(vars, n, t);
    TwoApart(std, vars, s, v, n, t);
  }

  lemma AroundExpands(n: string, t: Template, s: string, v: Template, before: string, body: string, after: string,
                      rank: map<string, nat>)
    requires n != s && t == [Lit(before), Ref(body), Lit(after)] && Strip(body) == s
    requires forall r | Mentions(v, r) :: r != s && r != n
    requires rank == map[n := 1, s := 0]
    ensures var all := map[s := v] + map[n := t];
            Ranked(all, rank) && Expand(all, rank, n) == [Lit(before)] + (v + [Lit(after)])
  {
    var all: Templates := map[s := v] + map[n := t];
    forall r
      ensures Mentions(t, r) <==> r == s
    {
      AroundMentions(before, body, after, r);
    }
    hide Mentions, Strip;
    assert all.Keys == {s, n} && all[n] == t && all[s] == v;
    assert Ranked(all, rank);
    ExpandNone(all, rank, s, v);
    AroundExpansion(all, rank, n, t, s, before, body, after);
  }

  lemma AroundExpansion(all: Templates, rank: map<string, nat>, n: string, t: Template, s: string, before: string,
                        body: string, after: string)
    requires Ranked(all, rank) && n in all && s in all && all[n] == t && t == [Lit(before), Ref(body), Lit(after)]
    requires Strip(body) == s
    ensures Expand(all, rank, n) == [Lit(before)] + (Expand(all, rank, s) + [Lit(after)])
  {
    ExpandIsFlatten(all, rank, n, t);
    var full := ExpandAll(all, rank);
    assert full[s] == Expand(all, rank, s);
    hide Expand, Ranked, Mentions, Strip, ExpandAll;
    assert t[1..] == [Ref(body), Lit(after)] && t[1..][1..] == [Lit(after)] && [Lit(after)][1..] == [];
    assert Flatten(full, [Lit(after)]) == [Lit(after)] + Flatten(full, []);
    assert Flatten(full, t[1..]) == full[s] + [Lit(after)];
  }

  lemma RenderAround(before: string, v: Template, after: string)
    ensures Render([Lit(before)] + (v + [Lit(after)])) == before + (Render(v) + after)
  {
    RenderConcat([Lit(before)], v + [Lit(after)]);
    RenderConcat(v, [Lit(after)]);
    LiteralRendered(before);
    LiteralRendered(after);
  }

  lemma AroundExpandsTo(n: string, t: Template, s: string, v: Template, before: string, body: string, after: string,
                        rank: map<string, nat>)
    requires n != s && t == [Lit(before), Ref(body), Lit(after)] && Strip(body) == s
    requires forall r | Mentions(v, r) :: r != s && r != n
    requires rank == map[n := 1, s := 0]
    ensures var all := map[s := v] + map[n := t];
            Ranked(all, rank) && n in all && Render(Expand(all, rank, n)) == before + (Render(v) + after)
  {
    hide *;
    AroundExpands(n, t, s, v, before, body, after, rank);
    RenderAround(before, v, after);
  }

  lemma OneStepChain(n: string, s: string)
    ensures ShortChains(map[n := 1, s := 0], Pow2(98))
  {
    PowersGrow(1, 98);
    hide Pow2;
  }

  /** Every result has the text around the value of the standard name. */
  lemma AroundResolves(meta: DeployMetadata, resolved: Env, n: string, s: string, v: Template, before: string,
                       body: string, after: string)
    requires IsResolution(meta, resolved) && AllNames(meta.envVars) && AllNames(GetStandard(meta))
    requires n in meta.envVars && s in GetStandard(meta) && s !in meta.envVars
    requires TextAround(meta.envVars[n], before, body, s, after)
    requires Clean(v) && GetStandard(meta)[s] == Render(v)
    requires forall r | Mentions(v, r) :: r !in meta.envVars && r !in GetStandard(meta)
    ensures n in resolved && resolved[n] == before + (GetStandard(meta)[s] + after)
  {
    var t: Template := [Lit(before), Ref(body), Lit(after)];
    var std: Templates, users: Templates := map[s := v], map[n := t];
    var rank: map<string, nat> := map[n := 1, s := 0];
    assert n in users.Keys && Strip(body) == s;
    hide *;
    OneStepChain(n, s);
    AroundIsPart(GetStandard(meta), meta.envVars, n, t, s, v, before, body, after);
    AroundExpandsTo(n, t, s, v, before, body, after, rank);
    ResolveUserExpands(meta, resolved, std, users, rank);
    AroundResult(resolved, std + users, rank, users.Keys, n);
  }

  lemma AroundResult(resolved: Env, ts: Templates, rank: map<string, nat>, users: set<string>, n: string)
    requires Ranked(ts, rank) && users <= ts.Keys && Expanded(resolved, ts, rank, users) && n in users
    ensures n in resolved && resolved[n] == Render(Expand(ts, rank, n))
  {
    hide Ranked, Render, Expand;
  }

  lemma StandardNamesAreNames(meta: DeployMetadata)
    ensures AllNames(GetStandard(meta))
  {
  }

  lemma StandardValues(meta: DeployMetadata)
    ensures GetStandard(meta).Keys == {"NULLSTONE_VERSION", "NULLSTONE_COMMIT_SHA"}
    ensures GetStandard(meta)["NULLSTONE_VERSION"] == meta.version
    ensures GetStandard(meta)["NULLSTONE_COMMIT_SHA"] == meta.commitSha
  {
    assert |"NULLSTONE_VERSION"| != |"NULLSTONE_COMMIT_SHA"|;
  }

  lemma StandardInterpolated(meta: DeployMetadata, resolved: Env, n: string, s: string, before: string, body: string,
                             after: string)
    requires IsResolution(meta, resolved) && AllNames(meta.envVars) && n in meta.envVars
    requires s in GetStandard(meta) && s !in meta.envVars && RefersToNone(GetStandard(meta)[s], meta.envVars)
    requires TextAround(meta.envVars[n], before, body, s, after)
    ensures n in resolved && resolved[n] == before + (GetStandard(meta)[s] + after)
  {
    hide IsResolution, TextAround, Render, Clean, Mentions, AllNames, GetStandard;
    StandardNamesAreNames(meta);
    StandardValues(meta);
    var v: Template :| Clean(v) && GetStandard(meta)[s] == Render(v) && MentionsNone(v, meta.envVars);
    AroundResolves(meta, resolved, n, s, v, before, body, after);
  }

  /** A user value around a reference to the version is the text around the version, in every result. */
  lemma VersionInterpolated(meta: DeployMetadata, resolved: Env, n: string, before: string, body: string, after: string)
    requires IsResolution(meta, resolved) && AllNames(meta.envVars) && n in meta.envVars
    requires "NULLSTONE_VERSION" !in meta.envVars && RefersToNone(meta.version, meta.envVars)
    requires TextAround(meta.envVars[n], before, body, "NULLSTONE_VERSION", after)
    ensures n in resolved && resolved[n] == before + (meta.version + after)
  {
    hide *;
    StandardValues(meta);
    StandardInterpolated(meta, resolved, n, "NULLSTONE_VERSION", before, body, after);
  }

  /** And likewise for the commit. */
  lemma CommitInterpolated(meta: DeployMetadata, resolved: Env, n: string, before: string, body: string, after: string)
    requires IsResolution(meta, resolved) && AllNames(meta.envVars) && n in meta.envVars
    requires "NULLSTONE_COMMIT_SHA" !in meta.envVars && RefersToNone(meta.commitSha, meta.envVars)
    requires TextAround(meta.envVars[n], before, body, "NULLSTONE_COMMIT_SHA", after)
    ensures n in resolved && resolved[n] == before + (meta.commitSha + after)
  {
    hide *;
    StandardValues(meta);
    StandardInterpolated(meta, resolved, n, "NULLSTONE_COMMIT_SHA", before, body, after);
  }

  /** Text that cannot open a reference refers to nothing. */
  lemma PlainRefersToNone(value: string, vars: Env)
    requires PlainText(value)
    ensures RefersToNone(value, vars)
  {
    var t: Template := [Lit(value)];
    LiteralRendered(value);
    assert Clean(t) && MentionsNone(t, vars);
  }

  /** For one, `{{NULLSTONE_VERSION}}` alone is the version. */
  lemma VersionExample(meta: DeployMetadata, resolved: Env)
    requires meta.envVars == map["V" := "{{NULLSTONE_VERSION}}"] && meta.version == "1.2"
    requires IsResolution(meta, resolved)
    ensures "V" in resolved && resolved["V"] == "1.2"
  {
    assert AllNames(meta.envVars) && "NULLSTONE_VERSION" !in meta.envVars by { assert |"V"| != |"NULLSTONE_VERSION"|; }
    assert "" + ("1.2" + "") == "1.2";
    hide *;
    PlainRefersToNone("1.2", meta.envVars) by { NoBraces(); }
    AloneIsAround("NULLSTONE_VERSION") by { NoBraces(); }
    Spelled();
    VersionInterpolated(meta, resolved, "V", "", "NULLSTONE_VERSION", "");
  }

  lemma NoBraces()
    ensures PlainText("1.2") && IsName("NULLSTONE_VERSION")
  {
  }

  lemma Spelled()
    ensures "{{" + "NULLSTONE_VERSION" + "}}" == "{{NULLSTONE_VERSION}}"
  {
  }

  lemma AloneIsAround(name: string)
    requires IsName(name)
    ensures TextAround("{{" + name + "}}", "", name, name, "")
  {
    hide BraceFree, PlainText, Strip;
    StripUnique(name, 0, name);
    EmptyIsPlain();
    assert "" + ("{{" + name + "}}" + "") == "{{" + name + "}}";
  }

  lemma EmptyIsPlain()
    ensures PlainText("")
  {
  }
}
