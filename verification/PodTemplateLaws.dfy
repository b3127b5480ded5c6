/** What updating a pod template means, variable by variable, and that doing it twice is doing it once. */
module PodTemplateLaws {
  import opened Text
  import opened PodTemplate
  import ImageRef
  import Interpolation
  import Otel
  import OtelIdempotence
  import OtelRoundTrip
  import opened Visiting

  lemma FirstUnique(env: seq<EnvVar>, name: string, i: nat)
    requires i <= |env| && (i < |env| ==> env[i].name == name) && forall j | 0 <= j < i :: env[j].name != name
    ensures First(env, name) == i
  {
  }

  lemma FirstSameNames(a: seq<EnvVar>, b: seq<EnvVar>, name: string)
    requires SameNames(a, b)
    ensures First(a, name) == First(b, name)
  {
  }

  lemma StandardLookup(env: seq<EnvVar>, std: Env, name: string)
    ensures SameNames(WithStandard(env, std), env)
    ensures Lookup(WithStandard(env, std), name) ==
            if Lookup(env, name) == None then None else Some(StandardEntry(Lookup(env, name).value, std))
  {
  }

  lemma UpsertLookup(env: seq<EnvVar>, set_: string, value: string, name: string)
    ensures Lookup(Upsert(env, set_, value), name) ==
            if name == set_ then Some(EnvVar(set_, value, None)) else Lookup(env, name)
    ensures UniqueNames(env) ==> UniqueNames(Upsert(env, set_, value))
  {
    var i := First(env, set_);
    var next := Upsert(env, set_, value);
    if i < |env| {
      assert SameNames(next, env);
      FirstSameNames(next, env, name);
    } else {
      var k := First(env, name);
      assert forall j | 0 <= j < |env| :: next[j] == env[j];
      FirstUnique(next, name, if k < |env| then k else if name == set_ then |env| else |env| + 1);
    }
  }

  lemma {:induction false} UserLookup(env: seq<EnvVar>, user: Env, order: seq<string>, name: string)
    requires Within(order, user.Keys)
    ensures Lookup(WithUser(env, user, order), name) ==
            if name in order then Some(EnvVar(name, user[name], None)) else Lookup(env, name)
    ensures UniqueNames(env) ==> UniqueNames(WithUser(env, user, order))
    decreases |order|
  {
    if order != [] {
      var n := |order| - 1;
      UserLookup(env, user, order[..n], name);
      UpsertLookup(WithUser(env, user, order[..n]), order[n], user[order[n]], name);
      assert name in order <==> name in order[..n] || name == order[n];
      hide Lookup, Upsert, UniqueNames;
    }
  }

  lemma OtelLookup(env: seq<EnvVar>, version: string, sha: string, name: string)
    ensures SameNames(WithOtel(env, version, sha), env)
    ensures Lookup(WithOtel(env, version, sha), name) ==
            if name == Otel.ENV_NAME && Lookup(env, name).Some? then
              Some(OtelEntry(Lookup(env, name).value, version, sha))
            else Lookup(env, name)
  {
  }

  // ----- The update as a map update -----

  /** The value a variable has before the OpenTelemetry attributes are rewritten. */
  function Assigned(env: seq<EnvVar>, std: Env, user: Env, name: string): Option<EnvVar> {
    if name in user then Some(EnvVar(name, user[name], None))
    else if Lookup(env, name).Some? then Some(StandardEntry(Lookup(env, name).value, std))
    else None
  }

  /**
    Whatever order the user's variables are written in, a variable is the user's if the user gave it;
    else the standard one, if it was there and is not a reference to elsewhere; else what it was. The
    OpenTelemetry attributes are then rewritten, unless they are a reference to elsewhere.
  */
  lemma UpdatedLookup(env: seq<EnvVar>, meta: DeployMetadata, user: Env, order: seq<string>, name: string)
    requires IsOrder(order, user.Keys)
    ensures var before := Assigned(env, Interpolation.GetStandard(meta), user, name);
            Lookup(UpdatedEnv(env, meta, user, order), name) ==
              if name == Otel.ENV_NAME && before.Some? then
                Some(OtelEntry(before.value, meta.version, meta.commitSha))
              else before
  {
    var std := Interpolation.GetStandard(meta);
    StandardLookup(env, std, name);
    UserLookup(WithStandard(env, std), user, order, name);
    OtelLookup(WithUser(WithStandard(env, std), user, order), meta.version, meta.commitSha, name);
    assert name in order <==> name in user;
    hide Lookup, WithStandard, WithUser, WithOtel, StandardEntry, OtelEntry;
  }

  /** `b` begins with the variables of `a`, in their order. */
  predicate Extends(a: seq<EnvVar>, b: seq<EnvVar>) {
    |a| <= |b| && forall i | 0 <= i < |a| :: a[i].name == b[i].name
  }

  lemma {:induction false} UserExtends(env: seq<EnvVar>, user: Env, order: seq<string>)
    requires Within(order, user.Keys)
    ensures Extends(env, WithUser(env, user, order))
    ensures (forall n :: n in order ==> First(env, n) < |env|) ==> |WithUser(env, user, order)| == |env|
    decreases |order|
  {
    if order != [] {
      var n := |order| - 1;
      UserExtends(env, user, order[..n]);
      var before := WithUser(env, user, order[..n]);
      assert order[n] in order;
      assert forall m :: m in order[..n] ==> m in order;
      var i := First(env, order[n]);
      if i < |env| {
        assert before[i].name == order[n];
      }
    }
  }

  /** The variables that were there stay, in their order, and names stay unique. */
  lemma UpdatedNames(env: seq<EnvVar>, meta: DeployMetadata, user: Env, order: seq<string>)
    requires IsOrder(order, user.Keys)
    ensures Extends(env, UpdatedEnv(env, meta, user, order))
    ensures UniqueNames(env) ==> UniqueNames(UpdatedEnv(env, meta, user, order))
    ensures (forall n | n in user :: First(env, n) < |env|) ==> |UpdatedEnv(env, meta, user, order)| == |env|
  {
    var std := Interpolation.GetStandard(meta);
    var one := WithStandard(env, std);
    var two := WithUser(one, user, order);
    StandardLookup(env, std, "");
    assert forall n :: First(one, n) == First(env, n) by {
      forall n ensures First(one, n) == First(env, n) { FirstSameNames(one, env, n); }
    }
    UserExtends(one, user, order);
    UserLookup(one, user, order, "");
    OtelLookup(two, meta.version, meta.commitSha, "");
    hide WithStandard, WithUser, WithOtel, First, Lookup;
  }

  // ----- Twice is once -----

  lemma SameLookups(a: seq<EnvVar>, b: seq<EnvVar>)
    requires SameNames(a, b) && UniqueNames(a) && forall n :: Lookup(a, n) == Lookup(b, n)
    ensures a == b
  {
    forall i | 0 <= i < |a|
      ensures a[i] == b[i]
    {
      FirstUnique(a, a[i].name, i);
      FirstUnique(b, a[i].name, i);
      assert Lookup(a, a[i].name) == Lookup(b, a[i].name);
    }
  }

  /** The OpenTelemetry attributes of this environment settle with one update, unless the user gives them. */
  predicate OtelSettles(env: seq<EnvVar>, meta: DeployMetadata, user: Env) {
    var e := Lookup(env, Otel.ENV_NAME);
    Otel.ENV_NAME !in user && e.Some? && e.value.valueFrom == None && Otel.Parse(e.value.value).Ok? ==>
      OtelIdempotence.Settles(Otel.Parse(e.value.value).value, meta.version, meta.commitSha, true)
  }

  lemma LookupTwice(env: seq<EnvVar>, meta: DeployMetadata, user: Env, order: seq<string>, again: seq<string>,
                    name: string)
    requires IsOrder(order, user.Keys) && IsOrder(again, user.Keys)
    ensures var once := UpdatedEnv(env, meta, user, order);
            Lookup(UpdatedEnv(once, meta, user, again), name) == Lookup(once, name)
            <==> (name == Otel.ENV_NAME ==> OtelSettles(env, meta, user))
  {
    var once := UpdatedEnv(env, meta, user, order);
    UpdatedLookup(env, meta, user, order, name);
    UpdatedLookup(once, meta, user, again, name);
    assert Otel.ENV_NAME !in Interpolation.GetStandard(meta);
    assert Lookup(env, name).Some? ==> Lookup(env, name).value.name == name;
    if Lookup(env, name).Some? {
      OtelIdempotence.UpdateIdempotent(Lookup(env, name).value.value, meta.version, meta.commitSha, true);
    }
    hide UpdatedEnv, Lookup, OtelRoundTrip.Update, IsOrder, Otel.Parse, OtelIdempotence.Settles;
  }

  /**
    With unique names, whatever orders the user's variables are written in, updating an environment
    again for the same deploy changes nothing exactly if its OpenTelemetry attributes settle.
  */
  lemma UpdateTwice(env: seq<EnvVar>, meta: DeployMetadata, user: Env, order: seq<string>, again: seq<string>)
    requires IsOrder(order, user.Keys) && IsOrder(again, user.Keys) && UniqueNames(env)
    ensures var once := UpdatedEnv(env, meta, user, order);
            UpdatedEnv(once, meta, user, again) == once <==> OtelSettles(env, meta, user)
  {
    var once := UpdatedEnv(env, meta, user, order);
    var twice := UpdatedEnv(once, meta, user, again);
    LookupTwice(env, meta, user, order, again, Otel.ENV_NAME);
    if OtelSettles(env, meta, user) {
      SameAgain(env, meta, user, order, again);
    }
  }

  lemma SameAgain(env: seq<EnvVar>, meta: DeployMetadata, user: Env, order: seq<string>, again: seq<string>)
    requires IsOrder(order, user.Keys) && IsOrder(again, user.Keys) && UniqueNames(env) && OtelSettles(env, meta, user)
    ensures var once := UpdatedEnv(env, meta, user, order); UpdatedEnv(once, meta, user, again) == once
  {
    var once := UpdatedEnv(env, meta, user, order);
    var twice := UpdatedEnv(once, meta, user, again);
    UpdatedNames(env, meta, user, order);
    UpdatedNames(once, meta, user, again);
    forall n | n in user
      ensures First(once, n) < |once|
    {
      UpdatedLookup(env, meta, user, order, n);
    }
    hide UpdatedEnv, OtelSettles;
    forall n
      ensures Lookup(twice, n) == Lookup(once, n)
    {
      LookupTwice(env, meta, user, order, again, n);
    }
    SameLookups(once, twice);
  }

  /** The same for a whole container: its image, without tag and digest, must also keep the version as its tag. */
  lemma UpdateSpecTwice(spec: ContainerSpec, meta: DeployMetadata, user: Env, order: seq<string>, again: seq<string>)
    requires IsOrder(order, user.Keys) && IsOrder(again, user.Keys) && UniqueNames(spec.env)
    ensures var once := UpdatedSpec(spec, meta, user, order);
            UpdatedSpec(once, meta, user, again) == once
            <==> OtelSettles(spec.env, meta, user)
                 && ImageRef.KeepsTag(ImageRef.Bare(spec.image), meta.version)
  {
    UpdateTwice(spec.env, meta, user, order, again);
    ImageRef.LastTagWins(spec.image, meta.version, meta.version);
  }
}
