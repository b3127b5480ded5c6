/**
  The environment map of a function or a job (env-vars/standard.go), updated in place for a deploy.
*/
module StandardEnv {
  import Interpolation
  import Otel
  import OtelIdempotence
  import OtelRoundTrip

  type Env = Interpolation.Env
  type DeployMetadata = Interpolation.DeployMetadata

  function WithStandard(vars: Env, std: Env): Env {
    map name | name in vars :: if name in std then std[name] else vars[name]
  }

  ghost function WithOtel(vars: Env, meta: DeployMetadata, isExpansionSupported: bool): Env {
    if Otel.ENV_NAME !in vars then vars
    else
      var value := OtelRoundTrip.Update(vars[Otel.ENV_NAME], meta.version, meta.commitSha, isExpansionSupported);
      vars[Otel.ENV_NAME := value]
  }

  class Variables {
    var vars: Env

    constructor (vars: Env)
      ensures this.vars == vars
    {
      this.vars := vars;
    }

    method UpdateStandard(meta: DeployMetadata)
      modifies this
      ensures vars == WithStandard(old(vars), Interpolation.GetStandard(meta))
    {
      var std := Interpolation.GetStandard(meta);
      var unvisited := std.Keys;
      while unvisited != {}
        invariant unvisited <= std.Keys && vars.Keys == old(vars).Keys
        invariant forall n | n in vars ::
                    vars[n] == if n in std && n !in unvisited then std[n] else old(vars)[n]
      {
        var k :| k in unvisited;
        unvisited := unvisited - {k};
        if k in vars {
          vars := vars[k := std[k]];
        }
      }
    }

    method ReplaceOtelResourceAttributes(meta: DeployMetadata, isExpansionSupported: bool) returns (changed: bool)
      modifies this
      ensures changed == (Otel.ENV_NAME in old(vars))
      ensures vars == WithOtel(old(vars), meta, isExpansionSupported)
    {
      var unvisited := vars.Keys;
      while unvisited != {}
        invariant unvisited <= vars.Keys && vars == old(vars) && (Otel.ENV_NAME in vars ==> Otel.ENV_NAME in unvisited)
      {
        var name :| name in unvisited;
        unvisited := unvisited - {name};
        if name == Otel.ENV_NAME {
          var value :=
            OtelRoundTrip.UpdateResourceAttributes(vars[name], meta.version, meta.commitSha, isExpansionSupported);
          vars := vars[name := value];
          return true;
        }
      }
      return false;
    }
  }

  /** Both updates, as the deployers run them. */
  ghost function Deployed(vars: Env, meta: DeployMetadata, isExpansionSupported: bool): Env {
    WithOtel(WithStandard(vars, Interpolation.GetStandard(meta)), meta, isExpansionSupported)
  }

  /**
    A deploy introduces no variable, sets the standard ones that exist, and changes no other but the
    OpenTelemetry one; the order of the two updates does not matter.
  */
  lemma DeployedSets(vars: Env, meta: DeployMetadata, isExpansionSupported: bool, name: string)
    ensures var after, std := Deployed(vars, meta, isExpansionSupported), Interpolation.GetStandard(meta);
            && after.Keys == vars.Keys
            && after == WithStandard(WithOtel(vars, meta, isExpansionSupported), std)
            && (name in vars && name in std ==> after[name] == std[name])
            && (name in vars && name !in std && name != Otel.ENV_NAME ==> after[name] == vars[name])
  {
    assert Otel.ENV_NAME !in Interpolation.GetStandard(meta);
    hide OtelRoundTrip.Update;
  }

  /** Deploying again changes nothing exactly if the OpenTelemetry attributes settle with one update. */
  lemma DeployedTwice(vars: Env, meta: DeployMetadata, isExpansionSupported: bool)
    ensures var once := Deployed(vars, meta, isExpansionSupported);
            Deployed(once, meta, isExpansionSupported) == once
            <==> (Otel.ENV_NAME in vars && Otel.Parse(vars[Otel.ENV_NAME]).Ok? ==>
                    OtelIdempotence.Settles(Otel.Parse(vars[Otel.ENV_NAME]).value, meta.version, meta.commitSha,
                                            isExpansionSupported))
  {
    hide Otel.Parse, OtelRoundTrip.Update, OtelIdempotence.Settles;
    var std := Interpolation.GetStandard(meta);
    assert Otel.ENV_NAME !in std;
    if Otel.ENV_NAME in vars {
      OtelIdempotence.UpdateIdempotent(vars[Otel.ENV_NAME], meta.version, meta.commitSha, isExpansionSupported);
    }
    var once := Deployed(vars, meta, isExpansionSupported);
    assert WithStandard(once, std) == once;
  }
}
