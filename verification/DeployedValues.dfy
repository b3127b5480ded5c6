/**
  What a deploy writes, by the names and values themselves (env-vars/standard.go, env-vars/user.go,
  k8s/deployer.go, k8s/replace_env_vars.go, k8s/update_version_label.go).
*/
module DeployedValues {
  import opened Text
  import ImageRef
  import OtelRoundTrip
  import opened PodTemplate
  import PodTemplateLaws
  import StandardEnv
  import opened Visiting

  // ----- The standard variables in an environment map -----

  /** An environment map before and after: the two standard variables, the OpenTelemetry one, and no others change. */
  lemma MapAfterDeploy(vars: Env, meta: DeployMetadata, isExpansionSupported: bool)
    ensures var after := StandardEnv.Deployed(vars, meta, isExpansionSupported);
            && after.Keys == vars.Keys
            && ("NULLSTONE_VERSION" in vars ==> after["NULLSTONE_VERSION"] == meta.version)
            && ("NULLSTONE_COMMIT_SHA" in vars ==> after["NULLSTONE_COMMIT_SHA"] == meta.commitSha)
            && ("OTEL_RESOURCE_ATTRIBUTES" in vars ==>
                  after["OTEL_RESOURCE_ATTRIBUTES"]
                  == OtelRoundTrip.Update(vars["OTEL_RESOURCE_ATTRIBUTES"], meta.version, meta.commitSha,
                                          isExpansionSupported))
            && forall n | n in vars && n != "NULLSTONE_VERSION" && n != "NULLSTONE_COMMIT_SHA"
                          && n != "OTEL_RESOURCE_ATTRIBUTES" :: after[n] == vars[n]
  {
    ThreeNames();
    hide OtelRoundTrip.Update;
  }

  lemma ThreeNames()
    ensures "NULLSTONE_VERSION" != "NULLSTONE_COMMIT_SHA" && "NULLSTONE_VERSION" != "OTEL_RESOURCE_ATTRIBUTES"
    ensures "NULLSTONE_COMMIT_SHA" != "OTEL_RESOURCE_ATTRIBUTES"
  {
    assert "NULLSTONE_VERSION"[0] == 'N' && "NULLSTONE_COMMIT_SHA"[0] == 'N' && "OTEL_RESOURCE_ATTRIBUTES"[0] == 'O';
    assert |"NULLSTONE_VERSION"| == 17 && |"NULLSTONE_COMMIT_SHA"| == 20;
  }

  // ----- The environment of a container -----

  /** The entry of a variable the user does not give. */
  predicate KeptOrSet(before: Option<EnvVar>, after: Option<EnvVar>, value: string) {
    match before
    case None => after == None
    case Some(e) => after == Some(if e.valueFrom == None then EnvVar(e.name, value, None) else e)
  }

  /**
    In a container: the user's variables have the user's values. Of the others, literal entries of the two
    standard variables have the version and the commit, entries that refer elsewhere stay, and so does every
    entry of a third name. The OpenTelemetry entry, if it is a literal, is its own update.
  */
  lemma EnvAfterDeploy(env: seq<EnvVar>, meta: DeployMetadata, user: Env, order: seq<string>, n: string)
    requires IsOrder(order, user.Keys)
    ensures var before, after := Lookup(env, n), Lookup(UpdatedEnv(env, meta, user, order), n);
            if n == "OTEL_RESOURCE_ATTRIBUTES" then
              KeptOrSet(if n in user then Some(EnvVar(n, user[n], None)) else before, after,
                        OtelRoundTrip.Update(
                          if n in user then user[n] else if before.Some? then before.value.value else "",
                          meta.version, meta.commitSha, true))
            else if n in user then after == Some(EnvVar(n, user[n], None))
            else if n == "NULLSTONE_VERSION" then KeptOrSet(before, after, meta.version)
            else if n == "NULLSTONE_COMMIT_SHA" then KeptOrSet(before, after, meta.commitSha)
            else after == before
  {
    ThreeNames();
    PodTemplateLaws.UpdatedLookup(env, meta, user, order, n);
    assert Lookup(env, n).Some? ==> Lookup(env, n).value.name == n;
    hide Lookup, UpdatedEnv, OtelRoundTrip.Update, IsOrder;
  }

  // ----- The pod template -----

  /** The first container of a name. */
  predicate IsMain(containers: seq<ContainerSpec>, name: string, i: nat) {
    i < |containers| && containers[i].name == name && forall j: nat | j < i :: containers[j].name != name
  }

  /** Labels after a deploy: the version label is the version, every other one is there as before. */
  predicate Labelled(before: map<string, string>, after: map<string, string>, version: string) {
    && after.Keys == before.Keys + {"app.kubernetes.io/version"} && after["app.kubernetes.io/version"] == version
    && forall l | l in before && l != "app.kubernetes.io/version" :: after[l] == before[l]
  }

  function LabelsOf(outcome: Outcome): Option<map<string, string>> {
    match outcome
    case Updated(t) => t.labels
    case NoMainContainer(t) => t.labels
    case NilLabels => None
  }

  /**
    The outcome for every template: a panic exactly without labels, an error exactly if labels are there but
    no container of the name. The labels are kept but for the version. All containers but the first of the
    name are kept; that one keeps its name, its image has the version as tag, and its variables are updated.
  */
  lemma TemplateAfterDeploy(template: Template, mainName: string, meta: DeployMetadata, user: Env, order: seq<string>)
    requires IsOrder(order, user.Keys)
    ensures var outcome, cs := Updating(template, mainName, meta, user, order), template.containers;
            && (outcome.NilLabels? <==> template.labels == None)
            && (outcome.NoMainContainer? <==> template.labels.Some? && forall c <- cs :: c.name != mainName)
            && (template.labels.Some? ==>
                  LabelsOf(outcome).Some? && Labelled(template.labels.value, LabelsOf(outcome).value, meta.version))
            && (outcome.NoMainContainer? ==> outcome.template.containers == cs)
            && (outcome.Updated? ==> |outcome.template.containers| == |cs|)
            && (outcome.Updated? ==> forall i: nat | i < |cs| && !IsMain(cs, mainName, i) ::
                  outcome.template.containers[i] == cs[i])
            && (outcome.Updated? ==> forall i: nat | IsMain(cs, mainName, i) ::
                  var c := outcome.template.containers[i];
                  && c.name == mainName && c.image == ImageRef.Retag(cs[i].image, meta.version)
                  && c.env == UpdatedEnv(cs[i].env, meta, user, order))
  {
    hide UpdatedEnv, ImageRef.Retag;
    var cs := template.containers;
    var m := MainIndex(cs, mainName);
    assert forall i: nat | IsMain(cs, mainName, i) :: i == m;
    assert m < |cs| ==> cs[m] in cs && IsMain(cs, mainName, m);
  }
}
