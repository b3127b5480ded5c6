/**
  Updating the main container of a pod template for a deploy (k8s/deployer.go, k8s/replace_env_vars.go,
  k8s/set_container_image_tag.go).
*/
module PodTemplate {
  import opened Text
  import ImageRef
  import Interpolation
  import Otel
  import OtelRoundTrip
  import opened Visiting

  type Env = Interpolation.Env
  type DeployMetadata = Interpolation.DeployMetadata

  /** A literal value, or a reference to somewhere else such as a secret. */
  datatype EnvVar = EnvVar(name: string, value: string, valueFrom: Option<string>)

  // ----- The environment as a list, and what a name means in it -----

  function First(env: seq<EnvVar>, name: string): (i: nat)
    ensures i <= |env| && (i < |env| ==> env[i].name == name) && forall j | 0 <= j < i :: env[j].name != name
  {
    if env == [] || env[0].name == name then 0 else 1 + First(env[1..], name)
  }

  function Lookup(env: seq<EnvVar>, name: string): Option<EnvVar> {
    if First(env, name) < |env| then Some(env[First(env, name)]) else None
  }

  predicate UniqueNames(env: seq<EnvVar>) {
    forall i, j | 0 <= i < j < |env| :: env[i].name != env[j].name
  }

  /** The two lists name the same variables in the same order. */
  predicate SameNames(a: seq<EnvVar>, b: seq<EnvVar>) {
    |a| == |b| && forall i | 0 <= i < |a| :: a[i].name == b[i].name
  }

  function StandardEntry(e: EnvVar, std: Env): EnvVar {
    if e.name in std && e.valueFrom == None then e.(value := std[e.name]) else e
  }

  function WithStandard(env: seq<EnvVar>, std: Env): seq<EnvVar> {
    seq(|env|, i requires 0 <= i < |env| => StandardEntry(env[i], std))
  }

  function Upsert(env: seq<EnvVar>, name: string, value: string): seq<EnvVar> {
    var i := First(env, name);
    if i < |env| then env[i := EnvVar(name, value, None)] else env + [EnvVar(name, value, None)]
  }

  /** The user's variables written one after the other, in this order. */
  function WithUser(env: seq<EnvVar>, user: Env, order: seq<string>): seq<EnvVar>
    requires Within(order, user.Keys)
  {
    if order == [] then env
    else var n := |order| - 1; Upsert(WithUser(env, user, order[..n]), order[n], user[order[n]])
  }

  ghost function OtelEntry(e: EnvVar, version: string, sha: string): EnvVar {
    if e.valueFrom == None then e.(value := OtelRoundTrip.Update(e.value, version, sha, true)) else e
  }

  ghost function WithOtel(env: seq<EnvVar>, version: string, sha: string): seq<EnvVar> {
    var i := First(env, Otel.ENV_NAME);
    if i < |env| then env[i := OtelEntry(env[i], version, sha)] else env
  }

  // ----- The code -----

  datatype ContainerSpec = ContainerSpec(name: string, image: string, env: seq<EnvVar>)

  /** A container being updated in place. */
  class Container {
    const name: string
    var image: string
    var env: seq<EnvVar>

    constructor (spec: ContainerSpec)
      ensures name == spec.name && image == spec.image && env == spec.env
    {
      name := spec.name;
      image := spec.image;
      env := spec.env;
    }

    function Spec(): ContainerSpec
      reads this
    {
      ContainerSpec(name, image, env)
    }

    method SetImageTag(imageTag: string)
      modifies this`image
      ensures image == ImageRef.Retag(old(image), imageTag)
    {
      var url := ImageRef.ParseImageUrl(image);
      url := url.(digest := "");
      url := url.(tag := imageTag);
      image := ImageRef.Print(url);
    }

    method ReplaceEnvVars(std: Env)
      modifies this`env
      ensures env == WithStandard(old(env), std)
    {
      var before := env;
      for i := 0 to |before|
        invariant |env| == |before|
        invariant forall j | 0 <= j < |env| :: env[j] == if j < i then StandardEntry(before[j], std) else before[j]
      {
        var cur := before[i];
        if cur.name in std {
          if env[i].valueFrom == None {
            env := env[i := env[i].(value := std[cur.name])];
          }
        }
      }
    }

    method UpsertEnvVar(name: string, value: string)
      modifies this`env
      ensures env == Upsert(old(env), name, value)
    {
      for i := 0 to |env|
        invariant env == old(env) && forall j | 0 <= j < i :: env[j].name != name
      {
        if env[i].name == name {
          env := env[i := EnvVar(name, value, None)];
          return;
        }
      }
      env := env + [EnvVar(name, value, None)];
    }

    method ApplyUserEnvVars(user: Env) returns (applied: bool, ghost order: seq<string>)
      modifies this`env
      ensures IsOrder(order, user.Keys)
      ensures env == WithUser(old(env), user, order)
      ensures applied <==> user != map[]
    {
      order := [];
      if |user| == 0 {
        return false, [];
      }
      var todo := user.Keys;
      while todo != {}
        invariant todo <= user.Keys && IsOrder(order, user.Keys - todo)
        invariant env == WithUser(old(env), user, order)
        decreases todo
      {
        var name :| name in todo;
        todo := todo - {name};
        UpsertEnvVar(name, user[name]);
        assert (order + [name])[..|order|] == order;
        order := order + [name];
      }
      return true, order;
    }

    method ReplaceOtelResourceAttributes(version: string, sha: string) returns (found: bool)
      modifies this`env
      ensures env == WithOtel(old(env), version, sha)
      ensures found <==> First(old(env), Otel.ENV_NAME) < |old(env)|
    {
      for i := 0 to |env|
        invariant env == old(env) && forall j | 0 <= j < i :: env[j].name != Otel.ENV_NAME
      {
        if env[i].name == Otel.ENV_NAME {
          if env[i].valueFrom == None {
            var value := OtelRoundTrip.UpdateResourceAttributes(env[i].value, version, sha, true);
            env := env[i := env[i].(value := value)];
          }
          return true;
        }
      }
      return false;
    }
  }

  datatype Template = Template(labels: Option<map<string, string>>, containers: seq<ContainerSpec>)

  datatype Outcome =
    | Updated(template: Template)
    | NoMainContainer(template: Template)
    | NilLabels  // assigning to a nil map panics

  const VERSION_LABEL := "app.kubernetes.io/version"

  function MainIndex(containers: seq<ContainerSpec>, name: string): (i: nat)
    ensures i <= |containers| && (i < |containers| ==> containers[i].name == name)
    ensures forall j | 0 <= j < i :: containers[j].name != name
  {
    if containers == [] || containers[0].name == name then 0 else 1 + MainIndex(containers[1..], name)
  }

  /** What the update makes of a container, given the resolved user variables and the order they are written in. */
  ghost function UpdatedSpec(spec: ContainerSpec, meta: DeployMetadata, user: Env, order: seq<string>): ContainerSpec
    requires Within(order, user.Keys)
  {
    ContainerSpec(spec.name, ImageRef.Retag(spec.image, meta.version), UpdatedEnv(spec.env, meta, user, order))
  }

  ghost function UpdatedEnv(env: seq<EnvVar>, meta: DeployMetadata, user: Env, order: seq<string>): seq<EnvVar>
    requires Within(order, user.Keys)
  {
    WithOtel(WithUser(WithStandard(env, Interpolation.GetStandard(meta)), user, order), meta.version, meta.commitSha)
  }

  /** What the update returns when the user's variables resolve to `user` and are written in this order. */
  ghost function Updating(template: Template, mainName: string, meta: DeployMetadata, user: Env, order: seq<string>)
    : Outcome
    requires Within(order, user.Keys)
  {
    if template.labels == None then NilLabels
    else
      var labelled := template.(labels := Some(template.labels.value[VERSION_LABEL := meta.version]));
      var main := MainIndex(template.containers, mainName);
      if main == |template.containers| then NoMainContainer(labelled)
      else
        var updated := UpdatedSpec(template.containers[main], meta, user, order);
        Updated(labelled.(containers := template.containers[main := updated]))
  }

  ghost predicate IsWritten(meta: DeployMetadata, user: Env, order: seq<string>) {
    Interpolation.IsResolution(meta, user) && IsOrder(order, user.Keys)
  }

  method UpdatePodTemplate(template: Template, mainName: string, meta: DeployMetadata) returns (outcome: Outcome)
    ensures exists user, order ::
              IsWritten(meta, user, order) && outcome == Updating(template, mainName, meta, user, order)
  {
    hide Interpolation.IsResolution, UpdatedSpec;
    var user := Interpolation.ResolveUser(meta);
    ghost var order := AnyOrder(user.Keys);
    assert IsWritten(meta, user, order);
    if template.labels == None {
      return NilLabels;
    }
    var result := template.(labels := Some(template.labels.value[VERSION_LABEL := meta.version]));
    var main := MainIndex(result.containers, mainName);
    if main == |result.containers| {
      return NoMainContainer(result);
    }
    var spec := UpdateMain(result.containers[main], meta, user);
    result := result.(containers := result.containers[main := spec]);
    order :| IsOrder(order, user.Keys) && spec == UpdatedSpec(template.containers[main], meta, user, order);
    assert IsWritten(meta, user, order);
    outcome := Updated(result);
  }

  /** The steps on the main container. */
  method UpdateMain(spec: ContainerSpec, meta: DeployMetadata, user: Env) returns (updated: ContainerSpec)
    ensures exists order :: IsOrder(order, user.Keys) && updated == UpdatedSpec(spec, meta, user, order)
  {
    var container := new Container(spec);
    container.SetImageTag(meta.version);
    container.ReplaceEnvVars(Interpolation.GetStandard(meta));
    ghost var order;
    var applied;
    applied, order := container.ApplyUserEnvVars(user);
    var found := container.ReplaceOtelResourceAttributes(meta.version, meta.commitSha);
    updated := container.Spec();
  }
}
