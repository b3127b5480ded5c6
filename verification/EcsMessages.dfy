/** How a new service event is shown in the log (aws/ecs/deploy_logger.go, end of `logNewEvents`). */
module EcsMessages {
  import opened Text

  datatype LogEvent = LogEvent(id: string, at: nat, message: string)

  datatype Line = Line(source: string, at: nat, message: string)

  predicate StandsAt(s: string, sub: string, i: nat) {
    i + |sub| <= |s| && s[i..i + |sub|] == sub
  }

  /** Where a text stands first in another. */
  function Find(s: string, sub: string): (at: Option<nat>)
    ensures at.Some? ==> StandsAt(s, sub, at.value) && forall j: nat | j < at.value :: !StandsAt(s, sub, j)
    ensures at == None ==> forall j: nat :: !StandsAt(s, sub, j)
  {
    if StandsAt(s, sub, 0) then Some(0)
    else if s == "" then None
    else
      StandsLater(s, sub);
      match Find(s[1..], sub)
      case None => None
      case Some(i) => Some(i + 1)
  }

  lemma SliceOfTail(s: string, from: nat, end: nat)
    requires 1 <= from <= end <= |s|
    ensures s[from..end] == s[1..][from - 1..end - 1]
  {
    assert forall t | from <= t < end :: s[t] == s[1..][t - 1];
  }

  lemma StandsLater(s: string, sub: string)
    requires s != ""
    ensures forall j: nat | j > 0 :: StandsAt(s, sub, j) <==> StandsAt(s[1..], sub, j - 1)
  {
    forall j: nat | j > 0
      ensures StandsAt(s, sub, j) <==> StandsAt(s[1..], sub, j - 1)
    {
      if j + |sub| <= |s| {
        SliceOfTail(s, j, j + |sub|);
      }
    }
  }

  /** Go's strings.Replace with a count of 1. */
  function ReplaceFirst(s: string, sub: string, text: string): string {
    match Find(s, sub)
    case None => s
    case Some(i) => s[..i] + text + s[i + |sub|..]
  }

  function ServicePrefix(service: string): string {
    "(service " + service + ")"
  }

  function DeploymentPrefix(service: string, deployment: string): string {
    ServicePrefix(service) + " (deployment " + deployment + ")"
  }

  function Shown(service: string, deployment: string, e: LogEvent): Line {
    if Find(e.message, DeploymentPrefix(service, deployment)).Some? then
      var short := ReplaceFirst(e.message, DeploymentPrefix(service, deployment), "Deployment");
      Line(deployment, e.at, ReplaceFirst(short, "Deployment deployment", "Deployment"))
    else Line(service, e.at, ReplaceFirst(e.message, ServicePrefix(service), "Service"))
  }

  function ShownAll(service: string, deployment: string, events: seq<LogEvent>): seq<Line> {
    seq(|events|, i requires 0 <= i < |events| => Shown(service, deployment, events[i]))
  }

  lemma ReplacesPrefix(prefix: string, rest: string, text: string)
    ensures Find(prefix + rest, prefix) == Some(0) && ReplaceFirst(prefix + rest, prefix, text) == text + rest
  {
    assert StandsAt(prefix + rest, prefix, 0);
    assert (prefix + rest)[..0] + text + (prefix + rest)[|prefix|..] == text + rest;
  }

  lemma StandsAfter(before: string, prefix: string, rest: string)
    ensures var s := before + (prefix + rest);
            StandsAt(s, prefix, |before|) && s[..|before|] == before && s[|before| + |prefix|..] == rest
  {
    var s := before + (prefix + rest);
    assert s[|before|..] == prefix + rest && (prefix + rest)[..|prefix|] == prefix;
  }

  lemma ReplacesAt(before: string, prefix: string, rest: string, text: string)
    requires forall i: nat | i < |before| :: !StandsAt(before + (prefix + rest), prefix, i)
    ensures Find(before + (prefix + rest), prefix) == Some(|before|)
    ensures ReplaceFirst(before + (prefix + rest), prefix, text) == before + (text + rest)
  {
    StandsAfter(before, prefix, rest);
    hide StandsAt, Find;
    var s := before + (prefix + rest);
    assert Find(s, prefix) == Some(|before|);
    Assoc(before, text, rest);
  }

  /**
    A message that names the deployment, with nothing like it before, is shown under the deployment. The
    prefixes become one word, and where that word would now be followed by itself it is said once.
  */
  lemma DeploymentMessage(service: string, deployment: string, e: LogEvent, before: string, rest: string)
    requires var prefix := DeploymentPrefix(service, deployment);
             && e.message == before + (prefix + rest)
             && forall i: nat | i < |before| :: !StandsAt(e.message, prefix, i)
    ensures var short, line := before + ("Deployment" + rest), Shown(service, deployment, e);
            && line == Line(deployment, e.at, ReplaceFirst(short, "Deployment deployment", "Deployment"))
            && ((forall i: nat :: !StandsAt(short, "Deployment deployment", i)) ==> line.message == short)
            && (before == "" && " deployment" <= rest ==> line.message == "Deployment" + rest[11..])
  {
    var prefix, short := DeploymentPrefix(service, deployment), before + ("Deployment" + rest);
    ReplacesAt(before, prefix, rest, "Deployment");
    hide DeploymentPrefix;
    assert Shown(service, deployment, e)
           == Line(deployment, e.at, ReplaceFirst(short, "Deployment deployment", "Deployment"));
    hide Shown;
    if forall i: nat :: !StandsAt(short, "Deployment deployment", i) {
      Unchanged(short, "Deployment deployment", "Deployment");
    }
    if before == "" && " deployment" <= rest {
      SaidTwice(rest);
      assert short == "Deployment" + rest;
    }
  }

  lemma Unchanged(s: string, sub: string, text: string)
    requires forall i: nat :: !StandsAt(s, sub, i)
    ensures ReplaceFirst(s, sub, text) == s
  {
  }

  lemma SaidTwice(rest: string)
    requires " deployment" <= rest
    ensures ReplaceFirst("Deployment" + rest, "Deployment deployment", "Deployment") == "Deployment" + rest[11..]
  {
    assert rest == " deployment" + rest[11..];
    assert "Deployment" + rest == "Deployment deployment" + rest[11..];
    hide *;
    ReplacesPrefix("Deployment deployment", rest[11..], "Deployment");
  }

  /** Any other message of the service is shown under the service. */
  lemma ServiceMessage(service: string, deployment: string, e: LogEvent, rest: string)
    requires e.message == ServicePrefix(service) + rest
    requires forall i: nat :: !StandsAt(e.message, DeploymentPrefix(service, deployment), i)
    ensures Shown(service, deployment, e) == Line(service, e.at, "Service" + rest)
  {
    ReplacesPrefix(ServicePrefix(service), rest, "Service");
  }

  /** The prefixes by their text: a message about a deployment of the service, and one about the service. */
  lemma PrefixedMessages(service: string, deployment: string, e: LogEvent, rest: string)
    ensures e.message == "(service " + service + ") (deployment " + deployment + ") deployment" + rest ==>
              Shown(service, deployment, e) == Line(deployment, e.at, "Deployment" + rest)
    ensures e.message == "(service " + service + ")" + rest
            && (forall i: nat ::
                  !StandsAt(e.message, "(service " + service + ") (deployment " + deployment + ")", i)) ==>
              Shown(service, deployment, e) == Line(service, e.at, "Service" + rest)
  {
    PrefixTexts(service, deployment);
    var full, short := DeploymentPrefix(service, deployment), ServicePrefix(service);
    hide DeploymentPrefix, ServicePrefix, Shown;
    if e.message == "(service " + service + ") (deployment " + deployment + ") deployment" + rest {
      assert full + " deployment" + rest == "" + (full + (" deployment" + rest));
      assert (" deployment" + rest)[11..] == rest;
      DeploymentMessage(service, deployment, e, "", " deployment" + rest);
      assert Shown(service, deployment, e).message == "Deployment" + rest;
    }
    if e.message == short + rest && forall i: nat :: !StandsAt(e.message, full, i) {
      ServiceMessage(service, deployment, e, rest);
    }
  }

  lemma PrefixTexts(service: string, deployment: string)
    ensures ServicePrefix(service) == "(service " + service + ")"
    ensures DeploymentPrefix(service, deployment) == "(service " + service + ") (deployment " + deployment + ")"
    ensures forall t: string :: DeploymentPrefix(service, deployment) + " deployment" + t
                                == "(service " + service + ") (deployment " + deployment + ") deployment" + t
  {
    assert ") (deployment " == ")" + " (deployment ";
    assert ") deployment" == ")" + " deployment";
  }
}
