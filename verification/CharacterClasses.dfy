/**
  Which characters are blanks, spaces, special or parts of a word, seen from the operations that tell them
  apart.
*/
module CharacterClasses {
  import opened Text
  import MetricExpressions
  import Ordering
  import Otel
  import opened ReferencePattern
  import StandardReferences
  import opened Templates
  import opened Interpolation

  // ----- Blanks inside a reference (env-vars/user.go:12) -----

  const NAME := "NULLSTONE_VERSION"

  /** A reference with this character before the name. */
  function With(c: char): string {
    "{{" + ([c] + NAME) + "}}"
  }

  lemma NameStripped(c: char)
    ensures Strip([c] + NAME) == if IsBlank(c) then NAME else [c] + NAME
  {
    var s := [c] + NAME;
    assert NAME[0] == 'N' && NAME[|NAME| - 1] == 'N' && |NAME| == 17;
    assert s[|s| - 1] == 'N' && s[1..18] == NAME && s[0..18] == s;
    hide Strip;
    if IsBlank(c) {
      StripUnique(s, 1, NAME);
    } else {
      StripUnique(s, 0, s);
    }
  }

  /** A character before the name is a blank that is passed over exactly if it is one of these five. */
  lemma OneBlank(meta: DeployMetadata, resolved: Env, c: char)
    requires meta.envVars == map["V" := With(c)] && meta.version == "1.2" && c != '{' && c != '}'
    requires IsResolution(meta, resolved)
    ensures "V" in resolved
    ensures resolved["V"] == if c in {' ', '\t', '\n', '\r', '\U{000C}'} then "1.2" else With(c)
  {
    NameStripped(c);
    var body := [c] + NAME;
    assert BraceFree(body) && Strip(body) != "V" && Strip(body) != "NULLSTONE_COMMIT_SHA" by {
      assert |NAME| == 17 && |"V"| == 1 && |"NULLSTONE_COMMIT_SHA"| == 20;
    }
    assert IsBlank(c) <==> c in {' ', '\t', '\n', '\r', '\U{000C}'};
    hide IsResolution, BraceFree, IsBlank, Strip;
    if IsBlank(c) {
      NameResolves(meta, resolved, body);
    } else {
      assert |body| == 18;
      OtherStays(meta, resolved, body);
    }
  }

  lemma NameResolves(meta: DeployMetadata, resolved: Env, body: string)
    requires meta.envVars == map["V" := "{{" + body + "}}"] && meta.version == "1.2"
    requires BraceFree(body) && Strip(body) == NAME && IsResolution(meta, resolved)
    ensures "V" in resolved && resolved["V"] == "1.2"
  {
    assert StandardReferences.AllNames(meta.envVars) && NAME !in meta.envVars by { assert |"V"| != |NAME|; }
    assert "" + ("1.2" + "") == "1.2" && "" + ("{{" + body + "}}" + "") == "{{" + body + "}}";
    assert NAME == "NULLSTONE_VERSION";
    StandardReferences.EmptyIsPlain();
    assert StandardReferences.TextAround("{{" + body + "}}", "", body, NAME, "") by { hide BraceFree, PlainText, Strip; }
    hide *;
    StandardReferences.PlainRefersToNone("1.2", meta.envVars) by { StandardReferences.NoBraces(); }
    StandardReferences.VersionInterpolated(meta, resolved, "V", "", body, "");
  }

  lemma OtherStays(meta: DeployMetadata, resolved: Env, body: string)
    requires meta.envVars == map["V" := "{{" + body + "}}"] && BraceFree(body)
    requires Strip(body) != "V" && Strip(body) != "NULLSTONE_VERSION" && Strip(body) != "NULLSTONE_COMMIT_SHA"
    requires IsResolution(meta, resolved)
    ensures "V" in resolved && resolved["V"] == "{{" + body + "}}"
  {
    var users: Templates, rank: map<string, nat> := map["V" := [Ref(body)]], map["V" := 0];
    assert map[] + users == users && "V" in users.Keys;
    hide *;
    AloneIsPart(meta, body);
    AloneExpands(body);
    ResolveUserExpands(meta, resolved, map[], users, rank);
    StandardReferences.AroundResult(resolved, users, rank, users.Keys, "V");
    OneRefRenders(body);
  }

  lemma AloneExpands(body: string)
    requires Strip(body) != "V"
    ensures var users: Templates, rank: map<string, nat> := map["V" := [Ref(body)]], map["V" := 0];
            Ranked(users, rank) && ShortChains(rank, Pow2(98)) && Expand(users, rank, "V") == [Ref(body)]
  {
    var users: Templates, rank: map<string, nat> := map["V" := [Ref(body)]], map["V" := 0];
    PowersGrow(1, 98);
    OneRefMentions(body);
    hide Pow2, Mentions, Strip, Expand;
    assert forall r | r in users :: r == "V";
    StandardReferences.ExpandNone(users, rank, "V", [Ref(body)]);
  }

  lemma OneRefMentions(body: string)
    ensures forall r :: Mentions([Ref(body)], r) <==> r == Strip(body)
  {
    var t: Template := [Ref(body)];
    assert t[0] == Ref(body);
    hide Strip;
  }

  lemma OneRefRenders(body: string)
    ensures Render([Ref(body)]) == "{{" + body + "}}"
  {
    var t: Template := [Ref(body)];
    assert t[1..] == [] && Render([]) == "";
  }

  lemma AloneIsPart(meta: DeployMetadata, body: string)
    requires meta.envVars == map["V" := "{{" + body + "}}"] && BraceFree(body)
    requires Strip(body) != "V" && Strip(body) != "NULLSTONE_VERSION" && Strip(body) != "NULLSTONE_COMMIT_SHA"
    ensures IsPart(GetStandard(meta), meta.envVars, map[], map["V" := [Ref(body)]])
  {
    StandardReferences.StandardNamesAreNames(meta);
    OneRefMentions(body);
    OneRefRenders(body);
    assert IsName("V");
    hide Strip, Mentions, Render, IsName;
  }

  // ----- Spaces around an OpenTelemetry key (otel/resource_attributes.go:22-37) -----

  predicate IsWhite(c: char) {
    c in "\t\n\U{000B}\U{000C}\r \U{0085}\U{00A0}\U{1680}\U{2000}\U{2001}\U{2002}\U{2003}\U{2004}\U{2005}\U{2006}"
         + "\U{2007}\U{2008}\U{2009}\U{200A}\U{2028}\U{2029}\U{202F}\U{205F}\U{3000}"
  }

  lemma WhiteIsSpace(c: char)
    ensures Otel.IsSpace(c) <==> IsWhite(c)
  {
  }

  lemma OnePart(c: char)
    requires c != ',' && c != '=' && c != '\\'
    ensures Otel.Parts([c] + "a=x", false, "") == [[c] + "a=x"]
  {
    var s := [c] + "a=x";
    assert s[1..] == "a=x" && "a=x"[1..] == "=x" && "=x"[1..] == "x" && "x"[1..] == "";
    assert Otel.Parts("x", false, [c] + "a=") == [[c] + "a=" + "x"];
    assert Otel.Parts("=x", false, [c] + "a") == Otel.Parts("x", false, [c] + "a" + "=");
    assert Otel.Parts("a=x", false, [c]) == Otel.Parts("=x", false, [c] + "a");
    assert "" + [c] == [c] && [c] + "a" + "=" == [c] + "a=" && [c] + "a=" + "x" == s;
  }

  lemma PairTrimmed(c: char)
    ensures Otel.TrimSpace([c] + "a=x") == if Otel.IsSpace(c) then "a=x" else [c] + "a=x"
    ensures Otel.TrimSpace([c, 'a']) == if Otel.IsSpace(c) then "a" else [c, 'a']
    ensures Otel.TrimSpace("x") == "x" && Otel.TrimSpace("a") == "a"
  {
    var s := [c] + "a=x";
    assert s[1..] == "a=x" && [c, 'a'][1..] == "a";
    assert !Otel.IsSpace('a') && !Otel.IsSpace('x');
    assert s[3] == 'x' && "a=x"[0] == 'a' && "a=x"[2] == 'x' && [c, 'a'][1] == 'a' && "a"[0] == 'a' && "x"[0] == 'x';
    hide Otel.IsSpace;
    assert Otel.TrimLeft("a=x") == "a=x" == Otel.TrimRight("a=x") && Otel.TrimRight(s) == s;
    assert Otel.TrimLeft("a") == "a" == Otel.TrimRight("a") && Otel.TrimRight([c, 'a']) == [c, 'a'];
  }

  lemma PairRead(c: char)
    requires c != ',' && c != '=' && c != '\\'
    ensures Otel.KeyValue("a=x", false, "") == Some(("a", "x"))
    ensures Otel.KeyValue([c] + "a=x", false, "") == Some(([c, 'a'], "x"))
  {
    var s := [c] + "a=x";
    assert s[1..] == "a=x" && "a=x"[1..] == "=x" && "=x"[1..] == "x" && "x"[1..] == "";
    assert Otel.Unescape("x", false) == ['x'] + Otel.Unescape("", false) == "x";
    assert "=x"[0] == '=' && "a=x"[0] == 'a' && "x"[0] == 'x' && "" + ['a'] == "a" && "" + [c] + ['a'] == [c, 'a'];
    assert Otel.KeyValue("=x", false, "a") == Some(("a", "x"));
    assert Otel.KeyValue("=x", false, [c, 'a']) == Some(([c, 'a'], "x"));
    assert Otel.KeyValue("a=x", false, "" + [c]) == Otel.KeyValue("=x", false, "" + [c] + ['a']);
  }

  /** A character before a key is dropped exactly if it is white space. */
  lemma OneSpace(c: char)
    requires c != ',' && c != '=' && c != '\\'
    ensures Otel.Parse([c] + "a=x") == Ok(map[if IsWhite(c) then "a" else [c, 'a'] := "x"])
  {
    WhiteIsSpace(c);
    OnePart(c);
    PairTrimmed(c);
    PairRead(c);
    var s := [c] + "a=x";
    hide Otel.TrimSpace, Otel.KeyValue, Otel.Parts, Otel.IsSpace, IsWhite;
    assert [c, 'a'] != "" && s != "" && "a=x" != "";
    var attrs: Otel.Attributes := map[if IsWhite(c) then "a" else [c, 'a'] := "x"];
    assert Otel.AddPart(s, map[]) == Ok(attrs);
    assert [s][1..] == [] && Otel.AddParts([], attrs) == Ok(attrs);
    assert Otel.AddParts([s], map[]) == Ok(attrs);
  }

  // ----- Characters that are escaped (otel/resource_attributes.go:82-92) -----

  /** A character is printed with a backslash exactly if it is one of these three. */
  lemma OneEscaped(c: char)
    ensures Otel.Print(map["k" := [c]]) == "k=" + if c in {'\\', ',', '='} then ['\\', c] else [c]
  {
    var attrs: Otel.Attributes := map["k" := [c]];
    OneKeySorted();
    assert [c][1..] == "" && "k"[1..] == "" && Otel.TrimSpace("k") == "k";
    assert Otel.PrintableKeys(attrs) == {"k"};
    hide Otel.PrintableKeys, Ordering.SortedList;
    assert Otel.Escape("k") == "k" && Otel.Escape([c]) == Otel.EscapeChar(c);
  }

  lemma OneKeySorted()
    ensures Ordering.SortedList({"k"}) == ["k"]
  {
    Ordering.SortOfListing(["k"], {"k"});
    assert ["k"][1..] == [];
  }

  // ----- Words of a metric expression (aws/cloudwatch/metrics/mappings.go:127-130) -----

  /** A character after an id ends it exactly if it is no letter, digit or underscore. */
  lemma WordEnds(c: char)
    ensures MetricExpressions.ReplaceId(['a', c, 'b'], "a", "x")
            == if 'a' <= c <= 'z' || 'A' <= c <= 'Z' || '0' <= c <= '9' || c == '_' then ['a', c, 'b'] else ['x', c, 'b']
  {
    var s := ['a', c, 'b'];
    assert s[0..1] == "a" && s[1..2] == [c] && s[2..3] == "b";
    assert MetricExpressions.AfterMatch(s, 1, "a", "x") == [c] + MetricExpressions.Scan(s, 2, "a", "x");
    assert MetricExpressions.Scan(s, 3, "a", "x") == "";
    assert MetricExpressions.Scan(s, 2, "a", "x") == "b";
    assert MetricExpressions.Scan(s, 1, "a", "x") == [c] + MetricExpressions.Scan(s, 2, "a", "x")
      || !MetricExpressions.IsWordChar(c);
    assert "x" + ([c] + "b") == ['x', c, 'b'] && "a" + ([c] + "b") == s;
  }
}
