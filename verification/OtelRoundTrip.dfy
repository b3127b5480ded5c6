/**
  When parsing undoes printing, for every map of attributes, and what updating the version and
  commit attributes does to a text.
*/
module OtelRoundTrip {
  import opened Text
  import opened Ordering
  import opened Otel

  // ----- Escaping is undone -----

  lemma {:induction false} UnescapeEscape(s: string)
    ensures Unescape(Escape(s), false) == s
  {
    if s != "" {
      UnescapeEscape(s[1..]);
      var rest := Escape(s[1..]);
      var all := EscapeChar(s[0]) + rest;
      if IsSpecial(s[0]) {
        assert all[0] == '\\' && all[1..] == [s[0]] + rest && ([s[0]] + rest)[1..] == rest;
      } else {
        assert all[1..] == rest;
      }
    }
  }

  /** `all` starts with this character, escaped if need be, and goes on with `tail`. */
  predicate StartsEscaped(all: string, c: char, tail: string) {
    if IsSpecial(c) then |all| > 1 && all[0] == '\\' && all[1] == c && all[1..][1..] == tail
    else all != "" && all[0] == c && all[1..] == tail
  }

  lemma CharAhead(c: char, e: string, rest: string)
    ensures StartsEscaped(EscapeChar(c) + e + rest, c, e + rest)
  {
  }

  lemma EscapedCons(k: string, rest: string)
    requires k != ""
    ensures StartsEscaped(Escape(k) + rest, k[0], Escape(k[1..]) + rest)
  {
    assert Escape(k) == EscapeChar(k[0]) + Escape(k[1..]);
    hide *;
    CharAhead(k[0], Escape(k[1..]), rest);
  }

  lemma {:induction false} KeyOfEscaped(k: string, rest: string, key: string)
    ensures KeyValue(Escape(k) + rest, false, key) == KeyValue(rest, false, key + k)
  {
    if k == "" {
      assert Escape(k) + rest == rest && key + k == key;
    } else {
      EscapedCons(k, rest);
      hide Escape, Unescape;
      KeyOfEscaped(k[1..], rest, key + [k[0]]);
      assert key + [k[0]] + k[1..] == key + k;
    }
  }

  /** An entry gives back its key and value. */
  lemma EntryRead(attrs: Attributes, k: string)
    requires k in attrs
    ensures KeyValue(Entry(attrs, k), false, "") == Some((k, attrs[k]))
  {
    var rest := "=" + Escape(attrs[k]);
    assert Entry(attrs, k) == Escape(k) + rest;
    KeyOfEscaped(k, rest, "");
    UnescapeEscape(attrs[k]);
    assert "" + k == k && rest[0] == '=' && rest[1..] == Escape(attrs[k]);
  }

  // ----- Where the cuts fall -----

  predicate EndsInBackslash(s: string) {
    s != "" && s[|s| - 1] == '\\'
  }

  /** Every comma follows a backslash, so nothing is cut here. */
  predicate NoCut(s: string, afterBackslash: bool) {
    (s != "" && s[0] == ',' ==> afterBackslash) && forall i | 0 < i < |s| && s[i] == ',' :: s[i - 1] == '\\'
  }

  lemma {:induction false} PartsPastText(s: string, rest: string, afterBackslash: bool, current: string)
    requires NoCut(s, afterBackslash)
    ensures Parts(s + rest, afterBackslash, current)
            == Parts(rest, if s == "" then afterBackslash else EndsInBackslash(s), current + s)
  {
    if s == "" {
      assert s + rest == rest && current + s == current;
    } else {
      assert (s + rest)[1..] == s[1..] + rest && (s + rest)[0] == s[0];
      assert current + [s[0]] + s[1..] == current + s;
      NoCutTail(s, afterBackslash);
      assert |s| == 1 ==> s[1..] == "" && EndsInBackslash(s) == (s[0] == '\\');
      PartsPastText(s[1..], rest, s[0] == '\\', current + [s[0]]);
    }
  }

  lemma NoCutTail(s: string, afterBackslash: bool)
    requires s != "" && NoCut(s, afterBackslash)
    ensures NoCut(s[1..], s[0] == '\\') && (s[1..] != "" ==> EndsInBackslash(s[1..]) == EndsInBackslash(s))
  {
  }

  lemma {:induction false} EscapedNoCut(s: string)
    ensures NoCut(Escape(s), false)
    ensures EndsInBackslash(Escape(s)) == EndsInBackslash(s)
    ensures s != "" ==> Escape(s) != "" && Escape(s)[|Escape(s)| - 1] == s[|s| - 1]
    ensures s != "" ==> Escape(s)[0] == s[0] || Escape(s)[0] == '\\'
  {
    if s != "" {
      EscapedNoCut(s[1..]);
      NoCutConcat(EscapeChar(s[0]), Escape(s[1..]));
    }
  }

  lemma NoCutConcat(s: string, t: string)
    requires NoCut(s, false) && NoCut(t, false)
    ensures NoCut(s + t, false)
  {
  }

  /** An entry is never cut and never trimmed, and ends in a backslash exactly if its value does. */
  lemma EntryCuts(attrs: Attributes, k: string)
    requires k in attrs
    ensures NoCut(Entry(attrs, k), false) && Entry(attrs, k) != ""
    ensures EndsInBackslash(Entry(attrs, k)) == EndsInBackslash(attrs[k])
  {
    EscapedNoCut(k);
    EscapedNoCut(attrs[k]);
    hide Escape;
    NoCutConcat(Escape(k), "=");
    NoCutConcat(Escape(k) + "=", Escape(attrs[k]));
  }

  lemma EntryTrimmed(attrs: Attributes, k: string)
    requires k in attrs && k != "" && Trimmed(k) && Trimmed(attrs[k])
    ensures Trimmed(Entry(attrs, k)) && Entry(attrs, k) != ""
  {
    EscapedNoCut(k);
    EscapedNoCut(attrs[k]);
    hide Escape, NoCut;
  }

  // ----- The maps that survive -----

  /** Keys and values as parsing leaves them. */
  predicate CleanAttributes(attrs: Attributes) {
    forall k | k in attrs :: k != "" && Trimmed(k) && Trimmed(attrs[k])
  }

  /** Only the value printed last may end in a backslash: a comma after one would not separate. */
  predicate OnlyLastEndsInBackslash(attrs: Attributes) {
    forall k, l | k in attrs && l in attrs && Less(k, l) :: !EndsInBackslash(attrs[k])
  }

  lemma {:induction false} AddPartsClean(parts: seq<string>, attrs: Attributes)
    requires CleanAttributes(attrs)
    ensures var r := AddParts(parts, attrs); r.Ok? ==> CleanAttributes(r.value) && |r.value| <= |attrs| + |parts|
    decreases |parts|
  {
    if parts != [] {
      AddPartClean(parts[0], attrs);
      if AddPart(parts[0], attrs).Ok? {
        AddPartsClean(parts[1..], AddPart(parts[0], attrs).value);
      }
    }
  }

  lemma AddPartClean(part: string, attrs: Attributes)
    requires CleanAttributes(attrs)
    ensures var r := AddPart(part, attrs); r.Ok? ==> CleanAttributes(r.value) && |r.value| <= |attrs| + 1
  {
    hide TrimSpace, KeyValue, Trimmed;
    var kv := KeyValue(TrimSpace(part), false, "");
    if kv.Some? {
      TrimTrims(kv.value.0);
      TrimTrims(kv.value.1);
    }
  }

  /** Whatever the input, what parses has trimmed, non-empty keys and trimmed values. */
  lemma ParsedIsClean(input: string)
    requires Parse(input).Ok?
    ensures CleanAttributes(Parse(input).value)
  {
    hide AddParts;
    AddPartsClean(Parts(input, false, ""), map[]);
  }

  // ----- Printed text is cut at the commas between entries, and only there -----

  function Entries(attrs: Attributes, keys: seq<string>): seq<string>
    requires forall k <- keys :: k in attrs
  {
    if keys == [] then [] else [Entry(attrs, keys[0])] + Entries(attrs, keys[1..])
  }

  /** Keys of the map as parsing leaves them. */
  predicate KeyList(attrs: Attributes, keys: seq<string>) {
    forall i | 0 <= i < |keys| :: keys[i] in attrs && keys[i] != "" && Trimmed(keys[i])
  }

  predicate CleanKeys(attrs: Attributes, keys: seq<string>) {
    KeyList(attrs, keys) && forall k <- keys :: Trimmed(attrs[k])
  }

  lemma NextEntry(attrs: Attributes, keys: seq<string>, current: string)
    requires |keys| > 1 && KeyList(attrs, keys)
    ensures var e, rest := Entry(attrs, keys[0]), PrintKeys(attrs, keys[1..]);
            Parts(PrintKeys(attrs, keys), false, current) ==
              if EndsInBackslash(attrs[keys[0]]) then Parts(rest, false, current + e + ",")
              else [current + e] + Parts(rest, false, "")
  {
    var e, rest := Entry(attrs, keys[0]), PrintKeys(attrs, keys[1..]);
    EntryCuts(attrs, keys[0]);
    assert PrintKeys(attrs, keys) == e + ("," + rest);
    hide PrintKeys, Entry, NoCut, Trimmed;
    PartsPastText(e, "," + rest, false, current);
    assert ("," + rest)[1..] == rest;
  }

  lemma LastEntry(attrs: Attributes, key: string, current: string)
    requires key in attrs
    ensures Parts(PrintKeys(attrs, [key]), false, current) == [current + Entry(attrs, key)]
  {
    var e := Entry(attrs, key);
    EntryCuts(attrs, key);
    assert PrintKeys(attrs, [key]) == e + "" by { assert [key][0] == key; }
    hide PrintKeys, Entry, NoCut, Trimmed;
    PartsPastText(e, "", false, current);
  }

  lemma {:induction false} PrintedCuts(attrs: Attributes, keys: seq<string>)
    requires CleanKeys(attrs, keys) && keys != []
    requires forall i | 0 <= i < |keys| - 1 :: !EndsInBackslash(attrs[keys[i]])
    ensures Parts(PrintKeys(attrs, keys), false, "") == Entries(attrs, keys)
    decreases |keys|
  {
    hide Entry, Trimmed, EndsInBackslash;
    assert "" + Entry(attrs, keys[0]) == Entry(attrs, keys[0]);
    if |keys| == 1 {
      assert keys == [keys[0]];
      LastEntry(attrs, keys[0], "");
      assert Entries(attrs, keys[1..]) == [];
    } else {
      NextEntry(attrs, keys, "");
      PrintedCuts(attrs, keys[1..]);
    }
  }

  /** A value that ends in a backslash before the last one swallows the comma after it. */
  lemma {:induction false} CutsLost(attrs: Attributes, keys: seq<string>, current: string)
    requires CleanKeys(attrs, keys) && keys != []
    ensures |Parts(PrintKeys(attrs, keys), false, current)| <= |keys|
    ensures (exists i :: 0 <= i < |keys| - 1 && EndsInBackslash(attrs[keys[i]]))
            ==> |Parts(PrintKeys(attrs, keys), false, current)| < |keys|
    decreases |keys|
  {
    hide Entry, Trimmed, EndsInBackslash;
    if |keys| == 1 {
      assert keys == [keys[0]];
      LastEntry(attrs, keys[0], current);
    } else {
      NextEntry(attrs, keys, current);
      CutsLost(attrs, keys[1..], current + Entry(attrs, keys[0]) + ",");
      CutsLost(attrs, keys[1..], "");
      if i :| 0 <= i < |keys| - 1 && EndsInBackslash(attrs[keys[i]]) {
        assert i > 0 ==> keys[1..][i - 1] == keys[i];
      }
    }
  }

  // ----- Reading the entries back -----

  lemma ReadEntry(attrs: Attributes, k: string, sofar: Attributes)
    requires k in attrs && k != "" && Trimmed(k) && Trimmed(attrs[k])
    ensures AddPart(Entry(attrs, k), sofar) == Ok(sofar[k := attrs[k]])
  {
    EntryTrimmed(attrs, k);
    EntryRead(attrs, k);
    TrimTrims(Entry(attrs, k));
    TrimTrims(k);
    TrimTrims(attrs[k]);
    hide TrimSpace, Entry, Trimmed, KeyValue;
  }

  function Chosen(attrs: Attributes, keys: seq<string>): Attributes
    requires forall k <- keys :: k in attrs
  {
    map k | k in keys :: attrs[k]
  }

  lemma ChosenCons(attrs: Attributes, keys: seq<string>, sofar: Attributes)
    requires keys != [] && forall k <- keys :: k in attrs
    ensures sofar[keys[0] := attrs[keys[0]]] + Chosen(attrs, keys[1..]) == sofar + Chosen(attrs, keys)
  {
  }

  lemma {:induction false} ReadEntries(attrs: Attributes, keys: seq<string>, sofar: Attributes)
    requires CleanKeys(attrs, keys)
    ensures AddParts(Entries(attrs, keys), sofar) == Ok(sofar + Chosen(attrs, keys))
    decreases |keys|
  {
    hide Entry, Trimmed, AddPart;
    if keys == [] {
      assert sofar + Chosen(attrs, keys) == sofar;
    } else {
      ReadEntry(attrs, keys[0], sofar);
      ReadEntries(attrs, keys[1..], sofar[keys[0] := attrs[keys[0]]]);
      assert Entries(attrs, keys)[1..] == Entries(attrs, keys[1..]);
      ChosenCons(attrs, keys, sofar);
    }
  }

  lemma {:induction false} TrimKeepsInk(s: string)
    requires s != "" && !IsSpace(s[0])
    ensures TrimSpace(s) != ""
  {
    if |s| > 1 && IsSpace(s[|s| - 1]) {
      TrimKeepsInk(s[..|s| - 1]);
    }
  }

  lemma PrintedInk(attrs: Attributes, keys: seq<string>)
    requires KeyList(attrs, keys) && keys != []
    ensures TrimSpace(PrintKeys(attrs, keys)) != ""
  {
    EscapedNoCut(keys[0]);
    assert Entry(attrs, keys[0])[0] == Escape(keys[0])[0] && PrintKeys(attrs, keys)[0] == Entry(attrs, keys[0])[0];
    hide TrimSpace, Entry, NoCut, PrintKeys, Escape;
    TrimKeepsInk(PrintKeys(attrs, keys));
  }

  lemma CleanPrintable(attrs: Attributes)
    requires CleanAttributes(attrs)
    ensures PrintableKeys(attrs) == attrs.Keys && CleanKeys(attrs, SortedList(attrs.Keys))
  {
    forall k | k in attrs
      ensures TrimSpace(k) != ""
    {
      TrimTrims(k);
    }
    var keys := SortedList(attrs.Keys);
    assert forall i | 0 <= i < |keys| :: keys[i] in keys;
  }

  /** Distinct entries are read back into the same map. */
  lemma SurvivesIf(attrs: Attributes)
    requires CleanAttributes(attrs) && OnlyLastEndsInBackslash(attrs)
    ensures Parse(Print(attrs)) == Ok(attrs)
  {
    CleanPrintable(attrs);
    var keys := SortedList(attrs.Keys);
    if keys == [] {
      assert |attrs| == 0;
      assert attrs == map[];
    } else {
      LastOnly(attrs, keys);
      assert map[] + Chosen(attrs, keys) == attrs;
      PrintedReads(attrs, keys);
    }
  }

  lemma PrintedReads(attrs: Attributes, keys: seq<string>)
    requires keys == SortedList(PrintableKeys(attrs)) && keys != [] && CleanKeys(attrs, keys)
    requires forall i | 0 <= i < |keys| - 1 :: !EndsInBackslash(attrs[keys[i]])
    ensures Parse(Print(attrs)) == Ok(map[] + Chosen(attrs, keys))
  {
    assert KeyList(attrs, keys);
    hide AddParts, Parts, PrintKeys, TrimSpace, Entries, Chosen, CleanKeys, KeyList, PrintableKeys, EndsInBackslash;
    PrintedInk(attrs, keys);
    PrintedCuts(attrs, keys);
    ReadEntries(attrs, keys, map[]);
  }

  lemma LastOnly(attrs: Attributes, keys: seq<string>)
    requires Ascending(keys) && forall y :: y in keys <==> y in attrs
    ensures OnlyLastEndsInBackslash(attrs) <==> forall i | 0 <= i < |keys| - 1 :: !EndsInBackslash(attrs[keys[i]])
  {
    hide EndsInBackslash, Less;
    assert forall i | 0 <= i < |keys| :: keys[i] in keys;
    if OnlyLastEndsInBackslash(attrs) {
      forall i | 0 <= i < |keys| - 1
        ensures !EndsInBackslash(attrs[keys[i]])
      {
        assert Less(keys[i], keys[i + 1]);
      }
    }
    forall k, l | k in attrs && l in attrs && Less(k, l)
      ensures exists i :: 0 <= i < |keys| - 1 && keys[i] == k
    {
      var i :| 0 <= i < |keys| && keys[i] == k;
      var j :| 0 <= j < |keys| && keys[j] == l;
      LessIsStrict(k, l);
      assert i < j;
    }
  }

  lemma SurvivesOnlyIf(attrs: Attributes)
    requires Parse(Print(attrs)) == Ok(attrs)
    ensures CleanAttributes(attrs) && OnlyLastEndsInBackslash(attrs)
  {
    ParsedIsClean(Print(attrs));
    CleanPrintable(attrs);
    var keys := SortedList(attrs.Keys);
    LastOnly(attrs, keys);
    if keys != [] {
      PrintedInk(attrs, keys);
      CutsLost(attrs, keys, "");
      AddPartsClean(Parts(Print(attrs), false, ""), map[]);
      assert |keys| == |attrs|;
    }
  }

  /**
    Parsing the printed text gives the map back exactly if its keys are trimmed and not empty, its
    values are trimmed, and no value but the one of the greatest key ends in a backslash.
  */
  lemma RoundTrip(attrs: Attributes)
    ensures Parse(Print(attrs)) == Ok(attrs) <==> CleanAttributes(attrs) && OnlyLastEndsInBackslash(attrs)
  {
    hide *;
    if Parse(Print(attrs)) == Ok(attrs) {
      SurvivesOnlyIf(attrs);
    }
    if CleanAttributes(attrs) && OnlyLastEndsInBackslash(attrs) {
      SurvivesIf(attrs);
    }
  }

  /** For one: a value that ends in a backslash, and is not printed last, is not read back. */
  lemma BackslashLost()
    ensures var attrs := map["a" := "x\\", "b" := "y"];
            CleanAttributes(attrs) && Parse(Print(attrs)) != Ok(attrs)
  {
    var attrs := map["a" := "x\\", "b" := "y"];
    assert Less("a", "b") && EndsInBackslash("x\\");
    assert Trimmed("a") && Trimmed("b") && Trimmed("x\\") && Trimmed("y");
    hide Less, EndsInBackslash, Trimmed, Parse, Print;
    assert "a" in attrs && "b" in attrs;
    assert !OnlyLastEndsInBackslash(attrs) && CleanAttributes(attrs);
    RoundTrip(attrs);
  }

  // ----- Updating -----

  const VERSION_KEY := "service.version"
  const COMMIT_KEY := "service.commit.sha"

  predicate IsExpansion(attrs: Attributes, key: string) {
    key in attrs && "$(" <= attrs[key] && attrs[key][|attrs[key]| - 1] == ')'
  }

  /** The value is kept when it is a `$(...)` that will be expanded. */
  predicate Keeps(attrs: Attributes, key: string, isExpansionSupported: bool) {
    isExpansionSupported && IsExpansion(attrs, key)
  }

  function Updated(attrs: Attributes, version: string, sha: string, isExpansionSupported: bool): Attributes {
    attrs + (if Keeps(attrs, VERSION_KEY, isExpansionSupported) then map[] else map[VERSION_KEY := version])
    + (if Keeps(attrs, COMMIT_KEY, isExpansionSupported) then map[] else map[COMMIT_KEY := sha])
  }

  ghost function Update(input: string, version: string, sha: string, isExpansionSupported: bool): string {
    match Parse(input)
    case Err(_) => input
    case Ok(attrs) => Print(Updated(attrs, version, sha, isExpansionSupported))
  }

  method UpdateResourceAttributes(input: string, version: string, sha: string, isExpansionSupported: bool)
    returns (output: string)
    ensures output == Update(input, version, sha, isExpansionSupported)
  {
    hide Parse, Print;
    var parsed := ParseResourceAttributes(input);
    if parsed.Err? {
      return input;
    }
    var result := parsed.value;
    if !isExpansionSupported || !IsExpansion(result, VERSION_KEY) {
      result := result[VERSION_KEY := version];
    }
    if !isExpansionSupported || !IsExpansion(result, COMMIT_KEY) {
      result := result[COMMIT_KEY := sha];
    }
    assert result == Updated(parsed.value, version, sha, isExpansionSupported);
    output := PrintAttributes(result);
  }

  /** Each of the two attributes is the new one unless it was kept, and every other one is as it was. */
  lemma UpdatedSets(before: Attributes, version: string, sha: string, isExpansionSupported: bool)
    ensures var after := Updated(before, version, sha, isExpansionSupported);
            && after.Keys == before.Keys + {VERSION_KEY, COMMIT_KEY}
            && (forall k | k in before && k != VERSION_KEY && k != COMMIT_KEY :: after[k] == before[k])
            && after[VERSION_KEY]
            == (if Keeps(before, VERSION_KEY, isExpansionSupported) then before[VERSION_KEY] else version)
            && after[COMMIT_KEY] == (if Keeps(before, COMMIT_KEY, isExpansionSupported) then before[COMMIT_KEY] else sha)
  {
  }

  lemma UpdatedIsClean(before: Attributes, version: string, sha: string, isExpansionSupported: bool)
    requires CleanAttributes(before)
    ensures CleanAttributes(Updated(before, version, sha, isExpansionSupported)) <==>
            (Keeps(before, VERSION_KEY, isExpansionSupported) || Trimmed(version))
            && (Keeps(before, COMMIT_KEY, isExpansionSupported) || Trimmed(sha))
  {
    UpdatedSets(before, version, sha, isExpansionSupported);
    assert Keeps(before, VERSION_KEY, isExpansionSupported) ==> VERSION_KEY in before;
    assert Keeps(before, COMMIT_KEY, isExpansionSupported) ==> COMMIT_KEY in before;
    hide Keeps, Updated;
    assert Trimmed(VERSION_KEY) && Trimmed(COMMIT_KEY) && VERSION_KEY != "" && COMMIT_KEY != "";
    hide Trimmed;
    var after := Updated(before, version, sha, isExpansionSupported);
    assert forall k | k in after :: k == VERSION_KEY || k == COMMIT_KEY || (k in before && after[k] == before[k]);
    assert VERSION_KEY in after && COMMIT_KEY in after;
  }

  /** The version and commit written are trimmed, and no value but the last printed one ends in a backslash. */
  predicate ReadsBack(before: Attributes, version: string, sha: string, isExpansionSupported: bool) {
    && (Keeps(before, VERSION_KEY, isExpansionSupported) || Trimmed(version))
    && (Keeps(before, COMMIT_KEY, isExpansionSupported) || Trimmed(sha))
    && OnlyLastEndsInBackslash(Updated(before, version, sha, isExpansionSupported))
  }

  /** Exactly then the output reads as the updated map. */
  lemma UpdateReads(input: string, version: string, sha: string, isExpansionSupported: bool)
    requires Parse(input).Ok?
    ensures var before := Parse(input).value;
            Parse(Update(input, version, sha, isExpansionSupported))
            == Ok(Updated(before, version, sha, isExpansionSupported))
            <==> ReadsBack(before, version, sha, isExpansionSupported)
  {
    hide Parse, Print, Keeps, Trimmed, Updated, CleanAttributes, OnlyLastEndsInBackslash;
    ParsedIsClean(input);
    var before := Parse(input).value;
    UpdatedIsClean(before, version, sha, isExpansionSupported);
    RoundTrip(Updated(before, version, sha, isExpansionSupported));
  }
}
