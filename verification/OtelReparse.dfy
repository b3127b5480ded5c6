/**
  What parsing makes of any printed map with clean keys, whatever its values: which entries are
  swallowed by the one before them, and what each value becomes. Printing itself is injective.
*/
module OtelReparse {
  import opened Text
  import opened Ordering
  import opened Otel
  import opened OtelRoundTrip

  // ----- Trimming and unescaping what was printed -----

  lemma {:induction false} TrimRightPast(a: string, b: string)
    requires a != "" && !IsSpace(a[|a| - 1])
    ensures TrimRight(a + b) == a + TrimRight(b)
    decreases |b|
  {
    if b == "" {
      assert a + b == a;
    } else {
      var n := |b| - 1;
      assert (a + b)[|a + b| - 1] == b[n] && (a + b)[..|a + b| - 1] == a + b[..n];
      if IsSpace(b[n]) {
        TrimRightPast(a, b[..n]);
      }
    }
  }

  /** The part with the ink, and the rest of a text. */
  lemma {:induction false} TrimRightSplits(s: string)
    ensures var t := TrimRight(s); |t| <= |s| && s[..|t|] == t && (forall i | |t| <= i < |s| :: IsSpace(s[i]))
    ensures TrimRight(s) != "" ==> !IsSpace(TrimRight(s)[|TrimRight(s)| - 1])
  {
    if s != "" && IsSpace(s[|s| - 1]) {
      TrimRightSplits(s[..|s| - 1]);
    }
  }

  lemma {:induction false} EscapeSplits(a: string, b: string)
    ensures Escape(a + b) == Escape(a) + Escape(b)
  {
    if a == "" {
      assert a + b == b;
    } else {
      EscapeSplits(a[1..], b);
      assert (a + b)[1..] == a[1..] + b;
      assert EscapeChar(a[0]) + (Escape(a[1..]) + Escape(b)) == (EscapeChar(a[0]) + Escape(a[1..])) + Escape(b);
    }
  }

  lemma {:induction false} EscapeSpaces(s: string)
    requires forall i | 0 <= i < |s| :: IsSpace(s[i])
    ensures Escape(s) == s
  {
    if s != "" {
      EscapeSpaces(s[1..]);
      assert Escape(s) == [s[0]] + s[1..];
    }
  }

  lemma {:induction false} TrimSpaces(s: string)
    requires forall i | 0 <= i < |s| :: IsSpace(s[i])
    ensures TrimRight(s) == ""
  {
    if s != "" {
      TrimSpaces(s[..|s| - 1]);
    }
  }

  /** Trimming at the end commutes with escaping. */
  lemma TrimRightEscape(s: string)
    ensures TrimRight(Escape(s)) == Escape(TrimRight(s))
  {
    TrimRightSplits(s);
    hide *;
    var t := TrimRight(s);
    var spaces := s[|t|..];
    assert s == t + spaces;
    EscapeSplits(t, spaces);
    EscapeSpaces(spaces);
    TrimsSpaces(t, spaces);
  }

  lemma TrimsSpaces(t: string, spaces: string)
    requires t != "" ==> !IsSpace(t[|t| - 1])
    requires forall i | 0 <= i < |spaces| :: IsSpace(spaces[i])
    ensures TrimRight(Escape(t) + spaces) == Escape(t)
  {
    TrimSpaces(spaces);
    assert Escape("") == "";
    EscapedNoCut(t);
    hide *;
    if t == "" {
      assert "" + spaces == spaces;
    } else {
      TrimRightPast(Escape(t), spaces);
      assert Escape(t) + "" == Escape(t);
    }
  }

  lemma {:induction false} UnescapePast(s: string, rest: string)
    ensures Unescape(Escape(s) + rest, false) == s + Unescape(rest, false)
  {
    if s == "" {
      assert Escape(s) + rest == rest;
    } else {
      EscapedCons(s, rest);
      UnescapePast(s[1..], rest);
      hide Escape;
      assert s == [s[0]] + s[1..];
      Assoc([s[0]], s[1..], Unescape(rest, false));
    }
  }

  lemma {:induction false} TrimSpaceOfRight(s: string)
    ensures TrimSpace(TrimRight(s)) == TrimSpace(s)
  {
    if s != "" && IsSpace(s[0]) {
      TrimRightSplits(s);
      if TrimRight(s) == "" {
        EscapeSpaces(s);
        AllSpaces(s);
      } else {
        TrimRightHead(s);
        TrimSpaceOfRight(s[1..]);
      }
    } else {
      TrimRightSplits(s);
      TrimRightAgain(s);
    }
  }

  lemma {:induction false} AllSpaces(s: string)
    requires forall i | 0 <= i < |s| :: IsSpace(s[i])
    ensures TrimLeft(s) == ""
  {
    if s != "" {
      AllSpaces(s[1..]);
    }
  }

  lemma EndsInInk(s: string)
    requires s != "" && !IsSpace(s[|s| - 1])
    ensures TrimRight(s) == s
  {
  }

  lemma {:induction false} TrimRightHead(s: string)
    requires s != "" && TrimRight(s) != ""
    ensures TrimRight(s)[0] == s[0] && (TrimRight(s)[1..] == TrimRight(s[1..]))
  {
    var rest := s[1..];
    assert rest != "" ==> rest[|rest| - 1] == s[|s| - 1];
    if IsSpace(s[|s| - 1]) {
      TrimRightHead(s[..|s| - 1]);
      assert s[..|s| - 1][1..] == rest[..|rest| - 1];
    } else {
      EndsInInk(s);
      if rest != "" {
        EndsInInk(rest);
      }
    }
  }

  lemma {:induction false} TrimRightAgain(s: string)
    ensures TrimRight(TrimRight(s)) == TrimRight(s)
  {
    TrimRightSplits(s);
  }

  // ----- Printed text falls into groups of entries -----

  /** Entries cut off together: the first one's key, and what follows its entry in the same part. */
  datatype Group = Group(head: string, suffix: string)

  function GroupText(attrs: Attributes, g: Group): string
    requires g.head in attrs
  {
    Entry(attrs, g.head) + g.suffix
  }

  /** An entry whose value ends in a backslash takes the next group into its own. */
  function Groups(attrs: Attributes, keys: seq<string>): (gs: seq<Group>)
    requires KeyList(attrs, keys) && keys != []
    ensures 0 < |gs| <= |keys| && gs[0].head == keys[0] && forall g <- gs :: g.head in attrs
  {
    if |keys| == 1 then [Group(keys[0], "")]
    else
      var rest := Groups(attrs, keys[1..]);
      if EndsInBackslash(attrs[keys[0]]) then [Group(keys[0], "," + GroupText(attrs, rest[0]))] + rest[1..]
      else [Group(keys[0], "")] + rest
  }

  function Texts(attrs: Attributes, gs: seq<Group>): seq<string>
    requires forall g <- gs :: g.head in attrs
  {
    seq(|gs|, i requires 0 <= i < |gs| => GroupText(attrs, gs[i]))
  }

  lemma Swallows(attrs: Attributes, keys: seq<string>, current: string)
    requires KeyList(attrs, keys) && |keys| > 1 && EndsInBackslash(attrs[keys[0]])
    ensures var gs, rest := Groups(attrs, keys), Groups(attrs, keys[1..]);
            && gs[1..] == rest[1..]
            && current + GroupText(attrs, gs[0]) == (current + Entry(attrs, keys[0]) + ",") + GroupText(attrs, rest[0])
  {
    hide Entry, Trimmed;
    var e, text := Entry(attrs, keys[0]), GroupText(attrs, Groups(attrs, keys[1..])[0]);
    assert GroupText(attrs, Groups(attrs, keys)[0]) == e + ("," + text);
    hide *;
    assert current + (e + ("," + text)) == (current + e + ",") + text;
  }

  lemma TextsCons(attrs: Attributes, gs: seq<Group>)
    requires gs != [] && forall g <- gs :: g.head in attrs
    ensures Texts(attrs, gs) == [GroupText(attrs, gs[0])] + Texts(attrs, gs[1..])
  {
    hide GroupText;
  }

  lemma StandsAlone(attrs: Attributes, keys: seq<string>)
    requires KeyList(attrs, keys) && |keys| > 1 && !EndsInBackslash(attrs[keys[0]])
    ensures var gs, rest := Groups(attrs, keys), Groups(attrs, keys[1..]);
            && gs[1..] == rest && GroupText(attrs, gs[0]) == Entry(attrs, keys[0])
            && Texts(attrs, rest) == [GroupText(attrs, rest[0])] + Texts(attrs, rest[1..])
  {
    hide Entry, Trimmed, Texts;
    TextsCons(attrs, Groups(attrs, keys[1..]));
  }

  /** The parts of a printed map are its groups. */
  lemma {:induction false} PartsAreGroups(attrs: Attributes, keys: seq<string>, current: string)
    requires KeyList(attrs, keys) && keys != []
    ensures var gs := Groups(attrs, keys);
            Parts(PrintKeys(attrs, keys), false, current)
            == [current + GroupText(attrs, gs[0])] + Texts(attrs, gs[1..])
    decreases |keys|
  {
    if |keys| == 1 {
      hide Entry, Trimmed;
      assert keys == [keys[0]] && Entry(attrs, keys[0]) + "" == Entry(attrs, keys[0]);
      LastEntry(attrs, keys[0], current);
    } else {
      assert KeyList(attrs, keys[1..]) && keys[1..] != [];
      NextEntry(attrs, keys, current);
      if EndsInBackslash(attrs[keys[0]]) {
        Swallows(attrs, keys, current);
        hide *;
        PartsAreGroups(attrs, keys[1..], current + Entry(attrs, keys[0]) + ",");
      } else {
        StandsAlone(attrs, keys);
        hide *;
        PartsAreGroups(attrs, keys[1..], "");
        assert forall t: string :: "" + t == t;
      }
    }
  }

  // ----- What a group is read as -----

  function GroupValue(attrs: Attributes, g: Group): string
    requires g.head in attrs
  {
    TrimSpace(attrs[g.head] + Unescape(TrimRight(g.suffix), false))
  }

  predicate IsSuffix(s: string) {
    s != "" ==> s[0] == ','
  }

  lemma StartsInInk(k: string, rest: string)
    requires k != "" && !IsSpace(k[0])
    ensures TrimLeft(Escape(k) + rest) == Escape(k) + rest
  {
    EscapedNoCut(k);
    hide Escape, NoCut;
    assert (Escape(k) + rest)[0] == Escape(k)[0];
  }

  lemma TrimmedAlone(k: string, v: string)
    requires k != "" && Trimmed(k)
    ensures TrimSpace(Escape(k) + "=" + Escape(v)) == Escape(k) + "=" + Escape(TrimRight(v))
  {
    StartsInInk(k, "=" + Escape(v));
    assert Escape(k) + "=" + Escape(v) == Escape(k) + ("=" + Escape(v));
    hide Escape, TrimRight, TrimLeft;
    TrimRightPast(Escape(k) + "=", Escape(v));
    TrimRightEscape(v);
  }

  lemma TrimmedMore(k: string, v: string, suffix: string)
    requires k != "" && Trimmed(k) && suffix != "" && suffix[0] == ','
    ensures TrimSpace(Escape(k) + "=" + Escape(v) + suffix) == Escape(k) + "=" + Escape(v) + TrimRight(suffix)
  {
    StartsInInk(k, "=" + Escape(v) + suffix);
    var front := Escape(k) + "=" + Escape(v);
    assert front + suffix == Escape(k) + ("=" + Escape(v) + suffix);
    hide Escape, TrimRight, TrimLeft;
    assert suffix == "," + suffix[1..] && front + suffix == (front + ",") + suffix[1..];
    TrimRightPast(front + ",", suffix[1..]);
    TrimRightPast(",", suffix[1..]);
    Assoc(front, ",", TrimRight(suffix[1..]));
  }

  lemma KeyRead(k: string, y: string)
    ensures KeyValue(Escape(k) + "=" + y, false, "") == Some((k, Unescape(y, false)))
  {
    assert Escape(k) + "=" + y == Escape(k) + ("=" + y);
    KeyOfEscaped(k, "=" + y, "");
    assert "" + k == k && ("=" + y)[1..] == y;
  }

  /** A group is read as its first key with the trimmed rest of its text. */
  lemma ReadGroup(attrs: Attributes, g: Group, sofar: Attributes)
    requires g.head in attrs && g.head != "" && Trimmed(g.head) && IsSuffix(g.suffix)
    ensures AddPart(GroupText(attrs, g), sofar) == Ok(sofar[g.head := GroupValue(attrs, g)])
  {
    var k, v := g.head, attrs[g.head];
    TrimTrims(k);
    if g.suffix == "" {
      assert GroupText(attrs, g) == Escape(k) + "=" + Escape(v);
      TrimmedAlone(k, v);
      KeyRead(k, Escape(TrimRight(v)));
      UnescapeEscape(TrimRight(v));
      TrimSpaceOfRight(v);
      assert TrimRight("") == "" && Unescape("", false) == "" && v + "" == v;
    } else {
      var y := Escape(v) + TrimRight(g.suffix);
      assert GroupText(attrs, g) == Escape(k) + "=" + Escape(v) + g.suffix;
      TrimmedMore(k, v, g.suffix);
      Assoc(Escape(k) + "=", Escape(v), TrimRight(g.suffix));
      KeyRead(k, y);
      UnescapePast(v, TrimRight(g.suffix));
    }
    assert forall t: string :: |Escape(k) + "=" + t| > 0;
    hide TrimSpace, Escape, Unescape, KeyValue, Trimmed, TrimRight;
  }

  function Read(attrs: Attributes, gs: seq<Group>, sofar: Attributes): Attributes
    requires forall g <- gs :: g.head in attrs
  {
    if gs == [] then sofar else Read(attrs, gs[1..], sofar[gs[0].head := GroupValue(attrs, gs[0])])
  }

  predicate CleanGroups(attrs: Attributes, gs: seq<Group>) {
    forall i | 0 <= i < |gs| ::
      gs[i].head in attrs && gs[i].head != "" && Trimmed(gs[i].head) && IsSuffix(gs[i].suffix)
  }

  lemma {:induction false} ReadGroups(attrs: Attributes, gs: seq<Group>, sofar: Attributes)
    requires CleanGroups(attrs, gs)
    ensures AddParts(Texts(attrs, gs), sofar) == Ok(Read(attrs, gs, sofar))
    decreases |gs|
  {
    hide GroupText, GroupValue, Trimmed, AddPart;
    if gs != [] {
      ReadGroup(attrs, gs[0], sofar);
      ReadGroups(attrs, gs[1..], sofar[gs[0].head := GroupValue(attrs, gs[0])]);
      assert Texts(attrs, gs)[1..] == Texts(attrs, gs[1..]);
    }
  }

  predicate Heads(gs: seq<Group>, k: string) {
    exists j :: 0 <= j < |gs| && gs[j].head == k
  }

  predicate DistinctHeads(gs: seq<Group>) {
    forall i, j | 0 <= i < j < |gs| :: gs[i].head != gs[j].head
  }

  lemma {:induction false} ReadKeys(attrs: Attributes, gs: seq<Group>, sofar: Attributes, k: string)
    requires forall g <- gs :: g.head in attrs
    ensures k in Read(attrs, gs, sofar) <==> k in sofar || Heads(gs, k)
    ensures k in sofar && !Heads(gs, k) ==> Read(attrs, gs, sofar)[k] == sofar[k]
    decreases |gs|
  {
    hide GroupValue;
    if gs != [] {
      ReadKeys(attrs, gs[1..], sofar[gs[0].head := GroupValue(attrs, gs[0])], k);
      HeadsCons(gs, k);
    }
  }

  lemma HeadsCons(gs: seq<Group>, k: string)
    requires gs != []
    ensures Heads(gs, k) <==> gs[0].head == k || Heads(gs[1..], k)
  {
    assert gs == [gs[0]] + gs[1..];
    if Heads(gs[1..], k) {
      var j :| 0 <= j < |gs[1..]| && gs[1..][j].head == k;
      assert gs[j + 1].head == k;
    }
    if j :| 0 <= j < |gs| && gs[j].head == k {
      assert j > 0 ==> gs[1..][j - 1].head == k;
    }
  }

  lemma {:induction false} ReadAt(attrs: Attributes, gs: seq<Group>, sofar: Attributes, j: nat)
    requires (forall g <- gs :: g.head in attrs) && DistinctHeads(gs) && j < |gs|
    ensures gs[j].head in Read(attrs, gs, sofar) && Read(attrs, gs, sofar)[gs[j].head] == GroupValue(attrs, gs[j])
    decreases |gs|
  {
    hide GroupValue;
    var next := sofar[gs[0].head := GroupValue(attrs, gs[0])];
    if j == 0 {
      ReadKeys(attrs, gs[1..], next, gs[0].head);
      assert !Heads(gs[1..], gs[0].head);
    } else {
      ReadAt(attrs, gs[1..], next, j - 1);
    }
  }

  // ----- Which keys are read, for any clean keys -----

  predicate Distinct(keys: seq<string>) {
    forall i, j | 0 <= i < j < |keys| :: keys[i] != keys[j]
  }

  /** The value at `i` takes in the comma after it, and with it the next entry. */
  predicate Swallowing(attrs: Attributes, keys: seq<string>, i: nat)
    requires KeyList(attrs, keys)
  {
    i < |keys| - 1 && EndsInBackslash(attrs[keys[i]])
  }

  lemma {:induction false} HeadsAreKeys(attrs: Attributes, keys: seq<string>)
    requires KeyList(attrs, keys) && keys != []
    ensures forall g <- Groups(attrs, keys) :: g.head in keys && IsSuffix(g.suffix)
    decreases |keys|
  {
    hide Trimmed, EndsInBackslash, Entry;
    if |keys| > 1 {
      HeadsAreKeys(attrs, keys[1..]);
      assert forall k | k in keys[1..] :: k in keys;
    }
  }

  lemma DistinctTail(keys: seq<string>)
    requires Distinct(keys) && keys != []
    ensures keys[0] !in keys[1..] && Distinct(keys[1..])
  {
  }

  lemma HeadBefore(g: Group, rest: seq<Group>)
    requires DistinctHeads(rest) && rest != [] && forall r <- rest :: r.head != g.head
    ensures DistinctHeads([g] + rest) && DistinctHeads([g] + rest[1..])
  {
    assert forall j | 0 <= j < |rest| :: rest[j] in rest;
  }

  lemma {:induction false} HeadsDiffer(attrs: Attributes, keys: seq<string>)
    requires KeyList(attrs, keys) && keys != [] && Distinct(keys)
    ensures DistinctHeads(Groups(attrs, keys))
    decreases |keys|
  {
    hide GroupText, Trimmed, EndsInBackslash, Distinct, IsSuffix;
    if |keys| > 1 {
      var gs, rest := Groups(attrs, keys), Groups(attrs, keys[1..]);
      DistinctTail(keys);
      HeadsDiffer(attrs, keys[1..]);
      HeadsAreKeys(attrs, keys[1..]);
      assert gs == [gs[0]] + rest || gs == [gs[0]] + rest[1..];
      hide Groups, DistinctHeads;
      HeadBefore(gs[0], rest);
    }
  }

  lemma GroupsShape(attrs: Attributes, keys: seq<string>)
    requires KeyList(attrs, keys) && keys != [] && Distinct(keys)
    ensures CleanGroups(attrs, Groups(attrs, keys)) && DistinctHeads(Groups(attrs, keys))
    ensures forall k | Heads(Groups(attrs, keys), k) :: k in keys
  {
    HeadsDiffer(attrs, keys);
    HeadsAreKeys(attrs, keys);
    hide Groups, Trimmed, Distinct, DistinctHeads, IsSuffix;
    assert forall g <- Groups(attrs, keys) :: g.head in keys;
  }

  lemma {:induction false} SwallowedIsNoHead(attrs: Attributes, keys: seq<string>, i: nat)
    requires KeyList(attrs, keys) && i < |keys| && Distinct(keys)
    ensures Heads(Groups(attrs, keys), keys[i]) <==> i == 0 || !Swallowing(attrs, keys, i - 1)
    decreases |keys|
  {
    var gs := Groups(attrs, keys);
    HeadsCons(gs, keys[i]);
    if |keys| > 1 && i > 0 {
      var rest := Groups(attrs, keys[1..]);
      hide GroupText, Trimmed, EndsInBackslash;
      SwallowedIsNoHead(attrs, keys[1..], i - 1);
      GroupsShape(attrs, keys[1..]);
      HeadsCons(rest, keys[i]);
      assert i > 1 ==> (Swallowing(attrs, keys[1..], i - 2) <==> Swallowing(attrs, keys, i - 1));
    }
  }

  /** What is printed after the entry at `i` up to the next cut. */
  function Follows(attrs: Attributes, keys: seq<string>, i: nat): (s: string)
    requires KeyList(attrs, keys) && i < |keys|
    ensures s == "" <==> !Swallowing(attrs, keys, i)
    decreases |keys| - i
  {
    if Swallowing(attrs, keys, i) then "," + (Entry(attrs, keys[i + 1]) + Follows(attrs, keys, i + 1)) else ""
  }

  lemma {:induction false} FollowsTail(attrs: Attributes, keys: seq<string>, i: nat)
    requires KeyList(attrs, keys) && i + 1 < |keys|
    ensures Follows(attrs, keys[1..], i) == Follows(attrs, keys, i + 1)
    decreases |keys| - i
  {
    hide EndsInBackslash, Entry;
    if Swallowing(attrs, keys, i + 1) {
      FollowsTail(attrs, keys, i + 1);
    }
  }

  lemma {:induction false} GroupAt(attrs: Attributes, keys: seq<string>, i: nat) returns (j: nat)
    requires KeyList(attrs, keys) && i < |keys| && Distinct(keys)
    requires i == 0 || !Swallowing(attrs, keys, i - 1)
    ensures j < |Groups(attrs, keys)| && Groups(attrs, keys)[j] == Group(keys[i], Follows(attrs, keys, i))
    ensures i == 0 ==> j == 0
    decreases |keys|
  {
    hide EndsInBackslash, Entry, Trimmed;
    if |keys| == 1 {
      j := 0;
    } else if i == 0 {
      j := GroupAt(attrs, keys[1..], 0);
      FollowsTail(attrs, keys, 0);
      j := 0;
    } else {
      assert i > 1 ==> !Swallowing(attrs, keys[1..], i - 2);
      j := GroupAt(attrs, keys[1..], i - 1);
      FollowsTail(attrs, keys, i - 1);
      if !EndsInBackslash(attrs[keys[0]]) {
        j := j + 1;
      } else {
        assert j != 0;
      }
    }
  }

  /** The map a printed one is read as. */
  function Reread(attrs: Attributes, keys: seq<string>): Attributes
    requires KeyList(attrs, keys) && keys != []
  {
    Read(attrs, Groups(attrs, keys), map[])
  }

  /** Keys as parsing leaves them; the values may be any. */
  predicate CleanKeyed(attrs: Attributes) {
    forall k | k in attrs :: k != "" && Trimmed(k)
  }

  lemma SortedKeys(attrs: Attributes, keys: seq<string>)
    requires CleanKeyed(attrs) && attrs != map[] && keys == SortedList(attrs.Keys)
    ensures KeyList(attrs, keys) && keys != [] && Distinct(keys) && PrintableKeys(attrs) == attrs.Keys
  {
    forall k | k in attrs
      ensures TrimSpace(k) != ""
    {
      TrimTrims(k);
    }
    assert forall i | 0 <= i < |keys| :: keys[i] in keys;
    forall i, j | 0 <= i < j < |keys|
      ensures keys[i] != keys[j]
    {
      LessIsStrict(keys[i], keys[j]);
    }
    var k :| k in attrs;
    assert k in keys;
  }

  lemma PrintedParts(attrs: Attributes, keys: seq<string>)
    requires KeyList(attrs, keys) && keys != []
    ensures Parts(PrintKeys(attrs, keys), false, "") == Texts(attrs, Groups(attrs, keys))
  {
    var gs := Groups(attrs, keys);
    PartsAreGroups(attrs, keys, "");
    hide PrintKeys, Groups, Parts, KeyList, GroupText, Texts;
    assert "" + GroupText(attrs, gs[0]) == GroupText(attrs, gs[0]);
    TextsCons(attrs, gs);
  }

  lemma PrintedRead(attrs: Attributes, keys: seq<string>)
    requires KeyList(attrs, keys) && keys != [] && Distinct(keys)
    ensures Parse(PrintKeys(attrs, keys)) == Ok(Reread(attrs, keys))
  {
    PrintedParts(attrs, keys);
    GroupsShape(attrs, keys);
    PrintedInk(attrs, keys);
    hide TrimSpace, PrintKeys, Groups, Parts, AddParts, Texts, Read, KeyList, Distinct, DistinctHeads, CleanGroups;
    ReadGroups(attrs, Groups(attrs, keys), map[]);
  }

  /** A printed map is always read again, whatever its values. */
  lemma Reparsed(attrs: Attributes, keys: seq<string>)
    requires CleanKeyed(attrs) && attrs != map[] && keys == SortedList(attrs.Keys)
    ensures KeyList(attrs, keys) && keys != [] && Distinct(keys)
    ensures Parse(Print(attrs)) == Ok(Reread(attrs, keys))
  {
    SortedKeys(attrs, keys);
    assert Print(attrs) == PrintKeys(attrs, keys);
    hide *;
    PrintedRead(attrs, keys);
  }

  /** A key is read unless the value before it takes its entry in; no other key is. */
  lemma RereadKey(attrs: Attributes, keys: seq<string>, k: string)
    requires KeyList(attrs, keys) && keys != [] && Distinct(keys)
    ensures k in Reread(attrs, keys) ==> k in keys
    ensures forall i | 0 <= i < |keys| && keys[i] == k ::
              k in Reread(attrs, keys) <==> i == 0 || !Swallowing(attrs, keys, i - 1)
  {
    GroupsShape(attrs, keys);
    ReadKeys(attrs, Groups(attrs, keys), map[], k);
    hide Groups, Swallowing, Heads, Read;
    forall i | 0 <= i < |keys| && keys[i] == k
      ensures k in Reread(attrs, keys) <==> i == 0 || !Swallowing(attrs, keys, i - 1)
    {
      SwallowedIsNoHead(attrs, keys, i);
    }
  }

  /** Its value is the trimmed text up to the next cut, unescaped. */
  lemma RereadValue(attrs: Attributes, keys: seq<string>, i: nat)
    requires KeyList(attrs, keys) && i < |keys| && Distinct(keys) && (i == 0 || !Swallowing(attrs, keys, i - 1))
    ensures keys[i] in Reread(attrs, keys)
    ensures Reread(attrs, keys)[keys[i]]
            == TrimSpace(attrs[keys[i]] + Unescape(TrimRight(Follows(attrs, keys, i)), false))
  {
    GroupsShape(attrs, keys);
    var j := GroupAt(attrs, keys, i);
    ReadAt(attrs, Groups(attrs, keys), map[], j);
    hide Groups, Swallowing, Read, TrimSpace, Unescape;
  }

  /** A value that stands alone comes back trimmed. */
  lemma RereadAlone(attrs: Attributes, keys: seq<string>, i: nat)
    requires KeyList(attrs, keys) && i < |keys| && Distinct(keys) && (i == 0 || !Swallowing(attrs, keys, i - 1))
    requires !Swallowing(attrs, keys, i)
    ensures keys[i] in Reread(attrs, keys) && Reread(attrs, keys)[keys[i]] == TrimSpace(attrs[keys[i]])
  {
    RereadValue(attrs, keys, i);
    assert attrs[keys[i]] + "" == attrs[keys[i]];
  }

  lemma {:induction false} TrimSpaceLonger(v: string, c: char, rest: string)
    requires v != "" && !IsSpace(v[0]) && !IsSpace(c)
    ensures |TrimSpace(v + ([c] + rest))| > |v|
  {
    var front := v + [c];
    assert v + ([c] + rest) == front + rest;
    TrimRightPast(front, rest);
  }

  /** A trimmed value that takes in more does not come back. */
  lemma RereadLonger(attrs: Attributes, keys: seq<string>, i: nat)
    requires KeyList(attrs, keys) && i < |keys| && Distinct(keys) && Swallowing(attrs, keys, i)
    requires Trimmed(attrs[keys[i]]) && keys[i] in Reread(attrs, keys)
    ensures Reread(attrs, keys)[keys[i]] != attrs[keys[i]]
  {
    RereadKey(attrs, keys, keys[i]);
    RereadValue(attrs, keys, i);
    var v, s := attrs[keys[i]], Follows(attrs, keys, i);
    var rest := s[1..];
    assert s == "," + rest;
    TrimRightPast(",", rest);
    assert Unescape("," + TrimRight(rest), false) == [','] + Unescape(TrimRight(rest), false) by {
      assert ("," + TrimRight(rest))[1..] == TrimRight(rest);
    }
    TrimSpaceLonger(v, ',', Unescape(TrimRight(rest), false));
  }

  // ----- Printing is injective -----

  /** What follows an escaped text: nothing, or a separator. */
  predicate IsRest(s: string) {
    s != "" ==> s[0] == ',' || s[0] == '='
  }

  lemma {:induction false} EscapedPrefix(x: string, s: string, y: string, t: string)
    requires Escape(x) + s == Escape(y) + t && IsRest(s) && IsRest(t)
    ensures x == y && s == t
    decreases |x|
  {
    assert Escape("") + s == s && Escape("") + t == t;
    if x != "" {
      EscapedCons(x, s);
    }
    if y != "" {
      EscapedCons(y, t);
    }
    if x != "" && y != "" {
      hide Escape;
      EscapedPrefix(x[1..], s, y[1..], t);
      assert x == [x[0]] + x[1..] && y == [y[0]] + y[1..];
    }
  }

  /** The entries after the first, with the comma before them. */
  function Others(attrs: Attributes, keys: seq<string>): string
    requires keys != [] && forall k <- keys :: k in attrs
  {
    if |keys| == 1 then "" else "," + PrintKeys(attrs, keys[1..])
  }

  lemma FirstPrinted(attrs: Attributes, keys: seq<string>)
    requires keys != [] && forall k <- keys :: k in attrs
    ensures PrintKeys(attrs, keys) == Escape(keys[0]) + ("=" + (Escape(attrs[keys[0]]) + Others(attrs, keys)))
  {
    hide Escape;
  }

  lemma FirstInjective(a: Attributes, ks: seq<string>, b: Attributes, ls: seq<string>)
    requires ks != [] && ls != [] && (forall k <- ks :: k in a) && forall k <- ls :: k in b
    requires PrintKeys(a, ks) == PrintKeys(b, ls)
    ensures ks[0] == ls[0] && a[ks[0]] == b[ls[0]] && Others(a, ks) == Others(b, ls)
  {
    FirstPrinted(a, ks);
    FirstPrinted(b, ls);
    var s, t := Escape(a[ks[0]]) + Others(a, ks), Escape(b[ls[0]]) + Others(b, ls);
    assert ("=" + s)[1..] == s && ("=" + t)[1..] == t && IsRest(Others(a, ks)) && IsRest(Others(b, ls));
    hide Escape, PrintKeys, Others;
    EscapedPrefix(ks[0], "=" + s, ls[0], "=" + t);
    EscapedPrefix(a[ks[0]], Others(a, ks), b[ls[0]], Others(b, ls));
  }

  lemma {:induction false} KeysInjective(a: Attributes, ks: seq<string>, b: Attributes, ls: seq<string>)
    requires ks != [] && ls != [] && (forall k <- ks :: k in a) && forall k <- ls :: k in b
    requires PrintKeys(a, ks) == PrintKeys(b, ls)
    ensures ks == ls && forall i | 0 <= i < |ks| :: a[ks[i]] == b[ks[i]]
    decreases |ks|
  {
    FirstInjective(a, ks, b, ls);
    hide PrintKeys;
    if |ks| > 1 {
      assert Others(a, ks)[1..] == PrintKeys(a, ks[1..]);
      assert |ls| > 1 && Others(b, ls)[1..] == PrintKeys(b, ls[1..]);
      KeysInjective(a, ks[1..], b, ls[1..]);
      hide Others;
      assert ls == [ls[0]] + ls[1..] && ks == [ks[0]] + ks[1..];
    }
  }

  /** Different maps with clean keys are printed differently. */
  lemma PrintInjective(a: Attributes, b: Attributes)
    requires CleanKeyed(a) && CleanKeyed(b) && a != map[] && b != map[] && Print(a) == Print(b)
    ensures a == b
  {
    var ks, ls := SortedList(a.Keys), SortedList(b.Keys);
    SortedKeys(a, ks);
    SortedKeys(b, ls);
    hide KeyList, PrintKeys, PrintableKeys, Distinct, CleanKeyed;
    assert PrintKeys(a, ks) == PrintKeys(b, ls);
    KeysInjective(a, ks, b, ls);
    SameMap(a, b, ks);
  }

  lemma SameMap(a: Attributes, b: Attributes, ks: seq<string>)
    requires (forall k :: k in ks <==> k in a) && forall k :: k in ks <==> k in b
    requires forall i | 0 <= i < |ks| :: ks[i] in a && ks[i] in b && a[ks[i]] == b[ks[i]]
    ensures a == b
  {
    forall k | k in a
      ensures k in b && a[k] == b[k]
    {
      assert k in ks;
    }
    assert forall k | k in b :: k in ks;
  }
}
