/** The laws of parsing any text, by its stretches between cuts (otel/resource_attributes.go:13-43, 95-116). */
module OtelParses {
  import opened Text
  import opened Ordering
  import opened Otel
  import opened OtelRoundTrip
  import opened OtelPositions

  // ----- Trimming -----

  predicate AllSpace(s: string) {
    forall i | 0 <= i < |s| :: IsSpace(s[i])
  }

  lemma {:induction false} TrimLeftCuts(s: string) returns (i: nat)
    ensures i <= |s| && TrimLeft(s) == s[i..] && AllSpace(s[..i]) && (i < |s| ==> !IsSpace(s[i]))
  {
    if s != "" && IsSpace(s[0]) {
      var k := TrimLeftCuts(s[1..]);
      i := k + 1;
      assert s[1..][k..] == s[i..] && s[..i] == [s[0]] + s[1..][..k];
    } else {
      i := 0;
    }
  }

  lemma {:induction false} TrimRightCuts(s: string) returns (j: nat)
    ensures j <= |s| && TrimRight(s) == s[..j] && AllSpace(s[j..]) && (j > 0 ==> !IsSpace(s[j - 1]))
  {
    if s != "" && IsSpace(s[|s| - 1]) {
      var n := |s| - 1;
      j := TrimRightCuts(s[..n]);
      assert s[..n][..j] == s[..j] && s[j..] == s[..n][j..] + [s[n]];
    } else {
      j := |s|;
      assert s[..j] == s;
    }
  }

  /** Trimming cuts off all spaces at both ends and nothing else; what is left is empty or starts and ends with none. */
  lemma TrimCuts(s: string) returns (i: nat, j: nat)
    ensures i <= j <= |s| && TrimSpace(s) == s[i..j] && AllSpace(s[..i]) && AllSpace(s[j..])
    ensures i < j ==> !IsSpace(s[i]) && !IsSpace(s[j - 1])
  {
    i := TrimLeftCuts(s);
    var rest := s[i..];
    var k := TrimRightCuts(rest);
    j := i + k;
    assert rest[..k] == s[i..j] && rest[k..] == s[j..];
    hide AllSpace, IsSpace;
    assert k > 0 ==> rest[k - 1] == s[j - 1];
  }

  lemma BlankIfSpaces(s: string)
    ensures TrimSpace(s) == "" <==> AllSpace(s)
  {
    var i, j := TrimCuts(s);
    if i == j {
      assert s == s[..i] + s[j..];
    } else {
      assert !IsSpace(s[i]);
    }
  }

  // ----- Unescaping -----

  /** Every character is kept but a backslash that is not escaped. */
  lemma {:induction false} UnescapeEach(s: string, c: char)
    ensures Unescape("", false) == ""
    ensures Unescape(s + [c], false) ==
            Unescape(s, false) + if c == '\\' && !Escaped(s + [c], |s|) then [] else [c]
  {
    EscapedIsFrom(s + [c], |s|);
    UnescapeEachFrom(s, false, c);
  }

  lemma {:induction false} UnescapeEachFrom(s: string, escaped: bool, c: char)
    ensures Unescape(s + [c], escaped) ==
            Unescape(s, escaped) + if c == '\\' && !EscapedFrom(s + [c], |s|, escaped) then [] else [c]
    decreases |s|
  {
    if s == "" {
      assert s + [c] == [c] && [c][1..] == "";
    } else {
      var next := !escaped && s[0] == '\\';
      assert (s + [c])[1..] == s[1..] + [c];
      UnescapeEachFrom(s[1..], next, c);
      EscapedTail(s + [c], |s| - 1, escaped);
    }
  }

  // ----- Stretches, in order -----

  /** The stretches from `from` on, no cut standing between it and `j`. */
  function Stretches(s: string, from: nat, j: nat): (list: seq<(nat, nat)>)
    requires from <= j <= |s|
    ensures list != [] && forall r <- list :: r.0 <= r.1 <= |s|
    decreases |s| - j
  {
    if j == |s| then [(from, j)]
    else if IsCut(s, j) then [(from, j)] + Stretches(s, j + 1, j + 1)
    else Stretches(s, from, j + 1)
  }

  predicate Begins(s: string, from: nat, j: nat) {
    from <= j <= |s| && StartsAfterCut(s, from) && forall i: nat | from <= i < j :: !IsCut(s, i)
  }

  /** They are exactly the stretches that start there or later, in ascending order. */
  lemma {:induction false} StretchesAre(s: string, from: nat, j: nat)
    requires Begins(s, from, j)
    ensures forall a: nat, b: nat :: (a, b) in Stretches(s, from, j) <==> a >= from && Stretch(s, a, b)
    ensures forall i, k | 0 <= i < k < |Stretches(s, from, j)| :: Stretches(s, from, j)[i].0 < Stretches(s, from, j)[k].0
    decreases |s| - j
  {
    hide IsCut;
    if j == |s| {
      forall a: nat, b: nat | a >= from && Stretch(s, a, b)
        ensures (a, b) == (from, j)
      {
        assert StartsAfterCut(s, a);
        assert b < |s| ==> IsCut(s, b);
      }
    } else if IsCut(s, j) {
      StretchesAre(s, j + 1, j + 1);
      var rest := Stretches(s, j + 1, j + 1);
      forall a: nat, b: nat
        ensures (a, b) in [(from, j)] + rest <==> a >= from && Stretch(s, a, b)
      {
        if a >= from && Stretch(s, a, b) && a <= j {
          assert StartsAfterCut(s, a);
          assert b < j ==> IsCut(s, b);
          assert b > j ==> !IsCut(s, j);
        }
      }
      assert forall k | 0 <= k < |rest| :: rest[k] in rest;
    } else {
      StretchesAre(s, from, j + 1);
    }
  }

  function Slices(s: string, list: seq<(nat, nat)>): seq<string>
    requires forall r <- list :: r.0 <= r.1 <= |s|
  {
    seq(|list|, i requires 0 <= i < |list| => s[list[i].0..list[i].1])
  }

  /** The parts are the stretches, an empty one at the end dropped. */
  predicate PartsOf(parts: seq<string>, slices: seq<string>) {
    parts == if slices != [] && slices[|slices| - 1] == "" then slices[..|slices| - 1] else slices
  }

  lemma SlicesCons(s: string, first: (nat, nat), rest: seq<(nat, nat)>)
    requires first.0 <= first.1 <= |s| && forall r <- rest :: r.0 <= r.1 <= |s|
    ensures Slices(s, [first] + rest) == [s[first.0..first.1]] + Slices(s, rest)
  {
  }

  lemma PartsOfCons(part: string, parts: seq<string>, slices: seq<string>)
    requires PartsOf(parts, slices) && slices != []
    ensures PartsOf([part] + parts, [part] + slices)
  {
    assert ([part] + slices)[..|slices|] == [part] + slices[..|slices| - 1];
  }

  lemma {:induction false} PartsAreStretches(s: string, from: nat, j: nat)
    requires from <= j <= |s|
    ensures PartsOf(Parts(s[j..], j > 0 && s[j - 1] == '\\', s[from..j]), Slices(s, Stretches(s, from, j)))
    decreases |s| - j
  {
    if j == |s| {
      assert Slices(s, [(from, j)]) == [s[from..j]];
    } else {
      assert s[j..][1..] == s[j + 1..] && s[j..][0] == s[j];
      if IsCut(s, j) {
        PartsAreStretches(s, j + 1, j + 1);
        assert s[j + 1..j + 1] == "";
        var rest := Stretches(s, j + 1, j + 1);
        SlicesCons(s, (from, j), rest);
        PartsOfCons(s[from..j], Parts(s[j + 1..], false, ""), Slices(s, rest));
      } else {
        PartsAreStretches(s, from, j + 1);
        assert s[from..j] + [s[j]] == s[from..j + 1];
      }
    }
  }

  /** What stands between two positions, trimmed. */
  function Piece(s: string, a: nat, b: nat): string
    requires a <= b <= |s|
  {
    TrimSpace(s[a..b])
  }

  /** The parts that are not blank are the stretches that are not blank, in the same order. */
  ghost predicate Matches(s: string, parts: seq<string>, list: seq<(nat, nat)>) {
    && |parts| <= |list| && (forall r <- list :: r.0 <= r.1 <= |s|)
    && (forall i | 0 <= i < |parts| :: parts[i] == s[list[i].0..list[i].1])
    && (forall i | |parts| <= i < |list| :: s[list[i].0..list[i].1] == "")
  }

  lemma PartsMatch(s: string, parts: seq<string>, list: seq<(nat, nat)>)
    requires (forall r <- list :: r.0 <= r.1 <= |s|) && PartsOf(parts, Slices(s, list))
    ensures Matches(s, parts, list)
  {
  }

  lemma TextMatches(s: string)
    ensures Matches(s, Parts(s, false, ""), Stretches(s, 0, 0))
    ensures forall a: nat, b: nat :: (a, b) in Stretches(s, 0, 0) <==> Stretch(s, a, b)
    ensures forall i, k | 0 <= i < k < |Stretches(s, 0, 0)| :: Stretches(s, 0, 0)[i].0 < Stretches(s, 0, 0)[k].0
  {
    assert s[0..] == s && s[0..0] == "";
    hide Parts, Stretches, Slices, PartsOf, Matches, Stretch;
    PartsAreStretches(s, 0, 0);
    StretchesAre(s, 0, 0);
    PartsMatch(s, Parts(s, false, ""), Stretches(s, 0, 0));
  }

  // ----- Parsing -----

  ghost predicate FailsAt(s: string, a: nat, b: nat) {
    Stretch(s, a, b) && Fails(Piece(s, a, b))
  }

  ghost predicate GivesAt(s: string, a: nat, b: nat, k: string) {
    Stretch(s, a, b) && Gives(Piece(s, a, b), k)
  }

  lemma NothingInBlank()
    ensures TrimSpace("") == "" && !Fails("") && forall k :: !Gives("", k)
  {
  }

  lemma BlankText(s: string)
    requires TrimSpace(s) == ""
    ensures forall a: nat, b: nat | Stretch(s, a, b) :: Piece(s, a, b) == ""
  {
    BlankIfSpaces(s);
    forall a: nat, b: nat | Stretch(s, a, b)
      ensures Piece(s, a, b) == ""
    {
      BlankIfSpaces(s[a..b]);
    }
  }

  lemma FailingPart(s: string, parts: seq<string>, list: seq<(nat, nat)>)
    requires Matches(s, parts, list) && forall a: nat, b: nat :: (a, b) in list <==> Stretch(s, a, b)
    ensures (exists i: nat :: i < |parts| && Fails(TrimSpace(parts[i]))) <==> exists a: nat, b: nat :: FailsAt(s, a, b)
  {
    NothingInBlank();
    hide TrimSpace, Fails, Stretch;
    if i: nat :| i < |parts| && Fails(TrimSpace(parts[i])) {
      assert list[i] in list && FailsAt(s, list[i].0, list[i].1);
    }
    if a: nat, b: nat :| FailsAt(s, a, b) {
      var i: nat :| i < |list| && list[i] == (a, b);
      assert i < |parts| && TrimSpace(parts[i]) == Piece(s, a, b);
    }
  }

  /** Parsing fails exactly if a stretch that is not blank has no unescaped equals sign or a blank key. */
  lemma ParseFails(s: string)
    ensures Parse(s).Err? <==> exists a: nat, b: nat :: FailsAt(s, a, b)
  {
    NothingInBlank();
    if TrimSpace(s) == "" {
      BlankText(s);
    } else {
      TextMatches(s);
      PartsFail(Parts(s, false, ""), map[]);
      FailingPart(s, Parts(s, false, ""), Stretches(s, 0, 0));
    }
    hide TrimSpace, Fails, Parts, AddParts, Stretch, Piece;
  }

  ghost predicate FirstFails(s: string, a: nat, b: nat) {
    FailsAt(s, a, b) && forall c: nat, d: nat | FailsAt(s, c, d) :: a <= c
  }

  /** The first such stretch is the error: without an equals sign it is named, else the key is empty. */
  lemma ParseError(s: string, a: nat, b: nat)
    requires FirstFails(s, a, b)
    ensures Parse(s) == Err(if HasEquals(Piece(s, a, b)) then EmptyKey else InvalidEntry(Piece(s, a, b)))
  {
    NothingInBlank();
    if TrimSpace(s) == "" {
      BlankText(s);
      assert false;
    } else {
      var parts, list := Parts(s, false, ""), Stretches(s, 0, 0);
      TextMatches(s);
      PartsFail(parts, map[]);
      hide TrimSpace, Fails, Parts, AddParts, Stretch, Stretches, HasEquals;
      var i: nat :| i < |list| && list[i] == (a, b);
      forall j: nat | j < i
        ensures !Fails(TrimSpace(parts[j]))
      {
        assert list[j] in list && list[j].0 < a;
        assert !FailsAt(s, list[j].0, list[j].1);
      }
      assert FailsFirst(parts, i);
    }
  }

  /** The keys are exactly those the stretches give. */
  lemma ParseKeys(s: string, k: string)
    requires Parse(s).Ok?
    ensures k in Parse(s).value <==> exists a: nat, b: nat :: GivesAt(s, a, b, k)
  {
    NothingInBlank();
    if TrimSpace(s) == "" {
      BlankText(s);
      hide TrimSpace, Gives, Stretch, Piece;
    } else {
      var parts, list := Parts(s, false, ""), Stretches(s, 0, 0);
      TextMatches(s);
      PartsGive(parts, map[], k);
      hide TrimSpace, Gives, Parts, AddParts, Stretch, Stretches;
      if i: nat :| i < |parts| && Gives(TrimSpace(parts[i]), k) {
        assert list[i] in list && GivesAt(s, list[i].0, list[i].1, k);
      }
      if a: nat, b: nat :| GivesAt(s, a, b, k) {
        var i: nat :| i < |list| && list[i] == (a, b);
        assert i < |parts| && TrimSpace(parts[i]) == Piece(s, a, b);
      }
    }
  }

  ghost predicate LastGives(s: string, a: nat, b: nat, k: string) {
    GivesAt(s, a, b, k) && forall c: nat, d: nat | GivesAt(s, c, d, k) :: c <= a
  }

  /** And the value of a key is that of the last stretch that gives it. */
  lemma ParseValue(s: string, a: nat, b: nat, k: string)
    requires Parse(s).Ok? && LastGives(s, a, b, k)
    ensures k in Parse(s).value && HasEquals(Piece(s, a, b)) && Parse(s).value[k] == RawValue(Piece(s, a, b))
  {
    NothingInBlank();
    assert HasEquals(Piece(s, a, b));
    if TrimSpace(s) == "" {
      BlankText(s);
      assert false;
    } else {
      var parts, list := Parts(s, false, ""), Stretches(s, 0, 0);
      TextMatches(s);
      PartsGive(parts, map[], k);
      hide TrimSpace, Gives, Parts, AddParts, Stretch, Stretches, HasEquals, RawValue;
      var i: nat :| i < |list| && list[i] == (a, b);
      forall j: nat | i < j < |parts|
        ensures !Gives(TrimSpace(parts[j]), k)
      {
        assert list[j] in list && list[j].0 > a;
        assert !GivesAt(s, list[j].0, list[j].1, k);
      }
      assert GivesLast(parts, i, k);
    }
  }

  /** An update leaves a text that fails as it is. */
  lemma FailingTextStays(s: string, version: string, sha: string, isExpansionSupported: bool, a: nat, b: nat)
    requires FailsAt(s, a, b)
    ensures Update(s, version, sha, isExpansionSupported) == s
  {
    ParseFails(s);
    hide Parse, FailsAt;
  }

  /** For one, a text with an entry that has no equals sign. */
  lemma NoEqualsExample()
    ensures Parse("a=x,b") == Err(InvalidEntry("b"))
  {
    var s := "a=x,b";
    assert s[4..5] == "b" && Stretch(s, 4, 5) && Stretch(s, 0, 3) && s[0..3] == "a=x";
    assert TrimSpace("b") == "b" && TrimSpace("a=x") == "a=x";
    assert forall i: nat :: !IsEquals("b", i);
    assert Separates("a=x", 1) && !Escaped("a=x", 1);
    EqualsKey("a=x", 1);
    assert "a=x"[..1] == "a" && Unescape("a", false) == "a" && TrimSpace("a") == "a";
    hide TrimSpace, Unescape, Parse, IsEquals;
    assert FailsAt(s, 4, 5);
    forall c: nat, d: nat | FailsAt(s, c, d)
      ensures 4 <= c
    {
      assert IsCut(s, 3) && !IsCut(s, 0) && !IsCut(s, 1) && !IsCut(s, 2) && !IsCut(s, 4);
    }
    ParseError(s, 4, 5);
  }

  lemma EqualsKey(p: string, i: nat)
    requires Separates(p, i)
    ensures HasEquals(p) && Separator(p) == i
  {
    OneSeparator(p, i);
  }

  // ----- Printing -----

  function WithoutBlankKeys(attrs: Attributes): Attributes {
    map k | k in attrs && !AllSpace(k) :: attrs[k]
  }

  lemma {:induction false} PrintKeysOf(attrs: Attributes, fewer: Attributes, keys: seq<string>)
    requires forall k <- keys :: k in attrs && k in fewer && attrs[k] == fewer[k]
    ensures PrintKeys(attrs, keys) == PrintKeys(fewer, keys)
  {
    hide Escape;
    if |keys| > 1 {
      PrintKeysOf(attrs, fewer, keys[1..]);
    }
  }

  lemma PrintableAre(attrs: Attributes)
    ensures PrintableKeys(attrs) == PrintableKeys(WithoutBlankKeys(attrs)) == WithoutBlankKeys(attrs).Keys
  {
    hide TrimSpace, AllSpace;
    forall k
      ensures TrimSpace(k) == "" <==> AllSpace(k)
    {
      BlankIfSpaces(k);
    }
  }

  /** Keys that are empty or all spaces are not printed, and without others the text is empty. */
  lemma BlankKeysDropped(attrs: Attributes)
    ensures Print(attrs) == Print(WithoutBlankKeys(attrs)) && Print(map[]) == ""
  {
    PrintableAre(attrs);
    assert PrintableKeys(map[]) == {};
    hide PrintableKeys, PrintKeys, AllSpace;
    var keys := SortedList(PrintableKeys(attrs));
    PrintKeysOf(attrs, WithoutBlankKeys(attrs), keys);
    assert PrintKeys(map[], []) == "" by { PrintNone(); }
  }

  lemma PrintNone()
    ensures PrintKeys(map[], []) == ""
  {
  }
}
