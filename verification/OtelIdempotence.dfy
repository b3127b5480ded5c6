/**
  When updating the attributes of a text a second time changes nothing, for every text that parses,
  every version and every commit (otel/update_resource_attributes.go).
*/
module OtelIdempotence {
  import opened Text
  import opened Ordering
  import opened Otel
  import opened OtelRoundTrip
  import opened OtelReparse

  predicate ExpansionText(s: string) {
    "$(" <= s && s[|s| - 1] == ')'
  }

  predicate EndsInParenthesis(s: string) {
    s != "" && s[|s| - 1] == ')'
  }

  /** The attribute was kept, or the value written will not be taken for one to keep unless it is trimmed. */
  predicate Stays(before: Attributes, key: string, written: string, isExpansionSupported: bool) {
    || Keeps(before, key, isExpansionSupported) || !isExpansionSupported
    || Trimmed(written) || !ExpansionText(TrimSpace(written))
  }

  /** The commit ends in a backslash, the version is the next entry, and no other value but the last ends in one. */
  predicate VersionNext(after: Attributes) {
    && COMMIT_KEY in after && VERSION_KEY in after && EndsInBackslash(after[COMMIT_KEY])
    && (forall k | k in after && Less(COMMIT_KEY, k) :: k == VERSION_KEY || Less(VERSION_KEY, k))
    && forall k, l | k in after && l in after && k != COMMIT_KEY && Less(k, l) :: !EndsInBackslash(after[k])
  }

  /**
    The commit takes in just the version, which is written again as it was; and what the commit
    becomes is not taken for one to keep.
  */
  predicate OnlyVersionSwallowed(after: Attributes, version: string, sha: string, isExpansionSupported: bool) {
    && VersionNext(after) && after[VERSION_KEY] == version
    && !(isExpansionSupported && "$(" <= TrimLeft(sha) && EndsInParenthesis(TrimRight(version)))
  }

  /** Something a caller can check on the parsed map, the version and the commit. */
  predicate Settles(before: Attributes, version: string, sha: string, isExpansionSupported: bool) {
    var after := Updated(before, version, sha, isExpansionSupported);
    || (OnlyLastEndsInBackslash(after) && Stays(before, VERSION_KEY, version, isExpansionSupported)
        && Stays(before, COMMIT_KEY, sha, isExpansionSupported))
    || OnlyVersionSwallowed(after, version, sha, isExpansionSupported)
  }

  // ----- The map after the first update -----

  lemma KeysOfUpdate()
    ensures COMMIT_KEY != VERSION_KEY && Less(COMMIT_KEY, VERSION_KEY) && !Less(VERSION_KEY, COMMIT_KEY)
    ensures COMMIT_KEY != "" && VERSION_KEY != "" && Trimmed(COMMIT_KEY) && Trimmed(VERSION_KEY)
  {
    CommitFirst();
    hide Less;
    LessIsStrict(COMMIT_KEY, VERSION_KEY);
  }

  lemma CommitFirst()
    ensures Less(COMMIT_KEY, VERSION_KEY)
  {
    assert Less("commit.sha", "version");
    hide Less;
    CommonPrefix("service.", "commit.sha", "version");
    assert COMMIT_KEY == "service." + "commit.sha";
    assert VERSION_KEY == "service." + "version";
  }

  lemma {:induction false} CommonPrefix(p: string, a: string, b: string)
    requires Less(a, b)
    ensures Less(p + a, p + b)
  {
    if p == "" {
      assert p + a == a && p + b == b;
    } else {
      assert (p + a)[1..] == p[1..] + a && (p + b)[1..] == p[1..] + b;
      CommonPrefix(p[1..], a, b);
    }
  }

  /** What the updated map has under the two keys and elsewhere. */
  predicate IsUpdated(before: Attributes, after: Attributes, version: string, sha: string, isExpansionSupported: bool) {
    && CleanKeyed(after) && VERSION_KEY in after && COMMIT_KEY in after && after != map[]
    && (forall k | k in after && k != VERSION_KEY && k != COMMIT_KEY :: Trimmed(after[k]))
    && IsWritten(before, after, VERSION_KEY, version, isExpansionSupported)
    && IsWritten(before, after, COMMIT_KEY, sha, isExpansionSupported)
  }

  predicate IsWritten(before: Attributes, after: Attributes, key: string, written: string, isExpansionSupported: bool) {
    key in after
    && if Keeps(before, key, isExpansionSupported) then Trimmed(after[key]) && ExpansionText(after[key])
       else after[key] == written
  }

  lemma UpdateIsUpdated(before: Attributes, version: string, sha: string, isExpansionSupported: bool)
    requires CleanAttributes(before)
    ensures IsUpdated(before, Updated(before, version, sha, isExpansionSupported), version, sha, isExpansionSupported)
  {
    KeysOfUpdate();
    UpdatedSets(before, version, sha, isExpansionSupported);
    hide Updated, Trimmed, Less;
    var after := Updated(before, version, sha, isExpansionSupported);
    assert forall k | k in after :: k == VERSION_KEY || k == COMMIT_KEY || (k in before && after[k] == before[k]);
  }

  lemma ReadWithin(after: Attributes, keys: seq<string>)
    requires KeyList(after, keys) && keys != [] && Distinct(keys)
    ensures Reread(after, keys).Keys <= after.Keys
  {
    hide Reread, Distinct;
    forall k | k in Reread(after, keys)
      ensures k in after
    {
      RereadKey(after, keys, k);
    }
  }

  lemma UpdatedKeys(after: Attributes, read: Attributes, version: string, sha: string, isExpansionSupported: bool)
    requires CleanKeyed(after) && read.Keys <= after.Keys
    ensures var again := Updated(read, version, sha, isExpansionSupported);
            CleanKeyed(again) && VERSION_KEY in again
  {
    UpdatedSets(read, version, sha, isExpansionSupported);
    KeysOfUpdate();
    hide Updated, Trimmed, Less, Keeps;
  }

  lemma AgainClean(after: Attributes, keys: seq<string>, version: string, sha: string, isExpansionSupported: bool)
    requires CleanKeyed(after) && KeyList(after, keys) && keys != [] && Distinct(keys)
    ensures var again := Updated(Reread(after, keys), version, sha, isExpansionSupported);
            CleanKeyed(again) && again != map[]
  {
    hide *;
    ReadWithin(after, keys);
    UpdatedKeys(after, Reread(after, keys), version, sha, isExpansionSupported);
  }

  /** The second update gives the same text exactly if it gives the same map. */
  lemma SameTextSameMap(input: string, version: string, sha: string, isExpansionSupported: bool, keys: seq<string>)
    requires Parse(input).Ok?
    requires keys == SortedList(Updated(Parse(input).value, version, sha, isExpansionSupported).Keys)
    ensures var after := Updated(Parse(input).value, version, sha, isExpansionSupported);
            && KeyList(after, keys) && keys != [] && Distinct(keys)
            && (Update(Update(input, version, sha, isExpansionSupported), version, sha, isExpansionSupported)
                == Update(input, version, sha, isExpansionSupported)
                <==> Updated(Reread(after, keys), version, sha, isExpansionSupported) == after)
  {
    ParsedIsClean(input);
    var after := Updated(Parse(input).value, version, sha, isExpansionSupported);
    UpdateIsUpdated(Parse(input).value, version, sha, isExpansionSupported);
    assert CleanKeyed(after) && after != map[];
    Reparsed(after, keys);
    hide Parse, Print, Updated, Reread, KeyList, Distinct, CleanKeyed, IsUpdated;
    AgainClean(after, keys, version, sha, isExpansionSupported);
    var again := Updated(Reread(after, keys), version, sha, isExpansionSupported);
    if Print(again) == Print(after) {
      PrintInjective(again, after);
    }
  }

  // ----- No entry swallowed -----

  /** What the second update writes under a key. */
  function Rewritten(read: Attributes, key: string, written: string, isExpansionSupported: bool): string {
    if Keeps(read, key, isExpansionSupported) then read[key] else written
  }

  /** That is what was there exactly if it stays, for a key that was read back trimmed. */
  lemma KeyBack(before: Attributes, after: Attributes, read: Attributes, key: string, written: string,
                isExpansionSupported: bool)
    requires IsWritten(before, after, key, written, isExpansionSupported)
    requires key in read && read[key] == TrimSpace(after[key])
    ensures Rewritten(read, key, written, isExpansionSupported) == after[key]
            <==> Stays(before, key, written, isExpansionSupported)
  {
    TrimTrims(after[key]);
    hide TrimSpace, Trimmed;
  }

  /** The keys are the ones printed, in order. */
  predicate KeysOf(after: Attributes, keys: seq<string>) {
    KeyList(after, keys) && keys != [] && Distinct(keys) && Ascending(keys) && forall k <- after :: k in keys
  }

  lemma AllAlone(after: Attributes, keys: seq<string>)
    requires KeysOf(after, keys) && forall i | 0 <= i < |keys| :: !Swallowing(after, keys, i)
    ensures Reread(after, keys).Keys == after.Keys
    ensures forall k | k in after :: Reread(after, keys)[k] == TrimSpace(after[k])
  {
    hide Swallowing, Reread, TrimSpace, Trimmed, Less;
    var read := Reread(after, keys);
    forall i | 0 <= i < |keys|
      ensures keys[i] in read && read[keys[i]] == TrimSpace(after[keys[i]])
    {
      RereadAlone(after, keys, i);
    }
    forall k | k in read
      ensures k in after
    {
      RereadKey(after, keys, k);
    }
  }

  /** All attributes but the two came back. */
  predicate OthersBack(after: Attributes, read: Attributes) {
    && VERSION_KEY in after && COMMIT_KEY in after && read.Keys + {VERSION_KEY, COMMIT_KEY} == after.Keys
    && forall k | k in after && k != VERSION_KEY && k != COMMIT_KEY :: k in read && read[k] == after[k]
  }

  /** Then the two written ones decide. */
  lemma TwoDecide(after: Attributes, read: Attributes, version: string, sha: string, isExpansionSupported: bool)
    requires OthersBack(after, read)
    ensures Updated(read, version, sha, isExpansionSupported) == after <==>
            Rewritten(read, VERSION_KEY, version, isExpansionSupported) == after[VERSION_KEY]
            && Rewritten(read, COMMIT_KEY, sha, isExpansionSupported) == after[COMMIT_KEY]
  {
    UpdatedSets(read, version, sha, isExpansionSupported);
    hide Updated, Keeps;
    var again := Updated(read, version, sha, isExpansionSupported);
    assert again.Keys == after.Keys;
    assert again == after <==> forall k | k in after :: again[k] == after[k];
  }

  lemma TrimmedBack(before: Attributes, after: Attributes, read: Attributes, version: string, sha: string,
                    isExpansionSupported: bool)
    requires IsUpdated(before, after, version, sha, isExpansionSupported)
    requires read.Keys == after.Keys && forall k | k in after :: read[k] == TrimSpace(after[k])
    ensures OthersBack(after, read)
  {
    forall k | k in after && k != VERSION_KEY && k != COMMIT_KEY
      ensures read[k] == after[k]
    {
      TrimTrims(after[k]);
    }
  }

  lemma AloneSettles(before: Attributes, after: Attributes, keys: seq<string>, version: string, sha: string,
                     isExpansionSupported: bool)
    requires IsUpdated(before, after, version, sha, isExpansionSupported) && KeysOf(after, keys)
    requires forall i | 0 <= i < |keys| :: !Swallowing(after, keys, i)
    ensures Updated(Reread(after, keys), version, sha, isExpansionSupported) == after <==>
            Stays(before, VERSION_KEY, version, isExpansionSupported)
            && Stays(before, COMMIT_KEY, sha, isExpansionSupported)
  {
    var read := Reread(after, keys);
    AllAlone(after, keys);
    TrimmedBack(before, after, read, version, sha, isExpansionSupported);
    KeyBack(before, after, read, VERSION_KEY, version, isExpansionSupported);
    KeyBack(before, after, read, COMMIT_KEY, sha, isExpansionSupported);
    hide *;
    TwoDecide(after, read, version, sha, isExpansionSupported);
  }

  // ----- Entries swallowed -----

  /** An attribute that is not written again has to be read back as it is. */
  lemma OrdinaryBack(after: Attributes, read: Attributes, k: string, version: string, sha: string,
                     isExpansionSupported: bool)
    requires k in after && k != VERSION_KEY && k != COMMIT_KEY && !(k in read && read[k] == after[k])
    ensures Updated(read, version, sha, isExpansionSupported) != after
  {
    UpdatedSets(read, version, sha, isExpansionSupported);
    hide Updated, Keeps;
  }

  /** A value that is not written again and takes in the next entry does not come back. */
  lemma OrdinarySwallows(after: Attributes, keys: seq<string>, i: nat, version: string, sha: string,
                         isExpansionSupported: bool)
    requires KeysOf(after, keys) && Swallowing(after, keys, i)
    requires keys[i] != VERSION_KEY && keys[i] != COMMIT_KEY && Trimmed(after[keys[i]])
    ensures Updated(Reread(after, keys), version, sha, isExpansionSupported) != after
  {
    assert i < |keys| && keys[i] in after;
    hide Updated, Reread, Swallowing, Trimmed, Ascending;
    if keys[i] in Reread(after, keys) {
      RereadLonger(after, keys, i);
    }
    OrdinaryBack(after, Reread(after, keys), keys[i], version, sha, isExpansionSupported);
  }

  /** An entry that is not written again and is taken in by the one before it is lost. */
  lemma OrdinaryLost(after: Attributes, keys: seq<string>, i: nat, version: string, sha: string,
                     isExpansionSupported: bool)
    requires KeysOf(after, keys) && Swallowing(after, keys, i)
    requires keys[i + 1] != VERSION_KEY && keys[i + 1] != COMMIT_KEY
    ensures Updated(Reread(after, keys), version, sha, isExpansionSupported) != after
  {
    assert i + 1 < |keys| && keys[i + 1] in after;
    hide Updated, Reread, Trimmed, Ascending;
    RereadKey(after, keys, keys[i + 1]);
    OrdinaryBack(after, Reread(after, keys), keys[i + 1], version, sha, isExpansionSupported);
  }

  lemma {:induction false} TrimLeftPast(a: string, b: string)
    requires a != "" && !IsSpace(a[|a| - 1])
    ensures TrimLeft(a) != "" && TrimLeft(a)[|TrimLeft(a)| - 1] == a[|a| - 1]
    ensures TrimLeft(a + b) == TrimLeft(a) + b
    ensures !IsSpace(TrimLeft(a)[0]) && (TrimLeft(a) == a || IsSpace(a[0]))
  {
    if IsSpace(a[0]) {
      assert (a + b)[1..] == a[1..] + b;
      TrimLeftPast(a[1..], b);
    } else {
      assert (a + b)[0] == a[0];
    }
  }

  /** The text of a version entry, as it is read after the commit that takes it in. */
  lemma VersionTaken(version: string)
    ensures Unescape(TrimRight("," + (Escape(VERSION_KEY) + "=" + Escape(version))), false)
            == VersionEntry(version)
  {
    var k, r := VERSION_KEY, TrimRight(version);
    hide Escape, Unescape, TrimRight;
    var front := "," + Escape(k) + "=";
    assert "," + (Escape(k) + "=" + Escape(version)) == front + Escape(version);
    TrimRightPast(front, Escape(version));
    TrimRightEscape(version);
    assert front + Escape(r) == "," + (Escape(k) + ("=" + Escape(r)));
    UnescapePlain(',', Escape(k) + ("=" + Escape(r)));
    UnescapePast(k, "=" + Escape(r));
    UnescapePlain('=', Escape(r));
    UnescapeEscape(r);
  }

  lemma UnescapePlain(c: char, rest: string)
    requires c != '\\'
    ensures Unescape([c] + rest, false) == [c] + Unescape(rest, false)
  {
    assert ([c] + rest)[1..] == rest;
  }

  function VersionEntry(version: string): (s: string)
    ensures s != ""
  {
    "," + (VERSION_KEY + ("=" + TrimRight(version)))
  }

  lemma VersionEntryEnds(version: string)
    ensures var y := VersionEntry(version);
            && y[0] == ',' && !IsSpace(y[|y| - 1]) && (y[|y| - 1] == ')' <==> EndsInParenthesis(TrimRight(version)))
  {
    TrimRightSplits(version);
    hide TrimRight;
    var r, y := TrimRight(version), VersionEntry(version);
    assert y[|y| - 1] == if r == "" then '=' else r[|r| - 1];
  }

  lemma TakenFacts(sha: string, f: string, y: string)
    requires EndsInBackslash(f) && !IsSpace(f[0]) && y != "" && y[0] == ','
    requires f == sha || (sha != "" && IsSpace(sha[0]))
    ensures f + y != sha
    ensures ExpansionText(f + y) <==> "$(" <= f && y[|y| - 1] == ')'
  {
    var w := f + y;
    assert w[0] == f[0] && w[|w| - 1] == y[|y| - 1];
    hide IsSpace;
    assert |f| == 1 ==> f[0] == '\\';
    assert |f| > 1 ==> w[1] == f[1];
  }

  predicate IsFront(sha: string, f: string) {
    && f != "" && EndsInBackslash(f) && !IsSpace(f[0])
    && (f == sha || (sha != "" && IsSpace(sha[0])))
  }

  lemma FrontKept(sha: string, y: string)
    requires EndsInBackslash(sha)
    ensures IsFront(sha, TrimLeft(sha)) && TrimSpace(sha + y) == TrimRight(TrimLeft(sha) + y)
  {
    TrimLeftPast(sha, y);
    hide TrimLeft, TrimRight, IsSpace;
  }

  lemma FrontTaken(sha: string, f: string, y: string)
    requires IsFront(sha, f) && y != "" && y[0] == ',' && !IsSpace(y[|y| - 1])
    ensures TrimRight(f + y) == f + y && f + y != sha
    ensures ExpansionText(f + y) <==> "$(" <= f && y[|y| - 1] == ')'
  {
    assert (f + y)[|f + y| - 1] == y[|y| - 1];
    EndsInInk(f + y);
    hide TrimRight, IsSpace, EndsInBackslash, ExpansionText;
    TakenFacts(sha, f, y);
  }

  /** What a commit that takes in the version is read as. */
  lemma TakenIn(sha: string, version: string)
    requires EndsInBackslash(sha)
    ensures var w := TrimSpace(sha + VersionEntry(version));
            w != sha && (ExpansionText(w) <==> "$(" <= TrimLeft(sha) && EndsInParenthesis(TrimRight(version)))
  {
    hide *;
    VersionEntryEnds(version);
    FrontKept(sha, VersionEntry(version));
    FrontTaken(sha, TrimLeft(sha), VersionEntry(version));
  }

  predicate SwallowsAlone(after: Attributes, keys: seq<string>, i: nat)
    requires KeyList(after, keys)
  {
    forall j | 0 <= j < |keys| :: Swallowing(after, keys, j) <==> j == i
  }

  /** Only the commit takes in an entry, and that is the version's. */
  predicate OnlyPair(after: Attributes, keys: seq<string>, i: nat) {
    && KeysOf(after, keys) && i + 1 < |keys| && keys[i] == COMMIT_KEY && keys[i + 1] == VERSION_KEY
    && SwallowsAlone(after, keys, i)
  }

  lemma PairFollows(after: Attributes, keys: seq<string>, i: nat)
    requires OnlyPair(after, keys, i)
    ensures Follows(after, keys, i) == "," + (Escape(VERSION_KEY) + "=" + Escape(after[VERSION_KEY]))
    ensures i == 0 || !Swallowing(after, keys, i - 1)
  {
    assert Swallowing(after, keys, i) && !Swallowing(after, keys, i + 1);
    assert Follows(after, keys, i + 1) == "" && Entry(after, VERSION_KEY) + "" == Entry(after, VERSION_KEY);
    hide Swallowing, Ascending, Distinct, Escape;
  }

  lemma PairCommit(after: Attributes, keys: seq<string>, i: nat)
    requires OnlyPair(after, keys, i)
    ensures var read := Reread(after, keys);
            && VERSION_KEY !in read && COMMIT_KEY in read
            && read[COMMIT_KEY] == TrimSpace(after[COMMIT_KEY] + VersionEntry(after[VERSION_KEY]))
  {
    PairFollows(after, keys, i);
    VersionTaken(after[VERSION_KEY]);
    assert Swallowing(after, keys, i) && Distinct(keys) && KeyList(after, keys);
    hide Reread, TrimSpace, Follows, Escape, TrimRight, Unescape, VersionEntry, KeysOf, KeyList, Swallowing, Distinct;
    RereadValue(after, keys, i);
    RereadKey(after, keys, VERSION_KEY);
  }

  lemma PairOther(after: Attributes, keys: seq<string>, i: nat, k: string)
    requires OnlyPair(after, keys, i) && k in after && k != VERSION_KEY && k != COMMIT_KEY
    ensures k in Reread(after, keys) && Reread(after, keys)[k] == TrimSpace(after[k])
  {
    var j: nat :| j < |keys| && keys[j] == k;
    assert j > 0 ==> j - 1 != i;
    assert !Swallowing(after, keys, j) && (j > 0 ==> !Swallowing(after, keys, j - 1));
    hide Reread, TrimSpace, Swallowing, Ascending;
    RereadAlone(after, keys, j);
  }

  lemma OrdinaryTrimmed(before: Attributes, after: Attributes, k: string, version: string, sha: string,
                        isExpansionSupported: bool)
    requires IsUpdated(before, after, version, sha, isExpansionSupported)
    requires k in after && k != VERSION_KEY && k != COMMIT_KEY
    ensures TrimSpace(after[k]) == after[k]
  {
    TrimTrims(after[k]);
  }

  lemma PairBack(before: Attributes, after: Attributes, keys: seq<string>, i: nat, version: string, sha: string,
                 isExpansionSupported: bool)
    requires IsUpdated(before, after, version, sha, isExpansionSupported) && OnlyPair(after, keys, i)
    ensures OthersBack(after, Reread(after, keys))
  {
    ReadWithin(after, keys);
    var read := Reread(after, keys);
    assert VERSION_KEY in after && COMMIT_KEY in after;
    hide *;
    forall k | k in after && k != VERSION_KEY && k != COMMIT_KEY
      ensures k in read && read[k] == after[k]
    {
      PairOther(after, keys, i, k);
      OrdinaryTrimmed(before, after, k, version, sha, isExpansionSupported);
    }
    AllBack(after, read);
  }

  lemma AllBack(after: Attributes, read: Attributes)
    requires VERSION_KEY in after && COMMIT_KEY in after && read.Keys <= after.Keys
    requires forall k | k in after && k != VERSION_KEY && k != COMMIT_KEY :: k in read && read[k] == after[k]
    ensures OthersBack(after, read)
  {
  }

  lemma CommitIsWritten(before: Attributes, after: Attributes, sha: string, isExpansionSupported: bool)
    requires IsWritten(before, after, COMMIT_KEY, sha, isExpansionSupported) && EndsInBackslash(after[COMMIT_KEY])
    ensures after[COMMIT_KEY] == sha
  {
  }

  lemma PairRewritten(read: Attributes, version: string, sha: string, now: string, isExpansionSupported: bool)
    requires VERSION_KEY !in read && COMMIT_KEY in read && read[COMMIT_KEY] == TrimSpace(sha + VersionEntry(now))
    requires EndsInBackslash(sha)
    ensures Rewritten(read, VERSION_KEY, version, isExpansionSupported) == version
    ensures Rewritten(read, COMMIT_KEY, sha, isExpansionSupported) == sha <==>
            !(isExpansionSupported && "$(" <= TrimLeft(sha) && EndsInParenthesis(TrimRight(now)))
  {
    KeepsText(read, COMMIT_KEY, isExpansionSupported);
    assert !Keeps(read, VERSION_KEY, isExpansionSupported);
    hide TrimSpace, VersionEntry, TrimLeft, TrimRight, EndsInParenthesis, Keeps, ExpansionText, EndsInBackslash;
    TakenIn(sha, now);
  }

  lemma KeepsText(read: Attributes, key: string, isExpansionSupported: bool)
    requires key in read
    ensures Keeps(read, key, isExpansionSupported) <==> isExpansionSupported && ExpansionText(read[key])
  {
  }

  lemma PairSettles(before: Attributes, after: Attributes, keys: seq<string>, i: nat, version: string, sha: string,
                    isExpansionSupported: bool)
    requires IsUpdated(before, after, version, sha, isExpansionSupported) && OnlyPair(after, keys, i)
    ensures Updated(Reread(after, keys), version, sha, isExpansionSupported) == after <==>
            after[VERSION_KEY] == version
            && !(isExpansionSupported && "$(" <= TrimLeft(sha) && EndsInParenthesis(TrimRight(version)))
    ensures after[COMMIT_KEY] == sha
  {
    var read, now := Reread(after, keys), after[VERSION_KEY];
    PairCommit(after, keys, i);
    PairBack(before, after, keys, i, version, sha, isExpansionSupported);
    assert Swallowing(after, keys, i);
    CommitIsWritten(before, after, sha, isExpansionSupported);
    hide *;
    PairRewritten(read, version, sha, now, isExpansionSupported);
    TwoDecide(after, read, version, sha, isExpansionSupported);
  }

  // ----- When the second update changes nothing -----

  lemma SortedAre(after: Attributes, keys: seq<string>)
    requires KeyList(after, keys) && keys != [] && Distinct(keys) && keys == SortedList(after.Keys)
    ensures KeysOf(after, keys)
  {
  }

  /** Only the last value ends in a backslash exactly if none takes in the next entry. */
  lemma NoneSwallows(after: Attributes, keys: seq<string>)
    requires KeysOf(after, keys)
    ensures OnlyLastEndsInBackslash(after) <==> forall i | 0 <= i < |keys| :: !Swallowing(after, keys, i)
  {
    assert forall y :: y in keys <==> y in after;
    LastOnly(after, keys);
    assert forall i | 0 <= i < |keys| ::
        Swallowing(after, keys, i) <==> i < |keys| - 1 && EndsInBackslash(after[keys[i]]);
    hide EndsInBackslash, Less, Ascending;
  }

  /** If anything is swallowed and yet all comes back, it is the version by the commit alone. */
  lemma SwallowedPair(before: Attributes, after: Attributes, keys: seq<string>, i: nat, version: string, sha: string,
                      isExpansionSupported: bool)
    requires IsUpdated(before, after, version, sha, isExpansionSupported) && KeysOf(after, keys)
    requires Swallowing(after, keys, i) && Updated(Reread(after, keys), version, sha, isExpansionSupported) == after
    ensures keys[i] == COMMIT_KEY && keys[i + 1] == VERSION_KEY
  {
    assert i + 1 < |keys| && keys[i] in after && keys[i + 1] in after && Less(keys[i], keys[i + 1]);
    KeysOfUpdate();
    LessIsStrict(keys[i], keys[i + 1]);
    hide Updated, Reread, Swallowing, KeysOf, Less, CleanKeyed, IsWritten, Trimmed;
    if keys[i] != COMMIT_KEY && keys[i] != VERSION_KEY {
      OrdinarySwallows(after, keys, i, version, sha, isExpansionSupported);
    }
    if keys[i + 1] != COMMIT_KEY && keys[i + 1] != VERSION_KEY {
      OrdinaryLost(after, keys, i, version, sha, isExpansionSupported);
    }
  }

  /** In an ascending list, the order of two keys is the order of their places. */
  lemma PlacesOrdered(keys: seq<string>, i: nat, j: nat)
    requires Ascending(keys) && i < |keys| && j < |keys|
    ensures Less(keys[i], keys[j]) <==> i < j
  {
    if i == j {
      NotLessItself(keys[i]);
    } else if j < i {
      LessIsStrict(keys[j], keys[i]);
    }
  }

  lemma {:induction false} NotLessItself(s: string)
    ensures !Less(s, s)
  {
    if s != "" {
      NotLessItself(s[1..]);
    }
  }

  lemma PlaceOf(after: Attributes, keys: seq<string>, k: string) returns (j: nat)
    requires KeysOf(after, keys) && k in after
    ensures j < |keys| && keys[j] == k
  {
    j :| j < |keys| && keys[j] == k;
  }

  lemma NextPlace(keys: seq<string>, i: nat, j: nat)
    requires Ascending(keys) && i + 1 < |keys| && j < |keys| && Less(keys[i], keys[j])
    ensures keys[j] == keys[i + 1] || Less(keys[i + 1], keys[j])
  {
    hide Less, Ascending;
    PlacesOrdered(keys, i, j);
    if j != i + 1 {
      PlacesOrdered(keys, i + 1, j);
    }
  }

  lemma NoneBetween(after: Attributes, keys: seq<string>, i: nat, k: string)
    requires OnlyPair(after, keys, i) && k in after && Less(COMMIT_KEY, k)
    ensures k == VERSION_KEY || Less(VERSION_KEY, k)
  {
    hide Less, Swallowing, Ascending, KeyList, Distinct;
    var j := PlaceOf(after, keys, k);
    NextPlace(keys, i, j);
  }

  lemma OthersEndPlain(after: Attributes, keys: seq<string>, i: nat, k: string, l: string)
    requires OnlyPair(after, keys, i) && k in after && l in after && k != COMMIT_KEY && Less(k, l)
    ensures !EndsInBackslash(after[k])
  {
    var j := PlaceOf(after, keys, k);
    var m := PlaceOf(after, keys, l);
    assert !Swallowing(after, keys, j) by { assert keys[j] != keys[i]; }
    hide Less, KeyList, Distinct, EndsInBackslash;
    PlacesOrdered(keys, j, m);
  }

  lemma PairIsNext(after: Attributes, keys: seq<string>, i: nat)
    requires OnlyPair(after, keys, i)
    ensures VersionNext(after)
  {
    assert Swallowing(after, keys, i);
    assert COMMIT_KEY in after && VERSION_KEY in after && EndsInBackslash(after[COMMIT_KEY]);
    hide Less, OnlyPair, EndsInBackslash;
    forall k | k in after && Less(COMMIT_KEY, k)
      ensures k == VERSION_KEY || Less(VERSION_KEY, k)
    {
      NoneBetween(after, keys, i, k);
    }
    forall k, l | k in after && l in after && k != COMMIT_KEY && Less(k, l)
      ensures !EndsInBackslash(after[k])
    {
      OthersEndPlain(after, keys, i, k, l);
    }
  }

  lemma NextPlaces(after: Attributes, keys: seq<string>, i: nat, m: nat)
    requires KeysOf(after, keys) && VersionNext(after)
    requires i < |keys| && m < |keys| && keys[i] == COMMIT_KEY && keys[m] == VERSION_KEY
    ensures m == i + 1
  {
    KeysOfUpdate();
    hide Less, Distinct, EndsInBackslash, KeyList, Trimmed;
    PlacesOrdered(keys, i, m);
    PlacesOrdered(keys, i, i + 1);
    PlacesOrdered(keys, m, i + 1);
    assert keys[i + 1] in after by { assert i + 1 <= m; assert KeyList(after, keys); InKeys(after, keys, i + 1); }
  }

  lemma InKeys(after: Attributes, keys: seq<string>, j: nat)
    requires KeyList(after, keys) && j < |keys|
    ensures keys[j] in after
  {
  }

  lemma OnlyCommitSwallows(after: Attributes, keys: seq<string>, i: nat, j: nat)
    requires KeysOf(after, keys) && VersionNext(after) && i + 1 < |keys| && keys[i] == COMMIT_KEY && j < |keys|
    ensures Swallowing(after, keys, j) <==> j == i
  {
    if j != i && j < |keys| - 1 {
      assert keys[j] != keys[i];
      InKeys(after, keys, j);
      InKeys(after, keys, j + 1);
      hide Less, KeyList, Distinct, EndsInBackslash;
      PlacesOrdered(keys, j, j + 1);
    }
  }

  lemma CommitAlone(after: Attributes, keys: seq<string>, i: nat)
    requires KeysOf(after, keys) && VersionNext(after) && i + 1 < |keys| && keys[i] == COMMIT_KEY
    ensures SwallowsAlone(after, keys, i)
  {
    assert KeyList(after, keys);
    hide KeysOf, VersionNext, Swallowing, KeyList;
    forall j | 0 <= j < |keys|
      ensures Swallowing(after, keys, j) <==> j == i
    {
      OnlyCommitSwallows(after, keys, i, j);
    }
  }

  lemma NextIsPair(after: Attributes, keys: seq<string>) returns (i: nat)
    requires KeysOf(after, keys) && VersionNext(after)
    ensures OnlyPair(after, keys, i)
  {
    assert COMMIT_KEY in after && VERSION_KEY in after;
    i := PlaceOf(after, keys, COMMIT_KEY);
    var m := PlaceOf(after, keys, VERSION_KEY);
    NextPlaces(after, keys, i, m);
    CommitAlone(after, keys, i);
    hide KeysOf, VersionNext, SwallowsAlone;
  }

  lemma NotBoth(after: Attributes)
    requires VersionNext(after)
    ensures !OnlyLastEndsInBackslash(after)
  {
    KeysOfUpdate();
    hide Less;
  }

  lemma SwallowedAlone(before: Attributes, after: Attributes, keys: seq<string>, i: nat, version: string, sha: string,
                       isExpansionSupported: bool)
    requires IsUpdated(before, after, version, sha, isExpansionSupported) && KeysOf(after, keys)
    requires i < |keys| && Swallowing(after, keys, i) && keys[i] == COMMIT_KEY
    requires Updated(Reread(after, keys), version, sha, isExpansionSupported) == after
    ensures SwallowsAlone(after, keys, i)
  {
    assert Distinct(keys) && KeyList(after, keys);
    hide Updated, Reread, IsUpdated, KeysOf, Swallowing, KeyList;
    forall j | 0 <= j < |keys|
      ensures Swallowing(after, keys, j) <==> j == i
    {
      if Swallowing(after, keys, j) {
        SwallowedPair(before, after, keys, j, version, sha, isExpansionSupported);
      }
    }
  }

  lemma SwallowedIsPair(before: Attributes, after: Attributes, keys: seq<string>, i: nat, version: string, sha: string,
                        isExpansionSupported: bool)
    requires IsUpdated(before, after, version, sha, isExpansionSupported) && KeysOf(after, keys)
    requires Swallowing(after, keys, i)
    requires Updated(Reread(after, keys), version, sha, isExpansionSupported) == after
    ensures OnlyPair(after, keys, i)
  {
    assert i + 1 < |keys| && KeyList(after, keys);
    hide Updated, Reread, IsUpdated, KeysOf, Swallowing, KeyList, SwallowsAlone;
    SwallowedPair(before, after, keys, i, version, sha, isExpansionSupported);
    SwallowedAlone(before, after, keys, i, version, sha, isExpansionSupported);
  }

  lemma SwallowedSettles(before: Attributes, after: Attributes, keys: seq<string>, version: string, sha: string,
                         isExpansionSupported: bool)
    requires IsUpdated(before, after, version, sha, isExpansionSupported) && KeysOf(after, keys)
    requires !OnlyLastEndsInBackslash(after)
    requires Updated(Reread(after, keys), version, sha, isExpansionSupported) == after
    ensures OnlyVersionSwallowed(after, version, sha, isExpansionSupported)
  {
    NoneSwallows(after, keys);
    var i: nat :| i < |keys| && Swallowing(after, keys, i);
    SwallowedIsPair(before, after, keys, i, version, sha, isExpansionSupported);
    hide Updated, Reread, Swallowing, KeysOf, IsUpdated, OnlyLastEndsInBackslash, TrimLeft, TrimRight,
         VersionNext, OnlyPair;
    PairIsNext(after, keys, i);
    PairSettles(before, after, keys, i, version, sha, isExpansionSupported);
    assert VersionNext(after);
  }

  lemma SettlesIff(before: Attributes, after: Attributes, keys: seq<string>, version: string, sha: string,
                   isExpansionSupported: bool)
    requires after == Updated(before, version, sha, isExpansionSupported)
    requires IsUpdated(before, after, version, sha, isExpansionSupported) && KeysOf(after, keys)
    ensures Updated(Reread(after, keys), version, sha, isExpansionSupported) == after <==>
            Settles(before, version, sha, isExpansionSupported)
  {
    hide Updated, Reread, IsUpdated, Ascending, KeyList, OnlyLastEndsInBackslash, TrimLeft, TrimRight,
         VersionNext, Stays, EndsInParenthesis;
    if OnlyLastEndsInBackslash(after) {
      NoneSwallows(after, keys);
      AloneSettles(before, after, keys, version, sha, isExpansionSupported);
      if VersionNext(after) {
        NotBoth(after);
      }
    } else {
      if Updated(Reread(after, keys), version, sha, isExpansionSupported) == after {
        SwallowedSettles(before, after, keys, version, sha, isExpansionSupported);
      }
      if OnlyVersionSwallowed(after, version, sha, isExpansionSupported) {
        var p := NextIsPair(after, keys);
        PairSettles(before, after, keys, p, version, sha, isExpansionSupported);
      }
    }
  }

  /**
    Updating again with the same version and commit changes nothing, for a text that parses, exactly if
    the condition above holds of the map it is parsed to; and always for a text that does not parse.
  */
  lemma UpdateIdempotent(input: string, version: string, sha: string, isExpansionSupported: bool)
    ensures Update(Update(input, version, sha, isExpansionSupported), version, sha, isExpansionSupported)
            == Update(input, version, sha, isExpansionSupported)
            <==> (Parse(input).Ok? ==> Settles(Parse(input).value, version, sha, isExpansionSupported))
  {
    if Parse(input).Ok? {
      var before := Parse(input).value;
      var after := Updated(before, version, sha, isExpansionSupported);
      var keys := SortedList(after.Keys);
      ParsedIsClean(input);
      UpdateIsUpdated(before, version, sha, isExpansionSupported);
      hide Parse, Print, Updated, Reread, IsUpdated, Settles, CleanAttributes;
      SameTextSameMap(input, version, sha, isExpansionSupported, keys);
      SortedAre(after, keys);
      SettlesIff(before, after, keys, version, sha, isExpansionSupported);
    }
  }

  /** Where it fails: any value but the last printed one that ends in a backslash, and is not written again. */
  lemma FailingInput(version: string, sha: string, isExpansionSupported: bool)
    ensures var once := Update("a=x\\\\", version, sha, isExpansionSupported);
            Update(once, version, sha, isExpansionSupported) != once
  {
    var before := map["a" := "x\\"];
    var after := Updated(before, version, sha, isExpansionSupported);
    ParsedExample(before);
    UpdatedSets(before, version, sha, isExpansionSupported);
    assert Less("a", VERSION_KEY) && "a" != COMMIT_KEY && "a" != VERSION_KEY;
    assert "a" in after && VERSION_KEY in after && EndsInBackslash(after["a"]);
    UpdateIdempotent("a=x\\\\", version, sha, isExpansionSupported);
    hide Parse, Update, Updated, Less, EndsInBackslash;
    assert !VersionNext(after) && !OnlyLastEndsInBackslash(after);
  }

  lemma ParsedExample(attrs: Attributes)
    requires attrs == map["a" := "x\\"]
    ensures Parse("a=x\\\\") == Ok(attrs)
  {
    assert forall k | k in attrs :: k == "a";
    ExamplePrinted(attrs);
    hide Parse, Print;
    RoundTrip(attrs);
  }

  lemma ExamplePrinted(attrs: Attributes)
    requires attrs == map["a" := "x\\"]
    ensures Print(attrs) == "a=x\\\\"
  {
    SortedKeys(attrs, SortedList(attrs.Keys));
    AscendingUnique(SortedList(attrs.Keys), ["a"]);
    hide PrintKeys;
    PrintedExample(attrs);
  }

  lemma PrintedExample(attrs: Attributes)
    requires attrs == map["a" := "x\\"]
    ensures PrintKeys(attrs, ["a"]) == "a=x\\\\"
  {
    assert Escape("a") == "a" && Escape("x\\") == "x\\\\";
  }
}
