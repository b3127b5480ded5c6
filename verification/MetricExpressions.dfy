/** Rewriting metric expressions to use generated ids (aws/cloudwatch/metrics/mappings.go). */
module MetricExpressions {
  import opened Visiting

  type Ids = map<string, string>

  predicate IsWordChar(c: char) {
    'a' <= c <= 'z' || 'A' <= c <= 'Z' || '0' <= c <= '9' || c == '_'
  }

  predicate IsWord(s: string) {
    s != "" && forall i | 0 <= i < |s| :: IsWordChar(s[i])
  }

  // ----- The pattern (^|[^a-zA-Z0-9_])(id)([^a-zA-Z0-9_]|$) on characters -----

  /** The id stands at `k`, before a separator or the end. */
  predicate IdAt(s: string, k: nat, id: string) {
    k + |id| <= |s| && s[k..k + |id|] == id && (k + |id| == |s| || !IsWordChar(s[k + |id|]))
  }

  /**
    Go's ReplaceAllString from `k` on: matches are taken from left to right and do not overlap, so a
    separator that ended one match cannot begin the next. Only position 0 is the start of the text.
  */
  function Scan(s: string, k: nat, id: string, gen: string): string
    requires k <= |s| && id != ""
    decreases |s| - k
  {
    if k == |s| then ""
    else if k == 0 && IdAt(s, 0, id) then gen + AfterMatch(s, |id|, id, gen)
    else if !IsWordChar(s[k]) && IdAt(s, k + 1, id) then [s[k]] + gen + AfterMatch(s, k + 1 + |id|, id, gen)
    else [s[k]] + Scan(s, k + 1, id, gen)
  }

  /** The separator that ended a match, and the rest. */
  function AfterMatch(s: string, k: nat, id: string, gen: string): string
    requires k <= |s| && id != ""
    decreases |s| - k
  {
    if k == |s| then "" else [s[k]] + Scan(s, k + 1, id, gen)
  }

  /** The empty id stands between two separators, or between one and an end of the text. */
  function ScanEmpty(s: string, k: nat, gen: string): string
    requires k <= |s|
    decreases |s| - k
  {
    if k == 0 && s == "" then gen
    else if k == |s| then ""
    else if IsWordChar(s[k]) then [s[k]] + ScanEmpty(s, k + 1, gen)
    else if k == 0 then gen + [s[k]] + ScanEmpty(s, k + 1, gen)
    else if k + 1 == |s| then [s[k]] + gen
    else if IsWordChar(s[k + 1]) then [s[k]] + ScanEmpty(s, k + 1, gen)
    else [s[k]] + gen + [s[k + 1]] + ScanEmpty(s, k + 2, gen)
  }

  function ReplaceId(s: string, id: string, gen: string): string {
    if id == "" then ScanEmpty(s, 0, gen) else Scan(s, 0, id, gen)
  }

  /** The ids replaced one after the other, in this order. */
  function ReplaceInOrder(expr: string, ids: Ids, order: seq<string>): string
    requires Within(order, ids.Keys)
  {
    if order == [] then expr
    else var n := |order| - 1; ReplaceId(ReplaceInOrder(expr, ids, order[..n]), order[n], ids[order[n]])
  }

  /** The ids replaced in some order. */
  ghost predicate IsRewrite(result: string, expr: string, ids: Ids) {
    exists order :: IsOrder(order, ids.Keys) && result == ReplaceInOrder(expr, ids, order)
  }

  method ReplaceExpressionWithGeneratedIds(expr: string, ids: Ids) returns (result: string)
    ensures IsRewrite(result, expr, ids)
  {
    result := expr;
    ghost var order: seq<string> := [];
    var todo := ids.Keys;
    while todo != {}
      invariant todo <= ids.Keys && IsOrder(order, ids.Keys - todo)
      invariant result == ReplaceInOrder(expr, ids, order)
      decreases todo
    {
      var id :| id in todo;
      todo := todo - {id};
      result := ReplaceId(result, id, ids[id]);
      assert (order + [id])[..|order|] == order;
      order := order + [id];
    }
  }

  // ----- Reading an expression as words and separators -----

  datatype Token = Word(text: string) | Sep(c: char)

  function Spelling(t: Token): string {
    match t
    case Word(text) => text
    case Sep(c) => [c]
  }

  /** The text of the tokens from `k` on. */
  function Render(ts: seq<Token>, k: nat): string
    requires k <= |ts|
    decreases |ts| - k
  {
    if k == |ts| then "" else Spelling(ts[k]) + Render(ts, k + 1)
  }

  /** Words are maximal runs of word characters. */
  predicate IsTokens(ts: seq<Token>) {
    && (forall i | 0 <= i < |ts| :: if ts[i].Word? then IsWord(ts[i].text) else !IsWordChar(ts[i].c))
    && (forall i | 0 <= i < |ts| - 1 && ts[i].Word? :: ts[i + 1].Sep?)
  }

  function Tokenize(s: string): seq<Token> {
    if s == "" then []
    else
      var rest := Tokenize(s[1..]);
      if !IsWordChar(s[0]) then [Sep(s[0])] + rest
      else if rest != [] && rest[0].Word? then [Word([s[0]] + rest[0].text)] + rest[1..]
      else [Word([s[0]])] + rest
  }

  lemma {:induction false} RenderCons(t: Token, ts: seq<Token>, k: nat)
    requires k <= |ts|
    ensures Render([t] + ts, k + 1) == Render(ts, k)
    decreases |ts| - k
  {
    hide Spelling;
    if k < |ts| {
      var all: seq<Token> := [t] + ts;
      assert all[k + 1] == ts[k];
      RenderCons(t, ts, k + 1);
    }
  }

  lemma RenderSplit(ts: seq<Token>)
    requires ts != []
    ensures Render(ts, 0) == Spelling(ts[0]) + Render(ts[1..], 0)
  {
    hide Spelling;
    RenderCons(ts[0], ts[1..], 0);
    assert ts == [ts[0]] + ts[1..];
  }

  /** Every text has such a reading. */
  lemma {:induction false} TokenizeIsTokens(s: string)
    ensures IsTokens(Tokenize(s))
  {
    if s != "" {
      TokenizeIsTokens(s[1..]);
      hide IsWordChar;
    }
  }

  lemma TokenizeCons(s: string)
    requires s != ""
    ensures Render(Tokenize(s), 0) == [s[0]] + Render(Tokenize(s[1..]), 0)
  {
    var rest, all := Tokenize(s[1..]), Tokenize(s);
    if rest != [] && rest[0].Word? && IsWordChar(s[0]) {
      assert all == [Word([s[0]] + rest[0].text)] + rest[1..];
      hide *;
      GrowWord(s[0], rest);
    } else {
      var t := if IsWordChar(s[0]) then Word([s[0]]) else Sep(s[0]);
      assert all == [t] + rest && Spelling(t) == [s[0]];
      hide *;
      RenderSplit(all);
      assert all[1..] == rest;
    }
  }

  lemma GrowWord(c: char, ts: seq<Token>)
    requires ts != [] && ts[0].Word?
    ensures Render([Word([c] + ts[0].text)] + ts[1..], 0) == [c] + Render(ts, 0)
  {
    hide Render;
    var all: seq<Token> := [Word([c] + ts[0].text)] + ts[1..];
    RenderSplit(all);
    RenderSplit(ts);
    assert all[1..] == ts[1..];
    assert ([c] + ts[0].text) + Render(ts[1..], 0) == [c] + (ts[0].text + Render(ts[1..], 0));
  }

  lemma {:induction false} TokenizeRenders(s: string)
    ensures Render(Tokenize(s), 0) == s
  {
    if s != "" {
      TokenizeCons(s);
      hide *;
      TokenizeRenders(s[1..]);
      assert s == [s[0]] + s[1..];
    }
  }

  lemma {:induction false} TokenizeWord(w: string, rest: string)
    requires IsWord(w) && (rest != "" ==> !IsWordChar(rest[0]))
    ensures Tokenize(w + rest) == [Word(w)] + Tokenize(rest)
  {
    var all := w + rest;
    assert all[0] == w[0] && IsWordChar(w[0]);
    if |w| == 1 {
      assert all[1..] == rest && [w[0]] == w;
      assert rest != "" ==> Tokenize(rest)[0].Sep?;
    } else {
      assert all[1..] == w[1..] + rest;
      TokenizeWord(w[1..], rest);
      assert [w[0]] + w[1..] == w;
    }
  }

  /** There is only one reading. */
  lemma {:induction false} TokenizeUnique(ts: seq<Token>, k: nat)
    requires IsTokens(ts) && k <= |ts|
    ensures Tokenize(Render(ts, k)) == ts[k..]
    decreases |ts| - k
  {
    if k < |ts| {
      TokenizeUnique(ts, k + 1);
      var rest := Render(ts, k + 1);
      assert ts[k..] == [ts[k]] + ts[k + 1..];
      if ts[k].Sep? {
        assert Render(ts, k)[1..] == rest;
      } else {
        assert IsWord(ts[k].text);
        assert rest != "" ==> !IsWordChar(rest[0]) by { if k + 1 < |ts| { assert ts[k + 1].Sep?; } }
        hide IsTokens, IsWord, Tokenize;
        TokenizeWord(ts[k].text, rest);
      }
    }
  }

  // ----- One id -----

  /** A word is taken by the pattern of its own text unless the same word two places before it was. */
  predicate Hit(ts: seq<Token>, i: nat)
    requires i < |ts|
  {
    i >= 2 ==> ts[i - 2] != ts[i] || !Hit(ts, i - 2)
  }

  function RenameHits(ts: seq<Token>, id: string, gen: string): seq<Token> {
    seq(|ts|, i requires 0 <= i < |ts| => if ts[i] == Word(id) && Hit(ts, i) then Word(gen) else ts[i])
  }

  lemma PassChar(s: string, p: nat, id: string, gen: string)
    requires p < |s| && id != "" && IsWordChar(s[p]) && (p == 0 ==> !IdAt(s, 0, id))
    ensures Scan(s, p, id, gen) == [s[p]] + Scan(s, p + 1, id, gen)
  {
  }

  lemma {:induction false} PassWord(s: string, p: nat, n: nat, id: string, gen: string)
    requires p + n <= |s| && id != "" && (forall i | p <= i < p + n :: IsWordChar(s[i])) && (p == 0 ==> !IdAt(s, 0, id))
    ensures Scan(s, p, id, gen) == s[p..p + n] + Scan(s, p + n, id, gen)
    decreases n
  {
    hide *;
    if n == 0 {
      assert s[p..p] == "";
    } else {
      PassChar(s, p, id, gen);
      PassWord(s, p + 1, n - 1, id, gen);
      assert s[p..p + n] == [s[p]] + s[p + 1..p + n];
    }
  }

  /** At a word, the id is found exactly if it is the whole word. */
  lemma WholeWord(s: string, p: nat, w: string, id: string)
    requires IsWord(w) && IsWord(id) && p + |w| <= |s| && s[p..p + |w|] == w
    requires p + |w| == |s| || !IsWordChar(s[p + |w|])
    ensures IdAt(s, p, id) <==> w == id
  {
    hide IsWordChar;
    assert forall i | p <= i < p + |w| :: s[i] == w[i - p];
    if IdAt(s, p, id) {
      assert forall i | p <= i < p + |id| :: s[i] == s[p..p + |id|][i - p] == id[i - p];
      assert |w| == |id|;
    }
  }

  /** Position `p` of the text is where token `k` begins. */
  ghost predicate TokenAt(s: string, ts: seq<Token>, p: nat, k: nat) {
    k <= |ts| && p <= |s| && s[p..] == Render(ts, k) && (k == 0 <==> p == 0)
  }

  lemma NextToken(s: string, ts: seq<Token>, p: nat, k: nat)
    requires TokenAt(s, ts, p, k) && k < |ts| && IsTokens(ts)
    ensures var n := |Spelling(ts[k])|;
            n > 0 && p + n <= |s| && s[p..p + n] == Spelling(ts[k]) && TokenAt(s, ts, p + n, k + 1)
  {
  }

  lemma SepHere(s: string, ts: seq<Token>, p: nat, k: nat)
    requires TokenAt(s, ts, p, k) && k < |ts| && IsTokens(ts) && ts[k].Sep?
    ensures p < |s| && s[p] == ts[k].c && !IsWordChar(s[p]) && TokenAt(s, ts, p + 1, k + 1)
  {
  }

  lemma WordHere(s: string, ts: seq<Token>, p: nat, k: nat, id: string)
    requires TokenAt(s, ts, p, k) && k < |ts| && IsTokens(ts) && ts[k].Word? && IsWord(id)
    ensures var n := |ts[k].text|;
            && n > 0 && p + n <= |s| && s[p..p + n] == ts[k].text && (forall i | p <= i < p + n :: IsWordChar(s[i]))
            && TokenAt(s, ts, p + n, k + 1) && (IdAt(s, p, id) <==> ts[k].text == id)
  {
    var w := ts[k].text;
    NextToken(s, ts, p, k);
    assert IsWord(w);
    assert forall i | p <= i < p + |w| :: s[i] == w[i - p];
    if k + 1 < |ts| {
      SepHere(s, ts, p + |w|, k + 1);
    } else {
      assert s[p + |w|..] == "";
    }
    WholeWord(s, p, w, id);
  }

  /** The scan for `id` is at position `p`, where token `k` begins. */
  ghost predicate ScanAt(s: string, ts: seq<Token>, p: nat, k: nat, id: string) {
    TokenAt(s, ts, p, k) && IsTokens(ts) && IsWord(id)
  }

  /** Not after a match, and not at a word that the scan has to leave. */
  ghost predicate Fresh(ts: seq<Token>, k: nat, id: string) {
    0 < k < |ts| ==>
      && (ts[k] == Word(id) ==> !Hit(ts, k))
      && (ts[k].Sep? && ts[k - 1] == Word(id) ==> !Hit(ts, k - 1))
  }

  lemma NoIdAtSep(s: string, p: nat, id: string)
    requires p <= |s| && (p < |s| ==> !IsWordChar(s[p])) && IsWord(id)
    ensures !IdAt(s, p, id)
  {
    if p + |id| <= |s| {
      assert s[p..p + |id|][0] == s[p];
    }
  }

  lemma NextIsNoWord(s: string, ts: seq<Token>, p: nat, k: nat)
    requires TokenAt(s, ts, p, k) && IsTokens(ts) && (k == |ts| || ts[k].Sep?)
    ensures p < |s| ==> !IsWordChar(s[p])
  {
    if k < |ts| {
      SepHere(s, ts, p, k);
    } else {
      assert |s[p..]| == 0;
    }
  }

  lemma IdAtWord(s: string, ts: seq<Token>, p: nat, k: nat, id: string)
    requires ScanAt(s, ts, p, k, id)
    ensures IdAt(s, p, id) <==> k < |ts| && ts[k] == Word(id)
  {
    hide IsTokens, IsWord, IsWordChar, IdAt, Render;
    if k < |ts| && ts[k].Word? {
      WordHere(s, ts, p, k, id);
    } else {
      NextIsNoWord(s, ts, p, k);
      NoIdAtSep(s, p, id);
    }
  }

  /** From `p` the scan copies this token and goes on at `q`. */
  ghost predicate Copies(s: string, p: nat, q: nat, t: Token, id: string, gen: string) {
    id != "" && p < |s| && q <= |s| && Scan(s, p, id, gen) == Spelling(t) + Scan(s, q, id, gen)
  }

  /** From `p` the scan copies this token, replaces the id after it, and is after that match at `q`. */
  ghost predicate CopiesAndHits(s: string, p: nat, q: nat, t: Token, id: string, gen: string) {
    id != "" && p < |s| && q <= |s| && Scan(s, p, id, gen) == Spelling(t) + (gen + AfterMatch(s, q, id, gen))
  }

  /** From `p` the scan replaces the id that begins the text. */
  ghost predicate HitsAtStart(s: string, p: nat, q: nat, id: string, gen: string) {
    id != "" && p <= |s| && q <= |s| && Scan(s, p, id, gen) == gen + AfterMatch(s, q, id, gen)
  }

  /** After a match, the separator that ended it is copied. */
  ghost predicate CopiesAfterHit(s: string, p: nat, t: Token, id: string, gen: string) {
    && id != "" && p < |s| && Spelling(t) == [s[p]]
    && AfterMatch(s, p, id, gen) == Spelling(t) + Scan(s, p + 1, id, gen)
  }

  lemma WordStep(s: string, ts: seq<Token>, p: nat, k: nat, id: string, gen: string)
    requires ScanAt(s, ts, p, k, id) && k < |ts| && id != "" && ts[k].Word?
    ensures var q := p + |Spelling(ts[k])|;
            && ScanAt(s, ts, q, k + 1, id) && p < q <= |s|
            && (k > 0 || ts[k].text != id ==> Copies(s, p, q, ts[k], id, gen))
            && (k == 0 && ts[k] == Word(id) ==> HitsAtStart(s, p, q, id, gen))
  {
    assert Spelling(ts[k]) == ts[k].text && (k == 0 <==> p == 0);
    WordHere(s, ts, p, k, id);
    hide TokenAt, IsTokens, IsWord, IsWordChar, IdAt, Spelling;
    if k == 0 && ts[k] == Word(id) {
      hide AfterMatch;
    } else {
      hide Scan;
      PassWord(s, p, |ts[k].text|, id, gen);
    }
  }

  lemma ScanSeparator(s: string, p: nat, id: string, gen: string)
    requires p < |s| && id != "" && !IsWordChar(s[p]) && !IdAt(s, p, id)
    ensures !IdAt(s, p + 1, id) ==> Scan(s, p, id, gen) == [s[p]] + Scan(s, p + 1, id, gen)
    ensures IdAt(s, p + 1, id) ==> p + 1 + |id| <= |s|
    ensures IdAt(s, p + 1, id) ==> Scan(s, p, id, gen) == [s[p]] + (gen + AfterMatch(s, p + 1 + |id|, id, gen))
    ensures AfterMatch(s, p, id, gen) == [s[p]] + Scan(s, p + 1, id, gen)
  {
    if IdAt(s, p + 1, id) {
      var rest := AfterMatch(s, p + 1 + |id|, id, gen);
      assert Scan(s, p, id, gen) == [s[p]] + gen + rest;
      assert [s[p]] + gen + rest == [s[p]] + (gen + rest);
    }
  }

  lemma SepStep(s: string, ts: seq<Token>, p: nat, k: nat, id: string, gen: string)
    requires ScanAt(s, ts, p, k, id) && k < |ts| && id != "" && ts[k].Sep?
    ensures ScanAt(s, ts, p + 1, k + 1, id) && p < |s|
    ensures !IdAt(s, p + 1, id) ==> Copies(s, p, p + 1, ts[k], id, gen)
    ensures IdAt(s, p + 1, id) ==> CopiesAndHits(s, p, p + 1 + |id|, ts[k], id, gen)
    ensures CopiesAfterHit(s, p, ts[k], id, gen)
  {
    hide TokenAt, IsTokens, IsWord, IsWordChar, IdAt, Scan, AfterMatch;
    SepHere(s, ts, p, k);
    NoIdAtSep(s, p, id);
    ScanSeparator(s, p, id, gen);
  }

  /** From token `k` on, the scan has replaced exactly the hits. */
  ghost predicate Replaced(s: string, ts: seq<Token>, p: nat, k: nat, id: string, gen: string) {
    id != "" && p <= |s| && k <= |ts| && Scan(s, p, id, gen) == Render(RenameHits(ts, id, gen), k)
  }

  ghost predicate ReplacedAfterHit(s: string, ts: seq<Token>, p: nat, k: nat, id: string, gen: string) {
    id != "" && p <= |s| && k <= |ts| && AfterMatch(s, p, id, gen) == Render(RenameHits(ts, id, gen), k)
  }

  /** The scan replaces exactly the hits. */
  lemma {:induction false} ScanTokens(s: string, ts: seq<Token>, p: nat, k: nat, id: string, gen: string)
    requires ScanAt(s, ts, p, k, id) && Fresh(ts, k, id)
    ensures Replaced(s, ts, p, k, id, gen)
    decreases |ts| - k, 1
  {
    assert k <= |ts|;
    hide *;
    if k == |ts| {
      AtEnd(s, ts, p, id, gen);
    } else if k == 0 && ts[k] == Word(id) {
      ScanStart(s, ts, p, k, id, gen);
    } else if k + 1 < |ts| && ts[k].Sep? && ts[k + 1] == Word(id) {
      ScanSep(s, ts, p, k, id, gen);
    } else {
      ScanPast(s, ts, p, k, id, gen);
    }
  }

  lemma {:induction false} ScanStart(s: string, ts: seq<Token>, p: nat, k: nat, id: string, gen: string)
    requires ScanAt(s, ts, p, k, id) && k == 0 < |ts| && ts[k] == Word(id)
    ensures Replaced(s, ts, p, k, id, gen)
    decreases |ts| - k, 0
  {
    assert Hit(ts, k);
    hide *;
    var q := StartHit(s, ts, p, k, id, gen);
    AfterHit(s, ts, q, k + 1, id, gen);
    StartReplaced(s, ts, p, k, q, id, gen);
  }

  lemma {:induction false} ScanSep(s: string, ts: seq<Token>, p: nat, k: nat, id: string, gen: string)
    requires ScanAt(s, ts, p, k, id) && Fresh(ts, k, id) && k + 1 < |ts| && ts[k].Sep? && ts[k + 1] == Word(id)
    ensures Replaced(s, ts, p, k, id, gen)
    decreases |ts| - k, 0
  {
    hide *;
    FreshNext(s, ts, p, k, id);
    var q := SepHit(s, ts, p, k, id, gen);
    AfterHit(s, ts, q, k + 2, id, gen);
    SepReplaced(s, ts, p, k, q, id, gen);
  }

  lemma {:induction false} ScanPast(s: string, ts: seq<Token>, p: nat, k: nat, id: string, gen: string)
    requires ScanAt(s, ts, p, k, id) && Fresh(ts, k, id) && k < |ts| && !(k == 0 && ts[k] == Word(id))
    requires !(k + 1 < |ts| && ts[k].Sep? && ts[k + 1] == Word(id))
    ensures Replaced(s, ts, p, k, id, gen)
    decreases |ts| - k, 0
  {
    hide *;
    FreshNext(s, ts, p, k, id);
    var q := PassToken(s, ts, p, k, id, gen);
    ScanTokens(s, ts, q, k + 1, id, gen);
    PassReplaced(s, ts, p, k, q, id, gen);
  }

  /** After a hit, the separator that follows is used up. */
  lemma {:induction false} AfterHit(s: string, ts: seq<Token>, q: nat, k: nat, id: string, gen: string)
    requires ScanAt(s, ts, q, k, id) && 0 < k <= |ts| && ts[k - 1] == Word(id) && Hit(ts, k - 1)
    ensures ReplacedAfterHit(s, ts, q, k, id, gen)
    decreases |ts| - k, 2
  {
    assert id != "";
    hide *;
    if k == |ts| {
      AtEnd(s, ts, q, id, gen);
    } else {
      FreshAfterHit(s, ts, q, k, id);
      SepStep(s, ts, q, k, id, gen);
      ScanTokens(s, ts, q + 1, k + 1, id, gen);
      HitReplaced(s, ts, q, k, id, gen);
    }
  }

  /** Whether the scan stays fresh, and where the next hit is. */
  lemma FreshNext(s: string, ts: seq<Token>, p: nat, k: nat, id: string)
    requires ScanAt(s, ts, p, k, id) && Fresh(ts, k, id) && k < |ts|
    ensures if k == 0 && ts[k] == Word(id) then Hit(ts, k)
            else if k + 1 < |ts| && ts[k].Sep? && ts[k + 1] == Word(id) then Hit(ts, k + 1)
            else Fresh(ts, k + 1, id)
    ensures k > 0 && ts[k] == Word(id) ==> !Hit(ts, k)
  {
  }

  lemma FreshAfterHit(s: string, ts: seq<Token>, q: nat, k: nat, id: string)
    requires ScanAt(s, ts, q, k, id) && 0 < k < |ts| && ts[k - 1] == Word(id) && Hit(ts, k - 1)
    ensures ts[k].Sep? && Fresh(ts, k + 1, id)
  {
    assert ts[k].Sep?;
    hide ScanAt;
    assert k + 1 < |ts| && ts[k + 1] == Word(id) ==> !Hit(ts, k + 1);
  }

  // The four ways the scan moves on, and what each adds to the text.

  lemma StartHit(s: string, ts: seq<Token>, p: nat, k: nat, id: string, gen: string) returns (q: nat)
    requires ScanAt(s, ts, p, k, id) && k == 0 < |ts| && ts[k] == Word(id)
    ensures ScanAt(s, ts, q, k + 1, id) && HitsAtStart(s, p, q, id, gen)
  {
    q := p + |id|;
    assert id != "" && p <= |s| && Spelling(ts[k]) == id;
    hide *;
    WordStep(s, ts, p, k, id, gen);
  }

  lemma StartReplaced(s: string, ts: seq<Token>, p: nat, k: nat, q: nat, id: string, gen: string)
    requires k < |ts| && ts[k] == Word(id) && Hit(ts, k) && ReplacedAfterHit(s, ts, q, k + 1, id, gen)
    requires HitsAtStart(s, p, q, id, gen)
    ensures Replaced(s, ts, p, k, id, gen)
  {
  }

  lemma SepHit(s: string, ts: seq<Token>, p: nat, k: nat, id: string, gen: string) returns (q: nat)
    requires ScanAt(s, ts, p, k, id) && k + 1 < |ts| && ts[k].Sep? && ts[k + 1] == Word(id)
    ensures ScanAt(s, ts, q, k + 2, id) && CopiesAndHits(s, p, q, ts[k], id, gen)
  {
    q := p + 1 + |id|;
    assert id != "" && Spelling(ts[k + 1]) == id;
    hide *;
    SepStep(s, ts, p, k, id, gen);
    IdAtWord(s, ts, p + 1, k + 1, id);
    WordStep(s, ts, p + 1, k + 1, id, gen);
  }

  lemma SepReplaced(s: string, ts: seq<Token>, p: nat, k: nat, q: nat, id: string, gen: string)
    requires k + 1 < |ts| && ts[k].Sep? && ts[k + 1] == Word(id) && Hit(ts, k + 1)
    requires ReplacedAfterHit(s, ts, q, k + 2, id, gen) && CopiesAndHits(s, p, q, ts[k], id, gen)
    ensures Replaced(s, ts, p, k, id, gen)
  {
  }

  /** A word that is not the id at the start, passed over. */
  lemma LeaveWord(s: string, ts: seq<Token>, p: nat, k: nat, id: string, gen: string) returns (q: nat)
    requires ScanAt(s, ts, p, k, id) && k < |ts| && ts[k].Word? && !(k == 0 && ts[k] == Word(id))
    ensures ScanAt(s, ts, q, k + 1, id) && Copies(s, p, q, ts[k], id, gen)
  {
    q := p + |Spelling(ts[k])|;
    IdOf(s, ts, p, k, id);
    hide *;
    WordStep(s, ts, p, k, id, gen);
    assert ts[k] == Word(ts[k].text);
  }

  /** A separator that is not before the id, passed over. */
  lemma LeaveSep(s: string, ts: seq<Token>, p: nat, k: nat, id: string, gen: string) returns (q: nat)
    requires ScanAt(s, ts, p, k, id) && k < |ts| && ts[k].Sep? && !(k + 1 < |ts| && ts[k + 1] == Word(id))
    ensures ScanAt(s, ts, q, k + 1, id) && Copies(s, p, q, ts[k], id, gen)
  {
    q := p + 1;
    IdOf(s, ts, p, k, id);
    hide *;
    SepStep(s, ts, p, k, id, gen);
    IdAtWord(s, ts, p + 1, k + 1, id);
  }

  lemma IdOf(s: string, ts: seq<Token>, p: nat, k: nat, id: string)
    requires ScanAt(s, ts, p, k, id)
    ensures id != ""
  {
  }

  lemma PassToken(s: string, ts: seq<Token>, p: nat, k: nat, id: string, gen: string) returns (q: nat)
    requires ScanAt(s, ts, p, k, id) && k < |ts| && !(k == 0 && ts[k] == Word(id))
    requires !(k + 1 < |ts| && ts[k].Sep? && ts[k + 1] == Word(id))
    ensures ScanAt(s, ts, q, k + 1, id) && Copies(s, p, q, ts[k], id, gen)
  {
    hide *;
    if ts[k].Word? {
      q := LeaveWord(s, ts, p, k, id, gen);
    } else {
      q := LeaveSep(s, ts, p, k, id, gen);
    }
  }

  lemma PassReplaced(s: string, ts: seq<Token>, p: nat, k: nat, q: nat, id: string, gen: string)
    requires k < |ts| && (ts[k] == Word(id) ==> !Hit(ts, k)) && Replaced(s, ts, q, k + 1, id, gen)
    requires Copies(s, p, q, ts[k], id, gen)
    ensures Replaced(s, ts, p, k, id, gen)
  {
  }

  lemma HitReplaced(s: string, ts: seq<Token>, q: nat, k: nat, id: string, gen: string)
    requires k < |ts| && ts[k].Sep? && Replaced(s, ts, q + 1, k + 1, id, gen) && CopiesAfterHit(s, q, ts[k], id, gen)
    ensures ReplacedAfterHit(s, ts, q, k, id, gen)
  {
  }

  lemma AtEnd(s: string, ts: seq<Token>, q: nat, id: string, gen: string)
    requires ScanAt(s, ts, q, |ts|, id)
    ensures Replaced(s, ts, q, |ts|, id, gen) && ReplacedAfterHit(s, ts, q, |ts|, id, gen)
  {
  }

  /** Replacing one id in a text renames the hits among its words. */
  lemma ReplaceIdRenames(ts: seq<Token>, id: string, gen: string)
    requires IsTokens(ts) && IsWord(id)
    ensures ReplaceId(Render(ts, 0), id, gen) == Render(RenameHits(ts, id, gen), 0)
  {
    var s := Render(ts, 0);
    assert s[0..] == s;
    ScanTokens(s, ts, 0, 0, id, gen);
  }

  // ----- All ids, in any order -----

  /** Ids and generated ids are words, and no generated id is itself an id. */
  predicate GoodIds(ids: Ids) {
    forall id | id in ids :: IsWord(id) && IsWord(ids[id]) && ids[id] !in ids
  }

  /** Every hit that is one of `names` renamed at once. */
  function RenameAllHits(ts: seq<Token>, ids: Ids, names: set<string>): seq<Token>
    requires names <= ids.Keys
  {
    seq(|ts|, i requires 0 <= i < |ts| =>
      if ts[i].Word? && ts[i].text in names && Hit(ts, i) then Word(ids[ts[i].text]) else ts[i])
  }

  lemma RenamedIsTokens(ts: seq<Token>, ids: Ids, names: set<string>)
    requires IsTokens(ts) && GoodIds(ids) && names <= ids.Keys
    ensures IsTokens(RenameAllHits(ts, ids, names))
  {
  }

  /** Renaming other ids moves no word of this id in or out of the text. */
  lemma {:induction false} HitStays(ts: seq<Token>, ids: Ids, names: set<string>, id: string, i: nat)
    requires GoodIds(ids) && names <= ids.Keys && id in ids && id !in names && i < |ts| && ts[i] == Word(id)
    ensures Hit(RenameAllHits(ts, ids, names), i) == Hit(ts, i)
    decreases i
  {
    var now := RenameAllHits(ts, ids, names);
    if i >= 2 {
      assert now[i] == ts[i];
      assert now[i - 2] == Word(id) <==> ts[i - 2] == Word(id);
      if ts[i - 2] == ts[i] {
        HitStays(ts, ids, names, id, i - 2);
      }
    }
  }

  lemma RenameOneMore(ts: seq<Token>, ids: Ids, names: set<string>, id: string)
    requires GoodIds(ids) && names <= ids.Keys && id in ids && id !in names
    ensures RenameHits(RenameAllHits(ts, ids, names), id, ids[id]) == RenameAllHits(ts, ids, names + {id})
  {
    var now := RenameAllHits(ts, ids, names);
    var next := RenameHits(now, id, ids[id]);
    var all := RenameAllHits(ts, ids, names + {id});
    forall i | 0 <= i < |ts|
      ensures next[i] == all[i]
    {
      if ts[i] == Word(id) {
        HitStays(ts, ids, names, id, i);
      } else {
        assert now[i] != Word(id);
      }
    }
  }

  lemma {:induction false} ReplaceInOrderRenames(ts: seq<Token>, ids: Ids, order: seq<string>)
    requires IsTokens(ts) && GoodIds(ids) && "" !in ids && Within(order, ids.Keys)
    requires forall i, j | 0 <= i < j < |order| :: order[i] != order[j]
    ensures Listed(order, |order|) <= ids.Keys
    ensures ReplaceInOrder(Render(ts, 0), ids, order) == Render(RenameAllHits(ts, ids, Listed(order, |order|)), 0)
    decreases |order|
  {
    if order == [] {
      assert RenameAllHits(ts, ids, Listed(order, |order|)) == ts;
    } else {
      var n := |order| - 1;
      var before, id := order[..n], order[n];
      ReplaceInOrderRenames(ts, ids, before);
      assert Listed(order, |order|) == Listed(before, n) + {id};
      assert id !in Listed(before, n);
      hide ReplaceId, Render, IsTokens, GoodIds, RenameAllHits, RenameHits;
      OneMoreId(ts, ids, Listed(before, n), id);
    }
  }

  lemma OneMoreId(ts: seq<Token>, ids: Ids, names: set<string>, id: string)
    requires IsTokens(ts) && GoodIds(ids) && id in ids && id !in names && names <= ids.Keys && id != ""
    ensures ReplaceId(Render(RenameAllHits(ts, ids, names), 0), id, ids[id])
            == Render(RenameAllHits(ts, ids, names + {id}), 0)
  {
    assert IsWord(id);
    hide ReplaceId, Render, IsTokens, GoodIds, RenameAllHits, RenameHits, IsWord;
    RenamedIsTokens(ts, ids, names);
    ReplaceIdRenames(RenameAllHits(ts, ids, names), id, ids[id]);
    RenameOneMore(ts, ids, names, id);
  }

  /** Every occurrence of an id renamed. */
  function RenameAll(ts: seq<Token>, ids: Ids): seq<Token> {
    seq(|ts|, i requires 0 <= i < |ts| => if ts[i].Word? && ts[i].text in ids then Word(ids[ts[i].text]) else ts[i])
  }

  /** Some id stands twice with a single character between. */
  ghost predicate RepeatsAtOnce(ts: seq<Token>, ids: Ids) {
    exists i :: 0 <= i < |ts| - 2 && ts[i].Word? && ts[i].text in ids && ts[i] == ts[i + 2]
  }

  /**
    The rewritten expression does not depend on the order of the map: each id becomes its generated
    id wherever it is a hit. That is everywhere, exactly if no id is repeated after a single character.
  */
  lemma RewriteRenames(result: string, expr: string, ids: Ids)
    requires GoodIds(ids) && IsRewrite(result, expr, ids)
    ensures result == Render(RenameAllHits(Tokenize(expr), ids, ids.Keys), 0)
    ensures result == Render(RenameAll(Tokenize(expr), ids), 0) <==> !RepeatsAtOnce(Tokenize(expr), ids)
  {
    var ts := Tokenize(expr);
    var order :| IsOrder(order, ids.Keys) && result == ReplaceInOrder(expr, ids, order);
    assert "" !in ids;
    AllListed(order, ids.Keys);
    assert ids.Keys <= ids.Keys;
    hide *;
    TokenizeRenders(expr);
    TokenizeIsTokens(expr);
    ReplaceInOrderRenames(ts, ids, order);
    HitsAreAll(ts, ids);
    RenamedIsTokens(ts, ids, ids.Keys);
    AllRenamedIsTokens(ts, ids);
    SameText(RenameAllHits(ts, ids, ids.Keys), RenameAll(ts, ids));
  }

  lemma AllRenamedIsTokens(ts: seq<Token>, ids: Ids)
    requires IsTokens(ts) && GoodIds(ids)
    ensures IsTokens(RenameAll(ts, ids))
  {
  }

  lemma SameText(a: seq<Token>, b: seq<Token>)
    requires IsTokens(a) && IsTokens(b)
    ensures Render(a, 0) == Render(b, 0) <==> a == b
  {
    TokenizeUnique(a, 0);
    TokenizeUnique(b, 0);
    assert a[0..] == a && b[0..] == b;
  }

  /** Where it fails: of an id, one character that is no word's, and the id again, the second stays. */
  lemma SecondStays(result: string, id: string, c: char, gen: string)
    requires IsWord(id) && IsWord(gen) && gen != id && !IsWordChar(c)
    requires IsRewrite(result, id + ([c] + id), map[id := gen])
    ensures RepeatsAtOnce(Tokenize(id + ([c] + id)), map[id := gen])
    ensures result == gen + ([c] + id)
  {
    var ts, renamed, ids := [Word(id), Sep(c), Word(id)], [Word(gen), Sep(c), Word(id)], map[id := gen];
    ThreeTokens(id, c, id);
    ThreeTokens(gen, c, id);
    TokenizeUnique(ts, 0);
    assert ts[0..] == ts && IsTokens(ts);
    assert ts[0] == ts[2];
    RewriteRenames(result, id + ([c] + id), ids);
    assert Hit(ts, 0) && !Hit(ts, 2);
    hide Hit, Render, Tokenize, IsWord;
    assert RenameAllHits(ts, ids, ids.Keys) == renamed;
  }

  lemma ThreeTokens(a: string, c: char, b: string)
    ensures Render([Word(a), Sep(c), Word(b)], 0) == a + ([c] + b)
  {
    var ts := [Word(a), Sep(c), Word(b)];
    assert Render(ts, 3) == "" && Render(ts, 2) == b + "" && Render(ts, 1) == [c] + Render(ts, 2);
  }

  lemma HitsAreAll(ts: seq<Token>, ids: Ids)
    requires GoodIds(ids)
    ensures RenameAllHits(ts, ids, ids.Keys) == RenameAll(ts, ids) <==> !RepeatsAtOnce(ts, ids)
  {
    var hits, all := RenameAllHits(ts, ids, ids.Keys), RenameAll(ts, ids);
    if i :| 0 <= i < |ts| - 2 && ts[i].Word? && ts[i].text in ids && ts[i] == ts[i + 2] {
      var missed := if Hit(ts, i) then i + 2 else i;
      assert !Hit(ts, missed);
      assert hits[missed] != all[missed];
    } else {
      forall i | 0 <= i < |ts|
        ensures hits[i] == all[i]
      {
        if i >= 2 && ts[i].Word? && ts[i].text in ids {
          assert ts[i - 2] != ts[i];
        }
      }
    }
  }

  // ----- What the rewritten expression means -----

  datatype Item<V> = Value(value: V) | Other(token: Token)

  /** The expression with each bound word replaced by its value. Whatever evaluates it sees only this. */
  function Bind<V>(ts: seq<Token>, values: map<string, V>): seq<Item<V>> {
    seq(|ts|, i requires 0 <= i < |ts| =>
      if ts[i].Word? && ts[i].text in values then Value(values[ts[i].text]) else Other(ts[i]))
  }

  /** The metric values under their generated ids. */
  ghost predicate IsRenamedBinding<V>(ids: Ids, values: map<string, V>, renamed: map<string, V>) {
    && values.Keys == ids.Keys && (forall id | id in ids :: ids[id] in renamed && renamed[ids[id]] == values[id])
    && forall g | g in renamed :: exists id :: id in ids && ids[id] == g
  }

  /** The expression names no generated id itself. */
  predicate NoCapture(ts: seq<Token>, ids: Ids) {
    forall i, id | 0 <= i < |ts| && id in ids :: ts[i] != Word(ids[id])
  }

  /** The renamed expression over the generated ids means what the expression meant over the ids. */
  lemma RenamingKeepsMeaning<V>(ts: seq<Token>, ids: Ids, values: map<string, V>, renamed: map<string, V>)
    requires NoCapture(ts, ids) && IsRenamedBinding(ids, values, renamed)
    ensures Bind(RenameAll(ts, ids), renamed) == Bind(ts, values)
  {
    var after := RenameAll(ts, ids);
    forall i | 0 <= i < |ts|
      ensures Bind(after, renamed)[i] == Bind(ts, values)[i]
    {
      if ts[i].Word? && ts[i].text !in ids {
        assert ts[i].text !in renamed;
      }
    }
  }

  /** Rewriting an expression in any order keeps its meaning, if no id is repeated after a single character. */
  lemma RewriteKeepsMeaning<V>(result: string, expr: string, ids: Ids, values: map<string, V>, renamed: map<string, V>)
    requires GoodIds(ids) && IsRewrite(result, expr, ids)
    requires !RepeatsAtOnce(Tokenize(expr), ids) && NoCapture(Tokenize(expr), ids)
             && IsRenamedBinding(ids, values, renamed)
    ensures Bind(Tokenize(result), renamed) == Bind(Tokenize(expr), values)
  {
    var ts := Tokenize(expr);
    hide *;
    RewriteRenames(result, expr, ids);
    TokenizeIsTokens(expr);
    AllRenamedIsTokens(ts, ids);
    TokenizeUnique(RenameAll(ts, ids), 0);
    assert RenameAll(ts, ids)[0..] == RenameAll(ts, ids);
    RenamingKeepsMeaning(ts, ids, values, renamed);
  }

  // ----- The empty id -----

  /** Where the separators before `p` begin; the start of the text counts as one more before them. */
  function RunStart(s: string, p: nat): (r: int)
    requires p <= |s|
    ensures -1 <= r <= p
  {
    if p == 0 then -1 else if IsWordChar(s[p - 1]) then p else RunStart(s, p - 1)
  }

  /** The empty id stands at `p`: an odd number of separators before it, and a separator or the end after it. */
  predicate Gap(s: string, p: nat)
    requires p <= |s|
  {
    (p - RunStart(s, p)) % 2 == 1 && (p == |s| || !IsWordChar(s[p]))
  }

  function GapText(s: string, p: nat, gen: string): string
    requires p <= |s|
  {
    if Gap(s, p) then gen else ""
  }

  /** The text from `p` on with `gen` in each gap. */
  function Filled(s: string, p: nat, gen: string): string
    requires p <= |s|
    decreases |s| - p
  {
    GapText(s, p, gen) + if p == |s| then "" else [s[p]] + Filled(s, p + 1, gen)
  }

  /** A gap comes after a separator that is in none, and is followed by none. */
  lemma NextGap(s: string, k: nat)
    requires k < |s| && (k == 0 || !Gap(s, k))
    ensures IsWordChar(s[k]) ==> !Gap(s, k) && !Gap(s, k + 1)
    ensures !IsWordChar(s[k]) && k == 0 ==> Gap(s, 0) && !Gap(s, 1)
    ensures !IsWordChar(s[k]) && k > 0 ==> (Gap(s, k + 1) <==> k + 1 == |s| || !IsWordChar(s[k + 1]))
    ensures !IsWordChar(s[k]) && k > 0 && k + 1 < |s| && !IsWordChar(s[k + 1]) ==> !Gap(s, k + 2)
  {
  }

  lemma {:induction false} FillsGaps(s: string, k: nat, gen: string)
    requires k <= |s| && (k == 0 || !Gap(s, k))
    ensures ScanEmpty(s, k, gen) == Filled(s, k, gen)
    decreases |s| - k
  {
    if k < |s| {
      NextGap(s, k);
      hide Gap, IsWordChar;
      if IsWordChar(s[k]) || k == 0 {
        FillsGaps(s, k + 1, gen);
      } else if k + 1 < |s| {
        if IsWordChar(s[k + 1]) {
          FillsGaps(s, k + 1, gen);
        } else {
          FillsGaps(s, k + 2, gen);
        }
      }
    }
  }

  /** The empty id is replaced in every gap, and nothing else changes. */
  lemma EmptyIdFillsGaps(s: string, gen: string)
    ensures ReplaceId(s, "", gen) == Filled(s, 0, gen)
  {
    FillsGaps(s, 0, gen);
  }
}
