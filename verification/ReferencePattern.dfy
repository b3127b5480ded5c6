/**
  The reference pattern `{{\s*NAME\s*}}` of env-vars/user.go and replacement by it, on characters.
*/
module ReferencePattern {
  import opened Text

  // ----- The pattern {{\s*NAME\s*}} -----

  predicate IsBlank(c: char) {
    c == ' ' || c == '\t' || c == '\n' || c == '\r' || c == '\U{000C}'
  }

  predicate AllBlank(s: string) {
    forall i | 0 <= i < |s| :: IsBlank(s[i])
  }

  /** The strings the pattern for `name` matches. */
  ghost predicate InPattern(x: string, name: string) {
    exists a, b :: Spelled(x, a, name, b)
  }

  predicate Spelled(x: string, a: string, name: string, b: string) {
    AllBlank(a) && AllBlank(b) && x == "{{" + a + name + b + "}}"
  }

  /** The length of the match of the pattern at the start of `s`, if there is one. */
  function MatchLength(s: string, name: string): Option<nat> {
    if "{{" <= s then MatchName(s, name, 2) else None
  }

  /** From position `k`: blanks, the name, blanks and closing braces. The result is the end position. */
  function MatchName(s: string, name: string, k: nat): (end: Option<nat>)
    requires k <= |s|
    ensures end.Some? ==> k + 2 <= end.value <= |s|
    decreases |s| - k
  {
    if k + |name| <= |s| && s[k..k + |name|] == name && MatchClose(s, k + |name|).Some? then MatchClose(s, k + |name|)
    else if k < |s| && IsBlank(s[k]) then MatchName(s, name, k + 1)
    else None
  }

  function MatchClose(s: string, k: nat): (end: Option<nat>)
    requires k <= |s|
    ensures end.Some? <==> exists q :: ClosesAt(s, k, q)
    ensures end.Some? ==> end.value >= 2 && ClosesAt(s, k, end.value - 2)
    decreases |s| - k
  {
    if k < |s| && IsBlank(s[k]) then
      var end := MatchClose(s, k + 1);
      assert end.Some? ==> ClosesAt(s, k, end.value - 2);
      assert forall q: nat | ClosesAt(s, k, q) :: ClosesAt(s, k + 1, q);
      end
    else if k + 1 < |s| && s[k] == s[k + 1] == '}' then
      assert ClosesAt(s, k, k);
      Some(k + 2)
    else None
  }

  /** Blanks from `k` and then closing braces at `q`. */
  ghost predicate ClosesAt(s: string, k: nat, q: nat) {
    k <= q <= |s| - 2 && s[q] == s[q + 1] == '}' && forall i | k <= i < q :: IsBlank(s[i])
  }

  /** Blanks from `k`, the name at `p`, blanks and closing braces at `q`. */
  ghost predicate SpelledAt(s: string, name: string, k: nat, p: nat, q: nat) {
    && k <= p && p + |name| <= |s| && s[p..p + |name|] == name && ClosesAt(s, p + |name|, q)
    && forall i | k <= i < p :: IsBlank(s[i])
  }

  /** Length of the longest blank prefix. */
  function Blanks(s: string): (n: nat)
    ensures n <= |s| && (forall i | 0 <= i < n :: IsBlank(s[i])) && (n < |s| ==> !IsBlank(s[n]))
  {
    if s == "" || !IsBlank(s[0]) then 0 else 1 + Blanks(s[1..])
  }

  /** Blanks inside the name or beside it cannot make two matches of different lengths. */
  lemma OneEnd(s: string, name: string, k: nat, p: nat, q: nat, p': nat, q': nat)
    requires SpelledAt(s, name, k, p, q) && SpelledAt(s, name, k, p', q')
    ensures q == q'
  {
    var f := Blanks(name);
    NameSpelled(s, name, k, p, q);
    NameSpelled(s, name, k, p', q');
    if f < |name| {
      assert s[p + f] == name[f] == s[p' + f];
      assert forall i | k <= i < p + f :: IsBlank(s[i]);
      assert forall i | k <= i < p' + f :: IsBlank(s[i]);
    } else {
      assert forall i | k <= i < q :: IsBlank(s[i]);
      assert forall i | k <= i < q' :: IsBlank(s[i]);
    }
  }

  lemma NameSpelled(s: string, name: string, k: nat, p: nat, q: nat)
    requires SpelledAt(s, name, k, p, q)
    ensures forall i | p <= i < p + |name| :: s[i] == name[i - p]
  {
  }

  lemma {:induction false} NameIsMatched(s: string, name: string, k: nat, p: nat, q: nat)
    requires SpelledAt(s, name, k, p, q)
    ensures MatchName(s, name, k) == Some(q + 2)
    decreases |s| - k
  {
    if k + |name| <= |s| && s[k..k + |name|] == name && MatchClose(s, k + |name|).Some? {
      var q' := MatchClose(s, k + |name|).value - 2;
      OneEnd(s, name, k, p, q, k, q');
    } else {
      assert k != p;
      NameIsMatched(s, name, k + 1, p, q);
    }
  }

  lemma {:induction false} MatchIsSpelled(s: string, name: string, k: nat) returns (p: nat)
    requires k <= |s| && MatchName(s, name, k).Some?
    ensures MatchName(s, name, k).value >= 2 && SpelledAt(s, name, k, p, MatchName(s, name, k).value - 2)
    decreases |s| - k
  {
    if k + |name| <= |s| && s[k..k + |name|] == name && MatchClose(s, k + |name|).Some? {
      p := k;
    } else {
      p := MatchIsSpelled(s, name, k + 1);
    }
  }

  /** The matcher finds exactly the strings of the pattern, so at most one length at each place. */
  lemma {:induction false} MatchIsPattern(s: string, name: string, n: nat)
    ensures MatchLength(s, name) == Some(n) <==> n <= |s| && InPattern(s[..n], name)
  {
    hide MatchName, SpelledAt, Spelled, MatchClose;
    if MatchLength(s, name) == Some(n) {
      var p := MatchIsSpelled(s, name, 2);
      PatternOfSpelling(s, name, p, n - 2);
    }
    if n <= |s| && InPattern(s[..n], name) {
      var a, b :| Spelled(s[..n], a, name, b);
      SpellingOfPattern(s, n, a, name, b);
      NameIsMatched(s, name, 2, 2 + |a|, n - 2);
    }
  }

  lemma PatternOfSpelling(s: string, name: string, p: nat, q: nat)
    requires "{{" <= s && SpelledAt(s, name, 2, p, q)
    ensures InPattern(s[..q + 2], name)
  {
    var a, b := s[2..p], s[p + |name|..q];
    assert s[..q + 2] == s[..2] + s[2..p] + s[p..p + |name|] + s[p + |name|..q] + s[q..q + 2];
    assert s[..2] == "{{" && s[q..q + 2] == "}}";
    assert Spelled(s[..q + 2], a, name, b);
  }

  lemma SpellingOfPattern(s: string, n: nat, a: string, name: string, b: string)
    requires n <= |s| && Spelled(s[..n], a, name, b)
    ensures n == |a| + |name| + |b| + 4 && "{{" <= s && SpelledAt(s, name, 2, 2 + |a|, n - 2)
  {
  }

  /** Go's ReplaceAllLiteralString: matches are replaced from left to right and do not overlap. */
  function ReplaceAll(s: string, name: string, value: string): string {
    if s == "" then ""
    else match MatchLength(s, name)
      case Some(n) => value + ReplaceAll(s[n..], name, value)
      case None => [s[0]] + ReplaceAll(s[1..], name, value)
  }
}
