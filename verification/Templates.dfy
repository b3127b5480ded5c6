/**
  Values of environment variables read as literal text and references. The code never builds these
  templates: they say what the character-level replacement of `ReferencePattern` means.
*/
module Templates {
  import opened Text
  import opened ReferencePattern

  // ----- Reading a value as text and references -----

  datatype Token = Lit(text: string) | Ref(body: string)

  type Template = seq<Token>

  type Templates = map<string, Template>

  function Spelling(token: Token): string {
    match token
    case Lit(text) => text
    case Ref(body) => "{{" + body + "}}"
  }

  function Render(t: Template): string {
    if t == [] then "" else Spelling(t[0]) + Render(t[1..])
  }

  predicate BraceFree(s: string) {
    forall i | 0 <= i < |s| :: s[i] != '{' && s[i] != '}'
  }

  /** Text that cannot open a reference, alone or with what follows it. */
  predicate PlainText(s: string) {
    forall i | 0 <= i < |s| && s[i] == '{' :: i + 1 < |s| && s[i + 1] != '{'
  }

  predicate Clean(t: Template) {
    forall i | 0 <= i < |t| :: if t[i].Lit? then PlainText(t[i].text) else BraceFree(t[i].body)
  }

  /** The name a reference refers to: its body without the blanks around it. */
  function Strip(s: string): (r: string) {
    if Blanks(s) == |s| then "" else s[Blanks(s)..InkEnd(s)]
  }

  function InkEnd(s: string): (n: nat)
    ensures n <= |s| && (forall i | n <= i < |s| :: IsBlank(s[i])) && (n > 0 ==> !IsBlank(s[n - 1]))
    ensures Blanks(s) < |s| ==> Blanks(s) < n
  {
    if s == "" || !IsBlank(s[|s| - 1]) then |s| else InkEnd(s[..|s| - 1])
  }

  /** A name a reference can have: no braces, and no blanks at its ends. */
  predicate IsName(s: string) {
    BraceFree(s) && (s != "" ==> !IsBlank(s[0]) && !IsBlank(s[|s| - 1]))
  }

  /** The template with every reference to `name` replaced by `value`. */
  function Subst(t: Template, name: string, value: Template): Template {
    if t == [] then [] else SubstToken(t[0], name, value) + Subst(t[1..], name, value)
  }

  function SubstToken(token: Token, name: string, value: Template): Template {
    if token.Ref? && Strip(token.body) == name then value else [token]
  }

  lemma {:induction false} PlainPrefix(text: string, s: string, name: string, value: string)
    requires PlainText(text)
    ensures ReplaceAll(text + s, name, value) == text + ReplaceAll(s, name, value)
  {
    if text == "" {
      assert text + s == s;
    } else {
      var all := text + s;
      assert text[0] == '{' ==> text[1] != '{';
      assert all[0] == text[0] && (|text| > 1 ==> all[1] == text[1]);
      assert all[1..] == text[1..] + s;
      PlainPrefix(text[1..], s, name, value);
    }
  }

  /** Where the stripped text sits. */
  lemma StripAt(s: string)
    ensures |Strip(s)| + Blanks(s) <= |s| && s[Blanks(s)..Blanks(s) + |Strip(s)|] == Strip(s)
    ensures forall i | 0 <= i < Blanks(s) || Blanks(s) + |Strip(s)| <= i < |s| :: IsBlank(s[i])
    ensures Strip(s) != "" ==> !IsBlank(s[Blanks(s)]) && !IsBlank(s[Blanks(s) + |Strip(s)| - 1])
  {
    hide Blanks, InkEnd;
  }

  /** Nothing else sits there. */
  lemma StripUnique(s: string, p: nat, r: string)
    requires p + |r| <= |s| && s[p..p + |r|] == r
    requires forall i | 0 <= i < p || p + |r| <= i < |s| :: IsBlank(s[i])
    requires r != "" ==> !IsBlank(r[0]) && !IsBlank(r[|r| - 1])
    ensures Strip(s) == r
  {
    StripAt(s);
    if r == "" {
      assert Blanks(s) == |s|;
    } else {
      assert s[p] == s[p..p + |r|][0] && s[p + |r| - 1] == s[p..p + |r|][|r| - 1];
      assert Blanks(s) == p && InkEnd(s) == p + |r|;
    }
  }

  /** Text that starts as a spelled reference does. */
  predicate StartsWithRef(all: string, body: string) {
    && |all| >= |body| + 4 && all[0] == all[1] == '{' && all[|body| + 2] == all[|body| + 3] == '}'
    && all[2..2 + |body|] == body
  }

  lemma SpellingStarts(body: string, s: string)
    ensures StartsWithRef(Spelling(Ref(body)) + s, body)
  {
  }

  /** A reference is matched as a whole by the pattern of its own name, and by no other name's pattern. */
  lemma RefHead(all: string, body: string, name: string)
    requires BraceFree(body) && IsName(name) && StartsWithRef(all, body)
    ensures MatchLength(all, name) == if Strip(body) == name then Some(|body| + 4) else None
  {
    hide Strip, Blanks, InkEnd, MatchName, BraceFree, ClosesAt;
    if Strip(body) == name {
      StrippedIsSpelled(all, body, name);
      NameIsMatched(all, name, 2, 2 + Blanks(body), 2 + |body|);
    } else if MatchLength(all, name).Some? {
      var p := MatchIsSpelled(all, name, 2);
      SpelledIsStripped(all, body, name, p, MatchLength(all, name).value - 2);
    }
  }

  lemma RefBodyAt(all: string, body: string, p: nat, n: nat)
    requires StartsWithRef(all, body) && p + n <= |body|
    ensures forall i | 2 <= i < 2 + |body| :: all[i] == body[i - 2]
    ensures all[p + 2..p + 2 + n] == body[p..p + n]
  {
  }

  lemma SpelledInBody(all: string, body: string, name: string, b: nat)
    requires StartsWithRef(all, body) && b + |name| <= |body| && body[b..b + |name|] == name
    requires forall i | 0 <= i < b :: IsBlank(body[i])
    requires forall i | b + |name| <= i < |body| :: IsBlank(body[i])
    ensures SpelledAt(all, name, 2, 2 + b, 2 + |body|)
  {
    RefBodyAt(all, body, b, |name|);
    hide IsBlank, StartsWithRef;
    assert all[|body| + 2] == all[|body| + 3] == '}' by { StartsEnd(all, body); }
  }

  lemma StartsEnd(all: string, body: string)
    requires StartsWithRef(all, body)
    ensures |all| >= |body| + 4 && all[|body| + 2] == all[|body| + 3] == '}'
  {
  }

  lemma StrippedIsSpelled(all: string, body: string, name: string)
    requires Strip(body) == name && StartsWithRef(all, body)
    ensures SpelledAt(all, name, 2, 2 + Blanks(body), 2 + |body|)
  {
    hide *;
    StripAt(body);
    SpelledInBody(all, body, name, Blanks(body));
  }

  lemma SpelledIsStripped(all: string, body: string, name: string, p: nat, q: nat)
    requires BraceFree(body) && IsName(name) && StartsWithRef(all, body) && SpelledAt(all, name, 2, p, q)
    ensures Strip(body) == name
  {
    hide Strip, Blanks, InkEnd;
    NameSpelled(all, name, 2, p, q);
    assert forall i | 2 <= i < 2 + |body| :: all[i] == all[2..2 + |body|][i - 2] == body[i - 2];
    assert all[q] == '}' && q == 2 + |body|;
    assert body[p - 2..p - 2 + |name|] == all[p..p + |name|];
    StripUnique(body, p - 2, name);
  }

  lemma RefTailIsPlain(body: string)
    requires BraceFree(body)
    ensures PlainText("{" + body + "}}")
  {
  }

  lemma RefAsTail(body: string, s: string)
    ensures var all := Spelling(Ref(body)) + s;
            && |all| >= |body| + 4 && all[0] == '{' && all[1..] == ("{" + body + "}}") + s && all[|body| + 4..] == s
    ensures Spelling(Ref(body)) == "{" + ("{" + body + "}}")
  {
    var tail := "{" + body + "}}";
    assert Spelling(Ref(body)) == "{" + tail by {
      assert "{{" == "{" + "{";
    }
    hide Spelling;
    assert Spelling(Ref(body)) + s == ['{'] + (tail + s);
  }

  lemma {:induction false} RefPrefix(body: string, s: string, name: string, value: string)
    requires BraceFree(body) && IsName(name)
    ensures ReplaceAll(Spelling(Ref(body)) + s, name, value)
            == (if Strip(body) == name then value else Spelling(Ref(body))) + ReplaceAll(s, name, value)
  {
    hide Strip, MatchLength, BraceFree, PlainText, StartsWithRef, Spelling;
    SpellingStarts(body, s);
    RefHead(Spelling(Ref(body)) + s, body, name);
    RefAsTail(body, s);
    if Strip(body) != name {
      RefTailIsPlain(body);
      PlainPrefix("{" + body + "}}", s, name, value);
    }
  }

  lemma {:induction false} RenderConcat(t: Template, u: Template)
    ensures Render(t + u) == Render(t) + Render(u)
  {
    if t == [] {
      assert t + u == u;
    } else {
      assert (t + u)[1..] == t[1..] + u;
      RenderConcat(t[1..], u);
    }
  }

  /** Character-level replacement is substitution of references. */
  lemma {:induction false} ReplaceRendered(t: Template, name: string, value: Template)
    requires Clean(t) && IsName(name)
    ensures ReplaceAll(Render(t), name, Render(value)) == Render(Subst(t, name, value))
  {
    if t != [] {
      hide Strip, IsName, BraceFree, PlainText, ReplaceAll;
      var head, rest := t[0], t[1..];
      ReplaceRendered(rest, name, value);
      if head.Lit? {
        PlainPrefix(head.text, Render(rest), name, Render(value));
      } else {
        RefPrefix(head.body, Render(rest), name, Render(value));
      }
      RenderConcat(SubstToken(head, name, value), Subst(rest, name, value));
      assert [head][1..] == [];
    }
  }

  lemma {:induction false} CleanSubst(t: Template, name: string, value: Template)
    requires Clean(t) && Clean(value)
    ensures Clean(Subst(t, name, value))
  {
    if t != [] {
      CleanSubst(t[1..], name, value);
    }
  }

  // ----- Full expansion -----

  predicate Mentions(t: Template, name: string) {
    exists i :: 0 <= i < |t| && t[i].Ref? && Strip(t[i].body) == name
  }

  /** References among the names in `ts` go from higher to lower rank: there is no cycle. */
  ghost predicate Ranked(ts: Templates, rank: map<string, nat>) {
    ts.Keys <= rank.Keys && forall n, r | n in ts && r in ts && Mentions(ts[n], r) :: rank[r] < rank[n]
  }

  /** The value of a variable with every known reference expanded, to the end. */
  function Expand(ts: Templates, rank: map<string, nat>, name: string): Template
    requires Ranked(ts, rank) && name in ts
    decreases rank[name], 1, 0
  {
    ExpandTokens(ts, rank, name, ts[name])
  }

  function ExpandTokens(ts: Templates, rank: map<string, nat>, name: string, t: Template): Template
    requires Ranked(ts, rank) && name in ts
    requires forall r | r in ts && Mentions(t, r) :: rank[r] < rank[name]
    decreases rank[name], 0, |t|
  {
    if t == [] then []
    else
      assert forall r | Mentions(t[1..], r) :: Mentions(t, r);
      (if t[0].Ref? && Strip(t[0].body) in ts then
         assert Mentions(t, Strip(t[0].body));
         Expand(ts, rank, Strip(t[0].body))
       else [t[0]])
      + ExpandTokens(ts, rank, name, t[1..])
  }

  function ExpandAll(ts: Templates, rank: map<string, nat>): Templates
    requires Ranked(ts, rank)
  {
    map name | name in ts :: Expand(ts, rank, name)
  }

  /** The template with each reference known to `full` replaced by its full value. */
  function Flatten(full: Templates, t: Template): Template {
    if t == [] then [] else FlattenToken(full, t[0]) + Flatten(full, t[1..])
  }

  function FlattenToken(full: Templates, token: Token): Template {
    if token.Ref? && Strip(token.body) in full then full[Strip(token.body)] else [token]
  }

  lemma {:induction false} ExpandIsFlatten(ts: Templates, rank: map<string, nat>, name: string, t: Template)
    requires Ranked(ts, rank) && name in ts
    requires forall r | r in ts && Mentions(t, r) :: rank[r] < rank[name]
    ensures ExpandTokens(ts, rank, name, t) == Flatten(ExpandAll(ts, rank), t)
  {
    if t != [] {
      assert forall r | Mentions(t[1..], r) :: Mentions(t, r);
      ExpandIsFlatten(ts, rank, name, t[1..]);
    }
  }

  lemma {:induction false} FlattenConcat(full: Templates, t: Template, u: Template)
    ensures Flatten(full, t + u) == Flatten(full, t) + Flatten(full, u)
  {
    if t == [] {
      assert t + u == u;
    } else {
      var tu: Template := t + u;
      assert tu[0] == t[0] && tu[1..] == t[1..] + u;
      FlattenConcat(full, t[1..], u);
      var head := FlattenToken(full, t[0]);
      assert head + (Flatten(full, t[1..]) + Flatten(full, u)) == (head + Flatten(full, t[1..])) + Flatten(full, u);
    }
  }

  /** Substituting a value that means the same as the name leaves the meaning as it was. */
  lemma {:induction false} FlattenSubst(full: Templates, t: Template, name: string, value: Template)
    requires name in full && Flatten(full, value) == full[name]
    ensures Flatten(full, Subst(t, name, value)) == Flatten(full, t)
  {
    hide Strip;
    if t != [] {
      FlattenSubst(full, t[1..], name, value);
      FlattenConcat(full, SubstToken(t[0], name, value), Subst(t[1..], name, value));
      assert [t[0]][1..] == [];
      assert Flatten(full, SubstToken(t[0], name, value)) == FlattenToken(full, t[0]);
    }
  }

  lemma {:induction false} FlattenClosed(full: Templates, t: Template)
    requires forall r | r in full :: !Mentions(t, r)
    ensures Flatten(full, t) == t
  {
    hide Strip;
    if t != [] {
      assert forall r | Mentions(t[1..], r) :: Mentions(t, r);
      if t[0].Ref? {
        assert Mentions(t, Strip(t[0].body));
      }
      FlattenClosed(full, t[1..]);
    }
  }

  lemma MentionsRest(t: Template, name: string)
    requires t != [] && !Mentions(t, name)
    ensures !Mentions(t[1..], name) && !(t[0].Ref? && Strip(t[0].body) == name)
  {
    hide Strip;
    assert forall i | 0 <= i < |t| - 1 :: t[1..][i] == t[i + 1];
  }

  lemma {:induction false} SubstNone(t: Template, name: string, value: Template)
    requires !Mentions(t, name)
    ensures Subst(t, name, value) == t
  {
    hide Strip, Mentions;
    if t != [] {
      MentionsRest(t, name);
      SubstNone(t[1..], name, value);
    }
  }

  /** What a substituted value refers to. */
  lemma {:induction false} MentionsSubst(t: Template, name: string, value: Template, r: string)
    ensures Mentions(Subst(t, name, value), r) <==>
            (r != name && Mentions(t, r)) || (Mentions(t, name) && Mentions(value, r))
  {
    hide Strip, Mentions;
    if t == [] {
      NoMentions(r);
      NoMentions(name);
    } else {
      MentionsSubst(t[1..], name, value, r);
      MentionsParts(SubstToken(t[0], name, value), Subst(t[1..], name, value), r);
      assert t == [t[0]] + t[1..];
      MentionsParts([t[0]], t[1..], r);
      MentionsParts([t[0]], t[1..], name);
      MentionsOne(t[0], r);
      MentionsOne(t[0], name);
    }
  }

  lemma NoMentions(r: string)
    ensures !Mentions([], r)
  {
  }

  lemma MentionsOne(token: Token, r: string)
    ensures Mentions([token], r) <==> token.Ref? && Strip(token.body) == r
  {
    hide Strip;
    assert [token][0] == token;
  }

  lemma MentionsParts(t: Template, u: Template, r: string)
    ensures Mentions(t + u, r) <==> Mentions(t, r) || Mentions(u, r)
  {
    var tu: Template := t + u;
    if Mentions(t, r) {
      var i :| 0 <= i < |t| && t[i].Ref? && Strip(t[i].body) == r;
      assert tu[i] == t[i];
    }
    if Mentions(u, r) {
      var i :| 0 <= i < |u| && u[i].Ref? && Strip(u[i].body) == r;
      assert tu[|t| + i] == u[i];
    }
    if Mentions(tu, r) {
      var i :| 0 <= i < |tu| && tu[i].Ref? && Strip(tu[i].body) == r;
      assert tu[i] == if i < |t| then t[i] else u[i - |t|];
    }
  }
}
