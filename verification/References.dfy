/** The references among variables as a graph: ways, cycles, and ranks where there are none. */
module References {
  import opened Templates

  /** Each name's value refers to the next name. */
  predicate Linked(ts: Templates, c: seq<string>) {
    forall i | 0 <= i < |c| - 1 :: c[i] in ts && Mentions(ts[c[i]], c[i + 1])
  }

  predicate Distinct(w: seq<string>) {
    forall i, j | 0 <= i < j < |w| :: w[i] != w[j]
  }

  /** References from `z` through other variables, each once, to `x`. */
  predicate IsWay(ts: Templates, w: seq<string>, z: string, x: string) {
    |w| >= 1 && w[0] == z && w[|w| - 1] == x && Linked(ts, w) && Distinct(w)
  }

  /** References from `x` through other variables, each once, and back to `x`; a self-reference is one. */
  predicate IsCycle(ts: Templates, c: seq<string>, x: string) {
    |c| >= 2 && c[0] == c[|c| - 1] == x && Linked(ts, c) && Distinct(c[1..])
  }

  ghost predicate ReachesCycle(ts: Templates, z: string) {
    exists w, c, x :: IsWay(ts, w, z, x) && IsCycle(ts, c, x)
  }

  lemma SuffixIsWay(ts: Templates, w: seq<string>, z: string, x: string, j: nat)
    requires IsWay(ts, w, z, x) && j < |w|
    ensures IsWay(ts, w[j..], w[j], x)
  {
    hide Mentions;
  }

  lemma LongerWay(ts: Templates, n: string, w: seq<string>, z: string, x: string)
    requires n in ts && Mentions(ts[n], z) && IsWay(ts, w, z, x) && n !in w
    ensures IsWay(ts, [n] + w, n, x)
  {
    hide Mentions;
  }

  lemma CycleReaches(ts: Templates, c: seq<string>, x: string)
    requires IsCycle(ts, c, x)
    ensures ReachesCycle(ts, x)
  {
    hide IsCycle;
    assert IsWay(ts, [x], x, x);
  }

  /** A name that refers to one that reaches a cycle reaches it too. */
  lemma StepReaches(ts: Templates, n: string, r: string)
    requires n in ts && Mentions(ts[n], r) && ReachesCycle(ts, r)
    ensures ReachesCycle(ts, n)
  {
    hide Mentions, IsWay, IsCycle;
    var w, c, x :| IsWay(ts, w, r, x) && IsCycle(ts, c, x);
    if n in w {
      var j :| 0 <= j < |w| && w[j] == n;
      SuffixIsWay(ts, w, r, x, j);
    } else {
      LongerWay(ts, n, w, r, x);
    }
  }

  // ----- Without cycles there is a rank -----

  ghost predicate CycleWithin(ts: Templates, names: set<string>) {
    exists c, x :: IsCycle(ts, c, x) && forall a <- c :: a in names
  }

  lemma {:induction false} DistinctSize(w: seq<string>, names: set<string>)
    requires Distinct(w) && forall a <- w :: a in names
    ensures |w| <= |names|
    decreases |w|
  {
    if w != [] {
      var n := |w| - 1;
      assert forall a <- w[..n] :: a in names - {w[n]};
      DistinctSize(w[..n], names - {w[n]});
    }
  }

  lemma BackToWay(ts: Templates, p: seq<string>, j: nat)
    requires p != [] && Linked(ts, p) && Distinct(p) && j < |p|
    requires p[|p| - 1] in ts && Mentions(ts[p[|p| - 1]], p[j])
    ensures IsCycle(ts, p[j..] + [p[j]], p[j])
  {
    hide Mentions;
    var c := p[j..] + [p[j]];
    assert forall i | 0 <= i < |c| - 1 :: c[i] == p[j + i];
    assert c[1..] == p[j + 1..] + [p[j]];
  }

  lemma WayGoesOn(ts: Templates, p: seq<string>, r: string)
    requires p != [] && Linked(ts, p) && Distinct(p) && r !in p
    requires p[|p| - 1] in ts && Mentions(ts[p[|p| - 1]], r)
    ensures Linked(ts, p + [r]) && Distinct(p + [r])
  {
    hide Mentions;
  }

  /** Following references ends at a name that refers to none of them. */
  lemma {:induction false} LastName(ts: Templates, names: set<string>, p: seq<string>) returns (n: string)
    requires names <= ts.Keys && !CycleWithin(ts, names)
    requires p != [] && Linked(ts, p) && Distinct(p) && forall a <- p :: a in names
    ensures n in names && forall r <- names :: !Mentions(ts[n], r)
    decreases |names| - |p|
  {
    n := p[|p| - 1];
    hide Mentions, Linked, Distinct, IsCycle;
    if r :| r in names && Mentions(ts[n], r) {
      if r in p {
        var j :| 0 <= j < |p| && p[j] == r;
        BackToWay(ts, p, j);
        assert forall a <- p[j..] + [p[j]] :: a in names;
      } else {
        WayGoesOn(ts, p, r);
        DistinctSize(p + [r], names);
        n := LastName(ts, names, p + [r]);
      }
    }
  }

  /** References among the names lead to lower ranks. */
  ghost predicate Descends(ts: Templates, names: set<string>, rank: map<string, nat>) {
    names <= ts.Keys && rank.Keys == names
    && forall n, r | n in names && r in names && Mentions(ts[n], r) :: rank[r] < rank[n]
  }

  /** Names without a cycle among them have ranks below their number. */
  lemma {:induction false} RankExists(ts: Templates, names: set<string>) returns (rank: map<string, nat>)
    requires names <= ts.Keys && !CycleWithin(ts, names)
    ensures Descends(ts, names, rank) && forall n <- names :: rank[n] < |names|
    decreases |names|
  {
    hide Mentions, IsCycle;
    if names == {} {
      rank := map[];
    } else {
      var first :| first in names;
      assert Linked(ts, [first]) && Distinct([first]);
      var last := LastName(ts, names, [first]);
      var others := names - {last};
      var before := RankExists(ts, others);
      rank := map n | n in names :: if n == last then 0 else before[n] + 1;
    }
  }

  /** The names that reach no cycle. */
  ghost function Calm(ts: Templates): (names: set<string>)
    ensures names <= ts.Keys
  {
    set n | n in ts && !ReachesCycle(ts, n)
  }

  lemma CalmRank(ts: Templates) returns (rank: map<string, nat>)
    ensures Descends(ts, Calm(ts), rank) && forall n <- Calm(ts) :: rank[n] < |Calm(ts)|
  {
    hide Mentions, ReachesCycle, IsCycle;
    if c, x :| IsCycle(ts, c, x) && forall a <- c :: a in Calm(ts) {
      CycleReaches(ts, c, x);
      assert x in c by { CycleHas(ts, c, x); }
    }
    rank := RankExists(ts, Calm(ts));
  }

  lemma CycleHas(ts: Templates, c: seq<string>, x: string)
    requires IsCycle(ts, c, x)
    ensures x in c
  {
    hide Linked;
  }

  // ----- Standard values that refer to no known name -----

  /** The values that users did not replace refer to none of the names. */
  predicate StdPlain(std: Templates, users: Templates) {
    forall s, r | s in std && s !in users && r in std + users :: !Mentions(std[s], r)
  }

  /** Then every link to a known name starts at a user variable. */
  lemma UserLink(std: Templates, users: Templates, a: string, b: string)
    requires StdPlain(std, users) && a in std + users && b in std + users && Mentions((std + users)[a], b)
    ensures a in users && (std + users)[a] == users[a]
  {
    hide Mentions;
  }

  lemma UserLinks(std: Templates, users: Templates, w: seq<string>)
    requires StdPlain(std, users) && Linked(std + users, w) && w != [] && w[|w| - 1] in std + users
    ensures Linked(users, w)
  {
    forall i | 0 <= i < |w| - 1
      ensures w[i] in users && Mentions(users[w[i]], w[i + 1])
    {
      UserLink(std, users, w[i], w[i + 1]);
    }
  }

  lemma UserCycle(std: Templates, users: Templates, w: seq<string>, c: seq<string>, z: string, x: string)
    requires StdPlain(std, users) && IsWay(std + users, w, z, x) && IsCycle(std + users, c, x)
    ensures IsWay(users, w, z, x) && IsCycle(users, c, x) && x in users && users[x] == (std + users)[x]
  {
    assert c[0] in std + users;
    hide Mentions;
    UserLinks(std, users, w);
    UserLinks(std, users, c);
  }
}
