/**
  Building metric queries with generated ids, and finding the metric of a generated id
  (aws/cloudwatch/metrics/mappings.go).
*/
module MetricQueries {
  import opened Ordering
  import opened MetricExpressions
  import opened Visiting

  datatype Stat = Stat(stat: string, namespace: string, metricName: string, dimensions: map<string, string>)

  datatype Mapping = Mapping(accountId: string, stat: Stat, expression: string)

  datatype Group = Group(name: string, mappings: map<string, Mapping>)

  datatype Query =
    | StatQuery(id: string, accountId: string, periodSec: int, stat: Stat)
    | ExpressionQuery(id: string, accountId: string, expression: string)

  // ----- Generated ids -----

  function Digits(n: nat): (s: string)
    ensures s != "" && forall i | 0 <= i < |s| :: '0' <= s[i] <= '9'
  {
    var last := [('0' as int + n % 10) as char];
    if n < 10 then last else Digits(n / 10) + last
  }

  function ValueOf(s: string): int {
    if s == "" then 0 else 10 * ValueOf(s[..|s| - 1]) + (s[|s| - 1] as int - '0' as int)
  }

  lemma {:induction false} DigitsValue(n: nat)
    ensures ValueOf(Digits(n)) == n
  {
    var s := Digits(n);
    if n < 10 {
      assert s[..0] == "";
    } else {
      assert s[..|s| - 1] == Digits(n / 10);
      DigitsValue(n / 10);
    }
  }

  const PREFIX := "group_"

  function GenMetricId(i: nat, id: string): string {
    PREFIX + Digits(i) + "_" + id
  }

  /** Where the digits end is where the first underscore after the prefix stands. */
  lemma GenParts(i: nat, id: string)
    ensures var g := GenMetricId(i, id); var d := Digits(i);
            && |g| == 7 + |d| + |id| && g[6..6 + |d|] == d && g[6 + |d|] == '_' && g[7 + |d|..] == id
            && forall k | 6 <= k < 6 + |d| :: g[k] != '_'
  {
  }

  /** Different metrics of different groups have different generated ids. */
  lemma GenInjective(i: nat, a: string, j: nat, b: string)
    requires GenMetricId(i, a) == GenMetricId(j, b)
    ensures i == j && a == b
  {
    GenParts(i, a);
    GenParts(j, b);
    var g, d, e := GenMetricId(i, a), Digits(i), Digits(j);
    assert g[6 + |d|] == g[6 + |e|] == '_';
    assert |d| == |e|;
    DigitsValue(i);
    DigitsValue(j);
  }

  /** A generated id of a word is a word. */
  lemma GenIsWord(i: nat, id: string)
    requires IsWord(id)
    ensures IsWord(GenMetricId(i, id))
  {
    GenParts(i, id);
    var g := GenMetricId(i, id);
    forall k | 0 <= k < |g|
      ensures IsWordChar(g[k])
    {
      if k < 6 {
        assert g[k] == PREFIX[k];
      } else if k < 6 + |Digits(i)| {
        assert g[k] == Digits(i)[k - 6];
      } else if k > 6 + |Digits(i)| {
        assert g[k] == id[k - 7 - |Digits(i)|];
      }
    }
  }

  // ----- Finding a metric -----

  datatype Found = NotFound | Metric(group: nat, id: string, mapping: Mapping)

  /** The search finds exactly the metric whose generated id this is, in whatever order the maps are visited. */
  method FindByMetricId(groups: seq<Group>, metricId: string) returns (found: Found)
    ensures found.Metric? ==>
              && found.group < |groups| && found.id in groups[found.group].mappings
              && found.mapping == groups[found.group].mappings[found.id]
              && GenMetricId(found.group, found.id) == metricId
    ensures found.NotFound? ==>
              forall i, id | 0 <= i < |groups| && id in groups[i].mappings :: GenMetricId(i, id) != metricId
  {
    for i := 0 to |groups|
      invariant forall j, id | 0 <= j < i && id in groups[j].mappings :: GenMetricId(j, id) != metricId
    {
      var todo := groups[i].mappings.Keys;
      while todo != {}
        invariant todo <= groups[i].mappings.Keys
        invariant forall id | id in groups[i].mappings.Keys - todo :: GenMetricId(i, id) != metricId
        decreases todo
      {
        var id :| id in todo;
        todo := todo - {id};
        if GenMetricId(i, id) == metricId {
          return Metric(i, id, groups[i].mappings[id]);
        }
      }
    }
    return NotFound;
  }

  /** The result for one generated id, as a relation: at most one metric can be found. */
  ghost predicate IsMetricOf(groups: seq<Group>, metricId: string, i: nat, id: string) {
    i < |groups| && id in groups[i].mappings && GenMetricId(i, id) == metricId
  }

  lemma OneMetric(groups: seq<Group>, metricId: string, i: nat, a: string, j: nat, b: string)
    requires IsMetricOf(groups, metricId, i, a) && IsMetricOf(groups, metricId, j, b)
    ensures i == j && a == b
  {
    GenInjective(i, a, j, b);
  }

  // ----- Building the queries -----

  predicate Requested(metrics: seq<string>, group: Group) {
    |metrics| < 1 || group.name in metrics
  }

  function IdMap(i: nat, group: Group): Ids {
    map id | id in group.mappings :: GenMetricId(i, id)
  }

  /** What rewriting needs of the ids of a group is about the original ids only. */
  lemma GoodIdMap(i: nat, group: Group)
    ensures GoodIds(IdMap(i, group)) <==>
            forall id | id in group.mappings :: IsWord(id) && GenMetricId(i, id) !in group.mappings
  {
    forall id | id in group.mappings && IsWord(id)
      ensures IsWord(GenMetricId(i, id))
    {
      GenIsWord(i, id);
    }
    hide IsWord, GenMetricId;
    assert forall id | id in group.mappings :: id in IdMap(i, group) && IdMap(i, group)[id] == GenMetricId(i, id);
  }

  /** The query of one metric; its expression may have been rewritten in any order of the ids. */
  ghost predicate IsQueryOf(q: Query, i: nat, group: Group, id: string, periodSec: int) {
    && id in group.mappings
    && var m := group.mappings[id];
       && q.id == GenMetricId(i, id) && q.accountId == m.accountId
       && (m.expression == "" ==> q == StatQuery(q.id, m.accountId, periodSec, m.stat))
       && (m.expression != "" ==> q.ExpressionQuery? && IsRewrite(q.expression, m.expression, IdMap(i, group)))
  }

  /** Queries are compared by this: those without an expression first, then by id. */
  function Key(q: Query): string {
    (if q.ExpressionQuery? then "1" else "0") + q.id
  }

  function InsertQuery(q: Query, s: seq<Query>): seq<Query> {
    if s == [] || Less(Key(q), Key(s[0])) then [q] + s else [s[0]] + InsertQuery(q, s[1..])
  }

  function SortQueries(s: seq<Query>): seq<Query> {
    if s == [] then [] else InsertQuery(s[0], SortQueries(s[1..]))
  }

  function Keys(s: seq<Query>): (k: seq<string>)
    ensures |k| == |s| && forall i | 0 <= i < |s| :: k[i] == Key(s[i])
  {
    seq(|s|, i requires 0 <= i < |s| => Key(s[i]))
  }

  lemma {:induction false} InsertKeys(q: Query, s: seq<Query>)
    ensures Keys(InsertQuery(q, s)) == Insert(Key(q), Keys(s))
    ensures forall x :: x in InsertQuery(q, s) <==> x == q || x in s
  {
    hide Key, Less;
    if s == [] || Less(Key(q), Key(s[0])) {
      assert Keys([q] + s) == [Key(q)] + Keys(s);
    } else {
      InsertKeys(q, s[1..]);
      assert Keys(s)[1..] == Keys(s[1..]);
      assert Keys([s[0]] + InsertQuery(q, s[1..])) == [Key(s[0])] + Keys(InsertQuery(q, s[1..]));
      assert s == [s[0]] + s[1..];
    }
  }

  lemma {:induction false} SortKeys(s: seq<Query>)
    ensures Keys(SortQueries(s)) == Sort(Keys(s)) && forall x :: x in SortQueries(s) <==> x in s
  {
    hide Key, InsertQuery;
    if s != [] {
      SortKeys(s[1..]);
      InsertKeys(s[0], SortQueries(s[1..]));
      assert Keys(s)[1..] == Keys(s[1..]);
      assert s == [s[0]] + s[1..];
    }
  }

  /** The query of one metric, its expression not yet rewritten. */
  function ToQuery(m: Mapping, id: string, periodSec: int): Query {
    if m.expression != "" then ExpressionQuery(id, m.accountId, m.expression)
    else StatQuery(id, m.accountId, periodSec, m.stat)
  }

  /** Metrics of a group in the order in which the map was visited, each with its query. */
  method GroupQueries(i: nat, group: Group, periodSec: int) returns (qs: seq<Query>, ghost names: seq<string>)
    ensures IsOrder(names, group.mappings.Keys) && |qs| == |names|
    ensures forall k | 0 <= k < |qs| :: IsQueryOf(qs[k], i, group, names[k], periodSec)
  {
    hide GenMetricId, IsRewrite;
    qs, names := [], [];
    var ids: Ids := map[];
    var todo := group.mappings.Keys;
    while todo != {}
      invariant todo <= group.mappings.Keys && IsOrder(names, group.mappings.Keys - todo)
      invariant |qs| == |names| && forall k | 0 <= k < |qs| ::
                  && names[k] in group.mappings
                  && qs[k] == ToQuery(group.mappings[names[k]], GenMetricId(i, names[k]), periodSec)
      invariant ids.Keys == group.mappings.Keys - todo && forall id | id in ids :: ids[id] == GenMetricId(i, id)
      decreases todo
    {
      var id :| id in todo;
      todo := todo - {id};
      var query := ToQuery(group.mappings[id], GenMetricId(i, id), periodSec);
      ids := ids[id := query.id];
      qs := qs + [query];
      names := names + [id];
    }
    assert ids == IdMap(i, group);
    ghost var drafts := qs;
    qs := UpdateQueryExpressions(qs, ids);
    forall k | 0 <= k < |qs|
      ensures IsQueryOf(qs[k], i, group, names[k], periodSec)
    {
      assert Rewritten(drafts[k], qs[k], ids);
    }
  }

  ghost predicate Rewritten(draft: Query, q: Query, ids: Ids) {
    match draft
    case StatQuery(_, _, _, _) => q == draft
    case ExpressionQuery(id, accountId, expression) =>
      q.ExpressionQuery? && q.id == id && q.accountId == accountId && IsRewrite(q.expression, expression, ids)
  }

  method UpdateQueryExpressions(drafts: seq<Query>, ids: Ids) returns (qs: seq<Query>)
    ensures |qs| == |drafts| && forall k | 0 <= k < |qs| :: Rewritten(drafts[k], qs[k], ids)
  {
    hide ReplaceInOrder, IsRewrite;
    qs := drafts;
    for j := 0 to |drafts|
      invariant |qs| == |drafts|
      invariant forall k | 0 <= k < |qs| :: if k < j then Rewritten(drafts[k], qs[k], ids) else qs[k] == drafts[k]
    {
      if qs[j].ExpressionQuery? {
        var modified := ReplaceExpressionWithGeneratedIds(qs[j].expression, ids);
        qs := qs[j := qs[j].(expression := modified)];
      }
    }
  }

  // ----- All groups -----

  /** A metric of one of the groups. */
  datatype Source = Source(group: nat, id: string)

  predicate IsWanted(src: Source, groups: seq<Group>, upTo: nat, metrics: seq<string>)
    requires upTo <= |groups|
  {
    src.group < upTo && Requested(metrics, groups[src.group]) && src.id in groups[src.group].mappings
  }

  /** One query for each metric of each requested group before `upTo`. */
  ghost predicate Listing(qs: seq<Query>, srcs: seq<Source>, groups: seq<Group>, upTo: nat, metrics: seq<string>,
                          periodSec: int)
    requires upTo <= |groups|
  {
    && |qs| == |srcs| && (forall src :: src in srcs <==> IsWanted(src, groups, upTo, metrics))
    && (forall k, l | 0 <= k < l < |srcs| :: srcs[k] != srcs[l])
    && forall k | 0 <= k < |qs| ::
         srcs[k].group < upTo && IsQueryOf(qs[k], srcs[k].group, groups[srcs[k].group], srcs[k].id, periodSec)
  }

  function SourcesOf(i: nat, names: seq<string>): seq<Source> {
    seq(|names|, k requires 0 <= k < |names| => Source(i, names[k]))
  }

  lemma ListingNext(qs: seq<Query>, srcs: seq<Source>, groups: seq<Group>, i: nat, metrics: seq<string>, periodSec: int,
                    more: seq<Query>, names: seq<string>)
    requires i < |groups| && Listing(qs, srcs, groups, i, metrics, periodSec)
    requires IsOrder(names, if Requested(metrics, groups[i]) then groups[i].mappings.Keys else {}) && |more| == |names|
    requires forall k | 0 <= k < |more| :: IsQueryOf(more[k], i, groups[i], names[k], periodSec)
    ensures Listing(qs + more, srcs + SourcesOf(i, names), groups, i + 1, metrics, periodSec)
  {
    hide IsQueryOf, Requested;
    var added := SourcesOf(i, names);
    var all := srcs + added;
    forall src
      ensures src in all <==> IsWanted(src, groups, i + 1, metrics)
    {
      assert src in added <==> src.group == i && src.id in names by {
        if src.group == i && src.id in names {
          var k :| 0 <= k < |names| && names[k] == src.id;
          assert added[k] == src;
        }
      }
    }
    forall k, l | 0 <= k < l < |all|
      ensures all[k] != all[l]
    {
      assert k < |srcs| ==> all[k] in srcs;
    }
  }

  /** No metric twice, stat queries before expressions, each part ascending by id. */
  ghost predicate IsResult(qs: seq<Query>, groups: seq<Group>, metrics: seq<string>, periodSec: int) {
    && Ascending(Keys(qs)) && (forall q | q in qs :: exists src :: IsQueryFrom(q, src, groups, metrics, periodSec))
    && forall src | IsWanted(src, groups, |groups|, metrics) ::
         exists q :: q in qs && IsQueryFrom(q, src, groups, metrics, periodSec)
  }

  ghost predicate IsQueryFrom(q: Query, src: Source, groups: seq<Group>, metrics: seq<string>, periodSec: int) {
    IsWanted(src, groups, |groups|, metrics) && IsQueryOf(q, src.group, groups[src.group], src.id, periodSec)
  }

  method BuildMetricQueries(groups: seq<Group>, metrics: seq<string>, periodSec: int) returns (queries: seq<Query>)
    ensures IsResult(queries, groups, metrics, periodSec)
  {
    hide Requested, Listing, IsQueryOf;
    queries := [];
    ghost var srcs: seq<Source> := [];
    ListingStart(groups, metrics, periodSec);
    for i := 0 to |groups|
      invariant Listing(queries, srcs, groups, i, metrics, periodSec)
    {
      var more := [];
      ghost var names: seq<string> := [];
      if Requested(metrics, groups[i]) {
        more, names := GroupQueries(i, groups[i], periodSec);
      }
      ListingNext(queries, srcs, groups, i, metrics, periodSec, more, names);
      queries := queries + more;
      srcs := srcs + SourcesOf(i, names);
    }
    SortedListing(queries, srcs, groups, metrics, periodSec);
    queries := SortQueries(queries);
  }

  lemma ListingStart(groups: seq<Group>, metrics: seq<string>, periodSec: int)
    ensures Listing([], [], groups, 0, metrics, periodSec)
  {
  }

  lemma KeyInjective(p: Query, q: Query)
    requires Key(p) == Key(q)
    ensures p.id == q.id && p.ExpressionQuery? == q.ExpressionQuery?
  {
    assert Key(p)[1..] == p.id && Key(q)[1..] == q.id;
    assert Key(p)[0] == Key(q)[0];
  }

  lemma DistinctKeys(qs: seq<Query>, srcs: seq<Source>, groups: seq<Group>, metrics: seq<string>, periodSec: int)
    requires Listing(qs, srcs, groups, |groups|, metrics, periodSec)
    ensures forall k, l | 0 <= k < l < |qs| :: Keys(qs)[k] != Keys(qs)[l]
  {
    hide GenMetricId, Key;
    forall k, l | 0 <= k < l < |qs|
      ensures Keys(qs)[k] != Keys(qs)[l]
    {
      if Keys(qs)[k] == Keys(qs)[l] {
        KeyInjective(qs[k], qs[l]);
        GenInjective(srcs[k].group, srcs[k].id, srcs[l].group, srcs[l].id);
      }
    }
  }

  lemma ListedFrom(qs: seq<Query>, srcs: seq<Source>, groups: seq<Group>, metrics: seq<string>, periodSec: int)
    requires Listing(qs, srcs, groups, |groups|, metrics, periodSec)
    ensures forall q | q in qs :: exists src :: IsQueryFrom(q, src, groups, metrics, periodSec)
    ensures forall src | IsWanted(src, groups, |groups|, metrics) ::
              exists q :: q in qs && IsQueryFrom(q, src, groups, metrics, periodSec)
  {
    hide IsQueryOf, Requested;
    forall q | q in qs
      ensures exists src :: IsQueryFrom(q, src, groups, metrics, periodSec)
    {
      var k :| 0 <= k < |qs| && qs[k] == q;
      assert srcs[k] in srcs;
      assert IsQueryFrom(q, srcs[k], groups, metrics, periodSec);
    }
    forall src | IsWanted(src, groups, |groups|, metrics)
      ensures exists q :: q in qs && IsQueryFrom(q, src, groups, metrics, periodSec)
    {
      var k :| 0 <= k < |srcs| && srcs[k] == src;
      assert qs[k] in qs && IsQueryFrom(qs[k], src, groups, metrics, periodSec);
    }
  }

  lemma SortedListing(qs: seq<Query>, srcs: seq<Source>, groups: seq<Group>, metrics: seq<string>, periodSec: int)
    requires Listing(qs, srcs, groups, |groups|, metrics, periodSec)
    ensures IsResult(SortQueries(qs), groups, metrics, periodSec)
  {
    hide Listing, IsQueryFrom, SortQueries, IsWanted;
    DistinctKeys(qs, srcs, groups, metrics, periodSec);
    ListedFrom(qs, srcs, groups, metrics, periodSec);
    SortKeys(qs);
    SortAscends(Keys(qs));
  }

  // ----- One result for every map order -----

  /** The ids of each requested group are words, and no generated id of the group is one of them. */
  predicate GoodGroups(groups: seq<Group>, metrics: seq<string>) {
    forall i | 0 <= i < |groups| && Requested(metrics, groups[i]) :: GoodIds(IdMap(i, groups[i]))
  }

  lemma SameRewrite(a: string, b: string, expr: string, ids: Ids)
    requires IsRewrite(a, expr, ids) && IsRewrite(b, expr, ids) && GoodIds(ids)
    ensures a == b
  {
    hide *;
    RewriteRenames(a, expr, ids);
    RewriteRenames(b, expr, ids);
  }

  lemma SameQuery(p: Query, q: Query, src: Source, groups: seq<Group>, metrics: seq<string>, periodSec: int)
    requires GoodGroups(groups, metrics)
    requires IsQueryFrom(p, src, groups, metrics, periodSec) && IsQueryFrom(q, src, groups, metrics, periodSec)
    ensures p == q
  {
    hide GenMetricId, IsRewrite, GoodIds;
    var group := groups[src.group];
    if group.mappings[src.id].expression != "" {
      SameRewrite(p.expression, q.expression, group.mappings[src.id].expression, IdMap(src.group, group));
    }
  }

  /** Every metric's query is in both results, so they hold the same queries. */
  lemma SameMembers(a: seq<Query>, b: seq<Query>, groups: seq<Group>, metrics: seq<string>, periodSec: int, q: Query)
    requires GoodGroups(groups, metrics)
    requires IsResult(a, groups, metrics, periodSec) && IsResult(b, groups, metrics, periodSec) && q in a
    ensures q in b
  {
    hide IsQueryFrom, GoodGroups, IsWanted, Ascending;
    var src :| IsQueryFrom(q, src, groups, metrics, periodSec);
    FromWanted(q, src, groups, metrics, periodSec);
    var p :| p in b && IsQueryFrom(p, src, groups, metrics, periodSec);
    SameQuery(p, q, src, groups, metrics, periodSec);
  }

  lemma FromWanted(q: Query, src: Source, groups: seq<Group>, metrics: seq<string>, periodSec: int)
    requires IsQueryFrom(q, src, groups, metrics, periodSec)
    ensures IsWanted(src, groups, |groups|, metrics)
  {
  }

  /** The result is the same list of queries for every order in which the maps are visited. */
  lemma ResultUnique(a: seq<Query>, b: seq<Query>, groups: seq<Group>, metrics: seq<string>, periodSec: int)
    requires GoodGroups(groups, metrics)
    requires IsResult(a, groups, metrics, periodSec) && IsResult(b, groups, metrics, periodSec)
    ensures a == b
  {
    forall q
      ensures q in a <==> q in b
    {
      if q in a { SameMembers(a, b, groups, metrics, periodSec, q); }
      if q in b { SameMembers(b, a, groups, metrics, periodSec, q); }
    }
    hide IsResult;
    SameSorted(a, b);
  }

  /** Ascending by key, the same queries are the same list. */
  lemma SameSorted(a: seq<Query>, b: seq<Query>)
    requires Ascending(Keys(a)) && Ascending(Keys(b)) && forall q :: q in a <==> q in b
    ensures a == b
  {
    KeyMembers(a, b);
    KeyMembers(b, a);
    AscendingUnique(Keys(a), Keys(b));
    forall i | 0 <= i < |a|
      ensures a[i] == b[i]
    {
      assert a[i] in b;
      var j :| 0 <= j < |b| && b[j] == a[i];
      assert Keys(b)[j] == Keys(a)[i] == Keys(b)[i];
      if i < j {
        LessIsStrict(Keys(b)[i], Keys(b)[j]);
      } else if j < i {
        LessIsStrict(Keys(b)[j], Keys(b)[i]);
      }
    }
  }

  lemma KeyMembers(a: seq<Query>, b: seq<Query>)
    requires forall q | q in a :: q in b
    ensures forall k | k in Keys(a) :: k in Keys(b)
  {
    hide Key;
    forall k | k in Keys(a)
      ensures k in Keys(b)
    {
      var i :| 0 <= i < |a| && Keys(a)[i] == k;
      assert a[i] in b;
      var j :| 0 <= j < |b| && b[j] == a[i];
      assert Keys(b)[j] == k;
    }
  }
}
