/**
  Which queries are built, under which ids and in which order, by the texts themselves
  (aws/cloudwatch/metrics/mappings.go:66-109).
*/
module MetricOrder {
  import opened Ordering
  import opened MetricExpressions
  import opened MetricQueries

  /** The decimal digits of a number: no leading zero, and ten times the number before the last one. */
  lemma DigitsAre(n: nat)
    ensures n < 10 ==> |Digits(n)| == 1 && Digits(n)[0] as int == '0' as int + n
    ensures n >= 10 ==> Digits(n)[0] != '0' && Digits(n) == Digits(n / 10) + Digits(n % 10)
    decreases n
  {
    if n >= 10 {
      FirstDigit(n);
    }
  }

  lemma {:induction false} FirstDigit(n: nat)
    requires n > 0
    ensures Digits(n)[0] != '0'
  {
    if n >= 10 {
      FirstDigit(n / 10);
    }
  }

  lemma GeneratedId(i: nat, id: string)
    ensures GenMetricId(i, id) == "group_" + (Digits(i) + ("_" + id))
  {
  }

  lemma GeneratedExample()
    ensures GenMetricId(12, "cpu") == "group_12_cpu"
  {
    assert Digits(12) == "12" by { assert Digits(1) == "1"; }
  }

  lemma LessCons(c: char, a: string, b: string)
    ensures Less([c] + a, [c] + b) <==> Less(a, b)
  {
    assert ([c] + a)[1..] == a && ([c] + b)[1..] == b;
  }

  lemma KeysCompare(p: Query, q: Query)
    requires Less(Key(p), Key(q))
    ensures p.ExpressionQuery? ==> q.ExpressionQuery?
    ensures p.ExpressionQuery? == q.ExpressionQuery? ==> Less(p.id, q.id)
  {
    if p.ExpressionQuery? == q.ExpressionQuery? {
      LessCons(Key(p)[0], p.id, q.id);
      assert Key(p) == [Key(p)[0]] + p.id && Key(q) == [Key(q)[0]] + q.id;
    }
  }

  /** Queries of statistics come before expressions, and each of the two kinds ascends by id. */
  lemma StatsFirst(queries: seq<Query>, groups: seq<Group>, metrics: seq<string>, periodSec: int, k: nat, l: nat)
    requires IsResult(queries, groups, metrics, periodSec) && k < l < |queries|
    ensures queries[k].ExpressionQuery? ==> queries[l].ExpressionQuery?
    ensures queries[k].ExpressionQuery? == queries[l].ExpressionQuery? ==> Less(queries[k].id, queries[l].id)
  {
    hide IsQueryFrom, IsWanted, Key, Less;
    var keys := Keys(queries);
    AscendingApart(keys, k, l);
    KeysCompare(queries[k], queries[l]);
  }

  lemma {:induction false} AscendingApart(s: seq<string>, k: nat, l: nat)
    requires Ascending(s) && k < l < |s|
    ensures Less(s[k], s[l])
  {
    hide Less;
  }

  ghost predicate Queried(queries: seq<Query>, id: string) {
    exists q :: q in queries && q.id == id
  }

  lemma WantedIsQueried(queries: seq<Query>, groups: seq<Group>, metrics: seq<string>, periodSec: int, src: Source)
    requires IsResult(queries, groups, metrics, periodSec) && IsWanted(src, groups, |groups|, metrics)
    ensures Queried(queries, GenMetricId(src.group, src.id))
  {
    hide GenMetricId, Requested, Ascending, IsWanted;
    var q :| q in queries && IsQueryFrom(q, src, groups, metrics, periodSec);
    QueryId(q, src, groups, metrics, periodSec);
  }

  lemma QueriedIsWanted(queries: seq<Query>, groups: seq<Group>, metrics: seq<string>, periodSec: int, i: nat,
                        id: string)
    requires IsResult(queries, groups, metrics, periodSec) && Queried(queries, GenMetricId(i, id))
    ensures i < |groups| && Requested(metrics, groups[i])
  {
    hide GenMetricId, Requested, Ascending, IsQueryFrom, IsWanted;
    var q :| q in queries && q.id == GenMetricId(i, id);
    var src :| IsQueryFrom(q, src, groups, metrics, periodSec);
    QueryId(q, src, groups, metrics, periodSec);
    GenInjective(i, id, src.group, src.id);
  }

  /** There is a query of a metric exactly if its group was asked for, or none was. */
  lemma QueriedIfAskedFor(queries: seq<Query>, groups: seq<Group>, metrics: seq<string>, periodSec: int, i: nat,
                          id: string)
    requires IsResult(queries, groups, metrics, periodSec) && i < |groups| && id in groups[i].mappings
    ensures Queried(queries, "group_" + (Digits(i) + ("_" + id))) <==> metrics == [] || groups[i].name in metrics
  {
    GeneratedId(i, id);
    AskedFor(groups, metrics, i, id);
    hide GenMetricId, Requested, IsResult, IsWanted, Digits, Queried;
    if IsWanted(Source(i, id), groups, |groups|, metrics) {
      WantedIsQueried(queries, groups, metrics, periodSec, Source(i, id));
    }
    if Queried(queries, GenMetricId(i, id)) {
      QueriedIsWanted(queries, groups, metrics, periodSec, i, id);
    }
  }

  lemma AskedFor(groups: seq<Group>, metrics: seq<string>, i: nat, id: string)
    requires i < |groups| && id in groups[i].mappings
    ensures IsWanted(Source(i, id), groups, |groups|, metrics) <==> metrics == [] || groups[i].name in metrics
    ensures Requested(metrics, groups[i]) <==> metrics == [] || groups[i].name in metrics
  {
  }

  lemma QueryId(q: Query, src: Source, groups: seq<Group>, metrics: seq<string>, periodSec: int)
    requires IsQueryFrom(q, src, groups, metrics, periodSec)
    ensures src.group < |groups| && Requested(metrics, groups[src.group]) && q.id == GenMetricId(src.group, src.id)
  {
    hide GenMetricId, Requested;
  }

  /** These are the generated ids of a group, whose metrics' expressions may refer to each other. */
  predicate GeneratedFor(ids: Ids, i: nat, group: Group) {
    ids.Keys == group.mappings.Keys && forall id <- ids :: ids[id] == "group_" + (Digits(i) + ("_" + id))
  }

  /**
    Which metric it is of: the account, the statistic and the period of the request, or the expression
    rewritten to the generated ids of the metric's own group.
  */
  lemma QueryIsOfMetric(queries: seq<Query>, groups: seq<Group>, metrics: seq<string>, periodSec: int, i: nat,
                        id: string, q: Query)
    requires IsResult(queries, groups, metrics, periodSec) && i < |groups| && id in groups[i].mappings
    requires q in queries && q.id == "group_" + (Digits(i) + ("_" + id))
    ensures var m := groups[i].mappings[id];
            && q.accountId == m.accountId && (q.ExpressionQuery? <==> m.expression != "")
            && (m.expression == "" ==> q == StatQuery(q.id, m.accountId, periodSec, m.stat))
            && (m.expression != "" ==>
                  exists ids :: GeneratedFor(ids, i, groups[i]) && IsRewrite(q.expression, m.expression, ids))
  {
    GeneratedId(i, id);
    hide GenMetricId, Requested, Ascending, Digits;
    var src :| IsQueryFrom(q, src, groups, metrics, periodSec);
    QueryId(q, src, groups, metrics, periodSec);
    GenInjective(i, id, src.group, src.id);
    QueryParts(q, src, groups, metrics, periodSec);
    IdsAreGenerated(i, groups[i]);
  }

  lemma IdsAreGenerated(i: nat, group: Group)
    ensures GeneratedFor(IdMap(i, group), i, group)
  {
    forall id | id in group.mappings
      ensures IdMap(i, group)[id] == "group_" + (Digits(i) + ("_" + id))
    {
      GeneratedId(i, id);
    }
    hide GenMetricId, Digits;
  }

  lemma QueryParts(q: Query, src: Source, groups: seq<Group>, metrics: seq<string>, periodSec: int)
    requires IsQueryFrom(q, src, groups, metrics, periodSec)
    ensures src.group < |groups| && src.id in groups[src.group].mappings
    ensures var m := groups[src.group].mappings[src.id];
            && q.accountId == m.accountId && (q.ExpressionQuery? <==> m.expression != "")
            && (m.expression == "" ==> q == StatQuery(q.id, m.accountId, periodSec, m.stat))
            && (m.expression != "" ==> IsRewrite(q.expression, m.expression, IdMap(src.group, groups[src.group])))
  {
    hide GenMetricId, Requested;
  }
}
