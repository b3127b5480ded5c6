/** The order in which a Go map is iterated: any order of its keys, each once. */
module Visiting {

  predicate Within(order: seq<string>, names: set<string>) {
    forall i | 0 <= i < |order| :: order[i] in names
  }

  ghost predicate IsOrder(order: seq<string>, names: set<string>) {
    Within(order, names) && (forall n <- names :: n in order)
    && forall i, j | 0 <= i < j < |order| :: order[i] != order[j]
  }

  /** The first `k` names of an order. */
  function Listed(order: seq<string>, k: nat): set<string>
    requires k <= |order|
  {
    set i | 0 <= i < k :: order[i]
  }

  lemma AllListed(order: seq<string>, names: set<string>)
    requires IsOrder(order, names)
    ensures Listed(order, |order|) == names
  {
  }

  lemma AnyOrder(names: set<string>) returns (order: seq<string>)
    ensures IsOrder(order, names)
  {
    order := [];
    var todo := names;
    while todo != {}
      invariant todo <= names && IsOrder(order, names - todo)
    {
      var n :| n in todo;
      order := order + [n];
      todo := todo - {n};
    }
  }
}
