/** Sums over a list whose elements change one at a time. */
module Totals {

  function Total<T>(s: seq<T>, weight: T -> nat): nat {
    if s == [] then 0 else weight(s[0]) + Total(s[1..], weight)
  }

  lemma {:induction false} TotalUpdated<T>(s: seq<T>, i: nat, x: T, weight: T -> nat)
    requires i < |s|
    ensures Total(s[i := x], weight) == Total(s, weight) - weight(s[i]) + weight(x)
  {
    if i > 0 {
      TotalUpdated(s[1..], i - 1, x, weight);
      assert s[i := x][1..] == s[1..][i - 1 := x];
    } else {
      assert s[i := x][1..] == s[1..];
    }
  }

  lemma {:induction false} TotalAppended<T>(s: seq<T>, x: T, weight: T -> nat)
    ensures Total(s + [x], weight) == Total(s, weight) + weight(x)
  {
    if s == [] {
      assert [x][1..] == [];
    } else {
      TotalAppended(s[1..], x, weight);
      assert (s + [x])[1..] == s[1..] + [x];
    }
  }

  lemma {:induction false} TotalZero<T>(s: seq<T>, weight: T -> nat)
    ensures Total(s, weight) == 0 <==> forall i | 0 <= i < |s| :: weight(s[i]) == 0
  {
    if s != [] {
      TotalZero(s[1..], weight);
      assert forall i | 1 <= i < |s| :: s[i] == s[1..][i - 1];
    }
  }
}
