/** Go's byte-wise order on strings, and sorting by it. On valid UTF-8 it is the order of code points. */
module Ordering {
  import opened Text

  predicate Less(a: string, b: string) {
    b != "" && (a == "" || a[0] < b[0] || (a[0] == b[0] && Less(a[1..], b[1..])))
  }

  lemma {:induction false} LessTotal(a: string, b: string)
    ensures a == b || Less(a, b) || Less(b, a)
  {
    if a != "" && b != "" && a[0] == b[0] {
      LessTotal(a[1..], b[1..]);
      assert a == [a[0]] + a[1..] && b == [b[0]] + b[1..];
    }
  }

  lemma {:induction false} LessIsStrict(a: string, b: string)
    requires Less(a, b)
    ensures !Less(b, a) && a != b
  {
    if a != "" && a[0] == b[0] {
      LessIsStrict(a[1..], b[1..]);
    }
  }

  lemma {:induction false} LessTransitive(a: string, b: string, c: string)
    requires Less(a, b) && Less(b, c)
    ensures Less(a, c)
  {
    if a != "" && a[0] == b[0] == c[0] {
      LessTransitive(a[1..], b[1..], c[1..]);
    }
  }

  /** Strictly ascending: sorted and without repetition. */
  predicate Ascending(s: seq<string>) {
    forall i, j | 0 <= i < j < |s| :: Less(s[i], s[j])
  }

  function Insert(x: string, s: seq<string>): seq<string> {
    if s == [] || Less(x, s[0]) then [x] + s else [s[0]] + Insert(x, s[1..])
  }

  function Sort(s: seq<string>): seq<string> {
    if s == [] then [] else Insert(s[0], Sort(s[1..]))
  }

  lemma {:induction false} InsertMembers(x: string, s: seq<string>, y: string)
    ensures y in Insert(x, s) <==> y == x || y in s
  {
    if s != [] && !Less(x, s[0]) {
      InsertMembers(x, s[1..], y);
      assert s == [s[0]] + s[1..];
    }
  }

  lemma {:induction false} InsertAscends(x: string, s: seq<string>)
    requires Ascending(s) && x !in s
    ensures Ascending(Insert(x, s)) && |Insert(x, s)| == |s| + 1
  {
    if s == [] {
    } else if Less(x, s[0]) {
      forall j | 0 <= j < |s|
        ensures Less(x, s[j])
      {
        if j > 0 {
          LessTransitive(x, s[0], s[j]);
        }
      }
    } else {
      LessTotal(x, s[0]);
      InsertAscends(x, s[1..]);
      var rest := Insert(x, s[1..]);
      forall j | 0 <= j < |rest|
        ensures Less(s[0], rest[j])
      {
        InsertMembers(x, s[1..], rest[j]);
      }
    }
  }

  /** Sorting distinct strings gives them in strictly ascending order. */
  lemma {:induction false} SortAscends(s: seq<string>)
    requires forall i, j | 0 <= i < j < |s| :: s[i] != s[j]
    ensures Ascending(Sort(s)) && |Sort(s)| == |s| && forall y :: y in Sort(s) <==> y in s
  {
    if s != [] {
      SortAscends(s[1..]);
      InsertAscends(s[0], Sort(s[1..]));
      forall y
        ensures y in Sort(s) <==> y in s
      {
        InsertMembers(s[0], Sort(s[1..]), y);
      }
    }
  }

  lemma SameFirst(s: seq<string>, t: seq<string>)
    requires Ascending(s) && Ascending(t) && s != [] && t != [] && s[0] in t && t[0] in s
    ensures s[0] == t[0]
  {
    FirstIsLeast(s, t[0]);
    FirstIsLeast(t, s[0]);
    if s[0] != t[0] {
      LessIsStrict(s[0], t[0]);
    }
  }

  lemma SameRest(s: seq<string>, t: seq<string>)
    requires Ascending(s) && Ascending(t) && s != [] && t != [] && s[0] == t[0] && forall y :: y in s <==> y in t
    ensures forall y :: y in s[1..] <==> y in t[1..]
  {
    hide Ascending;
    forall y
      ensures y in s[1..] <==> y in t[1..]
    {
      RestMembers(s, y);
      RestMembers(t, y);
    }
  }

  /** There is only one ascending list of the same strings. */
  lemma {:induction false} AscendingUnique(s: seq<string>, t: seq<string>)
    requires Ascending(s) && Ascending(t) && forall y :: y in s <==> y in t
    ensures s == t
  {
    if s == [] {
      if t != [] {
        HasMember(t);
      }
    } else {
      assert s[0] in t;
      assert t[0] in s;
      SameFirst(s, t);
      SameRest(s, t);
      hide Less;
      AscendingUnique(s[1..], t[1..]);
      assert s == [s[0]] + s[1..] && t == [t[0]] + t[1..];
    }
  }

  lemma FirstIsLeast(s: seq<string>, y: string)
    requires Ascending(s) && y in s
    ensures s[0] == y || Less(s[0], y)
  {
  }

  lemma RestMembers(s: seq<string>, y: string)
    requires Ascending(s) && s != []
    ensures y in s[1..] <==> y in s && y != s[0]
  {
    if y in s[1..] {
      var i :| 0 <= i < |s[1..]| && s[1..][i] == y;
      LessIsStrict(s[0], s[i + 1]);
    }
  }

  /** The strings of a set in ascending order. */
  ghost function SortedList(names: set<string>): (s: seq<string>)
    ensures Ascending(s) && |s| == |names| && forall y :: y in s <==> y in names
  {
    if names == {} then []
    else
      var x :| x in names;
      var rest := SortedList(names - {x});
      InsertAscends(x, rest);
      assert forall y :: y in Insert(x, rest) <==> y == x || y in rest by {
        forall y
          ensures y in Insert(x, rest) <==> y == x || y in rest
        {
          InsertMembers(x, rest, y);
        }
      }
      Insert(x, rest)
  }

  /** Sorting any listing of a set, in whatever order it was collected, gives the set's sorted list. */
  lemma SortOfListing(s: seq<string>, names: set<string>)
    requires (forall i, j | 0 <= i < j < |s| :: s[i] != s[j]) && forall y :: y in s <==> y in names
    ensures Sort(s) == SortedList(names)
  {
    SortAscends(s);
    AscendingUnique(Sort(s), SortedList(names));
  }
}
