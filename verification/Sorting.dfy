/** Sorting by a total order, as the library sort the sources call. */
module Sorting {

  ghost predicate TotalOrder<T(!new)>(le: (T, T) -> bool) {
    && (forall a, b :: le(a, b) || le(b, a))
    && (forall a, b, c :: le(a, b) && le(b, c) ==> le(a, c))
  }

  ghost predicate SortedBy<T>(s: seq<T>, le: (T, T) -> bool) {
    forall i, j :: 0 <= i < j < |s| ==> le(s[i], s[j])
  }

  function Insert<T>(x: T, s: seq<T>, le: (T, T) -> bool): seq<T> {
    if s == [] || le(x, s[0]) then [x] + s else [s[0]] + Insert(x, s[1..], le)
  }

  function Sort<T>(s: seq<T>, le: (T, T) -> bool): (r: seq<T>) {
    if s == [] then [] else Insert(s[0], Sort(s[1..], le), le)
  }

  lemma {:induction false} InsertAdds<T>(x: T, s: seq<T>, le: (T, T) -> bool)
    ensures multiset(Insert(x, s, le)) == multiset(s) + multiset{x}
  {
    if s != [] && !le(x, s[0]) {
      InsertAdds(x, s[1..], le);
      assert s == [s[0]] + s[1..];
    }
  }

  /** What was no larger than x and the members of s is no larger than the result. */
  lemma InsertAbove<T>(low: T, x: T, s: seq<T>, le: (T, T) -> bool)
    requires le(low, x) && forall y :: y in s ==> le(low, y)
    ensures forall y :: y in Insert(x, s, le) ==> le(low, y)
  {
    InsertAdds(x, s, le);
    forall y | y in Insert(x, s, le) ensures le(low, y) {
      assert y in multiset(Insert(x, s, le));
      assert y == x || y in s;
    }
  }

  lemma {:induction false} InsertSorts<T(!new)>(x: T, s: seq<T>, le: (T, T) -> bool)
    requires TotalOrder(le) && SortedBy(s, le)
    ensures SortedBy(Insert(x, s, le), le)
  {
    if s != [] && !le(x, s[0]) {
      InsertSorts(x, s[1..], le);
      InsertAbove(s[0], x, s[1..], le);
      SortedCons(s[0], Insert(x, s[1..], le), le);
    }
  }

  lemma SortedCons<T>(low: T, s: seq<T>, le: (T, T) -> bool)
    requires SortedBy(s, le) && forall y :: y in s ==> le(low, y)
    ensures SortedBy([low] + s, le)
  {
  }

  lemma {:induction false} SortSorts<T(!new)>(s: seq<T>, le: (T, T) -> bool)
    requires TotalOrder(le)
    ensures SortedBy(Sort(s, le), le) && multiset(Sort(s, le)) == multiset(s)
  {
    if s != [] {
      SortSorts(s[1..], le);
      InsertSorts(s[0], Sort(s[1..], le), le);
      InsertAdds(s[0], Sort(s[1..], le), le);
      assert s == [s[0]] + s[1..];
    }
  }

  lemma SameMembers<T>(s: seq<T>, r: seq<T>)
    requires multiset(s) == multiset(r)
    ensures |s| == |r| && forall x :: x in s <==> x in r
  {
    assert |multiset(s)| == |multiset(r)|;
    forall x ensures x in s <==> x in r {
      assert x in multiset(s) <==> x in multiset(r);
    }
  }
}
