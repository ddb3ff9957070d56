/** Counting facts about finite sets of integers, shared by the other modules. */
module Sets {

  ghost function ToSet<T>(s: seq<T>): set<T> { set x | x in s }

  ghost predicate NoDup<T>(s: seq<T>) {
    forall i, j :: 0 <= i < j < |s| ==> s[i] != s[j]
  }

  lemma {:induction false} NoDupSize<T>(s: seq<T>)
    requires NoDup(s)
    ensures |ToSet(s)| == |s|
  {
    if s != [] {
      var k := |s| - 1;
      NoDupSize(s[..k]);
      assert s == s[..k] + [s[k]];
      assert ToSet(s) == ToSet(s[..k]) + {s[k]};
    }
  }

  lemma {:induction false} SubsetSize<T>(a: set<T>, b: set<T>)
    requires a <= b
    ensures |a| <= |b|
    ensures |a| == |b| ==> a == b
  {
    assert b == a + (b - a);
  }

  lemma Member<T>(s: set<T>) returns (x: T)
    requires s != {}
    ensures x in s
  {
    x :| x in s;
  }

  /** A bounded set that loses members only when it is full afterwards. */
  lemma GrowthSize<T>(a: set<T>, b: set<T>, bound: nat)
    requires |b| <= bound && (a - b != {} ==> |b| == bound)
    ensures |b| == if bound <= |a| + |b - a| then bound else |a| + |b - a|
  {
    assert b == (a * b) + (b - a) && a == (a * b) + (a - b);
  }

  /** The integers 0..n-1. */
  ghost function Below(n: nat): (r: set<int>)
    ensures |r| == n && forall k :: k in r <==> 0 <= k < n
  {
    if n == 0 then {} else Below(n - 1) + {n - 1}
  }

  /** The integers a..b-1. */
  ghost function Span(a: int, b: int): (r: set<int>)
    ensures |r| == (if a <= b then b - a else 0) && forall k :: k in r <==> a <= k < b
    decreases b - a
  {
    if a >= b then {} else Span(a, b - 1) + {b - 1}
  }

  /** An injective map has as many values as keys. */
  lemma {:induction false} InjectiveSize<S, T>(m: map<S, T>)
    requires forall x, y :: x in m && y in m && x != y ==> m[x] != m[y]
    ensures |m.Values| == |m.Keys|
    decreases m.Keys
  {
    if m.Keys != {} {
      var x :| x in m.Keys;
      var rest := map y | y in m && y != x :: m[y];
      assert rest.Keys == m.Keys - {x};
      InjectiveSize(rest);
      assert m.Values == rest.Values + {m[x]} by {
        forall v | v in m.Values ensures v in rest.Values + {m[x]} {
          var k :| k in m && m[k] == v;
          assert k == x || rest[k] == v;
        }
        forall v | v in rest.Values ensures v in m.Values {
          var k :| k in rest && rest[k] == v;
          assert m[k] == v;
        }
      }
      assert m[x] !in rest.Values;
    }
  }
}
