/** Ranking experts by measured route counts. Rows have any number of experts. */
module RankedExperts {
  import opened Sets
  import opened Sorting

  /** How often an id was routed to, 0 for an id outside the row. */
  function Count(row: seq<int>, id: int): int { if 0 <= id < |row| then row[id] else 0 }

  function Total(row: seq<int>, ids: seq<int>): int {
    if ids == [] then 0 else Count(row, ids[0]) + Total(row, ids[1..])
  }

  /** The ids 0..n-1 from first on. */
  function Ids(first: nat, n: nat): (r: seq<int>)
    requires first <= n
    ensures |r| == n - first && forall k :: 0 <= k < |r| ==> r[k] == first + k
    decreases n - first
  {
    if first == n then [] else [first] + Ids(first + 1, n)
  }

  /** More routes first, the lower id among equals. */
  predicate Heavier(row: seq<int>, a: int, b: int) {
    Count(row, a) > Count(row, b) || (Count(row, a) == Count(row, b) && a <= b)
  }

  function Order(row: seq<int>): (int, int) -> bool { (a, b) => Heavier(row, a, b) }

  /** The ordering of a stable sort keyed on negated counts. */
  function ByCount(row: seq<int>): (int, int) -> bool { (a, b) => Count(row, a) >= Count(row, b) }

  function Ranked(row: seq<int>): seq<int> { Sort(Ids(0, |row|), Order(row)) }

  function TopExperts(row: seq<int>, k: nat): seq<int> {
    var r := Sort(Ids(0, |row|), ByCount(row));
    if k <= |r| then r[..k] else r
  }

  /** The distinct ids are exactly those of the row. */
  ghost predicate Permutation(ids: seq<int>, experts: nat) {
    |ids| == experts && NoDup(ids) && forall id: int :: id in ids <==> 0 <= id < experts
  }

  /** Distinct experts of a row. */
  ghost predicate Chosen(ids: seq<int>, experts: nat) {
    NoDup(ids) && forall i :: 0 <= i < |ids| ==> 0 <= ids[i] < experts
  }

  lemma RankedIsPermutation(row: seq<int>)
    ensures Permutation(Ranked(row), |row|) && SortedBy(Ranked(row), Order(row))
  {
    var ids := Ids(0, |row|);
    SortSorts(ids, Order(row));
    SameMembers(ids, Ranked(row));
    forall id: int ensures id in ids <==> 0 <= id < |row| {
      if 0 <= id < |row| { assert ids[id] == id; }
    }
    assert NoDup(ids);
    SameMultisetNoDup(ids, Ranked(row));
  }

  lemma {:induction false} NoDupOnce<T(!new)>(s: seq<T>)
    requires NoDup(s)
    ensures forall x :: multiset(s)[x] <= 1
  {
    if s != [] {
      var k := |s| - 1;
      NoDupOnce(s[..k]);
      assert s == s[..k] + [s[k]];
      assert s[k] !in s[..k];
    }
  }

  lemma OnceNoDup<T(!new)>(s: seq<T>)
    requires forall x :: multiset(s)[x] <= 1
    ensures NoDup(s)
  {
    forall i, j | 0 <= i < j < |s| ensures s[i] != s[j] {
      assert s == s[..j] + s[j..];
      assert s[..j][i] in s[..j] && s[j..][0] in s[j..];
      assert multiset(s)[s[i]] <= 1;
    }
  }

  lemma SameMultisetNoDup<T(!new)>(s: seq<T>, r: seq<T>)
    requires multiset(s) == multiset(r) && NoDup(s)
    ensures NoDup(r)
  {
    NoDupOnce(s);
    OnceNoDup(r);
  }

  // ---------------------------------------------------------------- the stable sort gives the same list

  lemma {:induction false} InsertAgrees<T>(x: T, s: seq<T>, le: (T, T) -> bool, other: (T, T) -> bool)
    requires forall y :: y in s ==> le(x, y) == other(x, y)
    ensures Insert(x, s, le) == Insert(x, s, other)
  {
    if s != [] { InsertAgrees(x, s[1..], le, other); }
  }

  /** An id below all others goes to the same place by either ordering. */
  lemma LowestInserted(row: seq<int>, id: int, rest: seq<int>)
    requires forall k :: 0 <= k < |rest| ==> id < rest[k]
    ensures var s := Sort(rest, Order(row)); Insert(id, s, ByCount(row)) == Insert(id, s, Order(row))
  {
    SortSorts(rest, Order(row));
    SameMembers(rest, Sort(rest, Order(row)));
    InsertAgrees(id, Sort(rest, Order(row)), ByCount(row), Order(row));
  }

  lemma {:induction false} StableSortIsRanked(row: seq<int>, first: nat)
    requires first <= |row|
    ensures Sort(Ids(first, |row|), ByCount(row)) == Sort(Ids(first, |row|), Order(row))
    decreases |row| - first
  {
    if first < |row| {
      StableSortIsRanked(row, first + 1);
      LowestInserted(row, first, Ids(first + 1, |row|));
    }
  }

  lemma TopExpertsIsPrefix(row: seq<int>, k: nat)
    requires k <= |row|
    ensures |Ranked(row)| == |row| && TopExperts(row, k) == Ranked(row)[..k]
    ensures Chosen(TopExperts(row, k), |row|)
  {
    RankedIsPermutation(row);
    assert forall i :: 0 <= i < |row| ==> Ranked(row)[i] in Ranked(row);
    StableSortIsRanked(row, 0);
  }

  // ---------------------------------------------------------------- no other choice of k experts does better

  lemma {:induction false} TotalWithout(row: seq<int>, ids: seq<int>, p: nat)
    requires p < |ids|
    ensures Total(row, ids) == Count(row, ids[p]) + Total(row, Removed(ids, p))
  {
    if p == 0 {
      assert Removed(ids, 0) == ids[1..];
    } else {
      TotalWithout(row, ids[1..], p - 1);
      assert Removed(ids, p)[1..] == Removed(ids[1..], p - 1);
    }
  }

  ghost predicate Among(ids: seq<int>, r: seq<int>) {
    forall i :: 0 <= i < |ids| ==> ids[i] in r
  }

  lemma {:induction false} HeaviestPrefix(row: seq<int>, r: seq<int>, ids: seq<int>)
    requires SortedBy(r, Order(row)) && NoDup(ids) && Among(ids, r)
    ensures |ids| <= |r| && Total(row, ids) <= Total(row, r[..|ids|])
    decreases |r|
  {
    if ids != [] {
      assert ids[0] in r;
      var p := if r[0] in ids then Position(ids, r[0]) else 0;
      var rest := Removed(ids, p);
      TotalWithout(row, ids, p);
      RemovedAmong(ids, p, r);
      HeaviestPrefix(row, r[1..], rest);
      FirstIsHeaviest(row, r, ids[p]);
      assert r[..|ids|][1..] == r[1..][..|rest|];
    }
  }

  function Removed(ids: seq<int>, p: nat): (rest: seq<int>)
    requires p < |ids|
    ensures |rest| == |ids| - 1
  {
    ids[..p] + ids[p + 1..]
  }

  function Position(ids: seq<int>, id: int): (p: nat)
    requires id in ids
    ensures p < |ids| && ids[p] == id
  {
    if ids[0] == id then 0 else 1 + Position(ids[1..], id)
  }

  lemma RemovedAmong(ids: seq<int>, p: nat, r: seq<int>)
    requires NoDup(ids) && p < |ids| && Among(ids, r) && r != [] && (r[0] == ids[p] || r[0] !in ids)
    ensures NoDup(Removed(ids, p)) && Among(Removed(ids, p), r[1..])
  {
    forall i | 0 <= i < |ids| - 1 ensures Removed(ids, p)[i] in r && Removed(ids, p)[i] != r[0] {
      assert ids[if i < p then i else i + 1] in ids;
    }
  }

  lemma FirstIsHeaviest(row: seq<int>, r: seq<int>, id: int)
    requires SortedBy(r, Order(row)) && id in r
    ensures Count(row, id) <= Count(row, r[0])
  {
    var j := Position(r, id);
    if j > 0 { assert Order(row)(r[0], r[j]); }
  }

  /** The first k ids of a ranked row carry the largest training count of any k distinct experts. */
  lemma TopIsBest(row: seq<int>, ids: seq<int>)
    requires Chosen(ids, |row|)
    ensures |ids| <= |row| == |Ranked(row)| && Total(row, ids) <= Total(row, Ranked(row)[..|ids|])
    ensures Total(row, ids) <= Total(row, TopExperts(row, |ids|)) && Chosen(TopExperts(row, |ids|), |row|)
  {
    RankedIsPermutation(row);
    assert Among(ids, Ranked(row));
    HeaviestPrefix(row, Ranked(row), ids);
    TopExpertsIsPrefix(row, |ids|);
  }

  // ---------------------------------------------------------------- counts of a routing trace

  function Occurrences(routes: seq<int>, experts: nat): (row: seq<nat>)
    ensures |row| == experts
  {
    seq(experts, id requires 0 <= id < experts => multiset(routes)[id])
  }

  /** Routed positions that find their expert among the pins. */
  function Hits(routes: seq<int>, pins: seq<int>): nat {
    if routes == [] then 0
    else Hits(routes[..|routes| - 1], pins) + if routes[|routes| - 1] in pins then 1 else 0
  }

  lemma {:induction false} TotalBumped(row: seq<int>, bumped: seq<int>, id: int, pins: seq<int>)
    requires NoDup(pins)
    requires forall x :: x in pins ==> Count(bumped, x) == Count(row, x) + if x == id then 1 else 0
    ensures Total(bumped, pins) == Total(row, pins) + if id in pins then 1 else 0
  {
    if pins != [] { TotalBumped(row, bumped, id, pins[1..]); }
  }

  lemma {:induction false} TotalIsHits(routes: seq<int>, experts: nat, pins: seq<int>)
    requires Chosen(pins, experts)
    ensures Total(Occurrences(routes, experts), pins) == Hits(routes, pins)
  {
    if routes == [] {
      NothingRouted(experts, pins);
    } else {
      var k := |routes| - 1;
      assert routes == routes[..k] + [routes[k]];
      TotalIsHits(routes[..k], experts, pins);
      TotalBumped(Occurrences(routes[..k], experts), Occurrences(routes, experts), routes[k], pins);
    }
  }

  lemma {:induction false} NothingRouted(experts: nat, pins: seq<int>)
    ensures Total(Occurrences([], experts), pins) == 0
  {
    if pins != [] { NothingRouted(experts, pins[1..]); }
  }

  /** Pinning the top k experts of a trace hits at least as many of its positions as any other k pins. */
  lemma PinsHitMost(routes: seq<int>, experts: nat, pins: seq<int>)
    requires Chosen(pins, experts)
    ensures Hits(routes, pins) <= Hits(routes, TopExperts(Occurrences(routes, experts), |pins|))
  {
    var row := Occurrences(routes, experts);
    TopIsBest(row, pins);
    TotalIsHits(routes, experts, pins);
    TotalIsHits(routes, experts, TopExperts(row, |pins|));
  }

  // ---------------------------------------------------------------- extending preserved prefixes

  function Without(ids: seq<int>, prefix: seq<int>): seq<int> {
    if ids == [] then []
    else (if ids[0] in prefix then [] else [ids[0]]) + Without(ids[1..], prefix)
  }

  function Extended(prefix: seq<int>, ranked: seq<int>): seq<int> { prefix + Without(ranked, prefix) }

  lemma {:induction false} WithoutKeeps(ids: seq<int>, prefix: seq<int>, le: (int, int) -> bool)
    requires NoDup(ids) && SortedBy(ids, le)
    ensures NoDup(Without(ids, prefix)) && SortedBy(Without(ids, prefix), le)
    ensures forall id :: id in Without(ids, prefix) <==> id in ids && id !in prefix
  {
    if ids != [] {
      WithoutKeeps(ids[1..], prefix, le);
      var w := Without(ids[1..], prefix);
      forall j | 0 <= j < |w| ensures le(ids[0], w[j]) && w[j] != ids[0] {
        assert w[j] in w;
        var q := Position(ids, w[j]);
      }
    }
  }

  /** A qualified prefix in front still leaves a row of all experts once each, the others in ranked order. */
  lemma ExtendedIsPermutation(row: seq<int>, prefix: seq<int>)
    requires Chosen(prefix, |row|)
    ensures var r := Extended(prefix, Ranked(row));
            Permutation(r, |row|) && |prefix| <= |row| && r[..|prefix|] == prefix
            && SortedBy(r[|prefix|..], Order(row))
  {
    RankedIsPermutation(row);
    WithoutKeeps(Ranked(row), prefix, Order(row));
    var r := Extended(prefix, Ranked(row));
    NoDupJoined(prefix, Without(Ranked(row), prefix));
    SameMembersSameLength(r, Ranked(row));
    assert r[|prefix|..] == Without(Ranked(row), prefix);
  }

  lemma NoDupJoined(a: seq<int>, b: seq<int>)
    requires NoDup(a) && NoDup(b) && forall id :: id in b ==> id !in a
    ensures NoDup(a + b)
  {
    forall i, j | 0 <= i < j < |a + b| ensures (a + b)[i] != (a + b)[j] {
      if i < |a| <= j { assert b[j - |a|] in b; }
    }
  }

  lemma SameMembersSameLength(a: seq<int>, b: seq<int>)
    requires NoDup(a) && NoDup(b) && forall id :: id in a <==> id in b
    ensures |a| == |b|
  {
    NoDupSize(a);
    NoDupSize(b);
    assert ToSet(a) == ToSet(b);
  }
}
