/** The device-busy time of a profile: the length of the union of kernel intervals, found by one sweep
    over the sorted intervals. Times are whole ticks. */
module IntervalUnion {
  import opened Sets
  import opened Sorting

  datatype Interval = Interval(start: int, end: int)

  /** Tuples in lexicographic order. */
  predicate Before(a: Interval, b: Interval) {
    a.start < b.start || (a.start == b.start && a.end <= b.end)
  }

  function Length(x: Interval): nat { if x.end > x.start then x.end - x.start else 0 }

  ghost function Ticks(x: Interval): (r: set<int>)
    ensures |r| == Length(x) && forall t :: t in r <==> x.start <= t < x.end
  {
    Span(x.start, x.end)
  }

  /** The ticks inside at least one interval. */
  ghost function Covered(xs: seq<Interval>): set<int> {
    if xs == [] then {} else Ticks(xs[0]) + Covered(xs[1..])
  }

  function TotalLength(xs: seq<Interval>): nat {
    if xs == [] then 0 else Length(xs[0]) + TotalLength(xs[1..])
  }

  lemma {:induction false} CoveredIff(xs: seq<Interval>, t: int)
    ensures t in Covered(xs) <==> exists x :: x in xs && t in Ticks(x)
  {
    if xs != [] {
      CoveredIff(xs[1..], t);
      assert xs == [xs[0]] + xs[1..];
      if t in Covered(xs[1..]) {
        var x :| x in xs[1..] && t in Ticks(x);
        assert x in xs;
      }
      assert xs[0] in xs;
    }
  }

  function Positive(xs: seq<Interval>): (r: seq<Interval>)
    ensures forall x :: x in r <==> x in xs && x.end > x.start
  {
    if xs == [] then []
    else
      assert xs == [xs[0]] + xs[1..];
      (if xs[0].end > xs[0].start then [xs[0]] else []) + Positive(xs[1..])
  }

  lemma PositiveCovers(xs: seq<Interval>)
    ensures Covered(Positive(xs)) == Covered(xs)
  {
    forall t ensures t in Covered(Positive(xs)) <==> t in Covered(xs) {
      CoveredIff(xs, t);
      CoveredIff(Positive(xs), t);
    }
  }

  /** Only the intervals matter, not their order or how often they are listed. */
  lemma SameMembersSameCover(xs: seq<Interval>, ys: seq<Interval>)
    requires forall x :: x in xs <==> x in ys
    ensures Covered(xs) == Covered(ys)
  {
    forall t ensures t in Covered(xs) <==> t in Covered(ys) {
      CoveredIff(xs, t);
      CoveredIff(ys, t);
    }
  }

  /** Cutting an interval in two, or joining two that meet, changes nothing. */
  lemma SplittingKeepsCover(xs: seq<Interval>, a: int, m: int, b: int)
    requires a <= m <= b
    ensures Covered([Interval(a, m)] + ([Interval(m, b)] + xs)) == Covered([Interval(a, b)] + xs)
  {
    CoveredCons(Interval(a, m), [Interval(m, b)] + xs);
    CoveredCons(Interval(m, b), xs);
    CoveredCons(Interval(a, b), xs);
    assert Ticks(Interval(a, m)) + Ticks(Interval(m, b)) == Ticks(Interval(a, b));
  }

  lemma CoveredCons(x: Interval, xs: seq<Interval>)
    ensures Covered([x] + xs) == Ticks(x) + Covered(xs)
    ensures TotalLength([x] + xs) == Length(x) + TotalLength(xs)
  {
    assert ([x] + xs)[1..] == xs;
  }

  // ---------------------------------------------------------------- the sweep

  /** The union as separate stretches: the open one and those the rest will form. */
  function Merge(rest: seq<Interval>, open: Interval): (m: seq<Interval>)
    ensures m != [] && m[0].start == open.start
  {
    if rest == [] then [open]
    else if rest[0].start <= open.end then
      Merge(rest[1..], Interval(open.start, if rest[0].end > open.end then rest[0].end else open.end))
    else
      [open] + Merge(rest[1..], rest[0])
  }

  /** Sort, then merge while the next interval starts no later than the current end. */
  method UnionLength(intervals: seq<Interval>) returns (total: int)
    ensures total == |Covered(intervals)|
  {
    var ordered := Sort(Positive(intervals), Before);
    SortSorts(Positive(intervals), Before);
    SameMembers(Positive(intervals), ordered);
    forall i | 0 <= i < |ordered| ensures ordered[i].start < ordered[i].end {
      assert ordered[i] in Positive(intervals);
    }
    PositiveCovers(intervals);
    SameMembersSameCover(Positive(intervals), ordered);
    if ordered == [] {
      return 0;
    }
    total := Sweep(ordered);
    MergeMeasures(ordered);
  }

  method Sweep(ordered: seq<Interval>) returns (total: int)
    requires ordered != [] && Sweepable(ordered)
    ensures total == TotalLength(Merge(ordered[1..], ordered[0]))
  {
    total := 0;
    var start, end := ordered[0].start, ordered[0].end;
    for i := 1 to |ordered|
      invariant start < end
      invariant total + TotalLength(Merge(ordered[i..], Interval(start, end))) ==
                TotalLength(Merge(ordered[1..], ordered[0]))
    {
      var next := ordered[i];
      assert ordered[i..][1..] == ordered[i + 1..];
      if next.start <= end {
        end := if next.end > end then next.end else end;
      } else {
        CoveredCons(Interval(start, end), Merge(ordered[i + 1..], next));
        total := total + (end - start);
        start, end := next.start, next.end;
      }
    }
    total := total + end - start;
  }

  ghost predicate Sweepable(ordered: seq<Interval>) {
    && (forall i :: 0 <= i < |ordered| ==> ordered[i].start < ordered[i].end)
    && (forall i, j :: 0 <= i < j < |ordered| ==> ordered[i].start <= ordered[j].start)
  }

  /** Merging keeps the covered ticks. */
  lemma {:induction false} MergeCovers(rest: seq<Interval>, open: Interval)
    requires Sweepable([open] + rest)
    ensures Covered(Merge(rest, open)) == Ticks(open) + Covered(rest)
    decreases |rest|
  {
    if rest != [] {
      var all := [open] + rest;
      assert all[0] == open && all[1] == rest[0];
      if rest[0].start <= open.end {
        var wide := Interval(open.start, if rest[0].end > open.end then rest[0].end else open.end);
        assert Ticks(wide) == Ticks(open) + Ticks(rest[0]);
        WidenSweepable(rest, open, wide);
        MergeCovers(rest[1..], wide);
      } else {
        TailSweepable(rest, open);
        MergeCovers(rest[1..], rest[0]);
        CoveredCons(open, Merge(rest[1..], rest[0]));
      }
    }
  }

  lemma WidenSweepable(rest: seq<Interval>, open: Interval, wide: Interval)
    requires Sweepable([open] + rest) && rest != [] && wide.start == open.start && wide.end >= open.end
    ensures Sweepable([wide] + rest[1..])
  {
    var a, b := [open] + rest, [wide] + rest[1..];
    assert a[0] == open && b[0] == wide;
    forall i | 1 <= i < |b| ensures b[i] == a[i + 1] && b[i].start < b[i].end && open.start <= b[i].start {
      assert a[0].start <= a[i + 1].start;
    }
  }

  lemma TailSweepable(rest: seq<Interval>, open: Interval)
    requires Sweepable([open] + rest) && rest != []
    ensures Sweepable([rest[0]] + rest[1..]) && open.start <= rest[0].start
  {
    var a, b := [open] + rest, [rest[0]] + rest[1..];
    assert a[0] == open && a[1] == rest[0];
    assert forall i :: 0 <= i < |b| ==> b[i] == a[i + 1];
  }

  /** No tick in common: one is empty, or they lie side by side. */
  predicate Apart(a: Interval, b: Interval) {
    a.end <= a.start || b.end <= b.start || a.end <= b.start || b.end <= a.start
  }

  lemma ApartIff(a: Interval, b: Interval)
    ensures Apart(a, b) <==> Ticks(a) !! Ticks(b)
  {
    if !Apart(a, b) {
      var t := if a.start >= b.start then a.start else b.start;
      assert t in Ticks(a) && t in Ticks(b);
    }
  }

  ghost predicate Disjoint(xs: seq<Interval>) {
    forall i, j :: 0 <= i < j < |xs| ==> Apart(xs[i], xs[j])
  }

  ghost predicate StartsAfter(xs: seq<Interval>, t: int) {
    forall i :: 0 <= i < |xs| ==> t <= xs[i].start
  }

  /** Merged stretches do not meet. */
  lemma {:induction false} MergeSeparates(rest: seq<Interval>, open: Interval)
    requires Sweepable([open] + rest)
    ensures Disjoint(Merge(rest, open)) && StartsAfter(Merge(rest, open), open.start)
    decreases |rest|
  {
    if rest != [] {
      if rest[0].start <= open.end {
        var wide := Interval(open.start, if rest[0].end > open.end then rest[0].end else open.end);
        WidenSweepable(rest, open, wide);
        MergeSeparates(rest[1..], wide);
      } else {
        TailSweepable(rest, open);
        MergeSeparates(rest[1..], rest[0]);
        SeparatePrepend(open, Merge(rest[1..], rest[0]), rest[0].start);
      }
    }
  }

  lemma SeparatePrepend(open: Interval, m: seq<Interval>, next: int)
    requires open.end < next && open.start <= next && Disjoint(m) && StartsAfter(m, next)
    ensures Disjoint([open] + m) && StartsAfter([open] + m, open.start)
  {
    DisjointCons(open, m);
  }

  lemma MergeMeasures(ordered: seq<Interval>)
    requires ordered != [] && Sweepable(ordered)
    ensures TotalLength(Merge(ordered[1..], ordered[0])) == |Covered(ordered)|
  {
    assert [ordered[0]] + ordered[1..] == ordered;
    MergeCovers(ordered[1..], ordered[0]);
    MergeSeparates(ordered[1..], ordered[0]);
    UnionAtMostSum(Merge(ordered[1..], ordered[0]));
  }

  // ---------------------------------------------------------------- against the sum of durations

  /** The union is never longer than the lengths added up, and as long exactly when no two intervals
      share a tick. */
  lemma {:induction false} UnionAtMostSum(xs: seq<Interval>)
    ensures |Covered(xs)| <= TotalLength(xs)
    ensures |Covered(xs)| == TotalLength(xs) <==> Disjoint(xs)
  {
    if xs != [] {
      assert xs == [xs[0]] + xs[1..];
      UnionAtMostSum(xs[1..]);
      OverlapSize(Ticks(xs[0]), Covered(xs[1..]));
      assert Disjoint(xs) <==> Disjoint(xs[1..]) && Ticks(xs[0]) !! Covered(xs[1..]) by {
        DisjointStep(xs[0], xs[1..]);
      }
    }
  }

  lemma OverlapSize(a: set<int>, b: set<int>)
    ensures |a + b| <= |a| + |b|
    ensures |a + b| == |a| + |b| <==> a !! b
  {
    assert a + b == a + (b - a);
    SubsetSize(b - a, b);
    assert b - a == b <==> a !! b;
  }

  /** An interval that shares no tick with any of these. */
  ghost predicate Clear(x: Interval, xs: seq<Interval>) {
    forall j :: 0 <= j < |xs| ==> Apart(x, xs[j])
  }

  lemma {:induction false} ClearIff(x: Interval, xs: seq<Interval>)
    ensures Clear(x, xs) <==> Ticks(x) !! Covered(xs)
  {
    if xs != [] {
      ClearIff(x, xs[1..]);
      ApartIff(x, xs[0]);
      ClearCons(x, xs[0], xs[1..]);
      assert xs == [xs[0]] + xs[1..];
    }
  }

  lemma ClearCons(x: Interval, y: Interval, xs: seq<Interval>)
    ensures Clear(x, [y] + xs) <==> Apart(x, y) && Clear(x, xs)
  {
    var all := [y] + xs;
    assert all[0] == y && forall j :: 0 <= j < |xs| ==> all[j + 1] == xs[j];
    if Clear(x, all) {
      forall j | 0 <= j < |xs| ensures Apart(x, xs[j]) { assert Apart(x, all[j + 1]); }
    }
  }

  lemma DisjointCons(x: Interval, xs: seq<Interval>)
    ensures Disjoint([x] + xs) <==> Disjoint(xs) && Clear(x, xs)
  {
    var all := [x] + xs;
    assert all[0] == x && forall j :: 0 <= j < |xs| ==> all[j + 1] == xs[j];
    if Disjoint(all) {
      forall i, j | 0 <= i < j < |xs| ensures Apart(xs[i], xs[j]) { assert Apart(all[i + 1], all[j + 1]); }
      forall j | 0 <= j < |xs| ensures Apart(x, xs[j]) { assert Apart(all[0], all[j + 1]); }
    }
  }

  lemma DisjointStep(x: Interval, rest: seq<Interval>)
    ensures Disjoint([x] + rest) <==> Disjoint(rest) && Ticks(x) !! Covered(rest)
  {
    DisjointCons(x, rest);
    ClearIff(x, rest);
  }

  /** A kernel event as an interval. */
  function FromEvent(start: int, duration: int): Interval { Interval(start, start + duration) }

  function Intervals(starts: seq<int>, durations: seq<int>): (r: seq<Interval>)
    requires |starts| == |durations|
    ensures |r| == |starts|
  {
    seq(|starts|, i requires 0 <= i < |starts| => FromEvent(starts[i], durations[i]))
  }

  function Sum(xs: seq<int>): int {
    if xs == [] then 0 else xs[0] + Sum(xs[1..])
  }

  lemma {:induction false} LengthsAreDurations(starts: seq<int>, durations: seq<int>)
    requires |starts| == |durations|
    requires forall i :: 0 <= i < |durations| ==> durations[i] >= 0
    ensures TotalLength(Intervals(starts, durations)) == Sum(durations)
  {
    if starts != [] {
      LengthsAreDurations(starts[1..], durations[1..]);
      assert Intervals(starts, durations)[1..] == Intervals(starts[1..], durations[1..]);
    }
  }

  /** With non-negative durations, the union a report shows never exceeds the sum of durations it shows
      beside it. */
  lemma UnionAtMostDurations(starts: seq<int>, durations: seq<int>)
    requires |starts| == |durations|
    requires forall i :: 0 <= i < |durations| ==> durations[i] >= 0
    ensures |Covered(Intervals(starts, durations))| <= Sum(durations)
  {
    UnionAtMostSum(Intervals(starts, durations));
    LengthsAreDurations(starts, durations);
  }

  ghost predicate SomeNegative(durations: seq<int>) { exists i :: 0 <= i < |durations| && durations[i] < 0 }

  /** Disjoint intervals from t on, at least as long as the durations add up to, and longer if one is negative. */
  ghost predicate Placed(xs: seq<Interval>, t: int, durations: seq<int>) {
    && Disjoint(xs) && (forall k :: k in Covered(xs) ==> k >= t)
    && TotalLength(xs) >= Sum(durations) && (SomeNegative(durations) ==> TotalLength(xs) > Sum(durations))
  }

  lemma PlacedCons(x: Interval, rest: seq<Interval>, t: int, next: int, d: int, ds: seq<int>)
    requires x == FromEvent(t, d) && next == (if d > 0 then t + d else t) && Placed(rest, next, ds)
    ensures Placed([x] + rest, t, [d] + ds)
  {
    CoveredCons(x, rest);
    DisjointStep(x, rest);
    SumCons(d, ds);
  }

  lemma SumCons(d: int, ds: seq<int>)
    ensures Sum([d] + ds) == d + Sum(ds)
    ensures SomeNegative([d] + ds) <==> d < 0 || SomeNegative(ds)
  {
    var all := [d] + ds;
    assert all[1..] == ds;
    if i :| 0 <= i < |ds| && ds[i] < 0 { assert all[i + 1] < 0; }
    if d < 0 { assert all[0] < 0; }
    if i :| 0 <= i < |all| && all[i] < 0 { assert i == 0 || ds[i - 1] < 0; }
  }

  lemma IntervalsCons(t: int, d: int, starts: seq<int>, ds: seq<int>)
    requires |starts| == |ds|
    ensures Intervals([t] + starts, [d] + ds) == [FromEvent(t, d)] + Intervals(starts, ds)
  {
  }

  /** Events one after the other, from t on. */
  lemma {:induction false} BackToBack(t: int, durations: seq<int>) returns (starts: seq<int>)
    ensures |starts| == |durations| && Placed(Intervals(starts, durations), t, durations)
    decreases |durations|
  {
    if durations == [] {
      starts := [];
      NothingPlaced(t, Intervals(starts, durations), durations);
    } else {
      var d, ds := durations[0], durations[1..];
      var next := if d > 0 then t + d else t;
      var more := BackToBack(next, ds);
      PlacedCons(FromEvent(t, d), Intervals(more, ds), t, next, d, ds);
      IntervalsCons(t, d, more, ds);
      assert durations == [d] + ds;
      starts := [t] + more;
    }
  }

  lemma NothingPlaced(t: int, xs: seq<Interval>, durations: seq<int>)
    requires xs == [] && durations == []
    ensures Placed(xs, t, durations)
  {
  }

  /** The report's two figures are in order for every placing of the events exactly when no duration is negative. */
  lemma UnionAtMostDurationsIff(durations: seq<int>)
    ensures (forall starts :: |starts| == |durations| ==> |Covered(Intervals(starts, durations))| <= Sum(durations))
            <==> forall i :: 0 <= i < |durations| ==> durations[i] >= 0
  {
    if SomeNegative(durations) {
      var starts := BackToBack(0, durations);
      UnionAtMostSum(Intervals(starts, durations));
    } else {
      forall starts: seq<int> | |starts| == |durations| ensures |Covered(Intervals(starts, durations))| <= Sum(durations) {
        UnionAtMostDurations(starts, durations);
      }
    }
  }
}
