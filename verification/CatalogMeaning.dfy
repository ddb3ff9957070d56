/** What a catalog's rows and comparisons mean in terms of the captured route counts of both phases. */
module CatalogMeaning {
  import opened Sets
  import opened Sorting
  import opened RankedExperts
  import opened Placement
  import opened RankedCatalog

  // ---------------------------------------------------------------- the order of a row

  /** From position skip on, a row lists the experts most routed to in both phases together first, the lower id among
      equals. */
  ghost predicate MostRoutedFirst(row: seq<int>, skip: nat, decode: seq<int>, prefill: seq<int>) {
    forall a, b :: skip <= a < b < |row| ==> Busier(decode, prefill, row[a], row[b])
  }

  /** Routed to more often than another, or as often and with the lower id. */
  predicate Busier(decode: seq<int>, prefill: seq<int>, x: int, y: int) {
    && 0 <= x < |decode| == |prefill| && 0 <= y < |decode|
    && (decode[x] + prefill[x] > decode[y] + prefill[y]
        || (decode[x] + prefill[x] == decode[y] + prefill[y] && x < y))
  }

  lemma SortedIsMostRouted(row: seq<int>, skip: nat, counts: seq<int>, decode: seq<int>, prefill: seq<int>)
    requires |counts| == |decode| == |prefill| && forall i :: 0 <= i < |counts| ==> counts[i] == decode[i] + prefill[i]
    requires Permutation(row, |counts|) && skip <= |row| && SortedBy(row[skip..], Order(counts))
    ensures MostRoutedFirst(row, skip, decode, prefill)
  {
    var rest := row[skip..];
    forall a, b | skip <= a < b < |row| ensures Busier(decode, prefill, row[a], row[b]) {
      assert row[a] in row && row[b] in row && row[a] != row[b];
      assert rest[a - skip] == row[a] && rest[b - skip] == row[b];
      assert Order(counts)(rest[a - skip], rest[b - skip]);
      HeavierIsBusier(counts, decode, prefill, row[a], row[b]);
    }
  }

  lemma HeavierIsBusier(counts: seq<int>, decode: seq<int>, prefill: seq<int>, x: int, y: int)
    requires |counts| == |decode| == |prefill| && forall i :: 0 <= i < |counts| ==> counts[i] == decode[i] + prefill[i]
    requires Heavier(counts, x, y) && 0 <= x < |counts| && 0 <= y < |counts| && x != y
    ensures Busier(decode, prefill, x, y)
  {
  }

  /** Every row of an accepted catalog: a permutation of all experts, after the source's own prefix where that is kept,
      ordered by the routes of both training phases. */
  lemma CatalogOrder(m: seq<Entry>, train: Histogram, preserve: bool, s: Shape, rank: nat, l: nat)
    requires Valid(m, s) && GoodHistogram(train, s) && rank < 2 && l < s.layers
    ensures var row := Rows(m[rank].hot, Counts(train, s), preserve)[l];
            var skip := if preserve then |m[rank].hot[l]| else 0;
            && Permutation(row, s.experts) && skip <= |row| && row[..skip] == m[rank].hot[l][..skip]
            && MostRoutedFirst(row, skip, train.decode[l], train.prefill[l])
  {
    RowSorted(m[rank].hot, Counts(train, s), preserve, l);
    var row := Rows(m[rank].hot, Counts(train, s), preserve)[l];
    SortedIsMostRouted(row, if preserve then |m[rank].hot[l]| else 0, Counts(train, s)[l], train.decode[l], train.prefill[l]);
  }

  lemma RowSorted(hot: seq<seq<int>>, counts: seq<seq<nat>>, preserve: bool, l: nat)
    requires l < |hot| == |counts| && Chosen(hot[l], |counts[l]|)
    ensures var row := Rows(hot, counts, preserve)[l];
            var skip := if preserve then |hot[l]| else 0;
            && Permutation(row, |counts[l]|) && skip <= |row| && row[..skip] == hot[l][..skip]
            && SortedBy(row[skip..], Order(counts[l]))
  {
    var row := Rows(hot, counts, preserve)[l];
    CatalogRow(hot, counts, preserve, l);
    RankedIsPermutation(counts[l]);
    if preserve { ExtendedIsPermutation(counts[l], hot[l]); } else { assert row[0..] == row; }
  }

  lemma {:induction false} TotalsAdd(counts: seq<int>, decode: seq<int>, prefill: seq<int>, ids: seq<int>)
    requires |counts| == |decode| == |prefill| && forall i :: 0 <= i < |counts| ==> counts[i] == decode[i] + prefill[i]
    ensures Total(counts, ids) == Total(decode, ids) + Total(prefill, ids)
  {
    if ids != [] { TotalsAdd(counts, decode, prefill, ids[1..]); }
  }

  /** No other choice of as many experts was routed to more often in training, decode and prefill together; where
      prefixes are kept, no other choice from outside the prefix. */
  lemma CatalogKeepsMost(m: seq<Entry>, train: Histogram, preserve: bool, s: Shape, rank: nat, l: nat, ids: seq<int>)
    requires Valid(m, s) && GoodHistogram(train, s) && rank < 2 && l < s.layers && Chosen(ids, s.experts)
    requires preserve ==> forall i :: 0 <= i < |ids| ==> ids[i] !in m[rank].hot[l]
    ensures var skip := if preserve then |m[rank].hot[l]| else 0;
            KeepsMost(Rows(m[rank].hot, Counts(train, s), preserve)[l], skip, train.decode[l], train.prefill[l], ids)
  {
    var row := Rows(m[rank].hot, Counts(train, s), preserve)[l];
    var skip := if preserve then |m[rank].hot[l]| else 0;
    RowSorted(m[rank].hot, Counts(train, s), preserve, l);
    assert skip == 0 ==> |row[..skip]| == 0;
    SortedKeepsMost(row, skip, Counts(train, s)[l], train.decode[l], train.prefill[l], ids);
  }

  /** As many ids of the row, from position skip on, were routed to at least as often as these. */
  ghost predicate KeepsMost(row: seq<int>, skip: nat, decode: seq<int>, prefill: seq<int>, ids: seq<int>) {
    skip + |ids| <= |row|
    && (var top := row[skip..skip + |ids|];
        Total(decode, ids) + Total(prefill, ids) <= Total(decode, top) + Total(prefill, top))
  }

  lemma SortedKeepsMost(row: seq<int>, skip: nat, counts: seq<int>, decode: seq<int>, prefill: seq<int>, ids: seq<int>)
    requires |counts| == |decode| == |prefill| && forall i :: 0 <= i < |counts| ==> counts[i] == decode[i] + prefill[i]
    requires Permutation(row, |counts|) && skip <= |row| && SortedBy(row[skip..], Order(counts))
    requires Chosen(ids, |counts|) && forall i :: 0 <= i < |ids| ==> ids[i] !in row[..skip]
    ensures KeepsMost(row, skip, decode, prefill, ids)
  {
    AmongRest(row, skip, ids);
    HeaviestPrefix(counts, row[skip..], ids);
    TopTotals(row, skip, counts, decode, prefill, ids, row[skip..skip + |ids|]);
  }

  lemma TopTotals(row: seq<int>, skip: nat, counts: seq<int>, decode: seq<int>, prefill: seq<int>, ids: seq<int>, top: seq<int>)
    requires |counts| == |decode| == |prefill| && forall i :: 0 <= i < |counts| ==> counts[i] == decode[i] + prefill[i]
    requires skip + |ids| <= |row| && top == row[skip..skip + |ids|]
    requires Total(counts, ids) <= Total(counts, row[skip..][..|ids|])
    ensures Total(decode, ids) + Total(prefill, ids) <= Total(decode, top) + Total(prefill, top)
  {
    assert row[skip..][..|ids|] == top;
    TotalsAdd(counts, decode, prefill, ids);
    TotalsAdd(counts, decode, prefill, top);
  }

  lemma AmongRest(row: seq<int>, skip: nat, ids: seq<int>)
    requires skip <= |row| && forall i :: 0 <= i < |ids| ==> ids[i] in row && ids[i] !in row[..skip]
    ensures Among(ids, row[skip..])
  {
    assert row == row[..skip] + row[skip..];
  }

  // ---------------------------------------------------------------- hits

  function Bumped(row: seq<int>, id: nat): (r: seq<int>)
    requires id < |row|
    ensures |r| == |row|
  {
    row[id := row[id] + 1]
  }

  lemma {:induction false} BumpedTotal(row: seq<int>, id: nat, ids: seq<int>)
    requires id < |row| && NoDup(ids)
    ensures Total(Bumped(row, id), ids) == Total(row, ids) + if id in ids then 1 else 0
  {
    if ids != [] { BumpedTotal(row, id, ids[1..]); }
  }

  lemma {:induction false} BumpedWhole(row: seq<int>, id: nat)
    requires id < |row|
    ensures Whole(Bumped(row, id)) == Whole(row) + 1
  {
    if id > 0 {
      BumpedWhole(row[1..], id - 1);
      assert Bumped(row, id)[1..] == Bumped(row[1..], id - 1);
    } else {
      assert Bumped(row, 0)[1..] == row[1..];
    }
  }

  /** The experts of layer l that count as hot: the leading ones of the row. */
  function Leading(row: seq<int>, k: nat): seq<int> { if k <= |row| then row[..k] else row }

  /** One more route of a phase adds one to its routes, and to the hits exactly when the expert is among those that
      layer keeps hot. */
  lemma {:induction false} OneMoreRoute(p: Phase, rows: seq<seq<int>>, counts: seq<nat>, l: nat, id: nat)
    requires |p| == |rows| == |counts| && l < |p| && id < |p[l]| && NoDup(rows[l])
    ensures var q := p[l := Bumped(p[l], id)];
            && PhaseTotal(q) == PhaseTotal(p) + 1
            && PhaseHits(q, rows, counts) == PhaseHits(p, rows, counts) + if id in Leading(rows[l], counts[l]) then 1 else 0
    decreases l
  {
    var q := p[l := Bumped(p[l], id)];
    if l == 0 {
      assert q[1..] == p[1..];
      BumpedTotal(p[0], id, Leading(rows[0], counts[0]));
      BumpedWhole(p[0], id);
    } else {
      assert q[1..] == p[1..][l - 1 := Bumped(p[l], id)];
      OneMoreRoute(p[1..], rows[1..], counts[1..], l - 1, id);
    }
  }

  ghost predicate NoRoutes(p: Phase) { forall l, i :: 0 <= l < |p| && 0 <= i < |p[l]| ==> p[l][i] == 0 }

  lemma {:induction false} NothingHit(row: seq<int>, ids: seq<int>)
    requires forall i :: 0 <= i < |row| ==> row[i] == 0
    ensures Total(row, ids) == 0
  {
    if ids != [] { NothingHit(row, ids[1..]); }
  }

  lemma {:induction false} NothingWhole(row: seq<int>)
    requires forall i :: 0 <= i < |row| ==> row[i] == 0
    ensures Whole(row) == 0
  {
    if row != [] { NothingWhole(row[1..]); }
  }

  lemma {:induction false} NoRoutesNoHits(p: Phase, rows: seq<seq<int>>, counts: seq<nat>)
    requires |p| == |rows| == |counts| && NoRoutes(p)
    ensures PhaseTotal(p) == 0 && PhaseHits(p, rows, counts) == 0
  {
    if p != [] {
      NothingHit(p[0], Leading(rows[0], counts[0]));
      NothingWhole(p[0]);
      assert forall l, i :: 0 <= l < |p[1..]| && 0 <= i < |p[1..][l]| ==> p[1..][l][i] == p[l + 1][i];
      NoRoutesNoHits(p[1..], rows[1..], counts[1..]);
    }
  }

  /** A comparison sets the hits of as many leading catalog ids against those of the source, both as fractions of all
      routes of the held-out phase. */
  lemma ComparisonSays(m: seq<Entry>, h: Histogram, rows: seq<seq<seq<int>>>, s: Shape, rank: nat)
    requires GoodHistogram(h, s) && s.layers > 0 && |m| == |rows| == 2 && rank < 2
    requires |m[0].hot| == |m[1].hot| == |rows[0]| == |rows[1]| == s.layers
    ensures var c, hot := Comparisons(m, h, rows, s), m[rank].hot;
            && |c| == 4 && PhaseTotal(h.decode) > 0 && PhaseTotal(h.prefill) > 0
            && c[2 * rank].rank == c[2 * rank + 1].rank == rank && c[2 * rank].decode && !c[2 * rank + 1].decode
            && c[2 * rank].before == PhaseHits(h.decode, hot, Lengths(hot)) as real / PhaseTotal(h.decode) as real
            && c[2 * rank].after == PhaseHits(h.decode, rows[rank], Lengths(hot)) as real / PhaseTotal(h.decode) as real
            && c[2 * rank + 1].before == PhaseHits(h.prefill, hot, Lengths(hot)) as real / PhaseTotal(h.prefill) as real
            && c[2 * rank + 1].after == PhaseHits(h.prefill, rows[rank], Lengths(hot)) as real / PhaseTotal(h.prefill) as real
  {
    TotalPositive(h.decode, s);
    TotalPositive(h.prefill, s);
  }
}
