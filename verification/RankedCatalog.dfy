/** Building a catalog of ranked experts from a training capture, and comparing it with its source placement
    on a held-out capture. */
module RankedCatalog {
  import opened Results
  import opened Sets
  import opened Sorting
  import opened RankedExperts
  import opened Placement

  /** Route counts of one phase by layer and expert, as read from a capture. */
  type Phase = seq<seq<int>>

  datatype Histogram = Histogram(decode: Phase, prefill: Phase)
  datatype CatalogError = BadPlacement(why: Error) | BadHistogram

  function Whole(row: seq<int>): int { if row == [] then 0 else row[0] + Whole(row[1..]) }

  predicate GoodRow(row: seq<int>, experts: nat) {
    |row| == experts && (forall i :: 0 <= i < |row| ==> row[i] >= 0) && Whole(row) != 0
  }

  predicate GoodPhase(p: Phase, s: Shape) {
    |p| == s.layers && forall l :: 0 <= l < |p| ==> GoodRow(p[l], s.experts)
  }

  predicate GoodHistogram(h: Histogram, s: Shape) { GoodPhase(h.decode, s) && GoodPhase(h.prefill, s) }

  function AddRows(a: seq<int>, b: seq<int>): (c: seq<nat>)
    requires |a| == |b| && forall i :: 0 <= i < |a| ==> a[i] >= 0 && b[i] >= 0
    ensures |c| == |a|
  {
    seq(|a|, i requires 0 <= i < |a| => a[i] + b[i])
  }

  /** Both phases together. */
  function Counts(h: Histogram, s: Shape): (c: seq<seq<nat>>)
    requires GoodHistogram(h, s)
    ensures |c| == s.layers && forall l :: 0 <= l < |c| ==> |c[l]| == s.experts
  {
    seq(s.layers, l requires 0 <= l < s.layers => AddRows(h.decode[l], h.prefill[l]))
  }

  /** A rank's rows: the ranking itself, or the source prefix extended by it. */
  function Rows(hot: seq<seq<int>>, counts: seq<seq<nat>>, preserve: bool): (r: seq<seq<int>>)
    requires |hot| == |counts|
    ensures |r| == |counts|
  {
    seq(|counts|, l requires 0 <= l < |counts| =>
      if preserve then Extended(hot[l], Ranked(counts[l])) else Ranked(counts[l]))
  }

  /** Routes of a phase that find their expert in the first counts[l] ids of each row. */
  function PhaseHits(p: Phase, rows: seq<seq<int>>, counts: seq<nat>): int
    requires |p| == |rows| == |counts|
  {
    if p == [] then 0
    else
      Total(p[0], if counts[0] <= |rows[0]| then rows[0][..counts[0]] else rows[0])
      + PhaseHits(p[1..], rows[1..], counts[1..])
  }

  function PhaseTotal(p: Phase): int { if p == [] then 0 else Whole(p[0]) + PhaseTotal(p[1..]) }

  datatype Comparison = Comparison(rank: nat, decode: bool, before: real, after: real)
  datatype Catalog = Catalog(rows: seq<seq<seq<int>>>, comparisons: seq<Comparison>, nonRegression: bool)

  /** The held-out comparison of one rank and phase. */
  function Compared(rank: nat, decode: bool, p: Phase, hot: seq<seq<int>>, rows: seq<seq<int>>): Comparison
    requires |p| == |hot| == |rows| && PhaseTotal(p) > 0
  {
    var total := PhaseTotal(p) as real;
    Comparison(rank, decode, PhaseHits(p, hot, Lengths(hot)) as real / total,
               PhaseHits(p, rows, Lengths(hot)) as real / total)
  }

  predicate Improves(c: Comparison) { c.after >= c.before }

  lemma {:induction false} TotalPositive(p: Phase, s: Shape)
    requires GoodPhase(p, s) && s.layers > 0
    ensures PhaseTotal(p) > 0
    decreases s.layers
  {
    WholeNonnegative(p[0]);
    if s.layers > 1 { TotalPositive(p[1..], Shape(s.layers - 1, s.experts)); }
  }

  lemma {:induction false} WholeNonnegative(row: seq<int>)
    requires forall i :: 0 <= i < |row| ==> row[i] >= 0
    ensures Whole(row) >= 0
  {
    if row != [] { WholeNonnegative(row[1..]); }
  }

  /** The four comparisons, rank by rank and decode before prefill. */
  ghost function Comparisons(m: seq<Entry>, h: Histogram, rows: seq<seq<seq<int>>>, s: Shape): seq<Comparison>
    requires GoodHistogram(h, s) && s.layers > 0 && |m| == |rows| == 2
    requires |m[0].hot| == |m[1].hot| == |rows[0]| == |rows[1]| == s.layers
  {
    TotalPositive(h.decode, s);
    TotalPositive(h.prefill, s);
    [Compared(0, true, h.decode, m[0].hot, rows[0]), Compared(0, false, h.prefill, m[0].hot, rows[0]),
     Compared(1, true, h.decode, m[1].hot, rows[1]), Compared(1, false, h.prefill, m[1].hot, rows[1])]
  }

  method RankCatalog(m: seq<Entry>, train: Histogram, holdout: Histogram, preserve: bool, s: Shape)
    returns (r: Result<Catalog, CatalogError>)
    requires s.layers > 0
    ensures r.Ok? <==> Valid(m, s) && GoodHistogram(train, s) && GoodHistogram(holdout, s)
    ensures r.Err? ==> if Valid(m, s) then r.error == BadHistogram else r.error.BadPlacement? && Refuses(m, s, r.error.why)
    ensures r.Ok? ==> r.value.rows == [Rows(m[0].hot, Counts(train, s), preserve), Rows(m[1].hot, Counts(train, s), preserve)]
    ensures r.Ok? ==> r.value.comparisons == Comparisons(m, holdout, r.value.rows, s)
    ensures r.Ok? ==> (r.value.nonRegression <==> forall c :: c in r.value.comparisons ==> c.after >= c.before)
    ensures r.Ok? && preserve ==> r.value.nonRegression
  {
    var valid := Validate(m, s);
    if valid.Err? { return Err(BadPlacement(valid.error)); }
    if !GoodHistogram(train, s) || !GoodHistogram(holdout, s) { return Err(BadHistogram); }
    var counts := Counts(train, s);
    var rows := [Rows(m[0].hot, counts, preserve), Rows(m[1].hot, counts, preserve)];
    var comparisons := CompareAll(m, holdout, rows, s);
    if preserve {
      PreservedNeverRegress(m[0].hot, counts, holdout, s);
      PreservedNeverRegress(m[1].hot, counts, holdout, s);
    }
    r := Ok(Catalog(rows, comparisons, forall c :: c in comparisons ==> Improves(c)));
  }

  method CompareAll(m: seq<Entry>, h: Histogram, rows: seq<seq<seq<int>>>, s: Shape) returns (c: seq<Comparison>)
    requires GoodHistogram(h, s) && s.layers > 0 && |m| == |rows| == 2
    requires |m[0].hot| == |m[1].hot| == |rows[0]| == |rows[1]| == s.layers
    ensures c == Comparisons(m, h, rows, s)
  {
    c := [];
    TotalPositive(h.decode, s);
    TotalPositive(h.prefill, s);
    for rank := 0 to 2
      invariant |c| == 2 * rank
      invariant forall k :: 0 <= k < rank ==>
                  c[2 * k] == Compared(k, true, h.decode, m[k].hot, rows[k])
                  && c[2 * k + 1] == Compared(k, false, h.prefill, m[k].hot, rows[k])
    {
      c := c + [Compared(rank, true, h.decode, m[rank].hot, rows[rank])];
      c := c + [Compared(rank, false, h.prefill, m[rank].hot, rows[rank])];
    }
    assert c[0] == c[2 * 0] && c[2] == c[2 * 1];
  }

  /** Every catalog row lists each expert once, after the source prefix where prefixes are preserved. */
  lemma CatalogRow(hot: seq<seq<int>>, counts: seq<seq<nat>>, preserve: bool, l: nat)
    requires l < |hot| == |counts| && Chosen(hot[l], |counts[l]|)
    ensures Permutation(Rows(hot, counts, preserve)[l], |counts[l]|)
    ensures preserve ==> hot[l] <= Rows(hot, counts, preserve)[l]
  {
    RankedIsPermutation(counts[l]);
    ExtendedIsPermutation(counts[l], hot[l]);
  }

  /** With preserved prefixes both sides count the same experts. */
  lemma {:induction false} SamePrefixesSameHits(p: Phase, hot: seq<seq<int>>, rows: seq<seq<int>>)
    requires |p| == |hot| == |rows|
    requires forall l :: 0 <= l < |hot| ==> |hot[l]| <= |rows[l]| && rows[l][..|hot[l]|] == hot[l]
    ensures PhaseHits(p, rows, Lengths(hot)) == PhaseHits(p, hot, Lengths(hot))
  {
    if p != [] {
      assert Lengths(hot)[1..] == Lengths(hot[1..]);
      assert hot[0][..|hot[0]|] == hot[0];
      SamePrefixesSameHits(p[1..], hot[1..], rows[1..]);
    }
  }

  lemma PreservedNeverRegress(hot: seq<seq<int>>, counts: seq<seq<nat>>, h: Histogram, s: Shape)
    requires |hot| == |counts| == s.layers && GoodHistogram(h, s) && s.layers > 0
    ensures PhaseHits(h.decode, Rows(hot, counts, true), Lengths(hot)) == PhaseHits(h.decode, hot, Lengths(hot))
    ensures PhaseHits(h.prefill, Rows(hot, counts, true), Lengths(hot)) == PhaseHits(h.prefill, hot, Lengths(hot))
  {
    SamePrefixesSameHits(h.decode, hot, Rows(hot, counts, true));
    SamePrefixesSameHits(h.prefill, hot, Rows(hot, counts, true));
  }

  /** Reranked rows never do worse than the source on the counts they were ranked by. */
  lemma {:induction false} TrainingNeverRegresses(hot: seq<seq<int>>, counts: seq<seq<nat>>)
    requires |hot| == |counts| && forall l :: 0 <= l < |hot| ==> Chosen(hot[l], |counts[l]|)
    ensures PhaseHits(counts, hot, Lengths(hot)) <= PhaseHits(counts, Rows(hot, counts, false), Lengths(hot))
  {
    if hot != [] {
      assert Lengths(hot)[1..] == Lengths(hot[1..]);
      assert Rows(hot, counts, false)[1..] == Rows(hot[1..], counts[1..], false);
      assert hot[0][..|hot[0]|] == hot[0];
      TopIsBest(counts[0], hot[0]);
      TrainingNeverRegresses(hot[1..], counts[1..]);
    }
  }

  // ---------------------------------------------------------------- when reranking cannot regress

  ghost predicate SameIds(a: seq<int>, b: seq<int>) { forall id :: id in a <==> id in b }

  /** The source rows are valid for the counts. */
  ghost predicate ChosenRows(hot: seq<seq<int>>, counts: seq<seq<nat>>, s: Shape) {
    |hot| == |counts| == s.layers
    && forall l :: 0 <= l < |hot| ==> |counts[l]| == s.experts && hot[l] != [] && Chosen(hot[l], s.experts)
  }

  /** The source keeps hot exactly the experts the training counts would pick, in whatever order. */
  ghost predicate AlreadyTop(ids: seq<int>, row: seq<nat>) {
    |ids| <= |Ranked(row)| && SameIds(ids, Ranked(row)[..|ids|])
  }

  ghost predicate NeverWorse(p: Phase, hot: seq<seq<int>>, counts: seq<seq<nat>>)
    requires |p| == |hot| == |counts|
  {
    PhaseHits(p, hot, Lengths(hot)) <= PhaseHits(p, Rows(hot, counts, false), Lengths(hot))
  }

  lemma {:induction false} SameIdsSameTotal(row: seq<int>, a: seq<int>, b: seq<int>)
    requires NoDup(a) && NoDup(b) && SameIds(a, b)
    ensures Total(row, a) == Total(row, b)
  {
    if a == [] {
      FirstIsMember(b);
    } else {
      assert a[0] in a;
      var p := Position(b, a[0]);
      TotalWithout(row, b, p);
      RemovedIds(a, b, p);
      SameIdsSameTotal(row, a[1..], Removed(b, p));
    }
  }

  lemma FirstIsMember(ids: seq<int>)
    ensures ids != [] ==> ids[0] in ids
  {
  }

  lemma RemovedIds(a: seq<int>, b: seq<int>, p: nat)
    requires NoDup(a) && NoDup(b) && SameIds(a, b) && a != [] && p < |b| && b[p] == a[0]
    ensures NoDup(Removed(b, p)) && SameIds(a[1..], Removed(b, p))
  {
    var r := Removed(b, p);
    forall id ensures id in a[1..] <==> id in r {
      if id in a[1..] {
        var j := Position(a[1..], id);
        assert a[j + 1] == id;
        var q := Position(b, id);
        assert r[if q < p then q else q - 1] == id;
      }
      if id in r {
        var q := Position(r, id);
        assert b[if q < p then q else q + 1] == id;
        var j := Position(a, id);
        assert a[1..][j - 1] == id;
      }
    }
  }

  /** Of two lists of equally many distinct ids, either they hold the same, or the first has one of its own. */
  lemma OwnId(a: seq<int>, b: seq<int>) returns (id: int)
    requires NoDup(a) && NoDup(b) && |a| == |b| && !SameIds(a, b)
    ensures id in a && id !in b
  {
    if ToSet(a) <= ToSet(b) {
      NoDupSize(a);
      NoDupSize(b);
      SubsetSize(ToSet(a), ToSet(b));
      assert forall x :: x in a <==> x in ToSet(a);
      assert forall x :: x in b <==> x in ToSet(b);
      assert false;
    }
    id :| id in ToSet(a) && id !in ToSet(b);
  }

  lemma {:induction false} TopRowsTie(p: Phase, hot: seq<seq<int>>, counts: seq<seq<nat>>)
    requires |p| == |hot| == |counts|
    requires forall l :: 0 <= l < |hot| ==> Chosen(hot[l], |counts[l]|) && AlreadyTop(hot[l], counts[l])
    ensures PhaseHits(p, Rows(hot, counts, false), Lengths(hot)) == PhaseHits(p, hot, Lengths(hot))
  {
    if p != [] {
      assert Lengths(hot)[1..] == Lengths(hot[1..]);
      assert Rows(hot, counts, false)[1..] == Rows(hot[1..], counts[1..], false);
      assert hot[0][..|hot[0]|] == hot[0];
      RankedIsPermutation(counts[0]);
      SameIdsSameTotal(p[0], hot[0], Ranked(counts[0])[..|hot[0]|]);
      TopRowsTie(p[1..], hot[1..], counts[1..]);
    }
  }

  /** Every expert routed once. */
  ghost predicate AllOnce(row: seq<int>) { forall i :: 0 <= i < |row| ==> row[i] == 1 }

  /** One expert routed once, the others never. */
  ghost predicate OnlyOnce(row: seq<int>, id: int) {
    0 <= id < |row| && forall i :: 0 <= i < |row| ==> row[i] == if i == id then 1 else 0
  }

  lemma {:induction false} TotalOnce(row: seq<int>, ids: seq<int>)
    requires AllOnce(row) && forall i :: 0 <= i < |ids| ==> 0 <= ids[i] < |row|
    ensures Total(row, ids) == |ids|
  {
    if ids != [] { TotalOnce(row, ids[1..]); }
  }

  lemma {:induction false} TotalOnlyOnce(row: seq<int>, id: int, ids: seq<int>)
    requires OnlyOnce(row, id) && NoDup(ids)
    ensures Total(row, ids) == if id in ids then 1 else 0
  {
    if ids != [] { TotalOnlyOnce(row, id, ids[1..]); }
  }

  /** A held-out phase that routes one expert in layer l, and every expert elsewhere; none stands out for l < 0. */
  ghost predicate Spots(p: Phase, counts: seq<seq<nat>>, l: int, id: int) {
    |p| == |counts| && forall k :: 0 <= k < |p| ==>
      |p[k]| == |counts[k]| && if k == l then OnlyOnce(p[k], id) else AllOnce(p[k])
  }

  lemma {:induction false} SpotRegresses(p: Phase, hot: seq<seq<int>>, counts: seq<seq<nat>>, l: int, id: int)
    requires |hot| == |counts| && l < |counts| && Spots(p, counts, l, id)
    requires forall k :: 0 <= k < |hot| ==> Chosen(hot[k], |counts[k]|) && |hot[k]| <= |Ranked(counts[k])|
    requires l >= 0 ==> id in hot[l] && id !in Ranked(counts[l])[..|hot[l]|]
    ensures PhaseHits(p, hot, Lengths(hot)) == PhaseHits(p, Rows(hot, counts, false), Lengths(hot)) + if l >= 0 then 1 else 0
    decreases |p|
  {
    if p != [] {
      assert Lengths(hot)[1..] == Lengths(hot[1..]);
      assert Rows(hot, counts, false)[1..] == Rows(hot[1..], counts[1..], false);
      SpotLayer(p[0], hot[0], counts[0], l == 0, id);
      SpotRegresses(p[1..], hot[1..], counts[1..], l - 1, id);
    }
  }

  lemma SpotLayer(row: seq<int>, ids: seq<int>, counts: seq<nat>, spot: bool, id: int)
    requires |row| == |counts| && Chosen(ids, |counts|) && |ids| <= |Ranked(counts)|
    requires if spot then OnlyOnce(row, id) && id in ids && id !in Ranked(counts)[..|ids|] else AllOnce(row)
    ensures Total(row, ids[..|ids|]) == Total(row, Ranked(counts)[..|ids|]) + if spot then 1 else 0
  {
    var top := Ranked(counts)[..|ids|];
    RankedIsPermutation(counts);
    assert ids[..|ids|] == ids;
    if spot {
      TotalOnlyOnce(row, id, ids);
      TotalOnlyOnce(row, id, top);
    } else {
      forall i | 0 <= i < |top| ensures 0 <= top[i] < |row| { assert Ranked(counts)[i] in Ranked(counts); }
      TotalOnce(row, ids);
      TotalOnce(row, top);
    }
  }

  function SpotPhase(s: Shape, l: int, id: int): (p: Phase)
    ensures |p| == s.layers
  {
    seq(s.layers, k requires 0 <= k => seq(s.experts, i requires 0 <= i => if k != l || i == id then 1 else 0))
  }

  lemma {:induction false} WholePositive(row: seq<int>, i: nat)
    requires i < |row| && row[i] > 0 && forall k :: 0 <= k < |row| ==> row[k] >= 0
    ensures Whole(row) > 0
  {
    if i == 0 { WholeNonnegative(row[1..]); } else { WholePositive(row[1..], i - 1); }
  }

  lemma SpotPhaseIsGood(s: Shape, counts: seq<seq<nat>>, l: int, id: int)
    requires 0 <= id < s.experts && |counts| == s.layers && forall k :: 0 <= k < |counts| ==> |counts[k]| == s.experts
    ensures GoodPhase(SpotPhase(s, l, id), s) && Spots(SpotPhase(s, l, id), counts, l, id)
  {
    var p := SpotPhase(s, l, id);
    forall k | 0 <= k < |p| ensures GoodRow(p[k], s.experts) {
      assert p[k][id] == 1;
      WholePositive(p[k], id);
    }
  }

  /** Reranking is safe on every held-out phase exactly when each source row already holds the experts the training
      counts would pick, in whatever order. Otherwise some phase regresses. */
  lemma NeverWorseIff(hot: seq<seq<int>>, counts: seq<seq<nat>>, s: Shape)
    requires ChosenRows(hot, counts, s)
    ensures (forall p: Phase :: GoodPhase(p, s) ==> NeverWorse(p, hot, counts))
            <==> AlreadyTopRows(hot, counts)
  {
    forall l | 0 <= l < |hot| ensures |hot[l]| <= |Ranked(counts[l])| {
      TopIsBest(counts[l], hot[l]);
    }
    if AlreadyTopRows(hot, counts) {
      forall p: Phase | GoodPhase(p, s) ensures NeverWorse(p, hot, counts) {
        TopRowsTie(p, hot, counts);
      }
    } else {
      var l :| 0 <= l < |hot| && !AlreadyTop(hot[l], counts[l]);
      var p := SomePhaseRegresses(hot, counts, s, l);
    }
  }

  lemma SomePhaseRegresses(hot: seq<seq<int>>, counts: seq<seq<nat>>, s: Shape, l: nat) returns (p: Phase)
    requires ChosenRows(hot, counts, s) && l < |hot| && !AlreadyTop(hot[l], counts[l])
    requires forall k :: 0 <= k < |hot| ==> |hot[k]| <= |Ranked(counts[k])|
    ensures GoodPhase(p, s) && !NeverWorse(p, hot, counts)
  {
    RankedIsPermutation(counts[l]);
    var id := OwnId(hot[l], Ranked(counts[l])[..|hot[l]|]);
    var j := Position(hot[l], id);
    p := SpotPhase(s, l, id);
    SpotPhaseIsGood(s, counts, l, id);
    SpotRegresses(p, hot, counts, l, id);
  }

  lemma SameTotalFractions(a: int, b: int, total: int)
    requires total > 0
    ensures a as real / total as real >= b as real / total as real <==> a >= b
  {
    var x, y, t := a as real, b as real, total as real;
    assert x / t - y / t == (x - y) / t;
    assert (x - y) / t >= 0.0 <==> x - y >= 0.0;
  }

  lemma ComparedIff(rank: nat, decode: bool, p: Phase, hot: seq<seq<int>>, counts: seq<seq<nat>>)
    requires |p| == |hot| == |counts| && PhaseTotal(p) > 0
    ensures Improves(Compared(rank, decode, p, hot, Rows(hot, counts, false))) <==> NeverWorse(p, hot, counts)
  {
    SameTotalFractions(PhaseHits(p, Rows(hot, counts, false), Lengths(hot)), PhaseHits(p, hot, Lengths(hot)), PhaseTotal(p));
  }

  /** The verdict of a catalog reranked without preserved prefixes. */
  ghost predicate Verdict(m: seq<Entry>, counts: seq<seq<nat>>, h: Histogram, s: Shape)
    requires GoodHistogram(h, s) && s.layers > 0 && |m| == 2 && |counts| == |m[0].hot| == |m[1].hot| == s.layers
  {
    forall c :: c in Comparisons(m, h, [Rows(m[0].hot, counts, false), Rows(m[1].hot, counts, false)], s) ==> Improves(c)
  }

  lemma VerdictCompares(m: seq<Entry>, counts: seq<seq<nat>>, h: Histogram, s: Shape)
    requires GoodHistogram(h, s) && s.layers > 0 && |m| == 2 && |counts| == |m[0].hot| == |m[1].hot| == s.layers
    ensures Verdict(m, counts, h, s) <==>
            NeverWorse(h.decode, m[0].hot, counts) && NeverWorse(h.prefill, m[0].hot, counts)
            && NeverWorse(h.decode, m[1].hot, counts) && NeverWorse(h.prefill, m[1].hot, counts)
  {
    TotalPositive(h.decode, s);
    TotalPositive(h.prefill, s);
    ComparedIff(0, true, h.decode, m[0].hot, counts);
    ComparedIff(0, false, h.prefill, m[0].hot, counts);
    ComparedIff(1, true, h.decode, m[1].hot, counts);
    ComparedIff(1, false, h.prefill, m[1].hot, counts);
    var c := Comparisons(m, h, [Rows(m[0].hot, counts, false), Rows(m[1].hot, counts, false)], s);
    assert c[0] in c && c[1] in c && c[2] in c && c[3] in c;
  }

  ghost predicate AlreadyTopRows(hot: seq<seq<int>>, counts: seq<seq<nat>>)
    requires |hot| == |counts|
  {
    forall l :: 0 <= l < |hot| ==> AlreadyTop(hot[l], counts[l])
  }

  /** The verdict holds on every held-out capture exactly when both ranks of the source already keep the experts the
      training counts would pick. */
  lemma VerdictIff(m: seq<Entry>, counts: seq<seq<nat>>, s: Shape)
    requires s.layers > 0 && |m| == 2 && ChosenRows(m[0].hot, counts, s) && ChosenRows(m[1].hot, counts, s)
    ensures (forall h: Histogram :: GoodHistogram(h, s) ==> Verdict(m, counts, h, s))
            <==> AlreadyTopRows(m[0].hot, counts) && AlreadyTopRows(m[1].hot, counts)
  {
    NeverWorseIff(m[0].hot, counts, s);
    NeverWorseIff(m[1].hot, counts, s);
    if forall h: Histogram :: GoodHistogram(h, s) ==> Verdict(m, counts, h, s) {
      forall p: Phase | GoodPhase(p, s) ensures NeverWorse(p, m[0].hot, counts) && NeverWorse(p, m[1].hot, counts) {
        assert GoodHistogram(Histogram(p, p), s);
        VerdictCompares(m, counts, Histogram(p, p), s);
      }
    }
    if AlreadyTopRows(m[0].hot, counts) && AlreadyTopRows(m[1].hot, counts) {
      forall h: Histogram | GoodHistogram(h, s) ensures Verdict(m, counts, h, s) {
        VerdictCompares(m, counts, h, s);
      }
    }
  }

  /** Such a capture: expert 0 led in training and expert 1, which the source kept, leads in the held-out one. */
  lemma RerankedMayRegress()
    ensures var hot, train, held := [[1]], [[2, 1]], [[1, 2]];
            PhaseHits(held, Rows(hot, train, false), Lengths(hot)) < PhaseHits(held, hot, Lengths(hot))
  {
    assert Ids(0, 2) == [0, 1];
    assert Ids(1, 2) == [1];
    assert Sort([], Order([2, 1])) == [];
    assert Insert(1, [], Order([2, 1])) == [1];
    assert [0, 1][1..] == [1] && [1][1..] == [];
    assert Ranked([2, 1]) == [0, 1];
    var hot, train, held := [[1]], [[2, 1]], [[1, 2]];
    assert Rows(hot, train, false) == [[0, 1]];
    assert [0, 1][..1] == [0] && [1][..1] == [1];
    assert Total([1, 2], [0]) == 1;
    assert Total([1, 2], [1]) == 2;
  }
}
