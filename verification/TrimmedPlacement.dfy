/** Cutting every layer of a ranked placement to one prefix length per rank. */
module TrimmedPlacement {
  import opened Results
  import opened RankedExperts
  import opened Placement

  const DEFAULT_SLOTS := 16
  const NO_CACHE: Cache := Cache(0, {}, false)

  function Prefixes(hot: seq<seq<int>>, n: nat): (r: seq<seq<int>>)
    requires forall l :: 0 <= l < |hot| ==> n <= |hot[l]|
    ensures |r| == |hot|
  {
    seq(|hot|, l requires 0 <= l < |hot| => hot[l][..n])
  }

  /** The shortest row; the source has at least one layer. */
  function Shortest(hot: seq<seq<int>>): (n: nat)
    requires hot != []
    ensures forall l :: 0 <= l < |hot| ==> n <= |hot[l]|
    ensures exists l :: 0 <= l < |hot| && n == |hot[l]|
  {
    if |hot| == 1 then |hot[0]|
    else
      var n := Shortest(hot[1..]);
      if |hot[0]| < n then |hot[0]| else
        assert exists l :: 0 <= l < |hot[1..]| && n == |hot[1..][l]| && hot[l + 1] == hot[1..][l];
        n
  }

  function Cut(e: Entry, n: nat): (c: Entry)
    requires e.hot != [] && n <= Shortest(e.hot)
  {
    Entry(Prefixes(e.hot, n), Some(n), Some(n * |e.hot|), None)
  }

  function TrimmedEntry(e: Entry, n: nat, costs: seq<nat>): (c: Entry)
    requires e.hot != [] && n <= Shortest(e.hot) && |e.hot| == |costs|
  {
    var c := Cut(e, n);
    c.(hotBytes := Some(Weight(Lengths(c.hot), costs)))
  }

  ghost predicate CountFits(n: int, e: Entry) {
    e.hot != [] && 1 <= n <= Shortest(e.hot)
  }

  /** What may be cut: an accountable placement and two positive counts within its shortest rows. */
  ghost predicate Trimmable(m: seq<Entry>, counts: seq<int>, costs: seq<seq<nat>>, s: Shape)
    requires ValidCosts(costs, s)
  {
    && Accountable(m, NO_CACHE, DEFAULT_SLOTS, costs, s)
    && |counts| == 2 && CountFits(counts[0], m[0]) && CountFits(counts[1], m[1])
  }

  ghost function TrimmedTo(m: seq<Entry>, counts: seq<int>, costs: seq<seq<nat>>, s: Shape): (r: seq<Entry>)
    requires ValidCosts(costs, s) && Trimmable(m, counts, costs, s)
  {
    [TrimmedEntry(m[0], counts[0], costs[0]), TrimmedEntry(m[1], counts[1], costs[1])]
  }

  lemma {:induction false} SumUniform(n: seq<nat>, k: nat)
    requires AllEqual(n, k)
    ensures Sum(n) == k * |n|
  {
    if n != [] {
      SumUniform(n[1..], k);
      Distributes(k, 1, |n| - 1);
    }
  }

  lemma CutIsValid(e: Entry, n: nat, s: Shape)
    requires ValidEntry(e, s) && CountFits(n, e)
    ensures ValidEntry(Cut(e, n), s) && AllEqual(Lengths(Cut(e, n).hot), n)
  {
    SumUniform(Lengths(Cut(e, n).hot), n);
  }

  lemma TrimmedIsValid(e: Entry, n: nat, costs: seq<nat>, s: Shape)
    requires ValidEntry(e, s) && CountFits(n, e) && |costs| == s.layers
    ensures ValidEntry(TrimmedEntry(e, n, costs), s) && DeclaredBytes(TrimmedEntry(e, n, costs), costs)
  {
    CutIsValid(e, n, s);
  }

  /** The derived placement and, per rank, the bytes it releases on the GPU. */
  datatype Trimmed = Trimmed(manifest: seq<Entry>, released: seq<int>)

  function Released(e: Entry, t: Entry, costs: seq<nat>): int
    requires |e.hot| == |t.hot| == |costs|
  {
    Weight(Lengths(e.hot), costs) - Weight(Lengths(t.hot), costs)
  }

  method Trim(m: seq<Entry>, counts: seq<int>, costs: seq<seq<nat>>, s: Shape) returns (r: Result<Trimmed, Error>)
    requires ValidCosts(costs, s) && s.layers > 0
    ensures r.Ok? <==> Trimmable(m, counts, costs, s)
    ensures r.Err? ==> if !Valid(m, s) then Refuses(m, s, r.error)
                       else if |counts| != 2 || !CountFits(counts[0], m[0]) || !CountFits(counts[1], m[1]) then r.error == BadCounts
                       else r.error == WrongHotBytes
    ensures r.Ok? ==> r.value.manifest == TrimmedTo(m, counts, costs, s)
    ensures r.Ok? ==> r.value.released == [Released(m[0], r.value.manifest[0], costs[0]),
                                           Released(m[1], r.value.manifest[1], costs[1])]
  {
    var valid := Validate(m, s);
    if valid.Err? { return Err(valid.error); }
    if |counts| != 2 || counts[0] < 1 || counts[0] > Shortest(m[0].hot)
       || counts[1] < 1 || counts[1] > Shortest(m[1].hot) {
      return Err(BadCounts);
    }
    var before := ExpertMemory(m, NO_CACHE, DEFAULT_SLOTS, costs, s);
    if before.Err? { return Err(before.error); }
    var t := TrimRanks(m, counts, before.value, costs, s);
    r := Ok(t);
  }

  lemma CutsAccountable(m: seq<Entry>, counts: seq<int>, cut: seq<Entry>, costs: seq<seq<nat>>, s: Shape)
    requires ValidCosts(costs, s) && Trimmable(m, counts, costs, s)
    requires cut == [Cut(m[0], counts[0]), Cut(m[1], counts[1])]
    ensures Accountable(cut, NO_CACHE, DEFAULT_SLOTS, costs, s)
  {
    CutIsValid(m[0], counts[0], s);
    CutIsValid(m[1], counts[1], s);
  }

  method TrimRanks(m: seq<Entry>, counts: seq<int>, before: seq<Memory>, costs: seq<seq<nat>>, s: Shape)
    returns (t: Trimmed)
    requires ValidCosts(costs, s) && Trimmable(m, counts, costs, s) && |before| == 2
    requires before[0].hotBytes == Weight(Lengths(m[0].hot), costs[0])
    requires before[1].hotBytes == Weight(Lengths(m[1].hot), costs[1])
    ensures t.manifest == TrimmedTo(m, counts, costs, s)
    ensures t.released == [Released(m[0], t.manifest[0], costs[0]), Released(m[1], t.manifest[1], costs[1])]
  {
    var cut := CutAll(m, counts);
    CutsAccountable(m, counts, cut, costs, s);
    var after := ExpertMemory(cut, NO_CACHE, DEFAULT_SLOTS, costs, s);
    t := WriteBytes(cut, before, after.value);
  }

  method CutAll(m: seq<Entry>, counts: seq<int>) returns (cut: seq<Entry>)
    requires |m| == |counts| == 2 && CountFits(counts[0], m[0]) && CountFits(counts[1], m[1])
    ensures cut == [Cut(m[0], counts[0]), Cut(m[1], counts[1])]
  {
    cut := [];
    for rank := 0 to 2
      invariant |cut| == rank && forall k :: 0 <= k < rank ==> cut[k] == Cut(m[k], counts[k])
    {
      cut := cut + [Cut(m[rank], counts[rank])];
    }
  }

  /** Records the bytes of each rank in its entry. */
  function WithBytes(e: Entry, after: Memory): Entry { e.(hotBytes := Some(after.hotBytes)) }

  method WriteBytes(cut: seq<Entry>, before: seq<Memory>, after: seq<Memory>) returns (t: Trimmed)
    requires |cut| == |before| == |after| == 2
    ensures t.manifest == [WithBytes(cut[0], after[0]), WithBytes(cut[1], after[1])]
    ensures t.released == [before[0].hotBytes - after[0].hotBytes, before[1].hotBytes - after[1].hotBytes]
  {
    var m, released: seq<int> := cut, [];
    for rank := 0 to 2
      invariant |m| == 2 && |released| == rank
      invariant forall k :: 0 <= k < rank ==>
                  m[k] == WithBytes(cut[k], after[k]) && released[k] == before[k].hotBytes - after[k].hotBytes
      invariant forall k :: rank <= k < 2 ==> m[k] == cut[k]
    {
      m := m[rank := WithBytes(m[rank], after[rank])];
      released := released + [before[rank].hotBytes - after[rank].hotBytes];
    }
    t := Trimmed(m, released);
  }

  /** A cut placement is itself acceptable and can be cut again, and cutting to a and then to b is cutting to
      b. */
  lemma TrimComposes(m: seq<Entry>, a: seq<int>, b: seq<int>, costs: seq<seq<nat>>, s: Shape)
    requires ValidCosts(costs, s) && Trimmable(m, a, costs, s)
    requires |b| == 2 && 1 <= b[0] <= a[0] && 1 <= b[1] <= a[1]
    ensures Trimmable(m, b, costs, s) && Trimmable(TrimmedTo(m, a, costs, s), b, costs, s)
    ensures TrimmedTo(TrimmedTo(m, a, costs, s), b, costs, s) == TrimmedTo(m, b, costs, s)
  {
    TrimmedIsValid(m[0], a[0], costs[0], s);
    TrimmedIsValid(m[1], a[1], costs[1], s);
    CutTwice(m[0], a[0], b[0], costs[0]);
    CutTwice(m[1], a[1], b[1], costs[1]);
  }

  lemma CutTwice(e: Entry, a: nat, b: nat, costs: seq<nat>)
    requires e.hot != [] && b <= a <= Shortest(e.hot) && |e.hot| == |costs|
    ensures Shortest(Cut(e, a).hot) == a == Shortest(TrimmedEntry(e, a, costs).hot)
    ensures TrimmedEntry(TrimmedEntry(e, a, costs), b, costs) == TrimmedEntry(e, b, costs)
  {
    forall l | 0 <= l < |e.hot| ensures Prefixes(Prefixes(e.hot, a), b)[l] == Prefixes(e.hot, b)[l] {
    }
    assert Prefixes(Prefixes(e.hot, a), b) == Prefixes(e.hot, b);
  }

  /** A cut weighs its count times one expert everywhere, and what it releases on the GPU, never negative, is
      what it adds to the host's share. */
  lemma CutReleases(e: Entry, n: nat, costs: seq<nat>, s: Shape)
    requires ValidEntry(e, s) && CountFits(n, e) && |costs| == s.layers
    requires forall l :: 0 <= l < |e.hot| ==> |e.hot[l]| <= s.experts
    ensures var t := TrimmedEntry(e, n, costs);
            && Weight(Lengths(t.hot), costs) == n * Sum(costs)
            && Released(e, t, costs) >= 0
            && Released(e, t, costs) == Weight(Rest(Lengths(t.hot), s.experts), costs)
                                        - Weight(Rest(Lengths(e.hot), s.experts), costs)
  {
    var small, large := Lengths(TrimmedEntry(e, n, costs).hot), Lengths(e.hot);
    UniformWeight(small, costs, n);
    FewerWeighLess(small, large, costs);
    HotAndColdAreAll(small, costs, s.experts);
    HotAndColdAreAll(large, costs, s.experts);
  }

  /** Cutting a ranked row keeps, for every layer, a set of experts that no other set of that size beats on the
      training counts. */
  lemma CutKeepsBest(e: Entry, rows: seq<seq<int>>, n: nat, l: nat, other: seq<int>)
    requires CountFits(n, e) && l < |e.hot| == |rows| && e.hot[l] == Ranked(rows[l])
    requires Chosen(other, |rows[l]|) && |other| == n
    ensures Total(rows[l], other) <= Total(rows[l], Cut(e, n).hot[l])
  {
    TopIsBest(rows[l], other);
  }
}
