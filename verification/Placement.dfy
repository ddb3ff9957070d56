/** Expert placements: which experts each rank keeps hot in every layer, what they weigh, and how a placement
    is cut down to smaller prefixes. Layers and experts per layer are parameters. */
module Placement {
  import opened Results
  import opened Sets
  import opened RankedExperts

  datatype Error =
    | WrongRanks | WrongLayers | EmptyRow | IdOutOfRange | DuplicateId | WrongHotCount | WrongHotSlots
    | BadCache | WrongHotBytes | BadCounts

  /** One rank's entry, with the totals it may declare. */
  datatype Entry = Entry(hot: seq<seq<int>>, hotCount: Option<int>, hotSlots: Option<int>, hotBytes: Option<int>)

  datatype Shape = Shape(layers: nat, experts: nat)

  function Sum(s: seq<nat>): nat { if s == [] then 0 else s[0] + Sum(s[1..]) }

  /** Bytes of counts[l] experts of cost costs[l] each, over all layers. */
  function Weight(counts: seq<nat>, costs: seq<nat>): nat
    requires |counts| == |costs|
  {
    if counts == [] then 0 else counts[0] * costs[0] + Weight(counts[1..], costs[1..])
  }

  function Lengths(hot: seq<seq<int>>): (n: seq<nat>)
    ensures |n| == |hot|
  {
    seq(|hot|, l requires 0 <= l < |hot| => |hot[l]|)
  }

  /** What the runtime accepts as one rank's placement. */
  ghost predicate ValidEntry(e: Entry, s: Shape) {
    && |e.hot| == s.layers
    && (forall l :: 0 <= l < |e.hot| ==> e.hot[l] != [] && Chosen(e.hot[l], s.experts))
    && (e.hotCount.Some? ==> forall l :: 0 <= l < |e.hot| ==> |e.hot[l]| == e.hotCount.value)
    && (e.hotSlots.Some? ==> Sum(Lengths(e.hot)) == e.hotSlots.value)
  }

  /** A rank is refused for an empty row, an id outside the layer, a repeated id, or totals that are not its own. */
  lemma EntryAccepted(e: Entry, s: Shape)
    ensures ValidEntry(e, s) <==>
            && |e.hot| == s.layers
            && (forall l :: 0 <= l < |e.hot| ==> |e.hot[l]| > 0)
            && (forall l, i :: 0 <= l < |e.hot| && 0 <= i < |e.hot[l]| ==> 0 <= e.hot[l][i] < s.experts)
            && (forall l, i, j :: 0 <= l < |e.hot| && 0 <= i < j < |e.hot[l]| ==> e.hot[l][i] != e.hot[l][j])
            && (e.hotCount == None || forall l :: 0 <= l < |e.hot| ==> Some(|e.hot[l]|) == e.hotCount)
            && (e.hotSlots == None || e.hotSlots == Some(Sum(Lengths(e.hot))))
  {
  }

  ghost predicate Valid(m: seq<Entry>, s: Shape) {
    |m| == 2 && ValidEntry(m[0], s) && ValidEntry(m[1], s)
  }

  /** The error is one the rank has. */
  ghost predicate HasFault(e: Entry, s: Shape, why: Error) {
    match why
    case WrongLayers => |e.hot| != s.layers
    case EmptyRow => exists l :: 0 <= l < |e.hot| && e.hot[l] == []
    case IdOutOfRange => exists l, i :: 0 <= l < |e.hot| && 0 <= i < |e.hot[l]| && !(0 <= e.hot[l][i] < s.experts)
    case DuplicateId => exists l :: 0 <= l < |e.hot| && !NoDup(e.hot[l])
    case WrongHotCount => e.hotCount.Some? && exists l :: 0 <= l < |e.hot| && |e.hot[l]| != e.hotCount.value
    case WrongHotSlots => e.hotSlots.Some? && Sum(Lengths(e.hot)) != e.hotSlots.value
    case _ => false
  }

  /** The error of a refused placement: not two ranks, or a fault of one of the two. */
  ghost predicate Refuses(m: seq<Entry>, s: Shape, why: Error) {
    if why == WrongRanks then |m| != 2 else |m| == 2 && (HasFault(m[0], s, why) || HasFault(m[1], s, why))
  }

  method Validate(m: seq<Entry>, s: Shape) returns (r: Result<seq<seq<nat>>, Error>)
    ensures r.Ok? <==> Valid(m, s)
    ensures r.Err? ==> Refuses(m, s, r.error)
    ensures r.Ok? ==> r.value == [Lengths(m[0].hot), Lengths(m[1].hot)]
  {
    if |m| != 2 { return Err(WrongRanks); }
    var counts: seq<seq<nat>> := [];
    for rank := 0 to 2
      invariant |counts| == rank
      invariant forall k :: 0 <= k < rank ==> ValidEntry(m[k], s) && counts[k] == Lengths(m[k].hot)
    {
      var e := m[rank];
      if |e.hot| != s.layers { return Err(WrongLayers); }
      var row := RowCounts(e.hot, s.experts);
      if row.Err? {
        assert rank == 0 || rank == 1;
        return Err(row.error);
      }
      if e.hotCount.Some? && exists l :: 0 <= l < |e.hot| && |e.hot[l]| != e.hotCount.value {
        return Err(WrongHotCount);
      }
      if e.hotSlots.Some? && e.hotSlots.value != Sum(row.value) { return Err(WrongHotSlots); }
      counts := counts + [row.value];
    }
    r := Ok(counts);
  }

  method RowCounts(hot: seq<seq<int>>, experts: nat) returns (r: Result<seq<nat>, Error>)
    ensures r.Err? ==> r.error in {EmptyRow, IdOutOfRange, DuplicateId}
    ensures r.Err? ==> HasFault(Entry(hot, None, None, None), Shape(|hot|, experts), r.error)
    ensures r.Ok? <==> forall l :: 0 <= l < |hot| ==> hot[l] != [] && Chosen(hot[l], experts)
    ensures r.Ok? ==> r.value == Lengths(hot)
  {
    var counts: seq<nat> := [];
    for l := 0 to |hot|
      invariant counts == Lengths(hot[..l])
      invariant forall k :: 0 <= k < l ==> hot[k] != [] && Chosen(hot[k], experts)
    {
      if hot[l] == [] { return Err(EmptyRow); }
      if exists i :: 0 <= i < |hot[l]| && !(0 <= hot[l][i] < experts) { return Err(IdOutOfRange); }
      if exists i, j :: 0 <= i < j < |hot[l]| && hot[l][i] == hot[l][j] { return Err(DuplicateId); }
      counts := counts + [|hot[l]|];
    }
    assert hot[..|hot|] == hot;
    r := Ok(counts);
  }

  // ---------------------------------------------------------------- bytes

  datatype Memory = Memory(counts: seq<nat>, hotBytes: nat, coldBytes: nat, slots: nat, cacheBytes: nat, fullBytes: nat)

  function Rest(counts: seq<nat>, experts: nat): (cold: seq<nat>)
    requires forall l :: 0 <= l < |counts| ==> counts[l] <= experts
    ensures |cold| == |counts|
  {
    seq(|counts|, l requires 0 <= l < |counts| => experts - counts[l])
  }

  datatype Cache = Cache(slots: int, ranks: set<int>, asynchronous: bool)

  predicate CacheAllowed(c: Cache, limit: int) {
    && 0 <= c.slots <= limit && c.ranks <= {0, 1}
    && (c.slots > 128 ==> c.slots in {160, 192} && !c.asynchronous)
  }

  /** Up to 128 slots, loaded in the background or not, and 160 or 192 that are not, on the two ranks there are, and
      never more than the runtime allows. */
  lemma CachesAccepted(c: Cache, limit: int)
    ensures CacheAllowed(c, limit) <==>
            && c.slots >= 0 && c.slots <= limit && c.ranks <= {0, 1}
            && (c.slots <= 128 || (!c.asynchronous && (c.slots == 160 || c.slots == 192)))
  {
  }

  /** Slots resident on a rank: an asynchronous cache holds one more while it loads. */
  function Physical(c: Cache, rank: nat): nat
    requires c.slots >= 0
  {
    if rank in c.ranks then c.slots + (if c.asynchronous && c.slots > 0 then 1 else 0) else 0
  }

  function MemoryOf(hot: seq<seq<int>>, costs: seq<nat>, experts: nat, slots: nat): Memory
    requires |hot| == |costs| && forall l :: 0 <= l < |hot| ==> |hot[l]| <= experts
  {
    var n := Lengths(hot);
    Memory(n, Weight(n, costs), Weight(Rest(n, experts), costs), slots, slots * Sum(costs), experts * Sum(costs))
  }

  /** Every layer has a positive cost on both ranks. */
  ghost predicate ValidCosts(costs: seq<seq<nat>>, s: Shape) {
    |costs| == 2 && |costs[0]| == |costs[1]| == s.layers
    && forall l :: 0 <= l < s.layers ==> costs[0][l] > 0 && costs[1][l] > 0
  }

  ghost predicate DeclaredBytes(e: Entry, costs: seq<nat>)
    requires |e.hot| == |costs|
  {
    e.hotBytes.Some? ==> e.hotBytes.value == Weight(Lengths(e.hot), costs)
  }

  /** Memory can be accounted for: the placement and cache are acceptable and declared bytes are right. */
  ghost predicate Accountable(m: seq<Entry>, c: Cache, limit: int, costs: seq<seq<nat>>, s: Shape)
    requires ValidCosts(costs, s)
  {
    Valid(m, s) && CacheAllowed(c, limit) && DeclaredBytes(m[0], costs[0]) && DeclaredBytes(m[1], costs[1])
  }

  lemma {:induction false} ChosenFits(ids: seq<int>, experts: nat)
    requires Chosen(ids, experts)
    ensures |ids| <= experts
  {
    NoDupSize(ids);
    SubsetSize(ToSet(ids), Below(experts));
  }

  lemma RowsFit(e: Entry, s: Shape)
    requires ValidEntry(e, s)
    ensures forall l :: 0 <= l < |e.hot| ==> |e.hot[l]| <= s.experts
  {
    forall l | 0 <= l < |e.hot| ensures |e.hot[l]| <= s.experts {
      ChosenFits(e.hot[l], s.experts);
    }
  }

  ghost predicate Accounts(row: Memory, e: Entry, costs: seq<nat>, experts: nat, slots: nat) {
    |e.hot| == |costs| && (forall l :: 0 <= l < |e.hot| ==> |e.hot[l]| <= experts)
    && row == MemoryOf(e.hot, costs, experts, slots)
  }

  /** What the cache costs a rank, with one expert in every layer weighing `each`: nothing without a cache there, else
      its slots, and one more of each when it loads in the background. */
  ghost predicate ChargesCache(row: Memory, c: Cache, rank: nat, each: nat) {
    && (rank !in c.ranks ==> row.cacheBytes == 0)
    && (rank in c.ranks && !c.asynchronous ==> row.cacheBytes == c.slots * each)
    && (rank in c.ranks && c.asynchronous && c.slots > 0 ==> row.cacheBytes == c.slots * each + each)
    && (c.slots == 0 ==> row.cacheBytes == 0)
  }

  lemma CacheCharged(row: Memory, c: Cache, rank: nat, each: nat)
    requires c.slots >= 0 && row.cacheBytes == Physical(c, rank) * each
    ensures ChargesCache(row, c, rank, each)
  {
  }

  method ExpertMemory(m: seq<Entry>, c: Cache, limit: int, costs: seq<seq<nat>>, s: Shape)
    returns (r: Result<seq<Memory>, Error>)
    requires ValidCosts(costs, s)
    ensures r.Ok? <==> Accountable(m, c, limit, costs, s)
    ensures r.Err? ==> if !Valid(m, s) then Refuses(m, s, r.error) else r.error == if CacheAllowed(c, limit) then WrongHotBytes else BadCache
    ensures r.Ok? ==> |r.value| == 2 && Accounts(r.value[0], m[0], costs[0], s.experts, Physical(c, 0))
                      && Accounts(r.value[1], m[1], costs[1], s.experts, Physical(c, 1))
    ensures r.Ok? ==> ChargesCache(r.value[0], c, 0, Sum(costs[0])) && ChargesCache(r.value[1], c, 1, Sum(costs[1]))
  {
    var valid := Validate(m, s);
    if valid.Err? { return Err(valid.error); }
    if !CacheAllowed(c, limit) { return Err(BadCache); }
    var rows: seq<Memory> := [];
    for rank := 0 to 2
      invariant |rows| == rank
      invariant forall k :: 0 <= k < rank ==>
                  DeclaredBytes(m[k], costs[k]) && Accounts(rows[k], m[k], costs[k], s.experts, Physical(c, k))
    {
      var e := m[rank];
      RowsFit(e, s);
      var row := MemoryOf(e.hot, costs[rank], s.experts, Physical(c, rank));
      if e.hotBytes.Some? && e.hotBytes.value != row.hotBytes { return Err(WrongHotBytes); }
      rows := rows + [row];
    }
    CacheCharged(rows[0], c, 0, Sum(costs[0]));
    CacheCharged(rows[1], c, 1, Sum(costs[1]));
    r := Ok(rows);
  }

  // ---------------------------------------------------------------- laws of the byte totals

  ghost predicate AllEqual(counts: seq<nat>, n: nat) { forall l :: 0 <= l < |counts| ==> counts[l] == n }

  /** A uniform placement weighs its count times the cost of one expert everywhere. */
  lemma {:induction false} UniformWeight(counts: seq<nat>, costs: seq<nat>, n: nat)
    requires |counts| == |costs| && AllEqual(counts, n)
    ensures Weight(counts, costs) == n * Sum(costs)
  {
    if counts != [] {
      UniformWeight(counts[1..], costs[1..], n);
      Distributes(n, costs[0], Sum(costs[1..]));
    }
  }

  lemma Distributes(n: int, a: int, b: int)
    ensures n * (a + b) == n * a + n * b
  {
  }

  /** Hot and cold bytes together are the whole expert set. */
  lemma {:induction false} HotAndColdAreAll(counts: seq<nat>, costs: seq<nat>, experts: nat)
    requires |counts| == |costs| && forall l :: 0 <= l < |counts| ==> counts[l] <= experts
    ensures Weight(counts, costs) + Weight(Rest(counts, experts), costs) == experts * Sum(costs)
  {
    if counts != [] {
      assert Rest(counts, experts)[1..] == Rest(counts[1..], experts);
      HotAndColdAreAll(counts[1..], costs[1..], experts);
      Distributes(experts, costs[0], Sum(costs[1..]));
      ProductSplit(counts[0], experts - counts[0], costs[0]);
    }
  }

  lemma ProductSplit(a: int, b: int, n: int)
    ensures a * n + b * n == (a + b) * n
  {
  }

  lemma {:induction false} FewerWeighLess(a: seq<nat>, b: seq<nat>, costs: seq<nat>)
    requires |a| == |b| == |costs| && forall l :: 0 <= l < |a| ==> a[l] <= b[l]
    ensures Weight(a, costs) <= Weight(b, costs)
  {
    if a != [] {
      FewerWeighLess(a[1..], b[1..], costs[1..]);
      ProductSplit(a[0], b[0] - a[0], costs[0]);
    }
  }

  /** Moving experts off the GPU adds to host memory exactly the bytes it releases. */
  lemma ReleasedIsAdded(before: Memory, after: Memory, a: Entry, b: Entry, costs: seq<nat>, experts: nat, slots: nat)
    requires Accounts(before, a, costs, experts, slots) && Accounts(after, b, costs, experts, slots)
    ensures before.hotBytes - after.hotBytes == after.coldBytes - before.coldBytes
    ensures before.hotBytes + before.coldBytes == before.fullBytes == after.fullBytes
  {
    HotAndColdAreAll(before.counts, costs, experts);
    HotAndColdAreAll(after.counts, costs, experts);
  }

  /** The weight is the total of what each expert costs: one more in layer l adds that layer's cost. */
  lemma {:induction false} OneMoreExpert(counts: seq<nat>, costs: seq<nat>, l: nat)
    requires |counts| == |costs| && l < |counts|
    ensures Weight(counts[l := counts[l] + 1], costs) == Weight(counts, costs) + costs[l]
  {
    if l == 0 {
      ProductSplit(counts[0], 1, costs[0]);
      assert counts[0 := counts[0] + 1][1..] == counts[1..];
    } else {
      OneMoreExpert(counts[1..], costs[1..], l - 1);
      assert counts[l := counts[l] + 1][1..] == counts[1..][l - 1 := counts[l] + 1];
    }
  }

  /** No experts weigh nothing. */
  lemma NoExperts(counts: seq<nat>, costs: seq<nat>)
    requires |counts| == |costs| && AllEqual(counts, 0)
    ensures Weight(counts, costs) == 0
  {
    UniformWeight(counts, costs, 0);
  }

  /** One expert in every layer weighs the sum of the costs. */
  lemma {:induction false} SumGrows(s: seq<nat>, l: nat, more: nat)
    requires l < |s|
    ensures Sum(s[l := s[l] + more]) == Sum(s) + more
  {
    if l == 0 {
      assert s[0 := s[0] + more][1..] == s[1..];
    } else {
      SumGrows(s[1..], l - 1, more);
      assert s[l := s[l] + more][1..] == s[1..][l - 1 := s[l] + more];
    }
  }
}
