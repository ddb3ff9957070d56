/** Choosing the largest ranked prefixes that fit a memory envelope, and checking a plan before launch. */
module ExpertPlan {
  import opened Results
  import opened Placement
  import opened TrimmedPlacement
  import opened MemoryEnvelope

  // ---------------------------------------------------------------- the budget of one rank

  /** What one rank offers and asks for. */
  datatype Demand = Demand(capacity: int, target: int, envelope: Envelope, cache: int, perExpert: int, limit: int)

  ghost predicate Sane(d: Demand) { d.perExpert > 0 && d.limit >= 1 }

  /** Estimated free bytes with n experts hot in every layer. */
  function FreeAt(d: Demand, n: int): int {
    d.capacity - d.envelope.peak - d.envelope.external - d.envelope.margin - d.cache - n * d.perExpert
  }

  predicate Nonnegative(d: Demand) {
    d.capacity >= 0 && d.envelope.peak >= 0 && d.envelope.external >= 0 && d.envelope.margin >= 0 && d.target >= 0
  }

  function LargestCount(d: Demand): int
    requires d.perExpert > 0
  {
    Min(d.limit, (FreeAt(d, 0) - d.target) / d.perExpert)
  }

  lemma Quotient(n: int, budget: int, per: int)
    requires per > 0
    ensures n * per <= budget <==> n <= budget / per
  {
    var q := budget / per;
    assert q * per <= budget < q * per + per;
    if n <= q { Ordered(n, q, per); } else { Ordered(q + 1, n, per); }
  }

  lemma Ordered(a: int, b: int, per: int)
    requires a <= b && per > 0
    ensures a * per <= b * per
  {
  }

  /** The chosen count is the largest of those within the limit that leave the target free. */
  lemma LargestCountFits(d: Demand, n: int)
    requires Sane(d) && n <= d.limit
    ensures FreeAt(d, n) >= d.target <==> n <= LargestCount(d)
  {
    Quotient(n, FreeAt(d, 0) - d.target, d.perExpert);
  }

  datatype Problem = Problem(rank: nat, maximum: int, shortfall: int)

  /** What is reported when not even one expert per layer fits. */
  function ProblemOf(rank: nat, d: Demand): Problem {
    Problem(rank, Max(0, FreeAt(d, 1)), Max(0, d.target - FreeAt(d, 1)))
  }

  /** A rank is a problem exactly when a shortfall is reported: the target is above the reported maximum, or
      nothing at all would be left free. */
  lemma ProblemIff(rank: nat, d: Demand)
    requires Sane(d) && d.target >= 0
    ensures LargestCount(d) < 1 <==> ProblemOf(rank, d).shortfall > 0
    ensures LargestCount(d) < 1 <==> d.target > ProblemOf(rank, d).maximum || FreeAt(d, 1) < 0
  {
    LargestCountFits(d, 1);
  }

  /** Comparing the target with the reported maximum alone misses a problem exactly when no headroom is asked and
      nothing would be left free. */
  lemma ClampHidesIff(rank: nat, d: Demand)
    requires Sane(d) && d.target >= 0
    ensures LargestCount(d) < 1 && d.target <= ProblemOf(rank, d).maximum <==> d.target == 0 && FreeAt(d, 1) < 0
  {
    ProblemIff(rank, d);
  }

  /** Such a rank: one byte short, no headroom asked and maximum zero reported. */
  lemma ReportedMaximumMisleads(d: Demand)
    requires d.capacity == 1 && d.target == 0 && d.envelope == Envelope(0, 0, 0) && d.cache == 0
    requires d.perExpert == 2 && d.limit == 1
    ensures Nonnegative(d) && LargestCount(d) < 1 && d.target <= ProblemOf(0, d).maximum
  {
    OneExpert(d);
    ClampHidesIff(0, d);
  }

  lemma OneExpert(d: Demand)
    ensures FreeAt(d, 1) == d.capacity - d.envelope.peak - d.envelope.external - d.envelope.margin - d.cache - d.perExpert
  {
  }

  /** The measured placement fits again exactly when its own lowest reading clears the target by both
      allowances. */
  lemma MeasuredCountFitsAgain(d: Demand, samples: seq<Sample>, observed: Option<seq<int>>, rank: nat, n: nat)
    requires Steady(samples) && rank < 2 && (observed.Some? ==> |observed.value| == 2)
    requires Sane(d) && n <= d.limit && d.capacity == samples[0].gpus[rank].total
    requires d.envelope == EnvelopeOf(samples[0].gpus[rank], Lowest(samples, observed, rank), n * d.perExpert + d.cache)
    ensures n <= LargestCount(d) ==> Lowest(samples, observed, rank) - 768 * MIB >= d.target
    ensures d.envelope.peak > 0 && Lowest(samples, observed, rank) - 768 * MIB >= d.target ==> n <= LargestCount(d)
  {
    LargestCountFits(d, n);
    EstimateBelowMeasured(samples, observed, rank, n * d.perExpert + d.cache);
    assert FreeAt(d, n) == Estimate(d.capacity, d.envelope, n * d.perExpert + d.cache);
  }

  // ---------------------------------------------------------------- planning

  /** How a catalog was ranked, as far as a plan depends on it. */
  datatype Ranking = Ranking(nonRegression: bool, costsMatch: bool, sourceDigest: Option<int>, bindingHolds: bool)

  datatype Inputs = Inputs(source: seq<Entry>, ranking: Option<Ranking>, cal: Calibration, contract: Contract,
                           targets: seq<int>, host: int, allowReference: bool, allowBaseline: bool)

  datatype PlanError =
    | NotAllowed | BadTargets | Unplaceable(why: Error) | BadRanks | NegativeBytes
    | DoesNotFit(problems: seq<Problem>) | HostTooSmall

  datatype Budget = Budget(target: int, estimatedFree: int, envelope: Envelope, cache: int)

  datatype Plan = Plan(contract: Contract, counts: seq<int>, ranks: seq<Budget>, memory: seq<Memory>, host: int,
                       manifest: seq<Entry>, reference: bool, baseline: bool)

  /** The same measurement under a catalog reranked from the measured source. */
  predicate Rebased(i: Inputs) {
    && i.cal.contract.(source := 0) == i.contract.(source := 0)
    && i.ranking.Some? && i.ranking.value.nonRegression && i.ranking.value.costsMatch
    && i.ranking.value.sourceDigest == Some(i.cal.contract.source)
  }

  predicate IsReference(i: Inputs) { i.allowReference && i.cal.reference }

  predicate Allowed(i: Inputs, experts: nat) {
    var b := i.cal.baselineCounts;
    && (b.Some? ==> i.allowBaseline && !i.cal.workloadPassed && |b.value| == 2
                    && 1 <= b.value[0] <= experts && 1 <= b.value[1] <= experts)
    && (i.cal.contract == i.contract || Rebased(i))
    && (b.Some? && Rebased(i) ==> i.ranking.value.bindingHolds)
    && i.cal.evidence && (i.cal.workloadPassed || IsReference(i) || b.Some?)
  }

  /** Everything a budget is computed from is there. */
  ghost predicate Ready(i: Inputs, costs: seq<seq<nat>>, limit: int, s: Shape)
    requires ValidCosts(costs, s)
  {
    && s.layers > 0
    && Allowed(i, s.experts) && |i.targets| == 2 && Trimmable(i.source, [1, 1], costs, s)
    && CacheAllowed(i.contract.settings.cache, limit)
    && |i.cal.ranks| == 2 && |i.contract.devices| >= 2
  }

  ghost function DemandOf(i: Inputs, rank: nat, costs: seq<seq<nat>>, limit: int, s: Shape): Demand
    requires rank < 2 && ValidCosts(costs, s) && Ready(i, costs, limit, s)
  {
    var prefix := Shortest(i.source[rank].hot);
    Demand(i.contract.devices[rank], i.targets[rank], i.cal.ranks[rank],
           Physical(i.contract.settings.cache, rank) * Sum(costs[rank]), Sum(costs[rank]),
           if i.cal.baselineCounts.Some? then Min(prefix, i.cal.baselineCounts.value[rank]) else prefix)
  }

  function BudgetOf(d: Demand, count: int): Budget { Budget(d.target, FreeAt(d, count), d.envelope, d.cache) }

  lemma {:induction false} SumPositive(costs: seq<nat>)
    requires costs != [] && costs[0] > 0
    ensures Sum(costs) > 0
  {
  }

  lemma DemandSane(i: Inputs, rank: nat, costs: seq<seq<nat>>, limit: int, s: Shape)
    requires rank < 2 && ValidCosts(costs, s) && Ready(i, costs, limit, s)
    ensures Sane(DemandOf(i, rank, costs, limit, s))
  {
    SumPositive(costs[0]);
    SumPositive(costs[1]);
    assert CountFits(1, i.source[rank]);
  }

  /** Cutting every layer to one expert weighs the cost of one expert per layer. */
  lemma MinimumWeighsOne(i: Inputs, rank: nat, m: seq<Entry>, row: Memory, costs: seq<seq<nat>>, limit: int, s: Shape)
    requires rank < 2 && ValidCosts(costs, s) && Ready(i, costs, limit, s)
    requires m == TrimmedTo(i.source, [1, 1], costs, s)
    requires Accounts(row, m[rank], costs[rank], s.experts, Physical(i.contract.settings.cache, rank))
    ensures row.hotBytes == Sum(costs[rank])
    ensures row.cacheBytes == Physical(i.contract.settings.cache, rank) * Sum(costs[rank])
  {
    UniformWeight(Lengths(m[rank].hot), costs[rank], 1);
  }

  /** What the rank loop has gathered. */
  datatype Tally = Tally(counts: seq<int>, budgets: seq<Budget>, problems: seq<Problem>)

  ghost predicate Tallied(t: Tally, d: seq<Demand>) {
    && (forall k :: 0 <= k < |d| ==> d[k].perExpert > 0 && Nonnegative(d[k]))
    && |t.counts| == |t.budgets| == |d|
    && (forall k :: 0 <= k < |d| ==>
          t.counts[k] == LargestCount(d[k]) && t.budgets[k] == BudgetOf(d[k], t.counts[k]))
    && (forall p :: p in t.problems <==> exists k :: 0 <= k < |d| && LargestCount(d[k]) < 1 && p == ProblemOf(k, d[k]))
  }

  method TallyRanks(d: seq<Demand>) returns (r: Result<Tally, PlanError>)
    requires forall k :: 0 <= k < |d| ==> Sane(d[k])
    ensures r.Ok? <==> forall k :: 0 <= k < |d| ==> Nonnegative(d[k])
    ensures r.Ok? ==> Tallied(r.value, d)
    ensures r.Err? ==> r.error == NegativeBytes
  {
    var t := Tally([], [], []);
    for rank := 0 to |d|
      invariant Tallied(t, d[..rank])
    {
      var one := d[rank];
      if !Nonnegative(one) { return Err(NegativeBytes); }
      var largest := one.capacity - one.envelope.peak - one.envelope.external - one.envelope.margin - one.cache
                     - one.perExpert;
      var budget := one.capacity - one.target - one.envelope.peak - one.envelope.external - one.envelope.margin - one.cache;
      var count := Min(one.limit, budget / one.perExpert);
      var problems := t.problems;
      if count < 1 {
        problems := problems + [Problem(rank, Max(0, largest), Max(0, one.target - largest))];
      }
      TallyGrows(t, d[..rank], one, problems);
      assert d[..rank + 1] == d[..rank] + [one];
      t := Tally(t.counts + [count], t.budgets + [BudgetOf(one, count)], problems);
    }
    assert d[..|d|] == d;
    r := Ok(t);
  }

  lemma TallyGrows(t: Tally, d: seq<Demand>, one: Demand, problems: seq<Problem>)
    requires Tallied(t, d) && Sane(one) && Nonnegative(one)
    requires problems == t.problems + if LargestCount(one) < 1 then [ProblemOf(|d|, one)] else []
    ensures Tallied(Tally(t.counts + [LargestCount(one)], t.budgets + [BudgetOf(one, LargestCount(one))], problems),
                    d + [one])
  {
    var e := d + [one];
    assert e[|d|] == one;
    forall p ensures p in problems <==> exists k :: 0 <= k < |e| && LargestCount(e[k]) < 1 && p == ProblemOf(k, e[k]) {
      if p in t.problems {
        var k :| 0 <= k < |d| && LargestCount(d[k]) < 1 && p == ProblemOf(k, d[k]);
        assert e[k] == d[k];
      }
      if k :| 0 <= k < |e| && LargestCount(e[k]) < 1 && p == ProblemOf(k, e[k]) {
        if k < |d| { assert e[k] == d[k]; }
      }
    }
  }
}
