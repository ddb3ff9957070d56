/** What a plan and the check before launch mean in bytes: no budget, demand or accounting function is named in these
    statements, only capacities, costs, counts and the cache's settings. */
module PlanMeaning {
  import opened Results
  import opened Placement
  import opened TrimmedPlacement
  import opened MemoryEnvelope
  import opened ExpertPlan
  import opened LaunchCheck

  /** The bytes left on a rank with n experts hot in every layer, each layer's expert costing what `costs` says. */
  function Left(i: Inputs, rank: nat, n: int, costs: seq<nat>): int
    requires rank < |i.contract.devices| && rank < |i.cal.ranks|
  {
    var c, e := i.contract.settings.cache, i.cal.ranks[rank];
    var slots := if rank !in c.ranks then 0 else if c.asynchronous && c.slots > 0 then c.slots + 1 else c.slots;
    i.contract.devices[rank] - e.peak - e.external - e.margin - (slots + n) * Sum(costs)
  }

  lemma LeftIsFree(i: Inputs, rank: nat, n: int, costs: seq<seq<nat>>, limit: int, s: Shape)
    requires ValidCosts(costs, s) && Ready(i, costs, limit, s) && rank < 2
    ensures Left(i, rank, n, costs[rank]) == FreeAt(DemandOf(i, rank, costs, limit, s), n)
  {
    var slots := Physical(i.contract.settings.cache, rank);
    ProductSplit(slots, n, Sum(costs[rank]));
  }

  /** n is a count the rank may be planned at: within every row, within the measured counts of a capacity baseline, and
      leaving the target free. */
  ghost predicate MayHold(i: Inputs, rank: nat, n: int, costs: seq<nat>)
    requires rank < |i.contract.devices| && rank < |i.cal.ranks| && rank < |i.targets| && rank < |i.source|
    requires i.cal.baselineCounts.Some? ==> rank < |i.cal.baselineCounts.value|
  {
    && (forall l :: 0 <= l < |i.source[rank].hot| ==> n <= |i.source[rank].hot[l]|)
    && (i.cal.baselineCounts.Some? ==> n <= i.cal.baselineCounts.value[rank])
    && Left(i, rank, n, costs) >= i.targets[rank]
  }

  /** A plan keeps on each rank the largest count that may be held there, and at least one. */
  lemma PlanIsLargest(p: Plan, i: Inputs, rank: nat, n: int, costs: seq<seq<nat>>, limit: int, s: Shape)
    requires ValidCosts(costs, s) && Ready(i, costs, limit, s) && Planned(p, i, costs, limit, s) && rank < 2
    ensures |p.counts| == 2 && p.counts[rank] >= 1
    ensures MayHold(i, rank, n, costs[rank]) <==> n <= p.counts[rank]
  {
    var d := DemandOf(i, rank, costs, limit, s);
    DemandSane(i, rank, costs, limit, s);
    LeftIsFree(i, rank, n, costs, limit, s);
    ShortestIff(i.source[rank].hot, n);
    if n <= d.limit { LargestCountFits(d, n); }
  }

  lemma ShortestIff(hot: seq<seq<int>>, n: int)
    requires hot != []
    ensures n <= Shortest(hot) <==> forall l :: 0 <= l < |hot| ==> n <= |hot[l]|
  {
  }

  /** When a plan can be attempted: the measurement may be used, the source and the cache are acceptable, and there is an
      envelope and a target for both ranks. One expert per layer can always be tried, since no row is empty. */
  lemma ReadyIff(i: Inputs, costs: seq<seq<nat>>, limit: int, s: Shape)
    requires ValidCosts(costs, s) && s.layers > 0
    ensures Ready(i, costs, limit, s) <==>
            && Allowed(i, s.experts) && Accountable(i.source, NO_CACHE, DEFAULT_SLOTS, costs, s)
            && CacheAllowed(i.contract.settings.cache, limit)
            && |i.targets| == 2 && |i.cal.ranks| == 2 && |i.contract.devices| >= 2
  {
    if Accountable(i.source, NO_CACHE, DEFAULT_SLOTS, costs, s) {
      OneFits(i.source[0], s);
      OneFits(i.source[1], s);
    }
  }

  lemma OneFits(e: Entry, s: Shape)
    requires ValidEntry(e, s) && s.layers > 0
    ensures CountFits(1, e)
  {
  }

  /** A plan that can be attempted fits the devices exactly when no measured byte count is negative and one expert per
      layer leaves both targets free. */
  lemma AffordableIff(i: Inputs, costs: seq<seq<nat>>, limit: int, s: Shape)
    requires ValidCosts(costs, s) && Ready(i, costs, limit, s)
    ensures Affordable(i, costs, limit, s) <==>
            forall rank: nat :: rank < 2 ==>
              && i.contract.devices[rank] >= 0 && i.targets[rank] >= 0 && i.cal.ranks[rank].peak >= 0
              && i.cal.ranks[rank].external >= 0 && i.cal.ranks[rank].margin >= 0
              && Left(i, rank, 1, costs[rank]) >= i.targets[rank]
  {
    LeftIsFree(i, 0, 1, costs, limit, s);
    LeftIsFree(i, 1, 1, costs, limit, s);
  }

  /** The host has room exactly when no byte count is negative and it has what the plan would ask. */
  lemma HostFitsIff(i: Inputs, cold: int)
    ensures HostFits(i, cold) <==>
            && i.cal.referenceCold >= 0 && i.cal.startup >= 0 && i.cal.reserve >= 0 && i.host >= 0
            && i.cal.startup + i.cal.reserve <= i.host
            && i.cal.startup + i.cal.reserve + (cold - i.cal.referenceCold) <= i.host
  {
  }

  /** What a plan keeps, and what it says of each rank: the leading experts of every row, and the bytes left. */
  lemma PlanSays(p: Plan, i: Inputs, rank: nat, l: nat, costs: seq<seq<nat>>, limit: int, s: Shape)
    requires ValidCosts(costs, s) && Ready(i, costs, limit, s) && Planned(p, i, costs, limit, s)
    requires rank < 2 && l < s.layers
    ensures |p.manifest| == |p.ranks| == |p.memory| == |p.counts| == 2 && p.counts[rank] >= 1
    ensures |p.manifest[rank].hot| == s.layers == |i.source[rank].hot| && p.counts[rank] <= |i.source[rank].hot[l]|
    ensures p.manifest[rank].hot[l] == i.source[rank].hot[l][..p.counts[rank]]
    ensures p.ranks[rank].estimatedFree == Left(i, rank, p.counts[rank], costs[rank])
    ensures p.ranks[rank].target == i.targets[rank] && p.ranks[rank].envelope == i.cal.ranks[rank]
    ensures p.memory[rank].hotBytes == p.counts[rank] * Sum(costs[rank])
    ensures p.memory[rank].coldBytes == (s.experts - p.counts[rank]) * Sum(costs[rank])
    ensures p.contract == i.contract && p.reference == (i.allowReference && i.cal.reference)
    ensures p.baseline == (i.cal.baselineCounts != None)
  {
    DemandSane(i, rank, costs, limit, s);
    LeftIsFree(i, rank, p.counts[rank], costs, limit, s);
    ColdOfCut(p.memory[rank], i.source[rank], p.counts[rank], costs[rank], s, Physical(i.contract.settings.cache, rank));
  }

  /** What a plan asks of the host: the measured start-up and the reserve, and room for cold experts beyond the measured
      ones. */
  lemma PlanAsksOfHost(p: Plan, i: Inputs, costs: seq<seq<nat>>, limit: int, s: Shape)
    requires ValidCosts(costs, s) && Ready(i, costs, limit, s) && Planned(p, i, costs, limit, s)
    ensures |p.counts| == 2
    ensures var cold := (s.experts - p.counts[0]) * Sum(costs[0]) + (s.experts - p.counts[1]) * Sum(costs[1]);
            p.host == i.cal.startup + i.cal.reserve + if cold > i.cal.referenceCold then cold - i.cal.referenceCold else 0
  {
    var c := i.contract.settings.cache;
    ColdOfCut(p.memory[0], i.source[0], p.counts[0], costs[0], s, Physical(c, 0));
    ColdOfCut(p.memory[1], i.source[1], p.counts[1], costs[1], s, Physical(c, 1));
  }

  /** Negative byte counts are refused before anything is found not to fit. */
  lemma NegativeRefused(d: Demand)
    ensures Nonnegative(d) <==>
            !(d.capacity < 0 || d.target < 0 || d.envelope.peak < 0 || d.envelope.external < 0 || d.envelope.margin < 0)
  {
  }

  /** What a problem reports: the largest target under which one expert per layer would still fit, none below zero, and
      how far the asked target is above it. */
  lemma ProblemMeans(rank: nat, d: Demand, target: int)
    requires Sane(d) && target >= 0
    ensures ProblemOf(rank, d).rank == rank && ProblemOf(rank, d).maximum >= 0
    ensures FreeAt(d, 1) >= 0 ==> (LargestCount(d.(target := target)) >= 1 <==> target <= ProblemOf(rank, d).maximum)
    ensures FreeAt(d, 1) < 0 ==> LargestCount(d.(target := target)) < 1 && ProblemOf(rank, d).maximum == 0
    ensures LargestCount(d) < 1 ==> FreeAt(d, 1) + ProblemOf(rank, d).shortfall == d.target
  {
    LargestCountFits(d.(target := target), 1);
    LargestCountFits(d, 1);
  }

  /** Which measurements may be used. A contract other than the measured one may differ in the catalog alone, and only
      when that was reranked from the measured one without regression and at the same costs. */
  lemma AllowedIff(i: Inputs, experts: nat)
    ensures Allowed(i, experts) <==>
            var b, k, c := i.cal.baselineCounts, i.cal.contract, i.contract;
            var reranked := k.settings == c.settings && k.devices == c.devices && k.driver == c.driver && i.ranking.Some?
                            && i.ranking.value.nonRegression && i.ranking.value.costsMatch
                            && i.ranking.value.sourceDigest == Some(k.source);
            && i.cal.evidence
            && (k == c || reranked)
            && match b
               case None => i.cal.workloadPassed || (i.allowReference && i.cal.reference)
               case Some(n) =>
                 && i.allowBaseline && !i.cal.workloadPassed
                 && |n| == 2 && 1 <= n[0] <= experts && 1 <= n[1] <= experts
                 && (reranked ==> i.ranking.value.bindingHolds)
  {
    assert i.cal.contract.(source := 0) == i.contract.(source := 0)
      <==> i.cal.contract.settings == i.contract.settings && i.cal.contract.devices == i.contract.devices
           && i.cal.contract.driver == i.contract.driver;
  }

  /** The check before launch passes exactly when contract and contents are unchanged, the host still has what the plan
      asks, and neither rank's other programs hold more than allowed. */
  lemma CheckPasses(p: Plan, manifest: seq<Entry>, contract: Contract, host: int, free: seq<int>)
    requires |p.ranks| == 2 && |p.contract.devices| >= 2 && |free| >= 2
    ensures CheckPlan(p, manifest, contract, host, free) == None <==>
            && p.contract == contract && p.manifest == manifest && host >= p.host
            && contract.devices[0] - free[0] <= p.ranks[0].envelope.external
            && contract.devices[1] - free[1] <= p.ranks[1].envelope.external
  {
  }

  /** And it names the first of these that does not hold. */
  lemma CheckStops(p: Plan, manifest: seq<Entry>, contract: Contract, host: int, free: seq<int>)
    requires |p.ranks| == 2 && |p.contract.devices| >= 2 && |free| >= 2
    ensures var stop := CheckPlan(p, manifest, contract, host, free);
            var stale, changed, fell := p.contract != contract, p.manifest != manifest, host < p.host;
            && (stop == Some(StalePlan) <==> stale)
            && (stop == Some(ContentsChanged) <==> !stale && changed)
            && (stop == Some(HostFell) <==> !stale && !changed && fell)
            && (stop == Some(ExternalGrew(0)) <==>
                  !stale && !changed && !fell && contract.devices[0] - free[0] > p.ranks[0].envelope.external)
            && (stop == Some(ExternalGrew(1)) <==>
                  !stale && !changed && !fell && contract.devices[0] - free[0] <= p.ranks[0].envelope.external
                  && contract.devices[1] - free[1] > p.ranks[1].envelope.external)
  {
  }
}
