/** Building a plan from a budget, checking it before launch, and what a launch that passes may rely on. */
module LaunchCheck {
  import opened Results
  import opened RankedExperts
  import opened Placement
  import opened TrimmedPlacement
  import opened MemoryEnvelope
  import opened ExpertPlan

  /** Host bytes a launch needs: the measured start-up, any cold experts beyond the measured ones, and the
      reserve. */
  function HostNeed(cal: Calibration, cold: int): int { cal.startup + Max(0, cold - cal.referenceCold) + cal.reserve }

  predicate HostKnown(cal: Calibration, host: int) {
    cal.referenceCold >= 0 && cal.startup >= 0 && cal.reserve >= 0 && host >= 0
  }

  ghost predicate Fits(d: Demand) { FreeAt(d, 1) >= d.target }

  /** Host bytes of the experts left cold by counts hot in every layer of each rank. */
  function ColdAt(counts: seq<int>, costs: seq<seq<nat>>, experts: nat): int
    requires |counts| == |costs| == 2
  {
    (experts - counts[0]) * Sum(costs[0]) + (experts - counts[1]) * Sum(costs[1])
  }

  ghost predicate HostFits(i: Inputs, cold: int) { HostKnown(i.cal, i.host) && HostNeed(i.cal, cold) <= i.host }

  ghost function CountsOf(i: Inputs, costs: seq<seq<nat>>, limit: int, s: Shape): (c: seq<int>)
    requires ValidCosts(costs, s) && Ready(i, costs, limit, s)
    ensures |c| == 2
  {
    DemandSane(i, 0, costs, limit, s);
    DemandSane(i, 1, costs, limit, s);
    [LargestCount(DemandOf(i, 0, costs, limit, s)), LargestCount(DemandOf(i, 1, costs, limit, s))]
  }

  /** The budgets fit and the counts can be cut. */
  ghost predicate Affordable(i: Inputs, costs: seq<seq<nat>>, limit: int, s: Shape)
    requires ValidCosts(costs, s) && Ready(i, costs, limit, s)
  {
    && Nonnegative(DemandOf(i, 0, costs, limit, s)) && Nonnegative(DemandOf(i, 1, costs, limit, s))
    && Fits(DemandOf(i, 0, costs, limit, s)) && Fits(DemandOf(i, 1, costs, limit, s))
  }

  lemma CountsCut(i: Inputs, costs: seq<seq<nat>>, limit: int, s: Shape)
    requires ValidCosts(costs, s) && Ready(i, costs, limit, s) && Affordable(i, costs, limit, s)
    ensures Trimmable(i.source, CountsOf(i, costs, limit, s), costs, s)
  {
    DemandSane(i, 0, costs, limit, s);
    DemandSane(i, 1, costs, limit, s);
    LargestCountFits(DemandOf(i, 0, costs, limit, s), 1);
    LargestCountFits(DemandOf(i, 1, costs, limit, s), 1);
  }

  /** One rank's share of a plan. */
  ghost predicate RankPlanned(b: Budget, row: Memory, e: Entry, d: Demand, source: Entry, costs: seq<nat>, s: Shape, slots: nat)
    requires d.perExpert > 0
  {
    && |source.hot| == |costs| && CountFits(LargestCount(d), source)
    && e == TrimmedEntry(source, LargestCount(d), costs)
    && b == BudgetOf(d, LargestCount(d))
    && Accounts(row, e, costs, s.experts, slots)
  }

  /** Everything a plan says. */
  ghost predicate Planned(p: Plan, i: Inputs, costs: seq<seq<nat>>, limit: int, s: Shape)
    requires ValidCosts(costs, s) && Ready(i, costs, limit, s)
  {
    var d0, d1, c := DemandOf(i, 0, costs, limit, s), DemandOf(i, 1, costs, limit, s), i.contract.settings.cache;
    && |p.ranks| == |p.memory| == |p.manifest| == 2 && d0.perExpert > 0 && d1.perExpert > 0
    && p.counts == CountsOf(i, costs, limit, s)
    && RankPlanned(p.ranks[0], p.memory[0], p.manifest[0], d0, i.source[0], costs[0], s, Physical(c, 0))
    && RankPlanned(p.ranks[1], p.memory[1], p.manifest[1], d1, i.source[1], costs[1], s, Physical(c, 1))
    && p.host == HostNeed(i.cal, p.memory[0].coldBytes + p.memory[1].coldBytes)
    && p.contract == i.contract && p.reference == IsReference(i) && p.baseline == i.cal.baselineCounts.Some?
  }

  /** The problems reported are those of the ranks that do not fit. */
  ghost predicate Reports(problems: seq<Problem>, d0: Demand, d1: Demand) {
    forall q :: q in problems <==> (!Fits(d0) && q == ProblemOf(0, d0)) || (!Fits(d1) && q == ProblemOf(1, d1))
  }

  /** Why a plan cannot even be attempted: the first of these that fails. */
  ghost predicate Unready(i: Inputs, costs: seq<seq<nat>>, limit: int, s: Shape, e: PlanError)
    requires ValidCosts(costs, s)
  {
    if !Allowed(i, s.experts) then e == NotAllowed
    else if |i.targets| != 2 then e == BadTargets
    else if !Trimmable(i.source, [1, 1], costs, s) || !CacheAllowed(i.contract.settings.cache, limit) then e.Unplaceable?
    else e == BadRanks
  }

  /** Why there is no plan: it cannot be attempted, a byte count is negative, the devices are too small, or the host is. */
  ghost predicate NoPlan(i: Inputs, costs: seq<seq<nat>>, limit: int, s: Shape, e: PlanError)
    requires ValidCosts(costs, s)
  {
    if !Ready(i, costs, limit, s) then Unready(i, costs, limit, s, e)
    else
      var d0, d1 := DemandOf(i, 0, costs, limit, s), DemandOf(i, 1, costs, limit, s);
      if !Nonnegative(d0) || !Nonnegative(d1) then e == NegativeBytes
      else if !Fits(d0) || !Fits(d1) then e.DoesNotFit? && Reports(e.problems, d0, d1)
      else if !HostKnown(i.cal, i.host) then e == NegativeBytes
      else e == HostTooSmall
  }

  method MakePlan(i: Inputs, costs: seq<seq<nat>>, limit: int, s: Shape) returns (r: Result<Plan, PlanError>)
    requires ValidCosts(costs, s) && s.layers > 0
    ensures r.Ok? <==> Ready(i, costs, limit, s) && Affordable(i, costs, limit, s)
                       && HostFits(i, ColdAt(CountsOf(i, costs, limit, s), costs, s.experts))
    ensures r.Ok? ==> Planned(r.value, i, costs, limit, s)
    ensures r.Err? ==> NoPlan(i, costs, limit, s, r.error)
  {
    var demands := Prepare(i, costs, limit, s);
    if demands.Err? { return Err(demands.error); }
    var tally := TallyRanks(demands.value);
    if tally.Err? { return Err(tally.error); }
    TallyReports(tally.value, demands.value);
    if tally.value.problems != [] { return Err(DoesNotFit(tally.value.problems)); }
    CountsCut(i, costs, limit, s);
    r := Finish(i, tally.value.counts, tally.value.budgets, costs, limit, s);
  }

  lemma TallyReports(t: Tally, d: seq<Demand>)
    requires |d| == 2 && Sane(d[0]) && Sane(d[1]) && Tallied(t, d)
    ensures Reports(t.problems, d[0], d[1])
    ensures t.problems == [] <==> Fits(d[0]) && Fits(d[1])
  {
    LargestCountFits(d[0], 1);
    LargestCountFits(d[1], 1);
    if !Fits(d[0]) { assert ProblemOf(0, d[0]) in t.problems; }
    if !Fits(d[1]) { assert ProblemOf(1, d[1]) in t.problems; }
    if t.problems != [] { assert t.problems[0] in t.problems; }
  }

  method Prepare(i: Inputs, costs: seq<seq<nat>>, limit: int, s: Shape) returns (r: Result<seq<Demand>, PlanError>)
    requires ValidCosts(costs, s) && s.layers > 0
    ensures r.Ok? <==> Ready(i, costs, limit, s)
    ensures r.Ok? ==> r.value == [DemandOf(i, 0, costs, limit, s), DemandOf(i, 1, costs, limit, s)]
                      && Sane(r.value[0]) && Sane(r.value[1])
    ensures r.Err? ==> Unready(i, costs, limit, s, r.error)
  {
    if !Allowed(i, s.experts) { return Err(NotAllowed); }
    if |i.targets| != 2 { return Err(BadTargets); }
    var minimum := Trim(i.source, [1, 1], costs, s);
    if minimum.Err? { return Err(Unplaceable(minimum.error)); }
    var m := minimum.value.manifest;
    MinimumAccountable(i.source, m, i.contract.settings.cache, limit, costs, s);
    var least := ExpertMemory(m, i.contract.settings.cache, limit, costs, s);
    if least.Err? { return Err(Unplaceable(least.error)); }
    if |i.cal.ranks| != 2 || |i.contract.devices| < 2 { return Err(BadRanks); }
    MinimumWeighsOne(i, 0, m, least.value[0], costs, limit, s);
    MinimumWeighsOne(i, 1, m, least.value[1], costs, limit, s);
    DemandSane(i, 0, costs, limit, s);
    DemandSane(i, 1, costs, limit, s);
    r := Ok([Offer(i, 0, least.value[0]), Offer(i, 1, least.value[1])]);
  }

  /** The demand of one rank, from its one-expert accounting. */
  function Offer(i: Inputs, rank: nat, least: Memory): Demand
    requires rank < 2 && |i.contract.devices| >= 2 && |i.targets| == |i.cal.ranks| == |i.source| == 2
    requires i.source[rank].hot != []
    requires i.cal.baselineCounts.Some? ==> |i.cal.baselineCounts.value| == 2
  {
    var prefix := Shortest(i.source[rank].hot);
    Demand(i.contract.devices[rank], i.targets[rank], i.cal.ranks[rank], least.cacheBytes, least.hotBytes,
           if i.cal.baselineCounts.Some? then Min(prefix, i.cal.baselineCounts.value[rank]) else prefix)
  }

  lemma MinimumAccountable(source: seq<Entry>, m: seq<Entry>, c: Cache, limit: int, costs: seq<seq<nat>>, s: Shape)
    requires ValidCosts(costs, s) && Trimmable(source, [1, 1], costs, s) && m == TrimmedTo(source, [1, 1], costs, s)
    ensures Accountable(m, c, limit, costs, s) <==> CacheAllowed(c, limit)
  {
    TrimmedIsValid(source[0], 1, costs[0], s);
    TrimmedIsValid(source[1], 1, costs[1], s);
  }

  method Finish(i: Inputs, counts: seq<int>, budgets: seq<Budget>, costs: seq<seq<nat>>, limit: int, s: Shape)
    returns (r: Result<Plan, PlanError>)
    requires ValidCosts(costs, s) && Ready(i, costs, limit, s) && Affordable(i, costs, limit, s)
    requires counts == CountsOf(i, costs, limit, s) && Trimmable(i.source, counts, costs, s)
    requires DemandOf(i, 0, costs, limit, s).perExpert > 0 && DemandOf(i, 1, costs, limit, s).perExpert > 0
    requires budgets == [BudgetOf(DemandOf(i, 0, costs, limit, s), counts[0]),
                         BudgetOf(DemandOf(i, 1, costs, limit, s), counts[1])]
    ensures r.Ok? <==> HostFits(i, ColdAt(counts, costs, s.experts))
    ensures r.Ok? ==> Planned(r.value, i, costs, limit, s)
    ensures r.Err? ==> r.error == if HostKnown(i.cal, i.host) then HostTooSmall else NegativeBytes
  {
    var m, memory := CutAndWeigh(i.source, counts, i.contract.settings.cache, costs, limit, s);
    if !HostKnown(i.cal, i.host) { return Err(NegativeBytes); }
    var extra := memory[0].coldBytes + memory[1].coldBytes - i.cal.referenceCold;
    var need := i.cal.startup + Max(0, extra) + i.cal.reserve;
    if i.host < need { return Err(HostTooSmall); }
    r := Ok(Plan(i.contract, counts, budgets, memory, need, m, IsReference(i), i.cal.baselineCounts.Some?));
  }

  /** One rank's cut and its accounting. */
  ghost predicate CutRank(e: Entry, row: Memory, source: Entry, n: int, costs: seq<nat>, s: Shape, slots: nat) {
    && |source.hot| == |costs| && CountFits(n, source) && n <= s.experts
    && e == TrimmedEntry(source, n, costs) && Accounts(row, e, costs, s.experts, slots)
    && row.coldBytes == (s.experts - n) * Sum(costs)
  }

  method CutAndWeigh(source: seq<Entry>, counts: seq<int>, c: Cache, costs: seq<seq<nat>>, limit: int, s: Shape)
    returns (m: seq<Entry>, memory: seq<Memory>)
    requires ValidCosts(costs, s) && s.layers > 0 && Trimmable(source, counts, costs, s) && CacheAllowed(c, limit)
    ensures |m| == |memory| == 2
    ensures CutRank(m[0], memory[0], source[0], counts[0], costs[0], s, Physical(c, 0))
    ensures CutRank(m[1], memory[1], source[1], counts[1], costs[1], s, Physical(c, 1))
  {
    var cut := Trim(source, counts, costs, s);
    m := cut.value.manifest;
    CutAccountable(source, counts, m, c, limit, costs, s);
    var rows := ExpertMemory(m, c, limit, costs, s);
    memory := rows.value;
    ColdOfCut(memory[0], source[0], counts[0], costs[0], s, Physical(c, 0));
    ColdOfCut(memory[1], source[1], counts[1], costs[1], s, Physical(c, 1));
  }

  lemma CutAccountable(source: seq<Entry>, counts: seq<int>, m: seq<Entry>, c: Cache, limit: int, costs: seq<seq<nat>>, s: Shape)
    requires ValidCosts(costs, s) && Trimmable(source, counts, costs, s) && m == TrimmedTo(source, counts, costs, s)
    requires CacheAllowed(c, limit)
    ensures Accountable(m, c, limit, costs, s)
  {
    TrimmedIsValid(source[0], counts[0], costs[0], s);
    TrimmedIsValid(source[1], counts[1], costs[1], s);
  }

  lemma ColdOfCut(row: Memory, source: Entry, n: nat, costs: seq<nat>, s: Shape, slots: nat)
    requires |source.hot| == |costs| && CountFits(n, source)
    requires Accounts(row, TrimmedEntry(source, n, costs), costs, s.experts, slots)
    ensures n <= s.experts && row.hotBytes == n * Sum(costs) && row.coldBytes == (s.experts - n) * Sum(costs)
    ensures row.cacheBytes == slots * Sum(costs)
  {
    var t := TrimmedEntry(source, n, costs);
    assert |t.hot[0]| == n;
    UniformWeight(Lengths(t.hot), costs, n);
    UniformWeight(Rest(Lengths(t.hot), s.experts), costs, s.experts - n);
  }

  // ---------------------------------------------------------------- before launch

  datatype Stop = StalePlan | ContentsChanged | HostFell | ExternalGrew(rank: nat)

  /** Other programs' share of a device. */
  function External(contract: Contract, free: seq<int>, rank: nat): int
    requires rank < |contract.devices| && rank < |free|
  {
    contract.devices[rank] - free[rank]
  }

  function CheckPlan(p: Plan, manifest: seq<Entry>, contract: Contract, host: int, free: seq<int>): Option<Stop>
    requires |p.ranks| == 2 && |p.contract.devices| >= 2 && |free| >= 2
  {
    if p.contract != contract then Some(StalePlan)
    else if p.manifest != manifest then Some(ContentsChanged)
    else if host < p.host then Some(HostFell)
    else if External(contract, free, 0) > p.ranks[0].envelope.external then Some(ExternalGrew(0))
    else if External(contract, free, 1) > p.ranks[1].envelope.external then Some(ExternalGrew(1))
    else None
  }

  /** A launch that passes the check, and needs no more than the measured peak besides experts, keeps the
      target and the transient margin free on both ranks, and the reserve free on the host. The cache holds its slots
      on each of its ranks, and one more when it loads in the background. */
  lemma LaunchKeepsHeadroom(p: Plan, i: Inputs, manifest: seq<Entry>, contract: Contract, host: int, free: seq<int>,
                            nonExpert: int, rank: nat, costs: seq<seq<nat>>, limit: int, s: Shape)
    requires ValidCosts(costs, s) && Ready(i, costs, limit, s) && Affordable(i, costs, limit, s)
    requires Planned(p, i, costs, limit, s) && |free| >= 2 && rank < 2
    requires CheckPlan(p, manifest, contract, host, free) == None && nonExpert <= i.cal.ranks[rank].peak
    ensures |manifest| == 2 && |manifest[rank].hot| == |costs[rank]|
    ensures var c := contract.settings.cache;
            var slots := if rank !in c.ranks then 0 else if c.asynchronous && c.slots > 0 then c.slots + 1 else c.slots;
            free[rank] - nonExpert - Weight(Lengths(manifest[rank].hot), costs[rank]) - slots * Sum(costs[rank])
            >= i.targets[rank] + i.cal.ranks[rank].margin
    ensures host - i.cal.startup - Max(0, p.memory[0].coldBytes + p.memory[1].coldBytes - i.cal.referenceCold)
            >= i.cal.reserve
  {
    var d := DemandOf(i, rank, costs, limit, s);
    PlannedRankFits(p, i, rank, costs, limit, s);
    assert External(contract, free, rank) <= d.envelope.external;
    LoadedFits(free[rank], d, nonExpert, Weight(Lengths(p.manifest[rank].hot), costs[rank]), d.cache);
  }

  /** A planned rank weighs what leaves its target free. */
  lemma PlannedRankFits(p: Plan, i: Inputs, rank: nat, costs: seq<seq<nat>>, limit: int, s: Shape)
    requires ValidCosts(costs, s) && Ready(i, costs, limit, s) && Planned(p, i, costs, limit, s) && rank < 2
    ensures |p.manifest| == 2 && |p.manifest[rank].hot| == |costs[rank]|
    ensures var d := DemandOf(i, rank, costs, limit, s);
            d.capacity - d.envelope.peak - d.envelope.external - d.envelope.margin - d.cache
            - Weight(Lengths(p.manifest[rank].hot), costs[rank]) >= d.target
  {
    var d := DemandOf(i, rank, costs, limit, s);
    DemandSane(i, rank, costs, limit, s);
    LargestCountFits(d, LargestCount(d));
    ColdOfCut(p.memory[rank], i.source[rank], LargestCount(d), costs[rank], s, Physical(i.contract.settings.cache, rank));
  }

  lemma LoadedFits(free: int, d: Demand, nonExpert: int, hot: int, cache: int)
    requires d.capacity - free <= d.envelope.external && nonExpert <= d.envelope.peak && cache == d.cache
    requires d.capacity - d.envelope.peak - d.envelope.external - d.envelope.margin - d.cache - hot >= d.target
    ensures free - nonExpert - hot - cache >= d.target + d.envelope.margin
  {
  }

  /** When nothing but the other programs' memory has changed, the check turns on their allowance alone. */
  lemma UnchangedPlanPasses(p: Plan, i: Inputs, free: seq<int>, costs: seq<seq<nat>>, limit: int, s: Shape)
    requires ValidCosts(costs, s) && Ready(i, costs, limit, s) && Planned(p, i, costs, limit, s)
    requires HostFits(i, ColdAt(CountsOf(i, costs, limit, s), costs, s.experts)) && |free| >= 2
    ensures CheckPlan(p, p.manifest, i.contract, i.host, free) == None
            <==> External(i.contract, free, 0) <= i.cal.ranks[0].external
                 && External(i.contract, free, 1) <= i.cal.ranks[1].external
  {
    var c, counts := i.contract.settings.cache, CountsOf(i, costs, limit, s);
    ColdOfCut(p.memory[0], i.source[0], counts[0], costs[0], s, Physical(c, 0));
    ColdOfCut(p.memory[1], i.source[1], counts[1], costs[1], s, Physical(c, 1));
  }

  /** A plan made from an envelope moved to this host passes until another program takes more than the
      allowance on top of what it had. */
  lemma LocalizedPlanPasses(p: Plan, i: Inputs, external: seq<int>, free: seq<int>, costs: seq<seq<nat>>, limit: int, s: Shape)
    requires ValidCosts(costs, s) && Ready(i, costs, limit, s) && Planned(p, i, costs, limit, s)
    requires HostFits(i, ColdAt(CountsOf(i, costs, limit, s), costs, s.experts)) && |free| >= 2 && |external| == 2
    requires i.cal.ranks[0].external == external[0] + VARIABILITY && i.cal.ranks[1].external == external[1] + VARIABILITY
    ensures CheckPlan(p, p.manifest, i.contract, i.host, free) == None
            <==> External(i.contract, free, 0) - external[0] <= 256 * MIB
                 && External(i.contract, free, 1) - external[1] <= 256 * MIB
  {
    UnchangedPlanPasses(p, i, free, costs, limit, s);
  }

  /** A plan over a ranked catalog keeps hot, in every layer, experts that no other choice of as many beats on
      the training counts. */
  lemma PlanKeepsBest(p: Plan, i: Inputs, rank: nat, l: nat, rows: seq<seq<int>>, other: seq<int>,
                      costs: seq<seq<nat>>, limit: int, s: Shape)
    requires ValidCosts(costs, s) && Ready(i, costs, limit, s) && Planned(p, i, costs, limit, s)
    requires rank < 2 && l < |rows| == |i.source[rank].hot| && i.source[rank].hot[l] == Ranked(rows[l])
    requires Chosen(other, |rows[l]|) && |other| == p.counts[rank]
    ensures Total(rows[l], other) <= Total(rows[l], p.manifest[rank].hot[l])
  {
    CutKeepsBest(i.source[rank], rows, p.counts[rank], l, other);
  }
}
