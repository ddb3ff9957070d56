/** What a workload needs besides experts: measured from telemetry, or carried over from another host. */
module MemoryEnvelope {
  import opened Results
  import opened Placement

  const MIB: int := 1024 * 1024
  const VARIABILITY: int := 256 * MIB
  const TRANSIENT: int := 512 * MIB
  const HOST_RESERVE: int := 4 * 1024 * MIB

  /** Settings, split into those that vary by installation and those that describe the workload. */
  datatype Settings = Settings(cache: Cache, workload: map<string, string>, portable: map<string, string>)

  /** What a measurement holds for. Digests are identities, devices are their capacities in bytes. */
  datatype Contract = Contract(settings: Settings, source: int, devices: seq<int>, driver: string)

  datatype Envelope = Envelope(peak: int, external: int, margin: int)

  datatype Calibration = Calibration(
    contract: Contract, ranks: seq<Envelope>, referenceCold: int, startup: int, reserve: int,
    evidence: bool, workloadPassed: bool, reference: bool, baselineCounts: Option<seq<int>>)

  datatype Gpu = Gpu(total: int, free: int)
  datatype Sample = Sample(gpus: seq<Gpu>, host: int)
  datatype MeasureError = NoSamples | TelemetryChanged | ObservedExceedsCapacity | NotQualified | SeedMismatch | NotTwoGpus | BadExternal

  function Max(a: int, b: int): int { if a >= b then a else b }

  function Min(a: int, b: int): int { if a <= b then a else b }

  predicate SteadyGpus(gpus: seq<Gpu>, first: seq<Gpu>) {
    |gpus| == |first| == 2
    && gpus[0].total == first[0].total && 0 <= gpus[0].free <= gpus[0].total
    && gpus[1].total == first[1].total && 0 <= gpus[1].free <= gpus[1].total
  }

  /** Two devices, with the capacities of the first sample throughout. */
  predicate Steady(samples: seq<Sample>) {
    samples != [] && forall i :: 0 <= i < |samples| ==> SteadyGpus(samples[i].gpus, samples[0].gpus)
  }

  /** Telemetry is steady when every sample lists two devices of the first sample's capacities, each with no more free
      than it has. */
  lemma SteadyIff(samples: seq<Sample>)
    ensures Steady(samples) <==>
            samples != [] && forall i :: 0 <= i < |samples| ==>
              && |samples[i].gpus| == |samples[0].gpus| == 2
              && samples[i].gpus[0].total == samples[0].gpus[0].total && samples[i].gpus[1].total == samples[0].gpus[1].total
              && samples[i].gpus[0].free >= 0 && samples[i].gpus[0].free <= samples[0].gpus[0].total
              && samples[i].gpus[1].free >= 0 && samples[i].gpus[1].free <= samples[0].gpus[1].total
  {
  }

  function Frees(samples: seq<Sample>, rank: nat): (f: seq<int>)
    requires Steady(samples) && rank < 2
    ensures |f| == |samples|
  {
    seq(|samples|, i requires 0 <= i < |samples| => samples[i].gpus[rank].free)
  }

  function Hosts(samples: seq<Sample>): (f: seq<int>)
    ensures |f| == |samples|
  {
    seq(|samples|, i requires 0 <= i < |samples| => samples[i].host)
  }

  function Minimum(s: seq<int>): (m: int)
    requires s != []
    ensures m in s && forall i :: 0 <= i < |s| ==> m <= s[i]
  {
    if |s| == 1 then s[0] else Min(s[0], Minimum(s[1..]))
  }

  /** The expert bytes that were resident on a rank. */
  function Payload(row: Memory): int { row.hotBytes + row.cacheBytes }

  function EnvelopeOf(g: Gpu, lowest: int, payload: int): Envelope {
    var external := g.total - g.free;
    Envelope(Max(0, g.total - lowest - external - payload), external + VARIABILITY, TRANSIENT)
  }

  /** The lowest free memory seen on a rank, by telemetry or by the workload's own sampler. */
  function Lowest(samples: seq<Sample>, observed: Option<seq<int>>, rank: nat): int
    requires Steady(samples) && rank < 2 && (observed.Some? ==> |observed.value| == 2)
  {
    var low := Minimum(Frees(samples, rank));
    if observed.Some? then Min(low, observed.value[rank]) else low
  }

  predicate ObservedFits(samples: seq<Sample>, observed: Option<seq<int>>)
    requires Steady(samples) && (observed.Some? ==> |observed.value| == 2)
  {
    observed.Some? ==> observed.value[0] <= samples[0].gpus[0].total && observed.value[1] <= samples[0].gpus[1].total
  }

  /** Turns the samples of a run, the first of them idle, into an envelope. A capacity baseline also has the
      sampler's own lowest readings, and the measured counts. */
  method Calibrate(memory: seq<Memory>, samples: seq<Sample>, contract: Contract, observed: Option<seq<int>>,
                   counts: seq<int>) returns (r: Result<Calibration, MeasureError>)
    requires |memory| == 2 && (observed.Some? ==> |observed.value| == 2)
    ensures r.Ok? <==> Steady(samples) && (observed == None || (observed.value[0] <= samples[0].gpus[0].total
                                                               && observed.value[1] <= samples[0].gpus[1].total))
    ensures r.Ok? ==> |r.value.ranks| == 2 && Measured(r.value.ranks[0], samples, observed, memory[0], 0)
                      && Measured(r.value.ranks[1], samples, observed, memory[1], 1)
    ensures r.Ok? ==> LargestDrop(r.value.startup, samples)
    ensures r.Err? ==> r.error == if samples == [] then NoSamples else if !Steady(samples) then TelemetryChanged
                                  else ObservedExceedsCapacity
    ensures r.Ok? ==> LeastEnvelope(r.value.ranks[0], samples, observed, 0, memory[0].hotBytes + memory[0].cacheBytes)
                      && LeastEnvelope(r.value.ranks[1], samples, observed, 1, memory[1].hotBytes + memory[1].cacheBytes)
    ensures r.Ok? ==> r.value.reserve == 4294967296
    ensures r.Ok? ==> r.value.referenceCold == memory[0].coldBytes + memory[1].coldBytes && r.value.contract == contract
    ensures r.Ok? ==> r.value.workloadPassed == observed.None?
                      && r.value.baselineCounts == if observed.Some? then Some(counts) else None
  {
    if samples == [] { return Err(NoSamples); }
    if !Steady(samples) { return Err(TelemetryChanged); }
    var ranks := MeasuredRanks(memory, samples);
    var startup := StartUp(samples);
    if observed.Some? {
      if !ObservedFits(samples, observed) { return Err(ObservedExceedsCapacity); }
      ranks := RaisedRanks(memory, samples, ranks, observed.value);
    }
    BothLeast(ranks, samples, observed, memory);
    r := Ok(Calibration(contract, ranks, memory[0].coldBytes + memory[1].coldBytes, startup, HOST_RESERVE, true,
                        observed.None?, false, if observed.Some? then Some(counts) else None));
  }

  /** The largest fall of available host memory below the first sample. */
  ghost predicate LargestDrop(drop: int, samples: seq<Sample>) {
    && drop >= 0 && (forall i :: 0 <= i < |samples| ==> samples[0].host - samples[i].host <= drop)
    && exists i :: 0 <= i < |samples| && drop == samples[0].host - samples[i].host
  }

  method StartUp(samples: seq<Sample>) returns (drop: int)
    requires samples != []
    ensures LargestDrop(drop, samples)
  {
    ghost var low := Minimum(Hosts(samples));
    drop := Max(0, samples[0].host - Minimum(Hosts(samples)));
    assert forall i :: 0 <= i < |samples| ==> Hosts(samples)[i] == samples[i].host;
    ghost var k: int :| 0 <= k < |samples| && Hosts(samples)[k] == low;
  }

  ghost predicate Measured(e: Envelope, samples: seq<Sample>, observed: Option<seq<int>>, row: Memory, rank: nat)
    requires Steady(samples) && rank < 2 && (observed.Some? ==> |observed.value| == 2)
  {
    e == EnvelopeOf(samples[0].gpus[rank], Lowest(samples, observed, rank), Payload(row))
  }

  /** The reading leaves this many bytes unexplained by idle use and the experts. */
  function Unexplained(g: Gpu, free: int, payload: int): int { (g.total - free) - (g.total - g.free) - payload }

  /** The envelope of a rank in terms of the readings: the peak covers what every reading leaves unexplained, and is zero
      or just what one of them does; idle use is allowed 256 MiB more, and 512 MiB are kept for transients. */
  ghost predicate LeastEnvelope(e: Envelope, samples: seq<Sample>, observed: Option<seq<int>>, rank: nat, payload: int)
    requires Steady(samples) && rank < 2 && (observed.Some? ==> |observed.value| == 2)
  {
    var g := samples[0].gpus[rank];
    && e.external == g.total - g.free + 268435456 && e.margin == 536870912 && e.peak >= 0
    && (forall i :: 0 <= i < |samples| ==> Unexplained(g, samples[i].gpus[rank].free, payload) <= e.peak)
    && (observed.Some? ==> Unexplained(g, observed.value[rank], payload) <= e.peak)
    && (e.peak == 0 || (observed.Some? && e.peak == Unexplained(g, observed.value[rank], payload))
        || exists i :: 0 <= i < |samples| && e.peak == Unexplained(g, samples[i].gpus[rank].free, payload))
  }

  lemma MeasuredIsLeast(e: Envelope, samples: seq<Sample>, observed: Option<seq<int>>, row: Memory, rank: nat)
    requires Steady(samples) && rank < 2 && (observed.Some? ==> |observed.value| == 2)
    requires Measured(e, samples, observed, row, rank)
    ensures LeastEnvelope(e, samples, observed, rank, Payload(row))
  {
    var g, low := samples[0].gpus[rank], Minimum(Frees(samples, rank));
    forall i | 0 <= i < |samples| ensures low <= samples[i].gpus[rank].free {
      assert Frees(samples, rank)[i] == samples[i].gpus[rank].free;
    }
    var k :| 0 <= k < |samples| && Frees(samples, rank)[k] == low;
    assert Unexplained(g, samples[k].gpus[rank].free, Payload(row)) == Unexplained(g, low, Payload(row));
  }

  lemma BothLeast(ranks: seq<Envelope>, samples: seq<Sample>, observed: Option<seq<int>>, memory: seq<Memory>)
    requires Steady(samples) && (observed.Some? ==> |observed.value| == 2) && |ranks| == |memory| == 2
    requires Measured(ranks[0], samples, observed, memory[0], 0) && Measured(ranks[1], samples, observed, memory[1], 1)
    ensures LeastEnvelope(ranks[0], samples, observed, 0, Payload(memory[0]))
    ensures LeastEnvelope(ranks[1], samples, observed, 1, Payload(memory[1]))
  {
    MeasuredIsLeast(ranks[0], samples, observed, memory[0], 0);
    MeasuredIsLeast(ranks[1], samples, observed, memory[1], 1);
  }

  method MeasuredRanks(memory: seq<Memory>, samples: seq<Sample>) returns (ranks: seq<Envelope>)
    requires |memory| == 2 && Steady(samples)
    ensures |ranks| == 2 && Measured(ranks[0], samples, None, memory[0], 0) && Measured(ranks[1], samples, None, memory[1], 1)
  {
    ranks := [];
    for rank := 0 to 2
      invariant |ranks| == rank && forall k :: 0 <= k < rank ==> Measured(ranks[k], samples, None, memory[k], k)
    {
      var total := samples[0].gpus[rank].total;
      var external := total - samples[0].gpus[rank].free;
      var peakUsed := total - Minimum(Frees(samples, rank));
      ranks := ranks + [Envelope(Max(0, peakUsed - external - Payload(memory[rank])), external + VARIABILITY, TRANSIENT)];
    }
  }

  /** The workload's sampler may have seen less free memory than the samples did. */
  method RaisedRanks(memory: seq<Memory>, samples: seq<Sample>, measured: seq<Envelope>, observed: seq<int>)
    returns (ranks: seq<Envelope>)
    requires |memory| == |observed| == |measured| == 2 && Steady(samples)
    requires Measured(measured[0], samples, None, memory[0], 0) && Measured(measured[1], samples, None, memory[1], 1)
    ensures |ranks| == 2
    ensures Measured(ranks[0], samples, Some(observed), memory[0], 0)
    ensures Measured(ranks[1], samples, Some(observed), memory[1], 1)
  {
    ranks := measured;
    for rank := 0 to 2
      invariant |ranks| == 2
      invariant forall k :: 0 <= k < rank ==>
                  ranks[k] == Raised(measured[k], samples[0].gpus[k], observed[k], Payload(memory[k]))
      invariant forall k :: rank <= k < 2 ==> ranks[k] == measured[k]
    {
      ranks := ranks[rank := Raised(ranks[rank], samples[0].gpus[rank], observed[rank], Payload(memory[rank]))];
    }
    RaisedMeasures(measured[0], samples, observed, memory[0], 0);
    RaisedMeasures(measured[1], samples, observed, memory[1], 1);
  }

  function Raised(e: Envelope, g: Gpu, free: int, payload: int): Envelope {
    var external := g.total - g.free;
    e.(peak := Max(e.peak, g.total - free - external - payload))
  }

  lemma RaisedMeasures(e: Envelope, samples: seq<Sample>, observed: seq<int>, row: Memory, rank: nat)
    requires Steady(samples) && rank < 2 && |observed| == 2 && Measured(e, samples, None, row, rank)
    ensures Measured(Raised(e, samples[0].gpus[rank], observed[rank], Payload(row)), samples, Some(observed), row, rank)
  {
  }

  /** A free reading is explained by idle use, the experts and the peak. */
  predicate Explains(g: Gpu, free: int, payload: int, peak: int) {
    g.total - free <= (g.total - g.free) + payload + peak
  }

  /** The peak is the least that explains every reading down to the lowest. */
  lemma PeakExplainsReadings(g: Gpu, lowest: int, payload: int, free: int, peak: int)
    requires free >= lowest
    ensures EnvelopeOf(g, lowest, payload).peak >= 0
    ensures Explains(g, free, payload, EnvelopeOf(g, lowest, payload).peak)
    ensures peak >= 0 && Explains(g, lowest, payload, peak) ==> peak >= EnvelopeOf(g, lowest, payload).peak
  {
  }

  /** What a plan would estimate as free with this payload in place. */
  function Estimate(total: int, e: Envelope, payload: int): int { total - e.peak - e.external - e.margin - payload }

  /** The estimate for the measured placement stays below everything measured by both allowances, and by
      exactly that much unless the experts and idle use alone explain the peak. */
  lemma EstimateBelowMeasured(samples: seq<Sample>, observed: Option<seq<int>>, rank: nat, payload: int)
    requires Steady(samples) && rank < 2 && (observed.Some? ==> |observed.value| == 2)
    ensures var g := samples[0].gpus[rank];
            var e := EnvelopeOf(g, Lowest(samples, observed, rank), payload);
            && (forall i :: 0 <= i < |samples| ==> Estimate(g.total, e, payload) <= samples[i].gpus[rank].free - 768 * MIB)
            && (observed.Some? ==> Estimate(g.total, e, payload) <= observed.value[rank] - 768 * MIB)
            && (e.peak > 0 ==> Estimate(g.total, e, payload) == Lowest(samples, observed, rank) - 768 * MIB)
  {
    forall i | 0 <= i < |samples| ensures Lowest(samples, observed, rank) <= samples[i].gpus[rank].free {
      assert Frees(samples, rank)[i] == samples[i].gpus[rank].free;
    }
  }

  // ---------------------------------------------------------------- moving an envelope to another host

  predicate SameWork(a: Contract, b: Contract) {
    a.settings.cache == b.settings.cache && a.settings.workload == b.settings.workload && a.source == b.source
  }

  predicate UsedFits(capacity: int, used: int) { capacity > 0 && 0 <= used < capacity }

  method Localize(seed: Calibration, placementQualified: bool, contract: Contract, external: seq<int>)
    returns (r: Result<Calibration, MeasureError>)
    requires |seed.ranks| == 2
    ensures r.Ok? <==>
            && seed.workloadPassed && placementQualified && seed.contract.source == contract.source
            && seed.contract.settings.cache == contract.settings.cache
            && seed.contract.settings.workload == contract.settings.workload
            && |external| == 2 && |contract.devices| == 2
            && contract.devices[0] > 0 && 0 <= external[0] < contract.devices[0]
            && contract.devices[1] > 0 && 0 <= external[1] < contract.devices[1]
    ensures r.Err? ==> r.error == if !seed.workloadPassed || !placementQualified then NotQualified
                                  else if !SameWork(seed.contract, contract) then SeedMismatch
                                  else if |external| != 2 || |contract.devices| != 2 then NotTwoGpus else BadExternal
    ensures r.Ok? ==>
              r.value == seed.(contract := contract, workloadPassed := false, reference := true,
                               ranks := [seed.ranks[0].(external := external[0] + VARIABILITY),
                                         seed.ranks[1].(external := external[1] + VARIABILITY)])
  {
    if !seed.workloadPassed || !placementQualified { return Err(NotQualified); }
    if !SameWork(seed.contract, contract) { return Err(SeedMismatch); }
    if |external| != 2 || |contract.devices| != 2 { return Err(NotTwoGpus); }
    var result := seed.(contract := contract, workloadPassed := false, reference := true);
    for rank := 0 to 2
      invariant result == seed.(contract := contract, workloadPassed := false, reference := true, ranks := result.ranks)
      invariant |result.ranks| == 2
      invariant forall k :: 0 <= k < rank ==> UsedFits(contract.devices[k], external[k])
      invariant forall k :: 0 <= k < 2 ==>
                  result.ranks[k] == if k < rank then seed.ranks[k].(external := external[k] + VARIABILITY)
                                     else seed.ranks[k]
    {
      if !UsedFits(contract.devices[rank], external[rank]) { return Err(BadExternal); }
      result := result.(ranks := result.ranks[rank := result.ranks[rank].(external := external[rank] + VARIABILITY)]);
    }
    r := Ok(result);
  }
}
