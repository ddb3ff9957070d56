/** What the stall tracker reports, in terms of the observed fields. */
module CaptureMeaning {
  import opened Results
  import opened CaptureTrackers

  /** A running container whose metrics were read, with requests in work or waiting and a token count. */
  predicate Working(o: Observation) {
    && o.container.status.Some? && o.container.status.value == "running"
    && !o.metrics.failed && o.metrics.generated.Some?
    && (o.metrics.running + o.metrics.waiting > 0)
  }

  /** No token counter moved, and the workers that count steps are the same with the same counts. */
  ghost predicate NothingMoved(p: Observation, o: Observation) {
    && p.metrics.generated == o.metrics.generated && p.metrics.prompted == o.metrics.prompted
    && p.metrics.succeeded == o.metrics.succeeded && SameSteps(p.workers, o.workers)
  }

  /** Leaving workers without a count aside, the lists agree. */
  ghost predicate SameSteps(a: seq<Worker>, b: seq<Worker>) {
    if a != [] && a[0].steps.None? then SameSteps(a[1..], b)
    else if b != [] && b[0].steps.None? then SameSteps(a, b[1..])
    else if a == [] || b == [] then a == [] && b == []
    else a[0] == b[0] && SameSteps(a[1..], b[1..])
  }

  /** Both containers are known, and they are not the same one at the same start. */
  predicate Replaces(p: Container, o: Container) {
    && p.identity.id.Some? && p.identity.id.value != "" && o.identity.id.Some? && o.identity.id.value != ""
    && p.identity != o.identity
  }

  lemma {:induction false} SameStepsIff(a: seq<Worker>, b: seq<Worker>)
    ensures SameSteps(a, b) <==> Counting(a) == Counting(b)
    decreases |a| + |b|
  {
    if a != [] && a[0].steps.None? {
      SameStepsIff(a[1..], b);
    } else if b != [] && b[0].steps.None? {
      SameStepsIff(a, b[1..]);
    } else if a != [] && b != [] {
      SameStepsIff(a[1..], b[1..]);
      assert Counting(a) == [a[0]] + Counting(a[1..]) && Counting(b) == [b[0]] + Counting(b[1..]);
      assert Counting(a)[1..] == Counting(a[1..]) && Counting(b)[1..] == Counting(b[1..]);
    } else if a != [] {
      assert Counting(a) == [a[0]] + Counting(a[1..]);
    } else if b != [] {
      assert Counting(b) == [b[0]] + Counting(b[1..]);
    }
  }

  /** Of two observations, the second reports a stall exactly when both show work, nothing moved between them, the
      container was not replaced, and the patience has passed. */
  lemma StallOfTwo(p: Observation, o: Observation, patience: int)
    ensures PossibleStall in EventsOf(Run([p]), o, patience)
            <==> Working(p) && Working(o) && NothingMoved(p, o) && !Replaces(p.container, o.container)
                 && o.now - p.now >= patience
  {
    assert [p][..0] == [] && Run([p]) == Step(FRESH, p);
    SameStepsIff(p.workers, o.workers);
    ReportedIff(Run([p]), o, patience);
  }

  /** In a whole run, what moved since the last observation is no stall: a token counter, or a worker's steps. */
  lemma MovedIsNoStall(h: seq<Observation>, o: Observation, patience: int)
    requires h != [] && !NothingMoved(h[|h| - 1], o)
    ensures PossibleStall !in EventsOf(Run(h), o, patience)
  {
    RunTracks(h);
    SameStepsIff(h[|h| - 1].workers, o.workers);
    ReportedIff(Run(h), o, patience);
  }

  /** A worker whose step count changed has moved. */
  lemma {:induction false} AdvancingWorker(a: seq<Worker>, k: nat, steps: int)
    requires k < |a| && a[k].steps.Some? && a[k].steps != Some(steps)
    ensures !SameSteps(a, a[k := Worker(a[k].rank, Some(steps))])
  {
    CountChanges(a, k, steps);
    SameStepsIff(a, a[k := Worker(a[k].rank, Some(steps))]);
  }

  lemma {:induction false} CountChanges(a: seq<Worker>, k: nat, steps: int)
    requires k < |a| && a[k].steps.Some? && a[k].steps != Some(steps)
    ensures Counting(a) != Counting(a[k := Worker(a[k].rank, Some(steps))])
  {
    var b := a[k := Worker(a[k].rank, Some(steps))];
    if k == 0 {
      assert Counting(a)[0] == a[0] && Counting(b)[0] == b[0];
    } else {
      CountChanges(a[1..], k - 1, steps);
      assert b[1..] == a[1..][k - 1 := Worker(a[k].rank, Some(steps))];
      CountingTail(a);
      CountingTail(b);
    }
  }

  lemma CountingTail(a: seq<Worker>)
    requires a != []
    ensures if a[0].steps.Some? then Counting(a) != [] && Counting(a)[1..] == Counting(a[1..])
            else Counting(a) == Counting(a[1..])
  {
  }

  /** Without work there is no stall, however long. */
  lemma IdleIsNoStall(h: seq<Observation>, o: Observation, patience: int)
    requires !Working(o)
    ensures PossibleStall !in EventsOf(Run(h), o, patience)
  {
    ReportedIff(Run(h), o, patience);
  }

  /** What each observation says by itself. */
  lemma NoticesMean(t: Tracker, o: Observation, patience: int, s: string)
    ensures var events := EventsOf(t, o, patience);
            && (Ended(s) in events <==> o.container.status == Some(s) && s in {"exited", "dead", "restarting", "paused"})
            && (OomKilled in events <==> o.container.oomKilled)
            && (InspectUnavailable in events <==> o.container.failed)
            && (MetricsUnavailable in events <==> o.metrics.failed)
  {
    EndedMeans(o.container, s);
    assert Ended(s) in Notices(o) <==> Ended(s) in EndedOf(o.container);
  }

  lemma EndedMeans(c: Container, s: string)
    ensures Ended(s) in EndedOf(c) <==> c.status == Some(s) && s in {"exited", "dead", "restarting", "paused"}
  {
  }

  /** A replacement is reported when the container is known and differs from the last known one. */
  lemma ReplacedMeans(h: seq<Observation>, p: Observation, o: Observation, patience: int)
    requires p.container.identity.id.Some? && p.container.identity.id.value != ""
    ensures Replaced in EventsOf(Run(h + [p]), o, patience) <==> Replaces(p.container, o.container)
  {
    assert (h + [p])[..|h|] == h;
    ReportedIff(Run(h + [p]), o, patience);
  }
}
