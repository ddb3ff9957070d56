/** The capture helper's trackers: a request stall is time without progress, and a fault is a counter above its
    last reading. Metrics and states are already parsed. */
module CaptureTrackers {
  import opened Results

  datatype Identity = Identity(id: Option<string>, startedAt: Option<string>, restarts: Option<int>)
  datatype Container = Container(identity: Identity, status: Option<string>, oomKilled: bool, failed: bool)
  datatype Metrics =
    Metrics(generated: Option<int>, prompted: Option<int>, succeeded: Option<int>, running: int, waiting: int, failed: bool)
  datatype Worker = Worker(rank: Option<int>, steps: Option<int>)
  datatype Observation = Observation(container: Container, metrics: Metrics, workers: seq<Worker>, now: int)

  datatype Event =
    | Replaced | Ended(status: string) | OomKilled | InspectUnavailable | MetricsUnavailable | PossibleStall

  /** The counters compared between observations. Workers without step counts do not take part. */
  datatype Progress = Progress(generated: Option<int>, prompted: Option<int>, succeeded: Option<int>, steps: seq<Worker>)

  function Counting(w: seq<Worker>): seq<Worker> {
    if w == [] then [] else (if w[0].steps.Some? then [w[0]] else []) + Counting(w[1..])
  }

  function ProgressOf(o: Observation): Progress {
    Progress(o.metrics.generated, o.metrics.prompted, o.metrics.succeeded, Counting(o.workers))
  }

  predicate Known(i: Identity) { i.id.Some? && i.id.value != "" }

  /** Requests are being worked on, and progress can be read. */
  predicate Eligible(o: Observation) {
    && o.container.status == Some("running") && !o.metrics.failed
    && o.metrics.running + o.metrics.waiting > 0 && o.metrics.generated.Some?
  }

  datatype Tracker = Tracker(identity: Option<Identity>, progress: Option<Progress>, since: Option<int>)

  const FRESH: Tracker := Tracker(None, None, None)

  predicate IsReplaced(last: Option<Identity>, o: Observation) {
    last.Some? && o.container.identity != last.value && Known(o.container.identity)
  }

  /** When the current stretch began, before the stall test. */
  function Carried(t: Tracker, o: Observation): Option<int> {
    if IsReplaced(t.identity, o) then None else t.since
  }

  predicate Stalls(t: Tracker, o: Observation, patience: int) {
    && Eligible(o) && Carried(t, o).Some? && t.progress == Some(ProgressOf(o))
    && o.now - Carried(t, o).value >= patience
  }

  function Step(t: Tracker, o: Observation): Tracker {
    var since := Carried(t, o);
    Tracker(if Known(o.container.identity) then Some(o.container.identity) else t.identity,
            Some(ProgressOf(o)),
            if !Eligible(o) then None
            else if since.None? || t.progress != Some(ProgressOf(o)) then Some(o.now)
            else since)
  }

  function If(c: bool, e: Event): seq<Event> { if c then [e] else [] }

  function EndedOf(c: Container): seq<Event> {
    if c.status.Some? then If(c.status.value in {"exited", "dead", "restarting", "paused"}, Ended(c.status.value)) else []
  }

  /** What is reported about the observation itself. */
  function Notices(o: Observation): seq<Event> {
    EndedOf(o.container) + If(o.container.oomKilled, OomKilled) + If(o.container.failed, InspectUnavailable)
    + If(o.metrics.failed, MetricsUnavailable)
  }

  function EventsOf(t: Tracker, o: Observation, patience: int): seq<Event> {
    If(IsReplaced(t.identity, o), Replaced) + Notices(o) + If(Stalls(t, o, patience), PossibleStall)
  }

  lemma ReportedIff(t: Tracker, o: Observation, patience: int)
    ensures PossibleStall in EventsOf(t, o, patience) <==> Stalls(t, o, patience)
    ensures Replaced in EventsOf(t, o, patience) <==> IsReplaced(t.identity, o)
  {
    assert forall e :: e in Notices(o) ==> e != PossibleStall && e != Replaced;
  }

  method Notice(o: Observation, before: seq<Event>) returns (events: seq<Event>)
    ensures events == before + Notices(o)
  {
    events := [];
    if o.container.status.Some? && o.container.status.value in {"exited", "dead", "restarting", "paused"} {
      events := events + [Ended(o.container.status.value)];
    }
    assert events == EndedOf(o.container);
    if o.container.oomKilled { events := events + [OomKilled]; }
    if o.container.failed { events := events + [InspectUnavailable]; }
    if o.metrics.failed { events := events + [MetricsUnavailable]; }
    events := before + events;
  }

  class ProgressTracker {
    const patience: int
    var identity: Option<Identity>
    var progress: Option<Progress>
    var since: Option<int>

    function State(): Tracker
      reads this
    {
      Tracker(identity, progress, since)
    }

    constructor (patience: int)
      ensures State() == FRESH && this.patience == patience
    {
      this.patience := patience;
      identity, progress, since := None, None, None;
    }

    method Observe(o: Observation) returns (events: seq<Event>)
      modifies this
      ensures State() == Step(old(State()), o)
      ensures events == EventsOf(old(State()), o, patience)
    {
      events := [];
      if identity.Some? && o.container.identity != identity.value && Known(o.container.identity) {
        events := events + [Replaced];
        since := None;
      }
      if Known(o.container.identity) { identity := Some(o.container.identity); }
      events := Notice(o, events);
      var p := ProgressOf(o);
      if !Eligible(o) {
        since := None;
      } else if since.None? || progress != Some(p) {
        since := Some(o.now);
      } else if o.now - since.value >= patience {
        events := events + [PossibleStall];
      }
      progress := Some(p);
    }
  }

  // ---------------------------------------------------------------- what a whole run says

  function Run(h: seq<Observation>): Tracker {
    if h == [] then FRESH else Step(Run(h[..|h| - 1]), h[|h| - 1])
  }

  /** The last identity seen before observation k. */
  function LastKnown(h: seq<Observation>, k: nat): Option<Identity>
    requires k <= |h|
  {
    if k == 0 then None
    else if Known(h[k - 1].container.identity) then Some(h[k - 1].container.identity)
    else LastKnown(h, k - 1)
  }

  ghost predicate ReplacedAt(h: seq<Observation>, k: nat)
    requires k < |h|
  {
    IsReplaced(LastKnown(h, k), h[k])
  }

  /** Observations m to n are all eligible, show one and the same progress, and no replacement in between. */
  ghost predicate Quiet(h: seq<Observation>, m: nat, n: nat)
    requires n < |h|
  {
    && (forall k: nat :: m <= k <= n ==> Eligible(h[k]) && ProgressOf(h[k]) == ProgressOf(h[n]))
    && (forall k: nat :: m < k <= n ==> !ReplacedAt(h, k))
  }

  ghost predicate InOrder(h: seq<Observation>) { forall i, j :: 0 <= i < j < |h| ==> h[i].now <= h[j].now }

  lemma {:induction false} LastKnownPrefix(h: seq<Observation>, g: seq<Observation>, k: nat)
    requires k <= |h| <= |g| && g[..|h|] == h
    ensures LastKnown(h, k) == LastKnown(g, k)
  {
    if k > 0 {
      assert g[k - 1] == g[..|h|][k - 1];
      LastKnownPrefix(h, g, k - 1);
    }
  }

  lemma QuietPrefix(h: seq<Observation>, o: Observation, m: nat, n: nat)
    requires n < |h|
    ensures Quiet(h + [o], m, n) <==> Quiet(h, m, n)
  {
    forall k: nat | k < |h| ensures ReplacedAt(h, k) == ReplacedAt(h + [o], k) && (h + [o])[k] == h[k] {
      LastKnownPrefix(h, h + [o], k);
    }
  }

  /** The stretch recorded by the tracker starts at observation m and cannot be extended backwards. */
  ghost predicate Begins(h: seq<Observation>, m: nat, since: int) {
    m < |h| && since == h[m].now && Quiet(h, m, |h| - 1) && (m == 0 || !Quiet(h, m - 1, |h| - 1))
  }

  ghost predicate Tracks(t: Tracker, h: seq<Observation>) {
    && t.identity == LastKnown(h, |h|)
    && (h == [] ==> t.since.None? && t.progress.None?)
    && (h != [] ==> t.progress == Some(ProgressOf(h[|h| - 1])) && (t.since.Some? <==> Eligible(h[|h| - 1])))
    && (t.since.Some? ==> exists m: nat :: Begins(h, m, t.since.value))
  }

  lemma BeginsNow(h: seq<Observation>, o: Observation, t: Tracker)
    requires Tracks(t, h) && Eligible(o) && (Carried(t, o).None? || t.progress != Some(ProgressOf(o)))
    ensures Begins(h + [o], |h|, o.now)
  {
    LastKnownPrefix(h, h + [o], |h|);
    if h != [] {
      assert (h + [o])[|h| - 1] == h[|h| - 1];
      QuietEdge(h + [o], |h| - 1, |h|);
    }
  }

  lemma Continues(h: seq<Observation>, o: Observation, t: Tracker, m: nat)
    requires Tracks(t, h) && Eligible(o) && Carried(t, o).Some? && t.progress == Some(ProgressOf(o))
    requires Begins(h, m, t.since.value)
    ensures Begins(h + [o], m, t.since.value)
  {
    QuietAppended(h, o, t, m);
    if m > 0 { QuietAppended(h, o, t, m - 1); }
  }

  /** One more observation keeps a stretch quiet when it is eligible, shows the same progress and is no
      replacement. */
  lemma QuietAppended(h: seq<Observation>, o: Observation, t: Tracker, m: nat)
    requires Tracks(t, h) && m < |h|
    ensures Quiet(h + [o], m, |h|) <==>
            Quiet(h, m, |h| - 1) && Eligible(o) && t.progress == Some(ProgressOf(o)) && !IsReplaced(t.identity, o)
  {
    var g, n := h + [o], |h|;
    LastKnownPrefix(h, g, n);
    assert g[n - 1] == h[n - 1] && g[n] == o;
    QuietPrefix(h, o, m, n - 1);
    QuietEdge(g, m, n);
  }

  lemma QuietEdge(g: seq<Observation>, m: nat, n: nat)
    requires m < n < |g|
    ensures Quiet(g, m, n) <==> Quiet(g, m, n - 1) && Eligible(g[n])
                                && ProgressOf(g[n - 1]) == ProgressOf(g[n]) && !ReplacedAt(g, n)
    ensures Quiet(g, m, n) ==> Eligible(g[n - 1])
  {
  }

  lemma {:induction false} RunTracks(h: seq<Observation>)
    ensures Tracks(Run(h), h)
  {
    if h != [] {
      var p, o := h[..|h| - 1], h[|h| - 1];
      var t := Run(p);
      RunTracks(p);
      assert h == p + [o];
      LastKnownPrefix(p, h, |p|);
      if Eligible(o) {
        if Carried(t, o).None? || t.progress != Some(ProgressOf(o)) {
          BeginsNow(p, o, t);
        } else {
          var m: nat :| Begins(p, m, t.since.value);
          Continues(p, o, t, m);
        }
      }
    }
  }

  /** A stretch that cannot be extended backwards is the longest. */
  lemma {:induction false} LongestBegins(h: seq<Observation>, m: nat, since: int, k: nat)
    requires Begins(h, m, since) && k < |h| && Quiet(h, k, |h| - 1)
    ensures m <= k
  {
    if k < m { assert Quiet(h, m - 1, |h| - 1); }
  }

  /** With times that never go back, a stall is reported at an observation exactly when an earlier one, at
      least the patience before it, starts a quiet stretch up to now. */
  lemma StallIff(h: seq<Observation>, o: Observation, patience: int)
    requires InOrder(h + [o])
    ensures PossibleStall in EventsOf(Run(h), o, patience)
            <==> exists k: nat :: k < |h| && Quiet(h + [o], k, |h|) && o.now - h[k].now >= patience
  {
    var t, g := Run(h), h + [o];
    ReportedIff(t, o, patience);
    RunTracks(h);
    if Stalls(t, o, patience) {
      var m: nat :| Begins(h, m, t.since.value);
      QuietAppended(h, o, t, m);
    }
    if k: nat :| k < |h| && Quiet(g, k, |h|) && o.now - h[k].now >= patience {
      QuietStalls(h, o, t, patience, k);
    }
  }

  lemma QuietStalls(h: seq<Observation>, o: Observation, t: Tracker, patience: int, k: nat)
    requires Tracks(t, h) && InOrder(h + [o]) && k < |h| && Quiet(h + [o], k, |h|) && o.now - h[k].now >= patience
    ensures Stalls(t, o, patience)
  {
    QuietAppended(h, o, t, k);
    var m: nat :| Begins(h, m, t.since.value);
    LongestBegins(h, m, t.since.value, k);
    assert (h + [o])[m].now <= (h + [o])[k].now;
  }

  // ---------------------------------------------------------------- fault counters

  type Counters = map<string, int>

  function Increased(previous: Counters, now: Counters): set<string> {
    set key | key in now && key in previous && now[key] > previous[key]
  }

  class ResourceTracker {
    var previous: Counters

    constructor ()
      ensures previous == map[]
    {
      previous := map[];
    }

    method Observe(counters: Counters) returns (increased: set<string>)
      modifies this
      ensures increased == Increased(old(previous), counters) && previous == old(previous) + counters
    {
      increased := set key | key in counters && key in previous && counters[key] > previous[key];
      previous := previous + counters;
    }
  }

  function Readings(h: seq<Counters>): Counters {
    if h == [] then map[] else Readings(h[..|h| - 1]) + h[|h| - 1]
  }

  /** Observation j holds the last reading of a counter. */
  ghost predicate LastRead(h: seq<Counters>, j: nat, key: string) {
    j < |h| && key in h[j] && forall k :: j < k < |h| ==> key !in h[k]
  }

  lemma {:induction false} ReadingsAreLast(h: seq<Counters>, key: string)
    ensures key in Readings(h) ==> exists j: nat :: LastRead(h, j, key) && Readings(h)[key] == h[j][key]
    ensures key !in Readings(h) ==> forall k :: 0 <= k < |h| ==> key !in h[k]
  {
    if h != [] {
      var p, n := h[..|h| - 1], |h| - 1;
      ReadingsAreLast(p, key);
      if key in h[n] {
        assert LastRead(h, n, key);
      } else if key in Readings(p) {
        var j: nat :| LastRead(p, j, key) && Readings(p)[key] == p[j][key];
        assert LastRead(h, j, key);
      }
    }
  }

  /** A counter is reported exactly when it exceeds its last earlier reading: never on its first, and not for
      a fault already counted when the run began. */
  lemma IncreaseIff(h: seq<Counters>, now: Counters, key: string)
    ensures key in Increased(Readings(h), now)
            <==> key in now && exists j: nat :: LastRead(h, j, key) && now[key] > h[j][key]
  {
    ReadingsAreLast(h, key);
    if j: nat :| LastRead(h, j, key) {
      var i: nat :| LastRead(h, i, key) && Readings(h)[key] == h[i][key];
      OneLastRead(h, i, j, key);
      forall k: nat | LastRead(h, k, key) ensures k == i { OneLastRead(h, i, k, key); }
    }
  }

  lemma OneLastRead(h: seq<Counters>, i: nat, j: nat, key: string)
    requires LastRead(h, i, key) && LastRead(h, j, key)
    ensures i == j
  {
  }
}
