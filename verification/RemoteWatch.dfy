/** The observer of remote runs: one capture per container of a run, on silence or on evidence of a fault.
    Records are already parsed, and a run is known by the number of its UUID. */
module RemoteWatch {
  import opened Results

  type RunId = nat

  datatype Reason = KernelFault(message: string) | RecorderFault | NoProgress | Driver(status: string) | Requested | Silent

  datatype Signature = Signature(phase: string, workers: seq<(Option<int>, Option<int>)>)

  datatype Run = Run(deadline: real, last: real, container: Option<string>, captured: set<string>,
                     reason: Option<Reason>, signature: Option<Signature>, advanced: Option<real>)

  /** A worker row; None for one that is not an object. */
  type Workers = seq<Option<(Option<int>, Option<int>)>>

  /** A field that is compared as it comes: null counts as missing. */
  datatype Said = Missing | Word(text: string) | Foreign

  predicate Matches(said: Said, container: Option<string>) {
    match said
    case Missing => container.None?
    case Word(text) => container == Some(text)
    case Foreign => false
  }

  /** What a record says. A missing or empty container, phase or worker list of a progress record is the empty one,
      and None is one of another type; any other optional field is None where it is missing or of another type. */
  datatype Message =
    | SessionStart(seconds: Option<real>)
    | SessionLease(lease: Option<int>, holder: Option<string>)
    | SessionEnd
    | Progress(container: Option<string>, phase: Option<string>, workers: Option<Workers>, driver: Option<string>)
    | Suspect(suspect: Said)
    | Other

  predicate NameChar(c: char) {
    'a' <= c <= 'z' || 'A' <= c <= 'Z' || '0' <= c <= '9' || c in {'_', '.', '-'}
  }

  predicate ValidName(s: string) {
    5 <= |s| <= 104 && s[..4] == "r9v-" && forall k :: 4 <= k < |s| ==> NameChar(s[k])
  }

  predicate EndsWith(s: string, suffix: string) { |s| >= |suffix| && s[|s| - |suffix|..] == suffix }

  predicate WorkPhase(phase: string) {
    EndsWith(phase, "-warmup") || EndsWith(phase, "-measure") || EndsWith(phase, "-routes")
    || EndsWith(phase, "-workload") || EndsWith(phase, "-pressure")
  }

  function Objects(w: Workers): seq<(Option<int>, Option<int>)> {
    if w == [] then [] else (if w[0].Some? then [w[0].value] else []) + Objects(w[1..])
  }

  function Max(a: real, b: real): real { if a >= b then a else b }

  // ---------------------------------------------------------------- one run

  function Created(now: real, seconds: real): Run {
    Run(now + seconds + 60.0, now, None, {}, None, None, None)
  }

  predicate GoodStart(seconds: Option<real>) { seconds.Some? && 1.0 <= seconds.value <= 2700.0 }

  predicate GoodLease(r: Run, lease: Option<int>, holder: Option<string>, now: real) {
    lease.Some? && 1 <= lease.value <= 900 && r.container.Some? && holder == r.container && now <= r.deadline
  }

  function Named(r: Run, container: string, now: real): Run {
    if !ValidName(container) then r.(last := now)
    else if Some(container) == r.container then r.(last := now)
    else r.(last := now, reason := None, signature := None, container := Some(container))
  }

  function Signed(r: Run, s: Signature, now: real): Run {
    if r.signature == Some(s) then r else r.(signature := Some(s), advanced := Some(now))
  }

  predicate Stuck(r: Run, phase: string, workers: Workers, now: real) {
    workers != [] && WorkPhase(phase) && r.advanced.Some? && now - r.advanced.value > 60.0
  }

  function Judged(r: Run, phase: string, workers: Workers, driver: Option<string>, now: real): Run {
    var stuck := if Stuck(r, phase, workers, now) then r.(reason := Some(NoProgress)) else r;
    if driver.Some? && driver.value in {"failed", "stalled"} then stuck.(reason := Some(Driver(driver.value))) else stuck
  }

  /** Progress of a run. Nothing after the first field of a wrong type takes effect. */
  function Progressed(r: Run, m: Message, now: real): Run
    requires m.Progress?
  {
    if m.container.None? then r.(last := now)
    else
      var named := Named(r, m.container.value, now);
      if m.phase.None? || m.workers.None? then named
      else
        Judged(Signed(named, Signature(m.phase.value, Objects(m.workers.value)), now),
               m.phase.value, m.workers.value, m.driver, now)
  }

  /** A run after a record addressed to it. */
  function Recorded(r: Option<Run>, m: Message, now: real): Option<Run> {
    match m
    case SessionStart(seconds) => if r.None? && GoodStart(seconds) then Some(Created(now, seconds.value)) else r
    case SessionLease(lease, holder) =>
      if r.Some? && GoodLease(r.value, lease, holder, now) then
        Some(r.value.(deadline := Max(r.value.deadline, now + lease.value as real + 60.0)))
      else r
    case SessionEnd => None
    case Progress(_, _, _, _) => if r.Some? then Some(Progressed(r.value, m, now)) else r
    case Suspect(suspect) =>
      if r.Some? && Matches(suspect, r.value.container) then Some(r.value.(reason := Some(Requested))) else r
    case Other => r
  }

  /** A run after a fault that concerns every live run: the first reason stays. */
  function Faulted(r: Run, reason: Reason, now: real): Run {
    if now <= r.deadline && r.container.Some? && r.reason.None? then r.(reason := Some(reason)) else r
  }

  /** Why a capture of the run's container is due, if it is. */
  function DueReason(r: Run, now: real, silence: real): Option<Reason> {
    if now > r.deadline || r.container.None? || r.container.value in r.captured then None
    else if now - r.last > silence then Some(Silent)
    else r.reason
  }

  function AfterDue(r: Run, now: real, silence: real): Option<Run> {
    if now > r.deadline then None
    else if DueReason(r, now, silence).Some? then Some(r.(captured := r.captured + {r.container.value}))
    else Some(r)
  }

  /** A kernel message with the time it was received; fault tells whether it matches the known faults. */
  datatype Envelope = Envelope(channel: string, message: Option<string>, received: Option<real>, fault: bool)

  predicate FreshFault(e: Envelope, wall: real) {
    e.channel == "netconsole" && e.message.Some? && e.received.Some? && 0.0 <= wall - e.received.value <= 10.0 && e.fault
  }

  datatype Step =
    | Record(target: Option<RunId>, message: Message, now: real)
    | Kernel(envelope: Envelope, now: real, wall: real)
    | Recorder(now: real)
    | Due(now: real)

  function After(r: Option<Run>, id: RunId, s: Step, silence: real): Option<Run> {
    match s
    case Record(target, message, now) => if target == Some(id) then Recorded(r, message, now) else r
    case Kernel(e, now, wall) =>
      if r.Some? && FreshFault(e, wall) then Some(Faulted(r.value, KernelFault(e.message.value), now)) else r
    case Recorder(now) => if r.Some? then Some(Faulted(r.value, RecorderFault, now)) else r
    case Due(now) => if r.Some? then AfterDue(r.value, now, silence) else r
  }

  // ---------------------------------------------------------------- the tracker

  type Runs = map<RunId, Run>

  function Lookup(runs: Runs, id: RunId): Option<Run> { if id in runs then Some(runs[id]) else None }

  ghost predicate Advanced(before: Runs, after: Runs, s: Step, silence: real) {
    forall id: RunId :: Lookup(after, id) == After(Lookup(before, id), id, s, silence)
  }

  datatype Capture = Capture(id: RunId, container: string, reason: Reason)

  predicate IsDue(r: Option<Run>, c: Capture, now: real, silence: real) {
    r.Some? && r.value.container == Some(c.container) && DueReason(r.value, now, silence) == Some(c.reason)
  }

  class RunTracker {
    const silence: real
    var runs: Runs

    constructor (silence: real)
      ensures runs == map[] && this.silence == silence
    {
      this.silence := silence;
      runs := map[];
    }

    method Observe(target: Option<RunId>, m: Message, now: real)
      modifies this
      ensures Advanced(old(runs), runs, Record(target, m, now), silence)
    {
      if target.None? { return; }
      var id := target.value;
      if m.SessionStart? {
        if !GoodStart(m.seconds) { return; }
        if id !in runs { runs := runs[id := Created(now, m.seconds.value)]; }
      }
      if id !in runs { return; }
      var r := runs[id];
      if m.SessionLease? {
        if GoodLease(r, m.lease, m.holder, now) {
          runs := runs[id := r.(deadline := Max(r.deadline, now + m.lease.value as real + 60.0))];
        }
        return;
      }
      if m.SessionEnd? {
        runs := runs - {id};
        return;
      }
      if m.Progress? {
        ObserveProgress(id, m, now);
      }
      if m.Suspect? && Matches(m.suspect, r.container) {
        runs := runs[id := r.(reason := Some(Requested))];
      }
    }

    method ObserveProgress(id: RunId, m: Message, now: real)
      requires id in runs && m.Progress?
      modifies this
      ensures runs == old(runs)[id := Progressed(old(runs)[id], m, now)]
    {
      var r := runs[id].(last := now);
      runs := runs[id := r];
      if m.container.None? { return; }
      if ValidName(m.container.value) {
        if Some(m.container.value) != r.container {
          r := r.(reason := None, signature := None);
        }
        r := r.(container := Some(m.container.value));
        runs := runs[id := r];
      }
      if m.workers.None? || m.phase.None? { return; }
      var signature := Signature(m.phase.value, Objects(m.workers.value));
      if r.signature != Some(signature) {
        r := r.(signature := Some(signature), advanced := Some(now));
      }
      if Stuck(r, m.phase.value, m.workers.value, now) {
        r := r.(reason := Some(NoProgress));
      }
      if m.driver.Some? && m.driver.value in {"failed", "stalled"} {
        r := r.(reason := Some(Driver(m.driver.value)));
      }
      runs := runs[id := r];
    }

    method ObserveKernel(e: Envelope, now: real, wall: real)
      modifies this
      ensures Advanced(old(runs), runs, Kernel(e, now, wall), silence)
    {
      if !FreshFault(e, wall) { return; }
      MarkAll(KernelFault(e.message.value), now);
    }

    method ObserveRecorder(now: real)
      modifies this
      ensures Advanced(old(runs), runs, Recorder(now), silence)
    {
      MarkAll(RecorderFault, now);
    }

    method MarkAll(reason: Reason, now: real)
      modifies this
      ensures runs.Keys == old(runs).Keys
      ensures forall id :: id in runs ==> runs[id] == Faulted(old(runs)[id], reason, now)
    {
      var todo := runs.Keys;
      while todo != {}
        invariant todo <= runs.Keys == old(runs).Keys
        invariant forall id :: id in runs ==>
                    runs[id] == if id in todo then old(runs)[id] else Faulted(old(runs)[id], reason, now)
        decreases todo
      {
        var id :| id in todo;
        todo := todo - {id};
        var r := runs[id];
        if now <= r.deadline && r.container.Some? && r.reason.None? {
          runs := runs[id := r.(reason := Some(reason))];
        }
      }
    }

    method TakeDue(now: real) returns (result: seq<Capture>)
      modifies this
      ensures Advanced(old(runs), runs, Due(now), silence)
      ensures forall c :: c in result <==> IsDue(Lookup(old(runs), c.id), c, now, silence)
      ensures forall i, j :: 0 <= i < j < |result| ==> result[i].id != result[j].id
    {
      result := [];
      var todo := runs.Keys;
      while todo != {}
        invariant todo <= old(runs).Keys && todo <= runs.Keys
        invariant forall id: RunId ::
                    Lookup(runs, id) == if id in todo then Lookup(old(runs), id)
                                        else After(Lookup(old(runs), id), id, Due(now), silence)
        invariant forall c :: c in result <==> c.id !in todo && IsDue(Lookup(old(runs), c.id), c, now, silence)
        invariant forall i, j :: 0 <= i < j < |result| ==> result[i].id != result[j].id
        decreases todo
      {
        var id :| id in todo;
        var r := runs[id];
        assert Lookup(runs, id) == Lookup(old(runs), id);
        if now > r.deadline {
          runs := runs - {id};
        } else if r.container.Some? && r.container.value !in r.captured {
          var reason := r.reason;
          if now - r.last > silence { reason := Some(Silent); }
          if reason.Some? {
            runs := runs[id := r.(captured := r.captured + {r.container.value})];
            result := result + [Capture(id, r.container.value, reason.value)];
          }
        }
        todo := todo - {id};
      }
    }
  }
}
