/** What single records and short streams do to a run, in terms of the fields of the records. */
module RemoteWatchMeaning {
  import opened Results
  import opened RemoteWatch
  import opened RemoteWatchRuns

  // ---------------------------------------------------------------- starts, leases, ends

  /** A start of one second up to 45 minutes creates the run, with a minute more to its deadline; any other start does
      not. */
  lemma StartMeans(id: RunId, seconds: Option<real>, now: real, silence: real)
    ensures var r := After(None, id, Record(Some(id), SessionStart(seconds), now), silence);
            if seconds.Some? && 1.0 <= seconds.value && seconds.value <= 2700.0 then
              r.Some? && r.value.deadline == now + seconds.value + 60.0 && r.value.last == now
              && r.value.container.None? && r.value.captured == {} && r.value.reason.None?
            else r.None?
  {
  }

  /** A lease of up to 15 minutes for the run's own container, in time, moves the deadline to a minute after it, never
      back; nothing else about the run changes, and any other lease changes nothing. */
  lemma LeaseMeans(r: Run, id: RunId, lease: Option<int>, holder: Option<string>, now: real, silence: real)
    ensures var a := After(Some(r), id, Record(Some(id), SessionLease(lease, holder), now), silence);
            var good := lease.Some? && 1 <= lease.value && lease.value <= 900 && r.container.Some? && holder == r.container
                        && now <= r.deadline;
            && a.Some? && a.value.(deadline := 0.0) == r.(deadline := 0.0)
            && (!good ==> a.value.deadline == r.deadline)
            && (good ==> a.value.deadline >= r.deadline && a.value.deadline >= now + lease.value as real + 60.0
                         && (a.value.deadline == r.deadline || a.value.deadline == now + lease.value as real + 60.0))
  {
  }

  /** An end forgets the run; records for a run that is not there, and for other runs, change nothing. */
  lemma EndMeans(r: Option<Run>, id: RunId, other: RunId, m: Message, now: real, silence: real)
    ensures After(r, id, Record(Some(id), SessionEnd, now), silence).None?
    ensures other != id ==> After(r, id, Record(Some(other), m, now), silence) == r
    ensures After(r, id, Record(None, m, now), silence) == r
    ensures !m.SessionStart? ==> After(None, id, Record(Some(id), m, now), silence).None?
  {
  }

  // ---------------------------------------------------------------- container names

  predicate Word(c: char) {
    ('a' <= c && c <= 'z') || ('A' <= c && c <= 'Z') || ('0' <= c && c <= '9') || c == '_' || c == '.' || c == '-'
  }

  lemma ContainerNames(s: string)
    ensures ValidName("r9v-" + s) <==> 1 <= |s| && |s| <= 100 && forall i :: 0 <= i < |s| ==> Word(s[i])
  {
    var t := "r9v-" + s;
    assert t[..4] == "r9v-" && t[4..] == s;
    assert forall i :: 0 <= i < |s| ==> t[i + 4] == s[i];
    assert forall k :: 4 <= k < |t| ==> t[k] == s[k - 4];
  }

  lemma OtherNames(t: string)
    requires !("r9v-" <= t)
    ensures !ValidName(t)
  {
  }

  // ---------------------------------------------------------------- progress

  /** Phases in which workers are expected to advance. */
  lemma WorkPhases(base: string)
    ensures WorkPhase(base + "-warmup") && WorkPhase(base + "-measure") && WorkPhase(base + "-routes")
    ensures WorkPhase(base + "-workload") && WorkPhase(base + "-pressure")
  {
    Ends(base, "-warmup");
    Ends(base, "-measure");
    Ends(base, "-routes");
    Ends(base, "-workload");
    Ends(base, "-pressure");
  }

  lemma Ends(base: string, suffix: string)
    ensures EndsWith(base + suffix, suffix)
  {
    assert (base + suffix)[|base|..] == suffix;
  }

  /** In no other phase. */
  lemma OtherPhases(phase: string) returns (base: string, kind: string)
    requires WorkPhase(phase)
    ensures kind in {"-warmup", "-measure", "-routes", "-workload", "-pressure"} && phase == base + kind
  {
    kind := if EndsWith(phase, "-warmup") then "-warmup" else if EndsWith(phase, "-measure") then "-measure"
            else if EndsWith(phase, "-routes") then "-routes" else if EndsWith(phase, "-workload") then "-workload"
            else "-pressure";
    base := phase[..|phase| - |kind|];
  }

  /** A progress record of the run's own container, and what it says of its workers. */
  function Report(container: string, phase: string, workers: Workers, driver: Option<string>): Message {
    Progress(Some(container), Some(phase), Some(workers), driver)
  }

  /** The run was heard from this container before, with the signature unchanged since the given time. */
  ghost predicate Unchanged(r: Run, container: string, phase: string, workers: Workers, since: real) {
    r.container == Some(container) && r.signature == Some(Signature(phase, Objects(workers))) && r.advanced == Some(since)
  }

  /** Unchanged progress: the reason becomes a lack of progress exactly when workers are listed, they should be advancing,
      and more than a minute has passed since they last did; otherwise the reason stays. */
  lemma UnchangedProgress(r: Run, id: RunId, container: string, phase: string, workers: Workers, since: real, now: real,
                          silence: real)
    requires Unchanged(r, container, phase, workers, since)
    ensures var a := After(Some(r), id, Record(Some(id), Report(container, phase, workers, None), now), silence);
            a == Some(r.(last := now, reason := if workers != [] && WorkPhase(phase) && now - since > 60.0 then Some(NoProgress)
                                                else r.reason))
  {
  }

  /** Changed progress starts the minute anew, and never gives a lack of progress as the reason. */
  lemma ChangedProgress(r: Run, id: RunId, container: string, phase: string, workers: Workers, now: real, silence: real)
    requires r.container == Some(container) && r.signature != Some(Signature(phase, Objects(workers)))
    ensures var a := After(Some(r), id, Record(Some(id), Report(container, phase, workers, None), now), silence);
            a == Some(r.(last := now, signature := Some(Signature(phase, Objects(workers))), advanced := Some(now)))
  {
  }

  /** What the driver reports outweighs the rest. */
  lemma DriverReports(r: Run, id: RunId, container: string, phase: string, workers: Workers, status: string, now: real,
                      silence: real)
    ensures var a := After(Some(r), id, Record(Some(id), Report(container, phase, workers, Some(status)), now), silence);
            var b := After(Some(r), id, Record(Some(id), Report(container, phase, workers, None), now), silence);
            a.Some? && b.Some?
            && if status == "failed" || status == "stalled" then a == Some(b.value.(reason := Some(Driver(status)))) else a == b
  {
  }

  /** A new container drops the old one's reason and starts its minute anew. */
  lemma NewContainer(r: Run, id: RunId, container: string, phase: string, workers: Workers, now: real, silence: real)
    requires ValidName(container) && r.container != Some(container)
    ensures var a := After(Some(r), id, Record(Some(id), Report(container, phase, workers, None), now), silence);
            a == Some(r.(last := now, container := Some(container), reason := None,
                         signature := Some(Signature(phase, Objects(workers))), advanced := Some(now)))
  {
  }

  /** A record whose container is no name of ours is progress of the container there already. */
  lemma UnknownContainer(r: Run, id: RunId, container: string, phase: string, workers: Workers, now: real, silence: real)
    requires !ValidName(container) && r.container.Some?
    ensures After(Some(r), id, Record(Some(id), Report(container, phase, workers, None), now), silence)
            == After(Some(r), id, Record(Some(id), Report(r.container.value, phase, workers, None), now), silence)
  {
  }

  /** Worker rows that are no objects do not take part in the comparison. */
  lemma {:induction false} ObjectsAppend(w: Workers, row: Option<(Option<int>, Option<int>)>)
    ensures Objects(w + [row]) == Objects(w) + if row.Some? then [row.value] else []
  {
    if w == [] {
      assert (w + [row])[1..] == [];
      assert Objects(w + [row]) == (if row.Some? then [row.value] else []) + Objects([]);
    } else {
      ObjectsAppend(w[1..], row);
      assert (w + [row])[1..] == w[1..] + [row];
    }
  }

  // ---------------------------------------------------------------- from a record to a capture

  /** A due check right after a record hands out the run's container, in time and not yet captured, exactly when the
      record left a reason, however recently the run was heard from. */
  lemma ReasonIsCaptured(steps: seq<Step>, id: RunId, silence: real, k: nat, c: string)
    requires k + 1 < |steps| && steps[k + 1].Due?
    requires var r := At(steps, id, silence, k + 1);
             r.Some? && r.value.container == Some(c) && c !in r.value.captured && steps[k + 1].now <= r.value.deadline
             && steps[k + 1].now - r.value.last <= silence
    ensures Captures(steps, id, silence, k + 1, c) <==> At(steps, id, silence, k + 1).value.reason.Some?
  {
  }

  /** So a minute of unchanged progress while working leads to a capture at the next check. */
  lemma StuckIsCaptured(steps: seq<Step>, id: RunId, silence: real, k: nat, c: string, phase: string, workers: Workers,
                        since: real, now: real, due: real)
    requires k + 1 < |steps| && steps[k] == Record(Some(id), Report(c, phase, workers, None), now) && steps[k + 1] == Due(due)
    requires var r := At(steps, id, silence, k);
             r.Some? && Unchanged(r.value, c, phase, workers, since) && c !in r.value.captured && due <= r.value.deadline
    requires workers != [] && WorkPhase(phase) && now - since > 60.0 && due - now <= silence
    ensures Captures(steps, id, silence, k + 1, c)
    ensures At(steps, id, silence, k + 1).value.reason == Some(NoProgress)
  {
    UnchangedProgress(At(steps, id, silence, k).value, id, c, phase, workers, since, now, silence);
  }

  /** So does a driver that failed or stalled. */
  lemma DriverIsCaptured(steps: seq<Step>, id: RunId, silence: real, k: nat, c: string, phase: string, workers: Workers,
                         status: string, now: real, due: real)
    requires k + 1 < |steps| && steps[k] == Record(Some(id), Report(c, phase, workers, Some(status)), now)
    requires steps[k + 1] == Due(due) && (status == "failed" || status == "stalled") && due - now <= silence
    requires var r := At(steps, id, silence, k);
             r.Some? && r.value.container == Some(c) && c !in r.value.captured && due <= r.value.deadline
    ensures Captures(steps, id, silence, k + 1, c)
    ensures At(steps, id, silence, k + 1).value.reason == Some(Driver(status))
  {
  }

  /** And right after a container has been replaced, nothing of the old one's reasons is left to capture the new one. */
  lemma NewContainerIsNotCaptured(steps: seq<Step>, id: RunId, silence: real, k: nat, c: string, phase: string,
                                  workers: Workers, now: real, due: real)
    requires k + 1 < |steps| && steps[k] == Record(Some(id), Report(c, phase, workers, None), now) && steps[k + 1] == Due(due)
    requires At(steps, id, silence, k).Some? && At(steps, id, silence, k).value.container != Some(c) && ValidName(c)
    requires due - now <= silence
    ensures !Captures(steps, id, silence, k + 1, c)
  {
    NewContainer(At(steps, id, silence, k).value, id, c, phase, workers, now, silence);
  }

  // ---------------------------------------------------------------- requests and faults

  /** A request for evidence is heeded only for the run's own container, or from a sender without one while the run has
      none. */
  lemma SuspectMeans(r: Run, id: RunId, said: Said, now: real, silence: real)
    ensures After(Some(r), id, Record(Some(id), Suspect(said), now), silence)
            == Some(if (said == Missing && r.container.None?) || (said.Word? && Some(said.text) == r.container)
                    then r.(reason := Some(Requested)) else r)
  {
  }

  /** A kernel fault heard within ten seconds, or a stalled recorder, marks a live run with a container, and keeps the
      reason it has. */
  lemma FaultMeans(r: Run, id: RunId, e: Envelope, now: real, wall: real, silence: real)
    ensures var recent := e.channel == "netconsole" && e.message.Some? && e.received.Some? && e.fault
                         && 0.0 <= wall - e.received.value && wall - e.received.value <= 10.0;
            var open := now <= r.deadline && r.container.Some? && r.reason.None?;
            && After(Some(r), id, Kernel(e, now, wall), silence)
               == Some(if recent && open then r.(reason := Some(KernelFault(e.message.value))) else r)
            && After(Some(r), id, Recorder(now), silence) == Some(if open then r.(reason := Some(RecorderFault)) else r)
  {
  }

  /** A due check gives silence as the reason before any other, drops an expired run, and hands out nothing twice. */
  lemma DueMeans(r: Run, id: RunId, now: real, silence: real, c: string)
    ensures After(Some(r), id, Due(now), silence).None? <==> now > r.deadline
    ensures r.container == Some(c) && c !in r.captured && now <= r.deadline ==>
              DueReason(r, now, silence) == if now - r.last > silence then Some(Silent) else r.reason
    ensures r.container == Some(c) && c in r.captured ==> DueReason(r, now, silence).None?
    ensures now <= r.deadline ==>
              After(Some(r), id, Due(now), silence)
              == Some(if DueReason(r, now, silence).Some? then r.(captured := r.captured + {r.container.value}) else r)
  {
  }
}
