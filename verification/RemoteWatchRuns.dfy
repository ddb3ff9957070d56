/** What holds of one run over any interleaving of records, faults and due checks. */
module RemoteWatchRuns {
  import opened Results
  import opened RemoteWatch

  function TimeOf(s: Step): real {
    match s
    case Record(_, _, now) => now
    case Kernel(_, now, _) => now
    case Recorder(now) => now
    case Due(now) => now
  }

  /** The run after the first k steps of a fresh tracker. */
  function At(steps: seq<Step>, id: RunId, silence: real, k: nat): Option<Run>
    requires k <= |steps|
  {
    if k == 0 then None else After(At(steps, id, silence, k - 1), id, steps[k - 1], silence)
  }

  /** The whole tracker, as its methods leave it. */
  ghost predicate Reaches(steps: seq<Step>, silence: real, runs: seq<Runs>) {
    && |runs| == |steps| + 1 && runs[0] == map[]
    && forall k :: 0 <= k < |steps| ==> Advanced(runs[k], runs[k + 1], steps[k], silence)
  }

  /** Runs do not interfere: each follows its own steps. */
  lemma {:induction false} RunsAreIndependent(steps: seq<Step>, silence: real, runs: seq<Runs>, id: RunId, k: nat)
    requires Reaches(steps, silence, runs) && k <= |steps|
    ensures Lookup(runs[k], id) == At(steps, id, silence, k)
  {
    if k > 0 { RunsAreIndependent(steps, silence, runs, id, k - 1); }
  }

  ghost predicate InOrder(steps: seq<Step>) {
    forall i, j :: 0 <= i < j < |steps| ==> TimeOf(steps[i]) <= TimeOf(steps[j])
  }

  /** The run exists after each of the steps i to j - 1. */
  ghost predicate Alive(steps: seq<Step>, id: RunId, silence: real, i: nat, j: nat)
    requires j <= |steps|
  {
    forall k: nat :: i < k <= j ==> At(steps, id, silence, k).Some?
  }

  /** Step k hands out a capture of container c. */
  ghost predicate Captures(steps: seq<Step>, id: RunId, silence: real, k: nat, c: string)
    requires k < |steps|
  {
    var r := At(steps, id, silence, k);
    && steps[k].Due? && r.Some? && r.value.container == Some(c)
    && DueReason(r.value, steps[k].now, silence).Some?
  }

  /** One step of a run that lives on keeps what was captured and never shortens the deadline, and past the
      deadline nothing moves it. */
  lemma StepKeeps(r: Option<Run>, id: RunId, s: Step, silence: real)
    requires r.Some? && After(r, id, s, silence).Some?
    ensures var a := After(r, id, s, silence).value;
            && r.value.captured <= a.captured && r.value.deadline <= a.deadline
            && (TimeOf(s) > r.value.deadline ==> a.deadline == r.value.deadline)
  {
  }

  lemma {:induction false} LifeKeeps(steps: seq<Step>, id: RunId, silence: real, i: nat, j: nat)
    requires i < j <= |steps| && Alive(steps, id, silence, i, j)
    ensures At(steps, id, silence, i + 1).Some? && At(steps, id, silence, j).Some?
    ensures At(steps, id, silence, i + 1).value.captured <= At(steps, id, silence, j).value.captured
    ensures At(steps, id, silence, i + 1).value.deadline <= At(steps, id, silence, j).value.deadline
  {
    if i + 1 < j {
      LifeKeeps(steps, id, silence, i, j - 1);
      assert At(steps, id, silence, j).Some?;
      StepKeeps(At(steps, id, silence, j - 1), id, steps[j - 1], silence);
    }
  }

  /** Within one life of a run a container is handed out for capture at most once, and never after the
      deadline. */
  lemma CapturedOnce(steps: seq<Step>, id: RunId, silence: real, i: nat, j: nat, c: string)
    requires i < j < |steps| && Alive(steps, id, silence, i, j) && Captures(steps, id, silence, i, c)
    ensures !Captures(steps, id, silence, j, c)
    ensures steps[i].now <= At(steps, id, silence, i).value.deadline
  {
    LifeKeeps(steps, id, silence, i, j);
    assert c in At(steps, id, silence, i + 1).value.captured;
  }

  /** Once a step comes after the deadline, neither a lease nor anything else revives the run: its deadline
      stays, and no capture of it is handed out any more. */
  lemma {:induction false} ExpiredStaysExpired(steps: seq<Step>, id: RunId, silence: real, i: nat, j: nat, c: string)
    requires i <= j < |steps| && InOrder(steps) && At(steps, id, silence, i).Some? && Alive(steps, id, silence, i, j)
    requires TimeOf(steps[i]) > At(steps, id, silence, i).value.deadline
    ensures At(steps, id, silence, j).Some?
            && At(steps, id, silence, j).value.deadline == At(steps, id, silence, i).value.deadline
    ensures !Captures(steps, id, silence, j, c)
    ensures steps[j].Due? ==> At(steps, id, silence, j + 1).None?
  {
    if i < j {
      ExpiredStaysExpired(steps, id, silence, i, j - 1, c);
      assert At(steps, id, silence, j).Some?;
      StepKeeps(At(steps, id, silence, j - 1), id, steps[j - 1], silence);
    }
  }

  /** A repeated start changes nothing, so it cannot clear what was captured. */
  lemma StartKeepsLatch(r: Option<Run>, id: RunId, seconds: Option<real>, now: real, silence: real)
    requires r.Some?
    ensures After(r, id, Record(Some(id), SessionStart(seconds), now), silence) == r
  {
  }

  function WithoutStep(steps: seq<Step>, k: nat): (r: seq<Step>)
    requires k < |steps|
    ensures |r| == |steps| - 1
  {
    steps[..k] + steps[k + 1..]
  }

  lemma {:induction false} SameStepsSameRun(a: seq<Step>, b: seq<Step>, id: RunId, silence: real, k: nat)
    requires k <= |a| && k <= |b| && a[..k] == b[..k]
    ensures At(a, id, silence, k) == At(b, id, silence, k)
  {
    if k > 0 {
      assert a[k - 1] == a[..k][k - 1] == b[..k][k - 1] == b[k - 1];
      assert a[..k - 1] == a[..k][..k - 1] == b[..k][..k - 1] == b[..k - 1];
      SameStepsSameRun(a, b, id, silence, k - 1);
    }
  }

  /** Leaving a repeated start out of a stream changes nothing after it: neither the run's state nor what is captured. */
  lemma {:induction false} RepeatedStartIsIdle(steps: seq<Step>, id: RunId, silence: real, k: nat, j: nat)
    requires k < j <= |steps| && At(steps, id, silence, k).Some?
    requires steps[k].Record? && steps[k].target == Some(id) && steps[k].message.SessionStart?
    ensures At(WithoutStep(steps, k), id, silence, j - 1) == At(steps, id, silence, j)
    ensures j < |steps| ==> forall c :: Captures(WithoutStep(steps, k), id, silence, j - 1, c) <==> Captures(steps, id, silence, j, c)
    decreases j
  {
    var less := WithoutStep(steps, k);
    if j == k + 1 {
      assert less[..k] == steps[..k];
      SameStepsSameRun(less, steps, id, silence, k);
      StartKeepsLatch(At(steps, id, silence, k), id, steps[k].message.seconds, steps[k].now, silence);
    } else {
      RepeatedStartIsIdle(steps, id, silence, k, j - 1);
      assert less[j - 2] == steps[j - 1];
    }
    assert j < |steps| ==> less[j - 1] == steps[j];
  }

  /** Step k is what the run was last heard from: progress, or its start. */
  ghost predicate HeardAt(steps: seq<Step>, id: RunId, silence: real, k: nat)
    requires k < |steps|
  {
    && steps[k].Record? && steps[k].target == Some(id) && At(steps, id, silence, k + 1).Some?
    && (steps[k].message.Progress? || (steps[k].message.SessionStart? && At(steps, id, silence, k).None?))
  }

  lemma {:induction false} LastIsLastHeard(steps: seq<Step>, id: RunId, silence: real, k: nat, j: nat)
    requires k < j <= |steps| && HeardAt(steps, id, silence, k) && Alive(steps, id, silence, k, j)
    requires forall m: nat :: k < m < j ==> !HeardAt(steps, id, silence, m)
    ensures At(steps, id, silence, j).Some? && At(steps, id, silence, j).value.last == TimeOf(steps[k])
  {
    if k + 1 < j {
      LastIsLastHeard(steps, id, silence, k, j - 1);
      assert !HeardAt(steps, id, silence, j - 1);
      assert At(steps, id, silence, j).Some?;
      QuietKeepsLast(At(steps, id, silence, j - 1), id, steps[j - 1], silence);
    }
  }

  lemma QuietKeepsLast(r: Option<Run>, id: RunId, s: Step, silence: real)
    requires r.Some? && After(r, id, s, silence).Some?
    requires !(s.Record? && s.target == Some(id) && s.message.Progress?)
    ensures After(r, id, s, silence).value.last == r.value.last
  {
  }

  /** A due check within the deadline hands out an uncaptured container as soon as the run has been silent for
      longer than allowed, and otherwise exactly when a reason is on record. */
  lemma SilenceIsCaptured(steps: seq<Step>, id: RunId, silence: real, k: nat, j: nat, c: string)
    requires k < j < |steps| && HeardAt(steps, id, silence, k) && Alive(steps, id, silence, k, j)
    requires forall m: nat :: k < m < j ==> !HeardAt(steps, id, silence, m)
    requires var r := At(steps, id, silence, j);
             r.Some? && r.value.container == Some(c) && c !in r.value.captured && steps[j].Due?
             && steps[j].now <= r.value.deadline
    ensures Captures(steps, id, silence, j, c)
            <==> steps[j].now - TimeOf(steps[k]) > silence || At(steps, id, silence, j).value.reason.Some?
  {
    LastIsLastHeard(steps, id, silence, k, j);
  }

  /** What is latched was handed out: a captured container was captured at some earlier step of this life. */
  lemma {:induction false} CapturedWasHandedOut(steps: seq<Step>, id: RunId, silence: real, j: nat, c: string) returns (k: nat)
    requires j <= |steps| && At(steps, id, silence, j).Some? && c in At(steps, id, silence, j).value.captured
    ensures k < j && Captures(steps, id, silence, k, c) && Alive(steps, id, silence, k, j)
  {
    var r := At(steps, id, silence, j - 1);
    NewlyCaptured(r, id, steps[j - 1], silence, c);
    if r.Some? && c in r.value.captured {
      k := CapturedWasHandedOut(steps, id, silence, j - 1, c);
    } else {
      k := j - 1;
    }
  }

  lemma NewlyCaptured(r: Option<Run>, id: RunId, s: Step, silence: real, c: string)
    ensures After(r, id, s, silence).Some? && c in After(r, id, s, silence).value.captured ==>
              r.Some? && (c in r.value.captured
                          || (s.Due? && r.value.container == Some(c) && DueReason(r.value, s.now, silence).Some?))
  {
  }
}
