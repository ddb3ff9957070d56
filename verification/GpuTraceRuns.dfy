/** What the two trace readers agree on over a whole stream of lines. */
module GpuTraceRuns {
  import opened Results
  import opened GpuTrace

  function LiveRun(h: seq<Line>): Live {
    if h == [] then IDLE else LiveStep(LiveRun(h[..|h| - 1]), h[|h| - 1])
  }

  function CheckRun(h: seq<Line>): Check {
    if h == [] then EMPTY else CheckStep(CheckRun(h[..|h| - 1]), h[|h| - 1])
  }

  // ---------------------------------------------------------------- record numbers

  /** The record numbers of one process, in the order they came. */
  function Numbers(h: seq<Line>, pid: int): seq<int> {
    if h == [] then []
    else
      var line := h[|h| - 1];
      Numbers(h[..|h| - 1], pid) + if line.Marked? && line.row.pid == pid then [line.row.number] else []
  }

  /** 1, 2, 3, ... */
  ghost predicate Contiguous(s: seq<int>) { forall k :: 0 <= k < |s| ==> s[k] == k + 1 }

  function Final(s: seq<int>): int { if s == [] then 0 else s[|s| - 1] }

  lemma ContiguousLast(s: seq<int>, n: int)
    ensures Contiguous(s + [n]) <==> Contiguous(s) && n == |s| + 1
    ensures Contiguous(s) ==> Final(s) == |s|
  {
    if Contiguous(s + [n]) {
      assert (s + [n])[|s|] == n;
      forall k | 0 <= k < |s| ensures s[k] == k + 1 { assert (s + [n])[k] == k + 1; }
    }
  }

  /** Errors are only ever added. */
  lemma LiveErrorsStay(s: Live, line: Line)
    requires LiveStep(s, line).errors == []
    ensures s.errors == [] && (line.Marked? ==> line.row.number == LastOf(s.last, line.row.pid) + 1)
  {
  }

  lemma LiveCounts(s: Live, line: Line)
    ensures LiveStep(s, line).last == if line.Marked? then s.last[line.row.pid := line.row.number] else s.last
    ensures LiveStep(s, line).records == s.records + if line.Marked? then 1 else 0
  {
    if line.Marked? { AppliedCounts(Noted(s, line.row), line.row); }
  }

  lemma AppliedCounts(s: Live, row: Row)
    ensures Applied(s, row).state.last == s.last && Applied(s, row).state.records == s.records
  {
  }

  /** Without recorded errors, the records of every process are numbered 1, 2, 3, ... without a gap. */
  lemma {:induction false} LiveIsContiguous(h: seq<Line>, pid: int)
    requires LiveRun(h).errors == []
    ensures Contiguous(Numbers(h, pid)) && LastOf(LiveRun(h).last, pid) == |Numbers(h, pid)|
  {
    if h != [] {
      var p, line := h[..|h| - 1], h[|h| - 1];
      LiveErrorsStay(LiveRun(p), line);
      LiveCounts(LiveRun(p), line);
      LiveIsContiguous(p, pid);
      if line.Marked? && line.row.pid == pid { ContiguousLast(Numbers(p, pid), line.row.number); }
    }
  }

  /** Sum of the values of a map. */
  ghost function Sum<K>(m: map<K, int>): int
    decreases m.Keys
  {
    if m.Keys == {} then 0
    else
      var k :| k in m.Keys;
      m[k] + Sum(m - {k})
  }

  lemma {:induction false} SumWithout<K>(m: map<K, int>, key: K)
    requires key in m
    ensures Sum(m) == m[key] + Sum(m - {key})
    decreases m.Keys
  {
    var k :| k in m.Keys && Sum(m) == m[k] + Sum(m - {k});
    if k != key {
      SumWithout(m - {k}, key);
      SumWithout(m - {key}, k);
      assert m - {k} - {key} == m - {key} - {k};
    }
  }

  lemma SumRaised(m: map<int, int>, key: int, value: int)
    ensures Sum(m[key := value]) == Sum(m) - LastOf(m, key) + value
  {
    SumWithout(m[key := value], key);
    if key in m { SumWithout(m, key); }
    assert m[key := value] - {key} == m - {key};
    if key !in m { assert m - {key} == m; }
  }

  /** Without recorded errors, the number of records is the sum of the last numbers. */
  lemma {:induction false} RecordsAreTheSum(h: seq<Line>)
    requires LiveRun(h).errors == []
    ensures LiveRun(h).records == Sum(LiveRun(h).last)
  {
    if h != [] {
      var p, line := h[..|h| - 1], h[|h| - 1];
      LiveErrorsStay(LiveRun(p), line);
      LiveCounts(LiveRun(p), line);
      RecordsAreTheSum(p);
      if line.Marked? { SumRaised(LiveRun(p).last, line.row.pid, line.row.number); }
    }
  }

  lemma CheckErrorsStay(s: Check, line: Line)
    ensures CheckStep(s, line).errors == [] ==> s.errors == [] && line != Unreadable
    ensures CheckStep(s, line).errors == [] && line.Marked? ==>
              CheckStep(s, line).last == s.last[line.row.pid := line.row.number]
              && CheckStep(s, line).gaps == s.gaps + GapsOf(s.last, line.row)
    ensures line.Unmarked? ==> CheckStep(s, line) == s
  {
  }

  lemma {:induction false} CheckLast(h: seq<Line>, pid: int)
    requires CheckRun(h).errors == []
    ensures LastOf(CheckRun(h).last, pid) == Final(Numbers(h, pid))
  {
    if h != [] {
      CheckErrorsStay(CheckRun(h[..|h| - 1]), h[|h| - 1]);
      CheckLast(h[..|h| - 1], pid);
    }
  }

  ghost predicate AllContiguous(h: seq<Line>) { forall pid :: Contiguous(Numbers(h, pid)) }

  /** The checking reader reports no gap exactly when every process's records are numbered without one. */
  lemma {:induction false} GapsIff(h: seq<Line>)
    requires CheckRun(h).errors == []
    ensures CheckRun(h).gaps == [] <==> AllContiguous(h)
  {
    if h != [] {
      var p, line := h[..|h| - 1], h[|h| - 1];
      CheckErrorsStay(CheckRun(p), line);
      GapsIff(p);
      if line.Marked? {
        var pid := line.row.pid;
        CheckLast(p, pid);
        ContiguousLast(Numbers(p, pid), line.row.number);
        OneMoreNumber(p, line);
      }
      assert h == p + [line];
      if line.Unmarked? {
        forall q ensures Numbers(h, q) == Numbers(p, q) { }
      }
    }
  }

  lemma OneMoreNumber(p: seq<Line>, line: Line)
    requires line.Marked?
    ensures AllContiguous(p + [line]) <==>
            AllContiguous(p) && Contiguous(Numbers(p, line.row.pid) + [line.row.number])
  {
    var h, pid, n := p + [line], line.row.pid, line.row.number;
    assert h[..|p|] == p;
    ContiguousLast(Numbers(p, pid), n);
    forall q ensures Contiguous(Numbers(h, q)) <==> Contiguous(Numbers(p, q)) && (q == pid ==> Contiguous(Numbers(p, pid) + [n])) {
      assert q != pid ==> Numbers(h, q) == Numbers(p, q);
      assert q == pid ==> Numbers(h, q) == Numbers(p, q) + [n];
    }
    assert Contiguous(Numbers(h, pid)) ==> Contiguous(Numbers(p, pid) + [n]);
  }

  // ---------------------------------------------------------------- work in flight

  predicate Enqueues(line: Line, k: Key) {
    line.Marked? && line.row.kind.Enqueue? && (line.row.pid, line.row.kind.dispatch) == k
  }

  predicate Completes(line: Line, k: Key) {
    line.Marked? && line.row.kind.Complete? && (line.row.pid, line.row.kind.done) == k
  }

  /** Enqueued, and not completed since. */
  predicate InFlight(h: seq<Line>, k: Key) {
    h != [] && (Enqueues(h[|h| - 1], k) || (!Completes(h[|h| - 1], k) && InFlight(h[..|h| - 1], k)))
  }

  predicate Done(h: seq<Line>, k: Key) {
    h != [] && (Completes(h[|h| - 1], k) || Done(h[..|h| - 1], k))
  }

  function LastEnqueue(h: seq<Line>, k: Key): Option<Row> {
    if h == [] then None
    else if Enqueues(h[|h| - 1], k) then Some(h[|h| - 1].row)
    else LastEnqueue(h[..|h| - 1], k)
  }

  /** The dispatch was enqueued again after a completion, and is still open. */
  predicate Reopened(h: seq<Line>, k: Key) { InFlight(h, k) && Done(h, k) }

  lemma PendingStep(s: Live, line: Line, k: Key)
    requires LiveStep(s, line).errors == []
    ensures var p := LiveStep(s, line).pending;
            if Enqueues(line, k) then k in p && p[k] == line.row
            else if Completes(line, k) then k !in p
            else (k in p <==> k in s.pending) && (k in p ==> p[k] == s.pending[k])
  {
    if line.Marked? { PendingApplied(Noted(s, line.row), line.row, k); }
  }

  lemma PendingApplied(s: Live, row: Row, k: Key)
    requires Applied(s, row).fault.None?
    ensures var p := Applied(s, row).state.pending;
            if Enqueues(Marked(row), k) then k in p && p[k] == row
            else if Completes(Marked(row), k) then k !in p
            else (k in p <==> k in s.pending) && (k in p ==> p[k] == s.pending[k])
  {
    AppliedPending(s, row);
  }

  /** What a record without a fault does to the pending dispatches. */
  lemma AppliedPending(s: Live, row: Row)
    requires Applied(s, row).fault.None?
    ensures Applied(s, row).state.pending == match row.kind
      case Enqueue(_, dispatch, _) => s.pending[(row.pid, dispatch) := row]
      case Complete(done) => s.pending - {(row.pid, done)}
      case ObjectSaved(_) => s.pending
      case Ready => s.pending
      case OtherKind => s.pending
  {
  }

  lemma {:induction false} PendingIsInFlight(h: seq<Line>, k: Key)
    requires LiveRun(h).errors == []
    ensures k in LiveRun(h).pending <==> InFlight(h, k)
    ensures k in LiveRun(h).pending ==> LastEnqueue(h, k) == Some(LiveRun(h).pending[k])
  {
    if h != [] {
      LiveErrorsStay(LiveRun(h[..|h| - 1]), h[|h| - 1]);
      PendingIsInFlight(h[..|h| - 1], k);
      PendingStep(LiveRun(h[..|h| - 1]), h[|h| - 1], k);
    }
  }

  lemma CheckedStep(s: Check, line: Line, k: Key)
    requires CheckStep(s, line).errors == []
    ensures var t := CheckStep(s, line);
            && (k in t.completed <==> Completes(line, k) || k in s.completed)
            && (if Enqueues(line, k) then k in t.enqueued && t.enqueued[k] == line.row
                else (k in t.enqueued <==> k in s.enqueued) && (k in t.enqueued ==> t.enqueued[k] == s.enqueued[k]))
  {
  }

  lemma {:induction false} CheckedIsDone(h: seq<Line>, k: Key)
    requires CheckRun(h).errors == []
    ensures k in CheckRun(h).completed <==> Done(h, k)
    ensures k in CheckRun(h).enqueued <==> LastEnqueue(h, k).Some?
    ensures k in CheckRun(h).enqueued ==> LastEnqueue(h, k) == Some(CheckRun(h).enqueued[k])
  {
    if h != [] {
      CheckErrorsStay(CheckRun(h[..|h| - 1]), h[|h| - 1]);
      CheckedIsDone(h[..|h| - 1], k);
      CheckedStep(CheckRun(h[..|h| - 1]), h[|h| - 1], k);
    }
  }

  lemma {:induction false} OpenUnlessDone(h: seq<Line>, k: Key)
    ensures LastEnqueue(h, k).Some? && !Done(h, k) ==> InFlight(h, k)
    ensures InFlight(h, k) ==> LastEnqueue(h, k).Some?
  {
    if h != [] { OpenUnlessDone(h[..|h| - 1], k); }
  }

  /** When neither reader saw an error, what the checking reader calls unfinished is in flight for the live
      one, and what is in flight beyond that was enqueued again after a completion. */
  lemma UnfinishedAgreement(h: seq<Line>, k: Key)
    requires LiveRun(h).errors == [] && CheckRun(h).errors == []
    ensures var live, checked := LiveRun(h).pending, Unfinished(CheckRun(h));
            && (k in checked ==> k in live && live[k] == checked[k])
            && (k in live && k !in checked <==> Reopened(h, k))
  {
    PendingIsInFlight(h, k);
    CheckedIsDone(h, k);
    OpenUnlessDone(h, k);
  }

  /** The two agree exactly when no dispatch is open again after a completion. */
  lemma AgreeIff(h: seq<Line>)
    requires LiveRun(h).errors == [] && CheckRun(h).errors == []
    ensures LiveRun(h).pending == Unfinished(CheckRun(h)) <==> forall k :: !Reopened(h, k)
  {
    forall k: Key
      ensures var live, checked := LiveRun(h).pending, Unfinished(CheckRun(h));
              && (k in checked ==> k in live && live[k] == checked[k])
              && (k in live && k !in checked <==> Reopened(h, k))
    {
      UnfinishedAgreement(h, k);
    }
  }

  function Record(number: int, kind: Kind): Line { Marked(Row(1, number, Absent, kind)) }

  const SAVED: Kind := ObjectSaved(7)
  const STARTED: Kind := Enqueue(7, 3, Some("kernel"))
  const FINISHED: Kind := Complete(3)

  /** Dispatch 3 runs, and its number is used once more. */
  const REUSE: seq<Line> := [Record(1, SAVED), Record(2, STARTED), Record(3, FINISHED), Record(4, STARTED)]

  /** Nothing wrong so far, n records read, and code object 7 known from the first on. */
  ghost predicate Quiet(s: Live, n: int) {
    s.errors == [] && LastOf(s.last, 1) == n && (n > 0 ==> (1, 7) in s.objects) && |s.pending| <= n
  }

  lemma QuietStart(s: Live)
    requires Quiet(s, 0)
    ensures Quiet(LiveStep(s, Record(1, SAVED)), 1)
  {
  }

  lemma QuietEnqueue(s: Live, n: int)
    requires Quiet(s, n) && 0 < n < BUDGET
    ensures Quiet(LiveStep(s, Record(n + 1, STARTED)), n + 1)
  {
  }

  lemma QuietComplete(s: Live, n: int)
    requires Quiet(s, n) && 0 < n
    ensures Quiet(LiveStep(s, Record(n + 1, FINISHED)), n + 1)
  {
  }

  lemma ReuseIsQuiet()
    ensures Quiet(LiveRun(REUSE), 4)
  {
    assert REUSE[..3][..2] == REUSE[..2] && REUSE[..2][..1] == REUSE[..1] && REUSE[..1][..0] == [];
    QuietStart(LiveRun([]));
    QuietEnqueue(LiveRun(REUSE[..1]), 1);
    QuietComplete(LiveRun(REUSE[..2]), 2);
    QuietEnqueue(LiveRun(REUSE[..3]), 3);
  }

  lemma CheckedQuietly(s: Check, number: int, kind: Kind)
    requires s.errors == []
    ensures CheckStep(s, Record(number, kind)).errors == []
  {
  }

  lemma ReuseIsChecked()
    ensures CheckRun(REUSE).errors == []
  {
    assert REUSE[..3][..2] == REUSE[..2] && REUSE[..2][..1] == REUSE[..1] && REUSE[..1][..0] == [];
    CheckedQuietly(CheckRun([]), 1, SAVED);
    CheckedQuietly(CheckRun(REUSE[..1]), 2, STARTED);
    CheckedQuietly(CheckRun(REUSE[..2]), 3, FINISHED);
    CheckedQuietly(CheckRun(REUSE[..3]), 4, STARTED);
  }

  /** A stream neither reader finds fault with, on which they disagree: a finished dispatch number is used again,
      and only the live reader still sees the work. */
  lemma ReuseDisagrees()
    ensures LiveRun(REUSE).errors == [] && CheckRun(REUSE).errors == []
    ensures LiveRun(REUSE).pending != Unfinished(CheckRun(REUSE))
  {
    ReuseIsQuiet();
    ReuseIsChecked();
    assert Done(REUSE[..3], (1, 3));
    assert Reopened(REUSE, (1, 3));
    AgreeIff(REUSE);
  }

  /** Dispatch numbers are not used twice, and completions follow their enqueue. */
  ghost predicate Orderly(h: seq<Line>) {
    && (forall i, j, k: Key :: 0 <= i < j < |h| && Enqueues(h[i], k) ==> !Enqueues(h[j], k))
    && (forall j, k: Key :: 0 <= j < |h| && Completes(h[j], k) ==> exists i :: 0 <= i < j && Enqueues(h[i], k))
  }

  lemma {:induction false} InFlightSince(h: seq<Line>, k: Key) returns (i: nat)
    requires InFlight(h, k)
    ensures i < |h| && Enqueues(h[i], k) && forall j :: i < j < |h| ==> !Completes(h[j], k)
  {
    if Enqueues(h[|h| - 1], k) { i := |h| - 1; } else { i := InFlightSince(h[..|h| - 1], k); }
  }

  lemma OrderlyNeverReopens(h: seq<Line>, k: Key)
    requires Orderly(h)
    ensures !Reopened(h, k)
  {
    if InFlight(h, k) {
      var i := InFlightSince(h, k);
      forall j | 0 <= j < |h| ensures !Completes(h[j], k) {
        assert j <= i ==> forall e :: 0 <= e < j ==> !Enqueues(h[e], k);
      }
      NeverDone(h, k);
    }
  }

  lemma {:induction false} NeverDone(h: seq<Line>, k: Key)
    requires forall j :: 0 <= j < |h| ==> !Completes(h[j], k)
    ensures !Done(h, k)
  {
    if h != [] { NeverDone(h[..|h| - 1], k); }
  }

  lemma OrderlyStreamsAgree(h: seq<Line>)
    requires Orderly(h) && LiveRun(h).errors == [] && CheckRun(h).errors == []
    ensures LiveRun(h).pending == Unfinished(CheckRun(h))
  {
    forall k: Key ensures !Reopened(h, k) { OrderlyNeverReopens(h, k); }
    AgreeIff(h);
  }

  /** On orderly streams a passing preflight leaves nothing pending for either reader. */
  lemma SmokeMeansIdle(h: seq<Line>)
    requires Orderly(h) && LiveRun(h).errors == [] && Passes(CheckRun(h))
    ensures LiveRun(h).pending == map[] && Unfinished(CheckRun(h)) == map[] && AllContiguous(h)
  {
    OrderlyStreamsAgree(h);
    GapsIff(h);
  }
}
