/** What one line of the dispatch trace does to either reader, in terms of its fields. */
module GpuTraceMeaning {
  import opened Results
  import opened GpuTrace
  import opened GpuTraceRuns

  /** The record reports an error of its own. */
  predicate Fails(row: Row) { row.error.Text? && row.error.text != "" }

  predicate HasName(row: Row) { row.kind.Enqueue? && row.kind.name.Some? && row.kind.name.value != "UNKNOWN" }

  /** The live reader counts every record, failing or not, and takes nothing else from a failing one. */
  lemma LiveCountsRecord(s: Live, row: Row)
    ensures var a := LiveStep(s, Marked(row));
            && a.records == s.records + 1 && a.last == s.last[row.pid := row.number]
            && a.completions == (if !Fails(row) && row.kind.Complete? then s.completions + 1 else s.completions)
            && a.objects == if !Fails(row) && row.kind.ObjectSaved? then s.objects[(row.pid, row.kind.code) := row] else s.objects
  {
  }

  /** A process has a name once it enqueues a named kernel of a known code object. */
  lemma LiveNames(s: Live, row: Row, pid: int)
    ensures pid in LiveStep(s, Marked(row)).named
            <==> pid in s.named || (pid == row.pid && !Fails(row) && HasName(row) && (pid, row.kind.loaded) in s.objects)
  {
  }

  /** A dispatch is tracked when its code object is known and fewer than 20000 are in flight, and until it completes. */
  lemma LiveTracks(s: Live, row: Row)
    ensures LiveStep(s, Marked(row)).pending ==
            if Fails(row) then s.pending
            else if row.kind.Enqueue? && (row.pid, row.kind.loaded) in s.objects && |s.pending| < 20000 then
              s.pending[(row.pid, row.kind.dispatch) := row]
            else if row.kind.Complete? then s.pending - {(row.pid, row.kind.done)}
            else s.pending
  {
  }

  /** What is wrong with a record besides its number. */
  function FaultOf(s: Live, row: Row): Option<Fault> {
    if row.error.Text? && row.error.text != "" then Some(Reported(row.error.text))
    else if row.kind.Enqueue? && (row.pid, row.kind.loaded) !in s.objects then Some(NoObject)
    else if row.kind.Enqueue? && |s.pending| >= 20000 then Some(TooMany)
    else None
  }

  /** Errors are noted in order, a gap in the numbers before what else is wrong, and the first twenty are kept. */
  lemma LiveNotes(s: Live, row: Row)
    requires |s.errors| < 19
    ensures var expected := (if row.pid in s.last then s.last[row.pid] else 0) + 1;
            var gap := if row.number != expected then [Gap(row.pid, expected - 1, row.number)] else [];
            var other := if FaultOf(s, row).Some? then [FaultOf(s, row).value] else [];
            LiveStep(s, Marked(row)).errors == s.errors + gap + other
  {
    var expected := (if row.pid in s.last then s.last[row.pid] else 0) + 1;
    assert GapsOf(s.last, row) == if row.number != expected then [Gap(row.pid, expected - 1, row.number)] else [];
  }

  lemma {:induction false} TwentyErrors(h: seq<Line>)
    ensures |LiveRun(h).errors| <= 20
  {
    if h != [] { TwentyErrors(h[..|h| - 1]); }
  }

  /** Unreadable records are errors for both; lines without the marker are nothing to either. */
  lemma OtherLines(s: Live, c: Check)
    ensures LiveStep(s, Unmarked) == s && CheckStep(c, Unmarked) == c
    ensures |s.errors| < 20 ==> LiveStep(s, Unreadable) == s.(errors := s.errors + [BadRecord])
    ensures CheckStep(c, Unreadable) == c.(errors := c.errors + [BadRecord])
  {
  }

  /** The checking reader counts every record, and stops at one with an error field, blank or not. */
  lemma CheckTakes(s: Check, row: Row)
    ensures var a := CheckStep(s, Marked(row));
            && a.records == s.records + 1
            && (row.error != Absent ==> a == s.(records := s.records + 1, errors := a.errors)
                                        && a.errors == s.errors + [Reported(if row.error.Blank? then "" else row.error.text)])
            && (row.error == Absent ==>
                  && a.errors == s.errors && a.last == s.last[row.pid := row.number]
                  && (forall pid :: pid in a.ready <==> pid in s.ready || (pid == row.pid && row.kind.Ready?))
                  && (forall n :: n in a.names <==> n in s.names || (HasName(row) && n == row.kind.name.value))
                  && a.enqueued == (if row.kind.Enqueue? then s.enqueued[(row.pid, row.kind.dispatch) := row] else s.enqueued)
                  && a.completed == if row.kind.Complete? then s.completed[(row.pid, row.kind.done) := row] else s.completed)
  {
  }

  /** The preflight passes exactly without errors and gaps, with two processes ready, a named kernel, twenty dispatches,
      and as many completions of just these. */
  lemma PassesIff(s: Check)
    ensures Passes(s) <==>
            && |s.errors| == 0 && |s.gaps| == 0 && |s.ready| > 1 && |s.names| > 0 && |s.enqueued.Keys| > 19
            && s.completed.Keys == s.enqueued.Keys
  {
    assert |s.enqueued| == |s.enqueued.Keys|;
    if s.completed.Keys == s.enqueued.Keys {
      assert Unfinished(s) == map[];
    }
    if Passes(s) {
      forall k ensures k in s.completed.Keys <==> k in s.enqueued.Keys {
        assert k in s.enqueued.Keys && k !in s.completed.Keys ==> k in Unfinished(s);
        assert k in s.completed.Keys && k !in s.enqueued.Keys ==> k in s.completed.Keys - s.enqueued.Keys;
      }
    }
  }
}
