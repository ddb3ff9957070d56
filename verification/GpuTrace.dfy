/** The two readers of the GPU dispatch trace: a live one that tracks what is in flight, and a checking one that
    gathers the whole trace. Lines are already parsed. */
module GpuTrace {
  import opened Results

  /** A process and its dispatch number, or its code object number. */
  type Key = (int, int)

  datatype ErrorField = Absent | Blank | Text(text: string)

  datatype Kind =
    | Ready
    | ObjectSaved(code: int)
    | Enqueue(loaded: int, dispatch: int, name: Option<string>)
    | Complete(done: int)
    | OtherKind

  datatype Row = Row(pid: int, number: int, error: ErrorField, kind: Kind)

  /** A line of the log: without the marker, with the marker but unreadable, or a record. */
  datatype Line = Unmarked | Unreadable | Marked(row: Row)

  datatype Fault = Gap(pid: int, after: int, next: int) | Reported(text: string) | BadRecord | NoObject | TooMany

  const BUDGET: nat := 20000

  predicate IsNamed(name: Option<string>) { name.Some? && name.value != "UNKNOWN" }

  function LastOf(last: map<int, int>, pid: int): int { if pid in last then last[pid] else 0 }

  function Capped(errors: seq<Fault>): seq<Fault> { if |errors| <= 20 then errors else errors[..20] }

  // ---------------------------------------------------------------- the live reader

  datatype Live = Live(pending: map<Key, Row>, last: map<int, int>, errors: seq<Fault>, records: nat, completions: nat,
                       named: set<int>, objects: map<Key, Row>)

  const IDLE: Live := Live(map[], map[], [], 0, 0, {}, map[])

  datatype Outcome = Outcome(state: Live, fault: Option<Fault>)

  /** What a record does once its number has been noted, and what is wrong with it. */
  function Applied(s: Live, row: Row): Outcome {
    if row.error.Text? && row.error.text != "" then Outcome(s, Some(Reported(row.error.text)))
    else
      match row.kind
      case ObjectSaved(code) => Outcome(s.(objects := s.objects[(row.pid, code) := row]), None)
      case Enqueue(loaded, dispatch, name) =>
        if (row.pid, loaded) !in s.objects then Outcome(s, Some(NoObject))
        else
          var named := s.(named := if IsNamed(name) then s.named + {row.pid} else s.named);
          if |s.pending| >= BUDGET then Outcome(named, Some(TooMany))
          else Outcome(named.(pending := s.pending[(row.pid, dispatch) := row]), None)
      case Complete(done) =>
        Outcome(s.(pending := s.pending - {(row.pid, done)}, completions := s.completions + 1), None)
      case Ready => Outcome(s, None)
      case OtherKind => Outcome(s, None)
  }

  function GapsOf(last: map<int, int>, row: Row): seq<Fault> {
    if row.number != LastOf(last, row.pid) + 1 then [Gap(row.pid, LastOf(last, row.pid), row.number)] else []
  }

  /** Takes down the record's number, and a gap before it. */
  function Noted(s: Live, row: Row): Live {
    s.(last := s.last[row.pid := row.number], records := s.records + 1, errors := s.errors + GapsOf(s.last, row))
  }

  function WithFault(s: Live, fault: Option<Fault>): Live {
    s.(errors := Capped(if fault.Some? then s.errors + [fault.value] else s.errors))
  }

  function LiveStep(s: Live, line: Line): Live {
    match line
    case Unmarked => s
    case Unreadable => WithFault(s, Some(BadRecord))
    case Marked(row) =>
      var o := Applied(Noted(s, row), row);
      WithFault(o.state, o.fault)
  }

  class LiveTrace {
    var pending: map<Key, Row>
    var last: map<int, int>
    var errors: seq<Fault>
    var records: nat
    var completions: nat
    var named: set<int>
    var objects: map<Key, Row>

    function State(): Live
      reads this
    {
      Live(pending, last, errors, records, completions, named, objects)
    }

    constructor ()
      ensures State() == IDLE
    {
      pending, last, errors, records, completions, named, objects := map[], map[], [], 0, 0, {}, map[];
    }

    method Feed(line: Line)
      modifies this
      ensures State() == LiveStep(old(State()), line)
    {
      if line.Unmarked? { return; }
      var fault: Option<Fault>;
      if line.Unreadable? {
        fault := Some(BadRecord);
      } else {
        Note(line.row);
        fault := Apply(line.row);
      }
      if fault.Some? { errors := errors + [fault.value]; }
      if |errors| > 20 { errors := errors[..20]; }
    }

    method Note(row: Row)
      modifies this
      ensures State() == Noted(old(State()), row)
    {
      var previous := LastOf(last, row.pid);
      if row.number != previous + 1 { errors := errors + [Gap(row.pid, previous, row.number)]; }
      last := last[row.pid := row.number];
      records := records + 1;
    }

    method Apply(row: Row) returns (fault: Option<Fault>)
      modifies this
      ensures Outcome(State(), fault) == Applied(old(State()), row)
    {
      fault := None;
      if row.error.Text? && row.error.text != "" { return Some(Reported(row.error.text)); }
      match row.kind {
        case ObjectSaved(code) =>
          objects := objects[(row.pid, code) := row];
        case Enqueue(loaded, dispatch, name) =>
          if (row.pid, loaded) !in objects { return Some(NoObject); }
          if IsNamed(name) { named := named + {row.pid}; }
          if |pending| >= BUDGET { return Some(TooMany); }
          pending := pending[(row.pid, dispatch) := row];
        case Complete(done) =>
          pending := pending - {(row.pid, done)};
          completions := completions + 1;
        case Ready =>
        case OtherKind =>
      }
    }
  }

  // ---------------------------------------------------------------- the checking reader

  datatype Check = Check(last: map<int, int>, gaps: seq<Fault>, errors: seq<Fault>, enqueued: map<Key, Row>,
                         completed: map<Key, Row>, names: set<string>, ready: set<int>, records: nat)

  const EMPTY: Check := Check(map[], [], [], map[], map[], {}, {}, 0)

  function Gathered(s: Check, row: Row): Check {
    match row.kind
    case Ready => s.(ready := s.ready + {row.pid})
    case Enqueue(_, dispatch, name) =>
      s.(enqueued := s.enqueued[(row.pid, dispatch) := row],
         names := if IsNamed(name) then s.names + {name.value} else s.names)
    case Complete(done) => s.(completed := s.completed[(row.pid, done) := row])
    case ObjectSaved(_) => s
    case OtherKind => s
  }

  /** A field of that name is an error here even when it is blank. */
  function ErrorText(e: ErrorField): string { if e.Text? then e.text else "" }

  function Numbered(s: Check, row: Row): Check {
    s.(gaps := s.gaps + GapsOf(s.last, row), last := s.last[row.pid := row.number])
  }

  function CheckStep(s: Check, line: Line): Check {
    match line
    case Unmarked => s
    case Unreadable => s.(errors := s.errors + [BadRecord])
    case Marked(row) =>
      var t := s.(records := s.records + 1);
      if !row.error.Absent? then t.(errors := s.errors + [Reported(ErrorText(row.error))])
      else Gathered(Numbered(t, row), row)
  }

  function Unfinished(s: Check): map<Key, Row> { map k | k in s.enqueued && k !in s.completed :: s.enqueued[k] }

  /** What the preflight demands of a trace. */
  predicate Passes(s: Check) {
    && s.errors == [] && s.gaps == [] && |s.ready| >= 2 && s.names != {} && |s.enqueued| >= 20
    && Unfinished(s) == map[] && s.completed.Keys - s.enqueued.Keys == {}
  }

  class TraceCheck {
    var last: map<int, int>
    var gaps: seq<Fault>
    var errors: seq<Fault>
    var enqueued: map<Key, Row>
    var completed: map<Key, Row>
    var names: set<string>
    var ready: set<int>
    var records: nat

    function State(): Check
      reads this
    {
      Check(last, gaps, errors, enqueued, completed, names, ready, records)
    }

    constructor ()
      ensures State() == EMPTY
    {
      last, gaps, errors, enqueued, completed, names, ready, records := map[], [], [], map[], map[], {}, {}, 0;
    }

    method Feed(line: Line)
      modifies this
      ensures State() == CheckStep(old(State()), line)
    {
      if line.Unmarked? { return; }
      if line.Unreadable? {
        errors := errors + [BadRecord];
        return;
      }
      var row := line.row;
      records := records + 1;
      if !row.error.Absent? {
        errors := errors + [Reported(ErrorText(row.error))];
        return;
      }
      Number(row);
      Gather(row);
    }

    method Number(row: Row)
      modifies this
      ensures State() == Numbered(old(State()), row)
    {
      if row.number != LastOf(last, row.pid) + 1 { gaps := gaps + [Gap(row.pid, LastOf(last, row.pid), row.number)]; }
      last := last[row.pid := row.number];
    }

    method Gather(row: Row)
      modifies this
      ensures State() == Gathered(old(State()), row)
    {
      match row.kind {
        case Ready => ready := ready + {row.pid};
        case Enqueue(_, dispatch, name) =>
          enqueued := enqueued[(row.pid, dispatch) := row];
          if IsNamed(name) { names := names + {name.value}; }
        case Complete(done) => completed := completed[(row.pid, done) := row];
        case ObjectSaved(_) =>
        case OtherKind =>
      }
    }
  }
}
