/** The first-fault log window and the runtime watcher's timeline: one directory of rotating logs, and a
    latch that sets everything aside when a fault is seen. */
module FaultWindow {
  import opened RotatingLog
  import opened Results
  import Decimal

  type Dir = Files<string>

  datatype Outcome = Done | BadName | TooLarge | AlreadyThere

  /** The file of segment i: the log itself, then `name.1`, `name.2`, ... */
  function Segment(name: string, i: nat): string {
    if i == 0 then name else name + "." + Decimal.Digits(i)
  }

  /** The files one log uses. The first is used even when no older segment is allowed. */
  function Chain(name: string, segments: nat): (chain: seq<string>)
    ensures |chain| >= 1 && chain[0] == name
  {
    seq(if segments == 0 then 1 else segments, i requires 0 <= i => Segment(name, i))
  }

  lemma SegmentsDiffer(name: string, i: nat, j: nat)
    requires Segment(name, i) == Segment(name, j)
    ensures i == j
  {
    if i > 0 && j > 0 {
      var a, b := Segment(name, i), Segment(name, j);
      assert Decimal.Digits(i) == a[|name| + 1..] == b[|name| + 1..] == Decimal.Digits(j);
      Decimal.ValueOfDigits(i);
      Decimal.ValueOfDigits(j);
    }
  }

  lemma ChainDistinct(name: string, segments: nat)
    ensures Distinct(Chain(name, segments))
  {
    forall i, j | 0 <= i < j < |Chain(name, segments)| ensures Chain(name, segments)[i] != Chain(name, segments)[j] {
      if Segment(name, i) == Segment(name, j) { SegmentsDiffer(name, i, j); }
    }
  }

  predicate IsBasename(name: string) {
    '/' !in name && name != "." && name != ".."
  }

  /** A log may have any name without a slash but the two that mean directories. */
  lemma LogNames(name: string)
    ensures IsBasename(name) <==> (forall i :: 0 <= i < |name| ==> name[i] != '/') && name !in {".", ".."}
    ensures IsBasename("gpu.jsonl") && IsBasename("gpu.jsonl.1") && !IsBasename("a/b") && !IsBasename("..")
  {
    if '/' in name {
      var i :| 0 <= i < |name| && name[i] == '/';
    }
    assert "a/b"[1] == '/';
  }

  /** The files of a log: its name, then its name with a point and 1, 2, 3, ... for older segments, one file at least. */
  lemma LogFiles(name: string, segments: nat)
    ensures Segment(name, 0) == name && Segment(name, 1) == name + ".1" && Segment(name, 12) == name + ".12"
    ensures |Chain(name, segments)| == if segments == 0 then 1 else segments
    ensures forall i :: 0 <= i < |Chain(name, segments)| ==> Chain(name, segments)[i] == Segment(name, i)
  {
    assert Decimal.Digits(1) == "1" && Decimal.Digits(12) == Decimal.Digits(1) + "2" == "12";
    assert name + "." + "1" == name + ".1" && name + "." + "12" == name + ".12";
  }

  const SNAPSHOT := "first-fault"
  const TRIGGER := "trigger.json"

  class Window {
    const limit: nat
    const segments: nat
    var frozen: bool
    var files: Dir
    var snapshot: Option<Dir>

    ghost predicate Valid()
      reads this
    {
      snapshot.Some? ==> frozen
    }

    /** Opening a directory that holds a snapshot, or anything of that name, opens it frozen. */
    constructor (files: Dir, snapshot: Option<Dir>, limit: nat, segments: nat)
      ensures Valid() && this.files == files && this.snapshot == snapshot
      ensures this.limit == limit && this.segments == segments
      ensures frozen == (snapshot.Some? || SNAPSHOT in files)
    {
      this.files, this.snapshot, this.limit, this.segments := files, snapshot, limit, segments;
      frozen := snapshot.Some? || SNAPSHOT in files;
    }

    method Append(name: string, data: Bytes) returns (r: Outcome)
      requires Valid() && name != ""
      modifies this
      ensures Valid() && frozen == old(frozen) && snapshot == old(snapshot)
      ensures r == if frozen then Done else if !IsBasename(name) then BadName
                   else if |data| > limit then TooLarge else Done
      ensures files == if frozen || r != Done then old(files)
                       else RotatingLog.Append(old(files), Chain(name, segments), data, limit)
    {
      if frozen { return Done; }
      if !IsBasename(name) { return BadName; }
      if |data| > limit { return TooLarge; }
      ghost var chain := Chain(name, segments);
      ghost var start := files;
      if name in files && |files[name]| + |data| > limit {
        var index: int := segments - 1;
        while index > 0
          invariant index <= |chain| - 1
          invariant RotateFrom(files, chain, index) == RotateFrom(start, chain, |chain| - 1)
          invariant frozen == old(frozen) && snapshot == old(snapshot)
        {
          var source := if index == 1 then name else Segment(name, index - 1);
          if source in files {
            files := Move(files, source, Segment(name, index));
          }
          index := index - 1;
        }
      }
      files := Write(files, name, data);
      r := Done;
    }

    /** Latch first, then set every file aside and record the trigger. A log named like the snapshot, or
        like the trigger record, makes it fail; the latch stays set. */
    method Freeze(trigger: Bytes) returns (r: Outcome)
      requires Valid()
      modifies this
      ensures Valid() && frozen
      ensures old(frozen) ==> r == Done && files == old(files) && snapshot == old(snapshot)
      ensures !old(frozen) && SNAPSHOT in old(files) ==>
                r == AlreadyThere && files == old(files) && snapshot == old(snapshot)
      ensures !old(frozen) && SNAPSHOT !in old(files) ==>
                && files == map[]
                && (r == AlreadyThere <==> TRIGGER in old(files))
                && snapshot == Some(if TRIGGER in old(files) then old(files) else old(files)[TRIGGER := trigger])
    {
      if frozen { return Done; }
      frozen := true;
      if SNAPSHOT in files { return AlreadyThere; }
      var target: Dir := map[];
      var pending := files.Keys;
      while pending != {}
        invariant pending <= old(files).Keys && target.Keys == old(files).Keys - pending
        invariant files.Keys == pending && frozen && snapshot == old(snapshot)
        invariant forall n :: n in target ==> target[n] == old(files)[n]
        invariant forall n :: n in files ==> files[n] == old(files)[n]
        decreases pending
      {
        var name :| name in pending;
        target := target[name := files[name]];
        files := files - {name};
        pending := pending - {name};
      }
      assert target == old(files);
      if TRIGGER in target {
        snapshot := Some(target);
        return AlreadyThere;
      }
      snapshot := Some(target[TRIGGER := trigger]);
      r := Done;
    }
  }

  // ---------------------------------------------------------------- many logs in one directory

  datatype Op = Op(name: string, data: Bytes)

  /** The directory after a run of accepted appends. */
  ghost function ApplyAll(files: Dir, ops: seq<Op>, limit: nat, segments: nat): Dir {
    if ops == [] then files
    else
      var last := ops[|ops| - 1];
      RotatingLog.Append(ApplyAll(files, ops[..|ops| - 1], limit, segments), Chain(last.name, segments), last.data, limit)
  }

  /** The records appended to one log. */
  ghost function RecordsOf(ops: seq<Op>, name: string): seq<Bytes> {
    if ops == [] then []
    else
      RecordsOf(ops[..|ops| - 1], name) + if ops[|ops| - 1].name == name then [ops[|ops| - 1].data] else []
  }

  /** No log is named like a segment of another. */
  ghost predicate NoCollision(names: set<string>, segments: nat) {
    forall m, n :: m in names && n in names && m != n ==> Apart(Chain(m, segments), Chain(n, segments))
  }

  /** Logs that do not collide do not see each other: each is the record view of its own records. */
  lemma {:induction false} LogsIndependent(files: Dir, ops: seq<Op>, names: set<string>, name: string, limit: nat, segments: nat)
    requires NoCollision(names, segments) && name in names
    requires forall i :: 0 <= i < |ops| ==> ops[i].name in names
    requires Holds(files, Chain(name, segments), [])
    ensures Holds(ApplyAll(files, ops, limit, segments), Chain(name, segments),
                  Run(RecordsOf(ops, name), limit, |Chain(name, segments)|))
  {
    if ops != [] {
      var k := |ops| - 1;
      LogsIndependent(files, ops[..k], names, name, limit, segments);
      LogStep(ApplyAll(files, ops[..k], limit, segments), RecordsOf(ops[..k], name), ops[k], name, limit, segments);
    }
  }

  lemma LogStep(files: Dir, h: seq<Bytes>, op: Op, name: string, limit: nat, segments: nat)
    requires op.name != name ==> Apart(Chain(name, segments), Chain(op.name, segments))
    requires var chain := Chain(name, segments); Holds(files, chain, Run(h, limit, |chain|))
    ensures var chain := Chain(name, segments);
            Holds(RotatingLog.Append(files, Chain(op.name, segments), op.data, limit), chain,
                  Run(h + if op.name == name then [op.data] else [], limit, |chain|))
  {
    var chain := Chain(name, segments);
    if op.name == name {
      ChainDistinct(name, segments);
      AppendRefinesPush(files, chain, Run(h, limit, |chain|), op.data, limit);
      assert (h + [op.data])[..|h|] == h;
    } else {
      AppendApart(files, chain, Chain(op.name, segments), Run(h, limit, |chain|), op.data, limit);
      assert h + [] == h;
    }
  }

  /** The files of a chain joined, oldest first. */
  ghost function Joined(files: Dir, chain: seq<string>): Bytes {
    if chain == [] then []
    else Joined(files, chain[1..]) + if chain[0] in files then files[chain[0]] else []
  }

  lemma {:induction false} JoinedIsRetained(files: Dir, chain: seq<string>, w: Segments)
    requires Holds(files, chain, w)
    ensures Joined(files, chain) == Flat(Retained(w))
  {
    if chain != [] {
      if w == [] {
        assert Holds(files, chain[1..], []);
        JoinedIsRetained(files, chain[1..], []);
      } else {
        assert chain[0] in files && files[chain[0]] == Contents(w)[0];
        assert Contents(w[1..]) == Contents(w)[1..];
        JoinedIsRetained(files, chain[1..], w[1..]);
        FlatAppend(Retained(w[1..]), w[0]);
      }
    }
  }

  ghost predicate IsRecordSuffix(b: Bytes, h: seq<Bytes>) {
    exists k :: 0 <= k <= |h| && b == Flat(h[k..])
  }

  /** The promise of the log: from an empty directory, after any run of accepted appends to logs that do not
      collide, the files of a log joined oldest to newest are whole records, a suffix of what was appended
      to it; each file is within the limit; and once anything is missing, more than half the nominal size
      remains. */
  lemma LogPromise(ops: seq<Op>, names: set<string>, name: string, limit: nat, segments: nat)
    requires segments >= 2 && NoCollision(names, segments) && name in names
    requires forall i :: 0 <= i < |ops| ==> ops[i].name in names && |ops[i].data| <= limit
    ensures var files, chain := ApplyAll(map[], ops, limit, segments), Chain(name, segments);
            var h := RecordsOf(ops, name);
            && IsRecordSuffix(Joined(files, chain), h)
            && (forall i :: 0 <= i < |chain| && chain[i] in files ==> |files[chain[i]]| <= limit)
            && (Joined(files, chain) != Flat(h) ==> |Joined(files, chain)| > (segments / 2) * limit)
  {
    LogsIndependent(map[], ops, names, name, limit, segments);
    RecordsAccepted(ops, name, limit);
    ChainPromise(ApplyAll(map[], ops, limit, segments), Chain(name, segments), RecordsOf(ops, name), limit);
  }

  /** What a chain of files promises that holds the record view of h. */
  lemma ChainPromise(files: Dir, chain: seq<string>, h: seq<Bytes>, limit: nat)
    requires |chain| >= 2 && Accepted(h, limit) && Holds(files, chain, Run(h, limit, |chain|))
    ensures IsRecordSuffix(Joined(files, chain), h)
    ensures forall i :: 0 <= i < |chain| && chain[i] in files ==> |files[chain[i]]| <= limit
    ensures Joined(files, chain) != Flat(h) ==> |Joined(files, chain)| > (|chain| / 2) * limit
  {
    var w := Run(h, limit, |chain|);
    JoinedIsRetained(files, chain, w);
    RetainsSuffix(h, limit, |chain|);
    SegmentsBounded(h, limit, |chain|);
    assert Joined(files, chain) == Flat(h[|h| - |Retained(w)|..]);
    forall i | 0 <= i < |chain| && chain[i] in files ensures |files[chain[i]]| <= limit {
      assert i < |w| && files[chain[i]] == Contents(w)[i] == Flat(w[i]);
      assert Size(w[i]) <= limit;
    }
    if Joined(files, chain) != Flat(h) {
      EnoughRemains(h, limit, |chain|);
    }
  }

  lemma {:induction false} RecordsAccepted(ops: seq<Op>, name: string, limit: nat)
    requires forall i :: 0 <= i < |ops| ==> |ops[i].data| <= limit
    ensures Accepted(RecordsOf(ops, name), limit)
  {
    if ops != [] {
      RecordsAccepted(ops[..|ops| - 1], name, limit);
    }
  }

  // ---------------------------------------------------------------- when log names collide

  /** The names among these that a log can have. */
  ghost function Logs(names: set<string>): set<string> { set n | n in names && n != "" && IsBasename(n) }

  /** Appends that are accepted, to logs of these names. */
  ghost predicate Over(ops: seq<Op>, names: set<string>, limit: nat) {
    forall i :: 0 <= i < |ops| ==> ops[i].name in Logs(names) && |ops[i].data| <= limit
  }

  /** After the appends to an empty directory, a log joined oldest to newest is a record suffix of its own appends. */
  ghost predicate KeepsRecords(ops: seq<Op>, name: string, limit: nat, segments: nat) {
    IsRecordSuffix(Joined(ApplyAll(map[], ops, limit, segments), Chain(name, segments)), RecordsOf(ops, name))
  }

  /** Every run over these names leaves every log a record suffix exactly when no log is named like a segment of
      another. */
  lemma PromiseIff(names: set<string>, limit: nat, segments: nat)
    requires segments >= 2 && limit >= 1
    ensures (forall ops: seq<Op>, name ::
               name in Logs(names) && Over(ops, names, limit) ==> KeepsRecords(ops, name, limit, segments))
            <==> NoCollision(Logs(names), segments)
  {
    if NoCollision(Logs(names), segments) {
      forall ops: seq<Op>, name | name in Logs(names) && Over(ops, names, limit)
        ensures KeepsRecords(ops, name, limit, segments)
      {
        LogPromise(ops, Logs(names), name, limit, segments);
      }
    } else {
      var name, k := CollidingSegment(Logs(names), segments);
      var ops := [Op(Segment(name, k), [0])];
      assert Over(ops, names, limit);
      StrangerInTheLog(name, k, limit, segments);
    }
  }

  /** Colliding logs: one is named like an old segment of the other. */
  lemma CollidingSegment(names: set<string>, segments: nat) returns (name: string, k: nat)
    requires !NoCollision(names, segments) && segments >= 2
    ensures name in names && Segment(name, k) in names && 1 <= k < segments
  {
    var m, n :| m in names && n in names && m != n && !Apart(Chain(m, segments), Chain(n, segments));
    var i :| 0 <= i < |Chain(m, segments)| && Chain(m, segments)[i] in Chain(n, segments);
    var j :| 0 <= j < |Chain(n, segments)| && Chain(n, segments)[j] == Chain(m, segments)[i];
    SegmentsOfDifferentLogs(m, i, n, j);
    if i == 0 { name, k := n, j; } else { name, k := m, i; }
  }

  /** Old segments of two logs are never the same file: a number holds no point. */
  lemma SegmentsOfDifferentLogs(m: string, i: nat, n: string, j: nat)
    requires m != n
    ensures i > 0 && j > 0 ==> Segment(m, i) != Segment(n, j)
  {
    if i > 0 && j > 0 {
      var d, e := Decimal.Digits(i), Decimal.Digits(j);
      LaterPoint(m, d, n, e);
      LaterPoint(n, e, m, d);
      assert (m + "." + d)[..|m|] == m && (n + "." + e)[..|n|] == n;
    }
  }

  lemma LaterPoint(m: string, d: string, n: string, e: string)
    requires Decimal.AllDigits(d)
    ensures |m| < |n| ==> m + "." + d != n + "." + e
  {
    var s, t := m + "." + d, n + "." + e;
    if |m| < |n| < |s| {
      assert s[|n|] == d[|n| - |m| - 1] && t[|n|] == '.';
    }
  }

  /** One record of another log sits where an old segment of this one is looked for. */
  lemma StrangerInTheLog(name: string, k: nat, limit: nat, segments: nat)
    requires 1 <= k < segments && limit >= 1
    ensures !KeepsRecords([Op(Segment(name, k), [0])], name, limit, segments)
  {
    var victim := Segment(name, k);
    var ops := [Op(victim, [0])];
    assert |victim| > |name|;
    assert ops[..0] == [];
    assert ApplyAll(map[], [], limit, segments) == map[];
    assert ApplyAll(map[], ops, limit, segments) == map[victim := [0]];
    assert RecordsOf(ops, name) == [];
    assert Chain(name, segments)[k] == victim;
    ChainDistinct(name, segments);
    JoinedHas(map[victim := [0]], Chain(name, segments), k);
  }

  lemma {:induction false} JoinedHas(files: Dir, chain: seq<string>, k: nat)
    requires k < |chain| && chain[k] in files
    ensures |Joined(files, chain)| >= |files[chain[k]]|
  {
    if k > 0 { JoinedHas(files, chain[1..], k - 1); }
  }

  /** How it happens in a rotation: whatever a file named like an old segment held, the next newer segment replaces
      it. */
  lemma CollisionOverwrites(files: Dir, name: string, data: Bytes, limit: nat, segments: nat, k: nat)
    requires 1 <= k < segments && Full(files, name, data, limit) && Segment(name, k - 1) in files
    ensures var f := RotatingLog.Append(files, Chain(name, segments), data, limit);
            Segment(name, k) in f && f[Segment(name, k)] == files[Segment(name, k - 1)]
  {
    var chain := Chain(name, segments);
    ChainDistinct(name, segments);
    assert chain[k - 1] == Segment(name, k - 1) && chain[k] == Segment(name, k);
    MovesUp(files, chain, segments - 1, k);
  }

  lemma {:induction false} MovesUp<K(!new)>(files: Files<K>, chain: seq<K>, index: nat, k: nat)
    requires Distinct(chain) && 1 <= k <= index < |chain| && chain[k - 1] in files
    ensures var f := RotateFrom(files, chain, index); chain[k] in f && f[chain[k]] == files[chain[k - 1]]
    decreases index
  {
    MoveFacts(files, chain[index - 1], chain[index]);
    if index > k {
      MovesUp(Move(files, chain[index - 1], chain[index]), chain, index - 1, k);
    } else {
      StaysAbove(Move(files, chain[index - 1], chain[index]), chain, index - 1, k);
    }
  }

  lemma {:induction false} StaysAbove<K(!new)>(files: Files<K>, chain: seq<K>, index: int, k: nat)
    requires Distinct(chain) && index < k < |chain| && chain[k] in files
    ensures var f := RotateFrom(files, chain, index); chain[k] in f && f[chain[k]] == files[chain[k]]
    decreases index
  {
    if index >= 1 {
      MoveFacts(files, chain[index - 1], chain[index]);
      StaysAbove(Move(files, chain[index - 1], chain[index]), chain, index - 1, k);
    }
  }

  // ---------------------------------------------------------------- the runtime watcher's timeline

  const TIMELINE: seq<string> := ["timeline.jsonl", "timeline.1.jsonl", "timeline.2.jsonl"]

  lemma TimelineDistinct()
    ensures Distinct(TIMELINE)
  {
    assert TIMELINE[0][9] == 'j' && TIMELINE[1][9] == '1' && TIMELINE[2][9] == '2';
  }

  /** The timeline's files after these records. */
  ghost function TimelineAfter(h: seq<Bytes>, limit: nat): Dir {
    if h == [] then map[] else RotatingLog.Append(TimelineAfter(h[..|h| - 1], limit), TIMELINE, h[|h| - 1], limit)
  }

  lemma {:induction false} TimelineHolds(h: seq<Bytes>, limit: nat)
    ensures Holds(TimelineAfter(h, limit), TIMELINE, Run(h, limit, 3))
  {
    if h != [] {
      TimelineHolds(h[..|h| - 1], limit);
      TimelineDistinct();
      AppendRefinesPush(TimelineAfter(h[..|h| - 1], limit), TIMELINE, Run(h[..|h| - 1], limit, 3), h[|h| - 1], limit);
    }
  }

  /** The promise of the timeline, from an empty directory: its files joined oldest to newest are a record suffix of
      what was appended, each is within the limit, and once anything is missing more than one limit remains. */
  lemma TimelinePromise(h: seq<Bytes>, limit: nat)
    requires Accepted(h, limit)
    ensures var files := TimelineAfter(h, limit);
            && IsRecordSuffix(Joined(files, TIMELINE), h)
            && (forall i :: 0 <= i < 3 && TIMELINE[i] in files ==> |files[TIMELINE[i]]| <= limit)
            && (Joined(files, TIMELINE) != Flat(h) ==> |Joined(files, TIMELINE)| > limit)
  {
    TimelineHolds(h, limit);
    ChainPromise(TimelineAfter(h, limit), TIMELINE, h, limit);
  }

  class Timeline {
    var files: Dir

    constructor (files: Dir)
      ensures this.files == files
    {
      this.files := files;
    }

    /** Two renames written out one by one are the rotation of a chain of three. */
    method Append(payload: Bytes, limit: nat) returns (r: Outcome)
      modifies this
      ensures r == if |payload| > limit then TooLarge else Done
      ensures files == if r == Done then RotatingLog.Append(old(files), TIMELINE, payload, limit) else old(files)
    {
      if |payload| > limit { return TooLarge; }
      var current := "timeline.jsonl";
      if current in files && |files[current]| + |payload| > limit {
        var renames := [("timeline.1.jsonl", "timeline.2.jsonl"), ("timeline.jsonl", "timeline.1.jsonl")];
        for i := 0 to 2
          invariant RotateFrom(files, TIMELINE, 2 - i) == RotateFrom(old(files), TIMELINE, 2)
        {
          if renames[i].0 in files {
            files := Move(files, renames[i].0, renames[i].1);
          }
        }
      }
      files := Write(files, current, payload);
      r := Done;
    }
  }
}
