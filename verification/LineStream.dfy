/** Reassembling the fragments of two pipes into whole lines on one output. */
module LineStream {
  import opened Results

  newtype byte = x: int | 0 <= x < 256

  type Bytes = seq<byte>

  const NEWLINE: byte := 10
  const LINE_LIMIT: nat := 1048576

  // ---------------------------------------------------------------- lines of a byte stream

  /** Position of the first newline, or the length without one. */
  function FirstNewline(s: Bytes): (i: nat)
    ensures i <= |s| && (forall k :: 0 <= k < i ==> s[k] != NEWLINE) && (i < |s| ==> s[i] == NEWLINE)
  {
    if s == [] || s[0] == NEWLINE then 0 else 1 + FirstNewline(s[1..])
  }

  /** The complete lines, each with its newline. */
  function Lines(s: Bytes): seq<Bytes> {
    var i := FirstNewline(s);
    if i == |s| then [] else [s[..i + 1]] + Lines(s[i + 1..])
  }

  /** What follows the last newline. */
  function Tail(s: Bytes): Bytes {
    var i := FirstNewline(s);
    if i == |s| then s else Tail(s[i + 1..])
  }

  function Flatten(lines: seq<Bytes>): Bytes { if lines == [] then [] else lines[0] + Flatten(lines[1..]) }

  /** One newline, at the end. */
  ghost predicate IsLine(s: Bytes) { s != [] && FirstNewline(s) == |s| - 1 }

  ghost predicate AreLines(lines: seq<Bytes>) { forall k :: 0 <= k < |lines| ==> IsLine(lines[k]) }

  lemma FirstNewlineAt(s: Bytes, i: nat)
    requires i <= |s| && (forall k :: 0 <= k < i ==> s[k] != NEWLINE) && (i < |s| ==> s[i] == NEWLINE)
    ensures FirstNewline(s) == i
  {
  }

  /** A stream that starts with a line. */
  lemma LineFirst(line: Bytes, rest: Bytes)
    requires IsLine(line)
    ensures Lines(line + rest) == [line] + Lines(rest) && Tail(line + rest) == Tail(rest)
  {
    FirstNewlineAt(line + rest, |line| - 1);
    assert (line + rest)[..|line|] == line && (line + rest)[|line|..] == rest;
  }

  lemma NoLine(s: Bytes)
    requires NEWLINE !in s
    ensures Lines(s) == [] && Tail(s) == s
  {
    FirstNewlineAt(s, |s|);
  }

  /** Either no newline, or a first line and the rest. */
  lemma FirstLine(s: Bytes) returns (line: Bytes, rest: Bytes)
    ensures NEWLINE in s ==> IsLine(line) && s == line + rest && |rest| < |s|
  {
    var i := FirstNewline(s);
    line, rest := s, [];
    if i < |s| {
      line, rest := s[..i + 1], s[i + 1..];
      FirstNewlineAt(line, i);
    }
  }

  lemma Associates<T>(a: seq<T>, b: seq<T>, c: seq<T>)
    ensures a + (b + c) == (a + b) + c
  {
  }

  lemma FlattenFirst(line: Bytes, lines: seq<Bytes>)
    ensures Flatten([line] + lines) == line + Flatten(lines)
  {
    assert ([line] + lines)[1..] == lines;
  }

  /** Lines and tail are the stream, cut after its newlines. */
  lemma {:induction false} LinesAreTheStream(s: Bytes)
    ensures Flatten(Lines(s)) + Tail(s) == s && AreLines(Lines(s)) && NEWLINE !in Tail(s)
    decreases |s|
  {
    if NEWLINE in s {
      var line, rest := FirstLine(s);
      LinesAreTheStream(rest);
      LineFirst(line, rest);
      FlattenFirst(line, Lines(rest));
    } else {
      NoLine(s);
    }
  }

  /** Every line ends in byte 10 and has it nowhere else; the tail has none. */
  lemma LinesEndInTen(s: Bytes, k: nat)
    requires k < |Lines(s)|
    ensures var line := Lines(s)[k]; line != [] && line[|line| - 1] as int == 10 && forall i :: 0 <= i < |line| - 1 ==> line[i] as int != 10
    ensures forall i :: 0 <= i < |Tail(s)| ==> Tail(s)[i] as int != 10
  {
    LinesAreTheStream(s);
    assert IsLine(Lines(s)[k]);
    forall i | 0 <= i < |Tail(s)| ensures Tail(s)[i] as int != 10 { assert Tail(s)[i] in Tail(s); }
  }

  ghost predicate Splits(s: Bytes, lines: seq<Bytes>, tail: Bytes) { Lines(s) == lines && Tail(s) == tail }

  lemma SplitsLine(line: Bytes, rest: Bytes, lines: seq<Bytes>, tail: Bytes)
    requires IsLine(line) && Splits(rest, lines, tail)
    ensures Splits(line + rest, [line] + lines, tail)
  {
    LineFirst(line, rest);
  }

  lemma FlattenStep(line: Bytes, lines: seq<Bytes>, tail: Bytes)
    ensures Flatten([line] + lines) + tail == line + (Flatten(lines) + tail)
  {
    FlattenFirst(line, lines);
    Associates(line, Flatten(lines), tail);
  }

  /** No other lines and tail make up the stream. */
  lemma {:induction false} LinesAreUnique(lines: seq<Bytes>, tail: Bytes)
    requires AreLines(lines) && NEWLINE !in tail
    ensures Splits(Flatten(lines) + tail, lines, tail)
  {
    if lines == [] {
      NoLine(tail);
      assert Flatten(lines) + tail == tail;
    } else {
      LinesAreUnique(lines[1..], tail);
      SplitsLine(lines[0], Flatten(lines[1..]) + tail, lines[1..], tail);
      assert [lines[0]] + lines[1..] == lines;
      FlattenStep(lines[0], lines[1..], tail);
    }
  }

  /** New bytes only continue the tail. */
  lemma {:induction false} LinesGrow(s: Bytes, chunk: Bytes)
    ensures Splits(s + chunk, Lines(s) + Lines(Tail(s) + chunk), Tail(Tail(s) + chunk))
    decreases |s|
  {
    if NEWLINE in s {
      var line, rest := FirstLine(s);
      LinesGrow(rest, chunk);
      GrowStep(line, rest, chunk, Lines(rest), Tail(rest), Lines(Tail(rest) + chunk), Tail(Tail(rest) + chunk));
    } else {
      NoLine(s);
      assert [] + Lines(s + chunk) == Lines(s + chunk);
    }
  }

  lemma GrowStep(line: Bytes, rest: Bytes, chunk: Bytes, lines: seq<Bytes>, tail: Bytes, more: seq<Bytes>, last: Bytes)
    requires IsLine(line) && Splits(rest, lines, tail) && Splits(rest + chunk, lines + more, last)
    ensures Splits(line + rest, [line] + lines, tail) && Splits((line + rest) + chunk, ([line] + lines) + more, last)
  {
    SplitsLine(line, rest, lines, tail);
    SplitsLine(line, rest + chunk, lines + more, last);
    Associates([line], lines, more);
    Associates(line, rest, chunk);
  }

  // ---------------------------------------------------------------- the two pipes

  /** A read from a pipe; an empty chunk is its end. */
  datatype Event = Event(errors: bool, chunk: Bytes)

  datatype Emission = Emission(errors: bool, data: Bytes)

  datatype Outcome = Finished | Interrupted | WriteFailed | Oversized

  /** All bytes read from one pipe. */
  function Received(events: seq<Event>, errors: bool): Bytes {
    if events == [] then []
    else
      var e := events[|events| - 1];
      Received(events[..|events| - 1], errors) + if e.errors == errors then e.chunk else []
  }

  /** What was emitted for one pipe, in order. */
  function Only(emitted: seq<Emission>, errors: bool): seq<Bytes> {
    if emitted == [] then []
    else
      var e := emitted[|emitted| - 1];
      Only(emitted[..|emitted| - 1], errors) + if e.errors == errors then [e.data] else []
  }

  function Output(emitted: seq<Emission>): Bytes {
    if emitted == [] then [] else Output(emitted[..|emitted| - 1]) + emitted[|emitted| - 1].data
  }

  /** Nothing is read from a pipe after its end. */
  ghost predicate EndsOnce(events: seq<Event>) {
    forall i, j :: 0 <= i < j < |events| && events[i].chunk == [] ==> events[j].errors != events[i].errors
  }

  ghost predicate Ended(events: seq<Event>, errors: bool) { Event(errors, []) in events }

  /** The lines a pipe owes: its complete lines, and at its end what is left, as a line of its own. */
  function Owed(stream: Bytes, ended: bool): seq<Bytes> {
    Lines(stream) + if ended && Tail(stream) != [] then [Tail(stream) + [NEWLINE]] else []
  }

  ghost predicate Positive(counts: seq<int>) { forall k :: 0 <= k < |counts| ==> counts[k] > 0 }

  /** Writes all of data in as many pieces as the output takes. counts are what the next writes will accept. */
  method WriteAll(data: Bytes, counts: seq<int>) returns (written: Bytes, rest: seq<int>, ok: bool)
    ensures written <= data && (ok <==> written == data)
    ensures (Generous(counts) ==> Generous(rest)) && (Positive(counts) ==> ok && Positive(rest))
  {
    written, rest := [], counts;
    while |written| < |data|
      invariant written <= data
      invariant (Generous(counts) ==> Generous(rest)) && (Positive(counts) ==> Positive(rest))
      decreases |data| - |written|
    {
      var left := data[|written|..];
      var wrote := Accepted(left, rest);
      rest := if rest == [] then [] else rest[1..];
      if wrote <= 0 { return written, rest, false; }
      written := written + left[..wrote];
    }
    ok := true;
  }

  /** How much of data the next write takes. */
  function Accepted(data: Bytes, counts: seq<int>): (n: int)
    ensures n <= |data|
  {
    if counts == [] || counts[0] > |data| then |data| else counts[0]
  }

  /** Writes every complete line of pending and keeps the rest. */
  method Drain(pending: Bytes, counts: seq<int>)
    returns (written: Bytes, rest: Bytes, after: seq<int>, ok: bool, ghost lines: seq<Bytes>, ghost partial: Bytes)
    ensures written == Flatten(lines) + partial && lines <= Lines(pending)
    ensures ok ==> Splits(pending, lines, rest) && partial == []
    ensures !ok ==> |lines| < |Lines(pending)| && partial <= Lines(pending)[|lines|]
    ensures (Generous(counts) ==> Generous(after)) && (Positive(counts) ==> ok && Positive(after))
  {
    written, rest, after, lines, partial := [], pending, counts, [], [];
    while NEWLINE in rest
      invariant written == Flatten(lines) && Lines(pending) == lines + Lines(rest) && Tail(pending) == Tail(rest)
      invariant (Generous(counts) ==> Generous(after)) && (Positive(counts) ==> Positive(after))
      decreases |rest|
    {
      var line, more := FirstLineOf(rest);
      LineFirst(line, more);
      var piece;
      piece, after, ok := WriteAll(line, after);
      written := written + piece;
      if !ok {
        partial := piece;
        return;
      }
      FlattenLast(lines, line);
      Associates(lines, [line], Lines(more));
      lines := lines + [line];
      rest := more;
    }
    NoLine(rest);
    ok := true;
  }

  method FirstLineOf(s: Bytes) returns (line: Bytes, rest: Bytes)
    requires NEWLINE in s
    ensures IsLine(line) && s == line + rest
  {
    var i := FirstNewline(s);
    FirstNewlineAt(s[..i + 1], i);
    line, rest := s[..i + 1], s[i + 1..];
  }

  lemma {:induction false} FlattenLast(lines: seq<Bytes>, line: Bytes)
    ensures Flatten(lines + [line]) == Flatten(lines) + line
  {
    if lines == [] {
      assert [line][1..] == [];
    } else {
      FlattenLast(lines[1..], line);
      assert (lines + [line])[1..] == lines[1..] + [line];
    }
  }

  function Emissions(errors: bool, lines: seq<Bytes>): seq<Emission> {
    if lines == [] then [] else Emissions(errors, lines[..|lines| - 1]) + [Emission(errors, lines[|lines| - 1])]
  }

  lemma OnlyLast(emitted: seq<Emission>, e: Emission, errors: bool)
    ensures Only(emitted + [e], errors) == Only(emitted, errors) + if e.errors == errors then [e.data] else []
    ensures Output(emitted + [e]) == Output(emitted) + e.data
  {
    assert (emitted + [e])[..|emitted|] == emitted;
  }

  lemma EmissionsLast(from: bool, lines: seq<Bytes>, line: Bytes)
    ensures Emissions(from, lines + [line]) == Emissions(from, lines) + [Emission(from, line)]
  {
    assert (lines + [line])[..|lines|] == lines;
  }

  lemma {:induction false} OnlyEmissions(emitted: seq<Emission>, from: bool, lines: seq<Bytes>, errors: bool)
    ensures Only(emitted + Emissions(from, lines), errors) == Only(emitted, errors) + if from == errors then lines else []
    ensures Output(emitted + Emissions(from, lines)) == Output(emitted) + Flatten(lines)
  {
    if lines == [] {
      assert emitted + Emissions(from, lines) == emitted;
    } else {
      var n := |lines| - 1;
      assert lines[..n] + [lines[n]] == lines;
      OnlyEmissions(emitted, from, lines[..n], errors);
      EmissionStep(emitted, Emissions(from, lines[..n]), from, lines[..n], lines[n], errors);
      EmissionsLast(from, lines[..n], lines[n]);
    }
  }

  lemma EmissionStep(emitted: seq<Emission>, sent: seq<Emission>, from: bool, lines: seq<Bytes>, line: Bytes, errors: bool)
    requires Only(emitted + sent, errors) == Only(emitted, errors) + if from == errors then lines else []
    requires Output(emitted + sent) == Output(emitted) + Flatten(lines)
    ensures Only(emitted + (sent + [Emission(from, line)]), errors)
            == Only(emitted, errors) + if from == errors then lines + [line] else []
    ensures Output(emitted + (sent + [Emission(from, line)])) == Output(emitted) + Flatten(lines + [line])
  {
    Associates(emitted, sent, [Emission(from, line)]);
    OnlyLast(emitted + sent, Emission(from, line), errors);
    FlattenLast(lines, line);
    Associates(Output(emitted), Flatten(lines), line);
    Associates(Only(emitted, errors), lines, [line]);
  }

  /** A pipe has emitted its lines, after its end also the rest, and holds back only its tail. */
  ghost predicate Kept(emitted: seq<Emission>, stream: Bytes, ended: bool, errors: bool, whole: bool) {
    if ended && Tail(stream) != [] then
      |Only(emitted, errors)| == |Lines(stream)| + 1
      && Only(emitted, errors)[..|Lines(stream)|] == Lines(stream)
      && Only(emitted, errors)[|Lines(stream)|] <= Tail(stream) + [NEWLINE]
      && (whole ==> Only(emitted, errors)[|Lines(stream)|] == Tail(stream) + [NEWLINE])
    else Only(emitted, errors) == Lines(stream)
  }

  lemma KeptWhole(emitted: seq<Emission>, stream: Bytes, ended: bool, errors: bool)
    requires Kept(emitted, stream, ended, errors, true)
    ensures Only(emitted, errors) == Owed(stream, ended)
  {
  }

  /** One pipe while the loop runs. */
  ghost predicate Serves(pending: map<bool, Bytes>, emitted: seq<Emission>, events: seq<Event>, errors: bool, whole: bool) {
    && (errors in pending <==> !Ended(events, errors))
    && (errors in pending ==> pending[errors] == Tail(Received(events, errors)))
    && Kept(emitted, Received(events, errors), Ended(events, errors), errors, whole)
  }

  lemma ReceivedLast(events: seq<Event>, e: Event, errors: bool)
    ensures Received(events + [e], errors) == Received(events, errors) + if e.errors == errors then e.chunk else []
    ensures Ended(events + [e], errors) <==> Ended(events, errors) || (e.errors == errors && e.chunk == [])
  {
    assert (events + [e])[..|events|] == events;
    assert Event(errors, []) in events + [e] <==> Event(errors, []) in events || e == Event(errors, []);
  }

  /** The pipe the event is not about. */
  lemma OtherPipe(pending: map<bool, Bytes>, after: map<bool, Bytes>, emitted: seq<Emission>, more: seq<Emission>,
                  events: seq<Event>, e: Event, whole: bool, still: bool)
    requires Serves(pending, emitted, events, !e.errors, whole) && (still ==> whole)
    requires Only(more, !e.errors) == Only(emitted, !e.errors)
    requires !e.errors in pending <==> !e.errors in after
    requires !e.errors in pending ==> after[!e.errors] == pending[!e.errors]
    ensures Serves(after, more, events + [e], !e.errors, still)
  {
    ReceivedLast(events, e, !e.errors);
    assert Received(events, !e.errors) + [] == Received(events, !e.errors);
  }

  /** The pipe that delivered a chunk, after its lines were written. */
  lemma ChunkPipe(pending: map<bool, Bytes>, emitted: seq<Emission>, events: seq<Event>, e: Event,
                  lines: seq<Bytes>, rest: Bytes, whole: bool)
    requires e.chunk != [] && e.errors in pending && Serves(pending, emitted, events, e.errors, whole)
    requires Splits(pending[e.errors] + e.chunk, lines, rest)
    ensures Serves(pending[e.errors := rest], emitted + Emissions(e.errors, lines), events + [e], e.errors, whole)
  {
    ReceivedLast(events, e, e.errors);
    LinesGrow(Received(events, e.errors), e.chunk);
    OnlyEmissions(emitted, e.errors, lines, e.errors);
  }

  /** The pipe that ended, after what was left was written. */
  lemma EndedPipe(pending: map<bool, Bytes>, emitted: seq<Emission>, events: seq<Event>, e: Event, piece: Bytes, whole: bool)
    requires e.chunk == [] && e.errors in pending && Serves(pending, emitted, events, e.errors, whole)
    requires piece <= pending[e.errors] + [NEWLINE]
    ensures pending[e.errors] == [] ==> Serves(pending - {e.errors}, emitted, events + [e], e.errors, whole)
    ensures pending[e.errors] != [] ==>
              Serves(pending - {e.errors}, emitted + [Emission(e.errors, piece)], events + [e], e.errors,
                     whole && piece == pending[e.errors] + [NEWLINE])
  {
    ReceivedLast(events, e, e.errors);
    assert Received(events, e.errors) + [] == Received(events, e.errors);
    OnlyLast(emitted, Emission(e.errors, piece), e.errors);
  }

  ghost predicate Both(pending: map<bool, Bytes>, emitted: seq<Emission>, events: seq<Event>, whole: bool) {
    forall errors :: Serves(pending, emitted, events, errors, whole)
  }

  /** ... and `whole` tells exactly whether the rest of every ended pipe went out whole. */
  ghost predicate Exactly(pending: map<bool, Bytes>, emitted: seq<Emission>, events: seq<Event>, whole: bool) {
    Both(pending, emitted, events, whole) && (Both(pending, emitted, events, true) ==> whole)
  }

  /** Going back over an event: the pipe it is not about was as whole before, and an open pipe has no rest yet. */
  lemma WholeBefore(pending: map<bool, Bytes>, after: map<bool, Bytes>, emitted: seq<Emission>, more: seq<Emission>,
                    events: seq<Event>, e: Event, whole: bool)
    requires Both(pending, emitted, events, whole) && e.errors in pending
    requires Only(more, !e.errors) == Only(emitted, !e.errors)
    ensures Both(after, more, events + [e], true) ==> Both(pending, emitted, events, true)
  {
    ReceivedLast(events, e, !e.errors);
    assert Received(events, !e.errors) + [] == Received(events, !e.errors);
    assert Serves(pending, emitted, events, e.errors, whole) && Serves(pending, emitted, events, !e.errors, whole);
    if Both(after, more, events + [e], true) {
      assert Serves(after, more, events + [e], !e.errors, true);
      forall errors ensures Serves(pending, emitted, events, errors, true) {
        assert errors == e.errors || errors == !e.errors;
      }
    }
  }

  /** A rest counts as whole only if all of it was written. */
  lemma WholeRest(pending: map<bool, Bytes>, after: map<bool, Bytes>, emitted: seq<Emission>, events: seq<Event>, e: Event,
                  piece: Bytes, whole: bool)
    requires e.chunk == [] && e.errors in pending && Both(pending, emitted, events, whole) && pending[e.errors] != []
    ensures Both(after, emitted + [Emission(e.errors, piece)], events + [e], true) ==> piece == pending[e.errors] + [NEWLINE]
  {
    ReceivedLast(events, e, e.errors);
    assert Received(events, e.errors) + [] == Received(events, e.errors);
    OnlyLast(emitted, Emission(e.errors, piece), e.errors);
    assert Serves(pending, emitted, events, e.errors, whole);
    var more := emitted + [Emission(e.errors, piece)];
    if Both(after, more, events + [e], true) {
      assert Serves(after, more, events + [e], e.errors, true);
      assert Only(more, e.errors)[|Lines(Received(events, e.errors))|] == piece;
    }
  }

  /** Every write takes more than the longest rest. */
  ghost predicate Generous(counts: seq<int>) { forall k :: 0 <= k < |counts| ==> counts[k] > LINE_LIMIT }

  ghost predicate Small(pending: map<bool, Bytes>) { forall errors :: errors in pending ==> |pending[errors]| <= LINE_LIMIT }

  /** A pipe has emitted nothing but its own lines, in order, and perhaps not all of them yet. */
  ghost predicate Faithful(emitted: seq<Emission>, events: seq<Event>, errors: bool, whole: bool) {
    || Only(emitted, errors) <= Lines(Received(events, errors))
    || Kept(emitted, Received(events, errors), Ended(events, errors), errors, whole)
  }

  /** A pipe has ended: what it left without a newline goes out in a single write. */
  method TakeEnd(pending: map<bool, Bytes>, counts: seq<int>, e: Event, ghost emitted: seq<Emission>,
                 ghost events: seq<Event>, ghost whole: bool)
    returns (after: map<bool, Bytes>, written: Bytes, rest: seq<int>, ghost more: seq<Emission>, ghost still: bool)
    requires e.chunk == [] && e.errors in pending && Exactly(pending, emitted, events, whole) && Small(pending)
    ensures Exactly(after, more, events + [e], still) && Output(more) == Output(emitted) + written && Small(after)
    ensures Generous(counts) ==> still == whole && Generous(rest)
    ensures Positive(counts) ==> Positive(rest)
  {
    written, rest, more, still := [], counts, emitted, whole;
    var left := pending[e.errors];
    after := pending - {e.errors};
    if left != [] {
      var n := Accepted(left + [NEWLINE], counts);
      written := (left + [NEWLINE])[..if n > 0 then n else 0];
      rest := if counts == [] then [] else counts[1..];
      more := emitted + [Emission(e.errors, written)];
      still := whole && written == left + [NEWLINE];
    }
    if left == [] {
      EndNothing(pending, emitted, events, e, whole);
    } else {
      EndRest(pending, emitted, events, e, written, whole);
    }
  }

  lemma EndNothing(pending: map<bool, Bytes>, emitted: seq<Emission>, events: seq<Event>, e: Event, whole: bool)
    requires e.chunk == [] && e.errors in pending && Exactly(pending, emitted, events, whole) && pending[e.errors] == []
    ensures Exactly(pending - {e.errors}, emitted, events + [e], whole)
  {
    EndBoth(pending, pending - {e.errors}, emitted, events, e, whole);
    WholeBefore(pending, pending - {e.errors}, emitted, emitted, events, e, whole);
  }

  lemma EndBoth(pending: map<bool, Bytes>, after: map<bool, Bytes>, emitted: seq<Emission>, events: seq<Event>, e: Event,
                whole: bool)
    requires e.chunk == [] && e.errors in pending && Both(pending, emitted, events, whole) && pending[e.errors] == []
    requires after == pending - {e.errors}
    ensures Both(after, emitted, events + [e], whole)
  {
    EitherServes(pending, emitted, events, e.errors, whole);
    EndedPipe(pending, emitted, events, e, [], whole);
    OtherPipe(pending, after, emitted, emitted, events, e, whole, whole);
    BothServe(after, emitted, events + [e], e.errors, whole);
  }

  lemma EndRest(pending: map<bool, Bytes>, emitted: seq<Emission>, events: seq<Event>, e: Event, piece: Bytes, whole: bool)
    requires e.chunk == [] && e.errors in pending && Exactly(pending, emitted, events, whole) && pending[e.errors] != []
    requires piece <= pending[e.errors] + [NEWLINE]
    ensures var more := emitted + [Emission(e.errors, piece)];
            && Exactly(pending - {e.errors}, more, events + [e], whole && piece == pending[e.errors] + [NEWLINE])
            && Output(more) == Output(emitted) + piece
  {
    var after, more := pending - {e.errors}, emitted + [Emission(e.errors, piece)];
    var still := whole && piece == pending[e.errors] + [NEWLINE];
    EitherServes(pending, emitted, events, e.errors, whole);
    EndedPipe(pending, emitted, events, e, piece, whole);
    OnlyLast(emitted, Emission(e.errors, piece), !e.errors);
    OtherPipe(pending, after, emitted, more, events, e, whole, still);
    BothServe(after, more, events + [e], e.errors, still);
    WholeBefore(pending, after, emitted, more, events, e, whole);
    WholeRest(pending, after, emitted, events, e, piece, whole);
  }

  /** A chunk has arrived: whole lines go out, the rest waits. */
  method TakeChunk(pending: map<bool, Bytes>, counts: seq<int>, e: Event, ghost emitted: seq<Emission>,
                   ghost events: seq<Event>, ghost whole: bool)
    returns (after: map<bool, Bytes>, written: Bytes, rest: seq<int>, ok: bool, ghost more: seq<Emission>, ghost partial: Bytes)
    requires e.chunk != [] && e.errors in pending && Exactly(pending, emitted, events, whole)
    ensures Output(emitted) + written == Output(more) + partial
    ensures ok ==> Exactly(after, more, events + [e], whole) && partial == []
    ensures !ok ==> Faithful(more, events + [e], false, whole) && Faithful(more, events + [e], true, whole)
    ensures e.errors in after && after == pending[e.errors := after[e.errors]]
    ensures (Generous(counts) ==> Generous(rest)) && (Positive(counts) ==> ok && Positive(rest))
  {
    ghost var lines;
    var left;
    written, left, rest, ok, lines, partial := Drain(pending[e.errors] + e.chunk, counts);
    after := pending[e.errors := left];
    more := emitted + Emissions(e.errors, lines);
    ChunkWritten(emitted, e.errors, lines, partial);
    if ok {
      ChunkBoth(pending, emitted, events, e, lines, left, whole);
      OnlyEmissions(emitted, e.errors, lines, !e.errors);
      WholeBefore(pending, after, emitted, more, events, e, whole);
    } else {
      StoppedBoth(pending, emitted, events, e, lines, whole);
    }
  }

  lemma ChunkWritten(emitted: seq<Emission>, from: bool, lines: seq<Bytes>, partial: Bytes)
    ensures Output(emitted) + (Flatten(lines) + partial) == Output(emitted + Emissions(from, lines)) + partial
  {
    OnlyEmissions(emitted, from, lines, from);
    Associates(Output(emitted), Flatten(lines), partial);
  }

  lemma ChunkBoth(pending: map<bool, Bytes>, emitted: seq<Emission>, events: seq<Event>, e: Event,
                  lines: seq<Bytes>, rest: Bytes, whole: bool)
    requires e.chunk != [] && e.errors in pending && Both(pending, emitted, events, whole)
    requires Splits(pending[e.errors] + e.chunk, lines, rest)
    ensures Both(pending[e.errors := rest], emitted + Emissions(e.errors, lines), events + [e], whole)
  {
    var more := emitted + Emissions(e.errors, lines);
    EitherServes(pending, emitted, events, e.errors, whole);
    ChunkPipe(pending, emitted, events, e, lines, rest, whole);
    OnlyEmissions(emitted, e.errors, lines, !e.errors);
    OtherPipe(pending, pending[e.errors := rest], emitted, more, events, e, whole, whole);
    BothServe(pending[e.errors := rest], more, events + [e], e.errors, whole);
  }

  lemma EitherServes(pending: map<bool, Bytes>, emitted: seq<Emission>, events: seq<Event>, errors: bool, whole: bool)
    requires Both(pending, emitted, events, whole)
    ensures Serves(pending, emitted, events, errors, whole) && Serves(pending, emitted, events, !errors, whole)
  {
  }

  lemma BothServe(pending: map<bool, Bytes>, emitted: seq<Emission>, events: seq<Event>, errors: bool, whole: bool)
    requires Serves(pending, emitted, events, errors, whole) && Serves(pending, emitted, events, !errors, whole)
    ensures Both(pending, emitted, events, whole)
  {
    forall other ensures Serves(pending, emitted, events, other, whole) {
      assert other == errors || other == !errors;
    }
  }

  lemma StoppedBoth(pending: map<bool, Bytes>, emitted: seq<Emission>, events: seq<Event>, e: Event, lines: seq<Bytes>, whole: bool)
    requires e.errors in pending && Both(pending, emitted, events, whole) && lines <= Lines(pending[e.errors] + e.chunk)
    ensures var more := emitted + Emissions(e.errors, lines);
            Faithful(more, events + [e], false, whole) && Faithful(more, events + [e], true, whole)
  {
    var more := emitted + Emissions(e.errors, lines);
    StoppedPipe(pending, emitted, events, e, lines, whole);
    OnlyEmissions(emitted, e.errors, lines, !e.errors);
    OtherPipe(pending, pending, emitted, more, events, e, whole, whole);
    assert Faithful(more, events + [e], e.errors, whole) && Faithful(more, events + [e], !e.errors, whole);
  }

  lemma StoppedPipe(pending: map<bool, Bytes>, emitted: seq<Emission>, events: seq<Event>, e: Event, lines: seq<Bytes>, whole: bool)
    requires e.errors in pending && Serves(pending, emitted, events, e.errors, whole)
    requires lines <= Lines(pending[e.errors] + e.chunk)
    ensures Only(emitted + Emissions(e.errors, lines), e.errors) <= Lines(Received(events + [e], e.errors))
  {
    ReceivedLast(events, e, e.errors);
    LinesGrow(Received(events, e.errors), e.chunk);
    OnlyEmissions(emitted, e.errors, lines, e.errors);
  }

  /** What is claimed of a copy at any point. */
  ghost predicate Copied(emitted: seq<Emission>, events: seq<Event>, whole: bool) {
    forall errors :: Faithful(emitted, events, errors, whole)
  }

  /** What is claimed when all of the events were taken in. */
  ghost predicate Complete(emitted: seq<Emission>, events: seq<Event>, whole: bool) {
    && Kept(emitted, Received(events, false), Ended(events, false), false, whole)
    && Kept(emitted, Received(events, true), Ended(events, true), true, whole)
  }

  lemma BothComplete(pending: map<bool, Bytes>, emitted: seq<Emission>, events: seq<Event>, whole: bool)
    requires Both(pending, emitted, events, whole)
    ensures Complete(emitted, events, whole) && Copied(emitted, events, whole)
    ensures pending.Keys == {} ==> Ended(events, false) && Ended(events, true)
    ensures Complete(emitted, events, true) ==> Both(pending, emitted, events, true)
  {
    assert Serves(pending, emitted, events, false, whole) && Serves(pending, emitted, events, true, whole);
    forall errors | Complete(emitted, events, true) ensures Serves(pending, emitted, events, errors, true) {
      assert Serves(pending, emitted, events, errors, whole);
    }
  }

  lemma TooLong(pending: map<bool, Bytes>, emitted: seq<Emission>, seen: seq<Event>, errors: bool, whole: bool)
    requires Both(pending, emitted, seen, whole) && errors in pending && |pending[errors]| > LINE_LIMIT
    ensures !SmallTail(seen, errors)
  {
    EitherServes(pending, emitted, seen, errors, whole);
  }

  /** One event; Some outcome when the copy stops on it. */
  method TakeEvent(pending: map<bool, Bytes>, output: Bytes, counts: seq<int>, e: Event, ghost emitted: seq<Emission>,
                   ghost events: seq<Event>, ghost whole: bool)
    returns (after: map<bool, Bytes>, out: Bytes, rest: seq<int>, stop: Option<Outcome>,
             ghost more: seq<Emission>, ghost partial: Bytes, ghost still: bool)
    requires e.errors in pending && output == Output(emitted)
    requires Exactly(pending, emitted, events, whole) && Small(pending)
    ensures out == Output(more) + partial && Running(after, stop, more, events + [e], partial, still)
    ensures Generous(counts) ==> still == whole && Generous(rest)
    ensures Positive(counts) ==> Positive(rest) && stop != Some(WriteFailed)
    ensures stop == Some(Oversized) ==> exists errors :: !SmallTail(events + [e], errors)
  {
    var written, ok;
    stop, partial, still := None, [], whole;
    if e.chunk == [] {
      after, written, rest, more, still := TakeEnd(pending, counts, e, emitted, events, whole);
      BothComplete(after, more, events + [e], still);
    } else {
      after, written, rest, ok, more, partial := TakeChunk(pending, counts, e, emitted, events, whole);
      if !ok { stop := Some(WriteFailed); } else {
        BothComplete(after, more, events + [e], still);
        if |after[e.errors]| > LINE_LIMIT {
          TooLong(after, more, events + [e], e.errors, still);
          stop := Some(Oversized);
        }
      }
    }
    out := output + written;
  }

  /** Copies both pipes to the output. events are the reads in the order they arrive, counts what successive
      writes will accept; beyond them writes are whole. Ghost results tell which pipe each written piece is
      from, and whether the rest of each ended pipe went out whole in its one write, as it does whenever every
      write takes more than the longest line. */
  method Copy(events: seq<Event>, counts: seq<int>)
    returns (output: Bytes, outcome: Outcome, used: nat, ghost emitted: seq<Emission>, ghost partial: Bytes, ghost whole: bool)
    requires EndsOnce(events)
    ensures used <= |events| && output == Output(emitted) + partial && Copied(emitted, events[..used], whole)
    ensures outcome != WriteFailed ==> partial == []
    ensures outcome == Finished || outcome == Interrupted ==> Complete(emitted, events[..used], whole)
    ensures outcome == Finished ==> Ended(events[..used], false) && Ended(events[..used], true)
    ensures outcome == Finished || outcome == Interrupted ==> (whole <==> Complete(emitted, events[..used], true))
    ensures outcome == Interrupted ==> used == |events|
    ensures Generous(counts) ==> whole
    ensures Positive(counts) ==> outcome != WriteFailed
    ensures outcome == Oversized ==> exists errors :: !SmallTail(events[..used], errors)
    ensures outcome == Finished || outcome == Interrupted ==> NeverOversized(events, used)
  {
    var pending, stop;
    output, pending, stop, used, emitted, partial, whole := CopyUntil(events, counts);
    if stop.Some? {
      outcome := stop.value;
    } else {
      BothComplete(pending, emitted, events[..used], whole);
      outcome := if pending.Keys == {} then Finished else Interrupted;
    }
  }

  /** At no time was a pipe's unfinished line longer than a mebibyte. */
  ghost predicate NeverOversized(events: seq<Event>, used: nat)
    requires used <= |events|
  {
    forall k, errors :: 0 <= k <= used ==> SmallTail(events[..k], errors)
  }

  predicate SmallTail(seen: seq<Event>, errors: bool) { |Tail(Received(seen, errors))| <= 1048576 }

  lemma StillSmall(events: seq<Event>, k: nat, seen: seq<Event>, pending: map<bool, Bytes>, emitted: seq<Emission>, whole: bool)
    requires k < |events| && EndsOnce(events) && NeverOversized(events, k) && seen == events[..k] + [events[k]]
    requires Both(pending, emitted, seen, whole) && Small(pending)
    ensures NeverOversized(events, k + 1)
  {
    assert events[..k + 1] == seen;
    forall errors ensures SmallTail(seen, errors) {
      assert SmallTail(events[..k], errors);
      assert Serves(pending, emitted, seen, errors, whole);
      EndedKeeps(events, k, errors);
    }
    forall j, errors | 0 <= j <= k + 1 ensures SmallTail(events[..j], errors) {
      assert j <= k || j == k + 1;
    }
  }

  lemma EndedKeeps(events: seq<Event>, k: nat, errors: bool)
    requires k < |events| && EndsOnce(events)
    ensures Ended(events[..k + 1], errors) ==> Received(events[..k + 1], errors) == Received(events[..k], errors)
  {
    assert events[..k + 1] == events[..k] + [events[k]];
    ReceivedLast(events[..k], events[k], errors);
    if Event(errors, []) in events[..k + 1] {
      var i :| 0 <= i <= k && events[i] == Event(errors, []);
      assert i < k ==> events[k].errors != errors;
      assert Received(events[..k], errors) + [] == Received(events[..k], errors);
    }
  }

  /** The loop goes on with all lines delivered, or has stopped on a write or an oversized line. */
  ghost predicate Running(pending: map<bool, Bytes>, stop: Option<Outcome>, emitted: seq<Emission>, seen: seq<Event>,
                          partial: Bytes, whole: bool) {
    if stop.None? then Exactly(pending, emitted, seen, whole) && Small(pending) && partial == []
    else Copied(emitted, seen, whole) && stop.value in {WriteFailed, Oversized} && (stop.value == Oversized ==> partial == [])
  }

  /** The loop, until both pipes have ended, the events run out or it has to stop. */
  method CopyUntil(events: seq<Event>, counts: seq<int>)
    returns (output: Bytes, pending: map<bool, Bytes>, stop: Option<Outcome>, used: nat,
             ghost emitted: seq<Emission>, ghost partial: Bytes, ghost whole: bool)
    requires EndsOnce(events)
    ensures used <= |events| && output == Output(emitted) + partial
    ensures Running(pending, stop, emitted, events[..used], partial, whole)
    ensures stop.None? && pending.Keys != {} ==> used == |events|
    ensures stop.None? ==> NeverOversized(events, used)
    ensures stop == Some(Oversized) ==> exists errors :: !SmallTail(events[..used], errors)
    ensures (Generous(counts) ==> whole) && (Positive(counts) ==> stop != Some(WriteFailed))
  {
    var rest := counts;
    pending, stop := map[false := [], true := []], None;
    output, used, emitted, partial, whole := [], 0, [], [], true;
    ghost var seen: seq<Event> := [];
    NothingSeen();
    while pending.Keys != {} && used < |events| && stop.None?
      invariant used <= |events| && output == Output(emitted) + partial && seen == events[..used]
      invariant stop.None? ==> NeverOversized(events, used)
      invariant stop == Some(Oversized) ==> exists errors :: !SmallTail(seen, errors)
      invariant Running(pending, stop, emitted, seen, partial, whole)
      invariant (Generous(counts) ==> whole && Generous(rest)) && (Positive(counts) ==> Positive(rest) && stop != Some(WriteFailed))
      decreases |events| - used
    {
      StillOpen(pending, emitted, events, used, whole);
      pending, output, rest, stop, emitted, partial, whole :=
        TakeEvent(pending, output, rest, events[used], emitted, seen, whole);
      seen := seen + [events[used]];
      if stop.None? { StillSmall(events, used, seen, pending, emitted, whole); }
      used := used + 1;
    }
  }

  lemma NothingSeen()
    ensures Both(map[false := [], true := []], [], [], true)
  {
  }

  lemma StillOpen(pending: map<bool, Bytes>, emitted: seq<Emission>, events: seq<Event>, k: nat, whole: bool)
    requires EndsOnce(events) && k < |events| && Both(pending, emitted, events[..k], whole)
    ensures events[k].errors in pending
  {
    assert Serves(pending, emitted, events[..k], events[k].errors, whole);
  }

  /** When every ended pipe's rest went out whole, a finished copy holds exactly the lines of both pipes, each
      in order, and no byte but the newline given to an unterminated rest is added or lost. */
  lemma FinishedCopy(emitted: seq<Emission>, events: seq<Event>)
    requires Ended(events, false) && Ended(events, true) && Complete(emitted, events, true)
    ensures Only(emitted, false) == Owed(Received(events, false), true)
    ensures Only(emitted, true) == Owed(Received(events, true), true)
    ensures |Output(emitted)| == |Received(events, false)| + |Received(events, true)|
                                 + Added(Received(events, false)) + Added(Received(events, true))
  {
    KeptWhole(emitted, Received(events, false), true, false);
    KeptWhole(emitted, Received(events, true), true, true);
    OutputSize(emitted);
    OwedSize(Received(events, false));
    OwedSize(Received(events, true));
  }

  function Added(stream: Bytes): nat { if Tail(stream) != [] then 1 else 0 }

  lemma {:induction false} OutputSize(emitted: seq<Emission>)
    ensures |Output(emitted)| == |Flatten(Only(emitted, false))| + |Flatten(Only(emitted, true))|
  {
    if emitted != [] {
      var p, e := emitted[..|emitted| - 1], emitted[|emitted| - 1];
      OutputSize(p);
      assert emitted == p + [e];
      OnlyLast(p, e, false);
      OnlyLast(p, e, true);
      FlattenLast(Only(p, e.errors), e.data);
      assert Only(p, !e.errors) + [] == Only(p, !e.errors);
    }
  }

  lemma OwedSize(stream: Bytes)
    ensures |Flatten(Owed(stream, true))| == |stream| + Added(stream)
  {
    LinesAreTheStream(stream);
    FlattenLast(Lines(stream), Tail(stream) + [NEWLINE]);
    assert Lines(stream) + [] == Lines(stream);
  }
}
