/** Bounded logs kept as a chain of files: the current one first, then older segments. One append may
    shift every segment one place and drop the oldest. */
module RotatingLog {

  type Bytes = seq<bv8>
  /** A directory: file names are of any type K. */
  type Files<K> = map<K, Bytes>

  ghost predicate Distinct<K>(chain: seq<K>) {
    forall i, j :: 0 <= i < j < |chain| ==> chain[i] != chain[j]
  }

  /** Rename one file over another, if it exists. */
  function Move<K(==)>(files: Files<K>, source: K, target: K): Files<K> {
    if source in files then (files - {source})[target := files[source]] else files
  }

  /** The rotation loop from `index` down to 1. */
  function RotateFrom<K(==)>(files: Files<K>, chain: seq<K>, index: int): Files<K>
    requires index < |chain|
    decreases index
  {
    if index < 1 then files else RotateFrom(Move(files, chain[index - 1], chain[index]), chain, index - 1)
  }

  function Write<K(==)>(files: Files<K>, name: K, data: Bytes): Files<K> {
    files[name := if name in files then files[name] + data else data]
  }

  predicate Full<K(==)>(files: Files<K>, name: K, data: Bytes, limit: nat) {
    name in files && |files[name]| + |data| > limit
  }

  /** The effect of one accepted append. */
  function Append<K(==)>(files: Files<K>, chain: seq<K>, data: Bytes, limit: nat): Files<K>
    requires chain != []
  {
    Write(if Full(files, chain[0], data, limit) then RotateFrom(files, chain, |chain| - 1) else files, chain[0], data)
  }

  // ---------------------------------------------------------------- the log as records

  /** A log as its segments, newest first; a segment is the records in it, oldest first. */
  type Segments = seq<seq<Bytes>>

  ghost function Flat(records: seq<Bytes>): Bytes {
    if records == [] then [] else Flat(records[..|records| - 1]) + records[|records| - 1]
  }

  ghost function Size(records: seq<Bytes>): nat { |Flat(records)| }

  /** All records of the log, oldest first. */
  ghost function Retained(w: Segments): seq<Bytes> {
    if w == [] then [] else Retained(w[1..]) + w[0]
  }

  /** What an append means on records: open a new segment when the current one is full, and keep at most
      `count` segments. A chain of one file is never rotated. */
  ghost function Push(w: Segments, data: Bytes, limit: nat, count: nat): Segments {
    if w == [] then [[data]]
    else if Size(w[0]) + |data| > limit && count >= 2 then
      [[data]] + if |w| < count then w else w[..count - 1]
    else [w[0] + [data]] + w[1..]
  }

  /** The files of the chain hold exactly these contents. */
  ghost predicate Stores<K>(files: Files<K>, chain: seq<K>, c: seq<Bytes>) {
    && |c| <= |chain|
    && (forall i :: 0 <= i < |c| ==> chain[i] in files && files[chain[i]] == c[i])
    && (forall i :: |c| <= i < |chain| ==> chain[i] !in files)
  }

  ghost predicate Holds<K>(files: Files<K>, chain: seq<K>, w: Segments) {
    Stores(files, chain, Contents(w))
  }

  ghost function Contents(w: Segments): (c: seq<Bytes>)
    ensures |c| == |w|
  {
    seq(|w|, i requires 0 <= i < |w| => Flat(w[i]))
  }

  /** Only files of the chain differ. */
  ghost predicate Elsewhere<K(!new)>(f: Files<K>, f': Files<K>, chain: seq<K>) {
    forall n :: n !in chain ==> (n in f' <==> n in f) && (n in f ==> f'[n] == f[n])
  }

  /** Rotation moves every segment up to `index` one place and touches no other file. */
  lemma {:induction false} RotateShifts<K(!new)>(files: Files<K>, chain: seq<K>, index: nat, c: seq<Bytes>)
    requires Distinct(chain) && index < |chain|
    requires forall i :: 0 <= i < index ==> (chain[i] in files <==> i < |c|)
    requires forall i :: 0 <= i < |c| && i < index ==> files[chain[i]] == c[i]
    requires index > |c| ==> chain[index] !in files
    ensures var f := RotateFrom(files, chain, index);
            && (index > 0 ==> chain[0] !in f)
            && (forall i :: 1 <= i <= index && i <= |c| ==> chain[i] in f && f[chain[i]] == c[i - 1])
            && (forall i :: |c| < i <= index ==> chain[i] !in f)
            && (forall i :: index < i < |chain| ==> (chain[i] in f <==> chain[i] in files) && (chain[i] in files ==> f[chain[i]] == files[chain[i]]))
    decreases index
  {
    if index > 0 {
      var f1 := Move(files, chain[index - 1], chain[index]);
      MoveFacts(files, chain[index - 1], chain[index]);
      assert forall i :: 0 <= i < index - 1 ==> (chain[i] in f1 <==> chain[i] in files);
      RotateShifts(f1, chain, index - 1, c);
    }
  }

  /** Whatever the files hold, an append touches only the chain. */
  lemma {:induction false} RotateElsewhere<K(!new)>(files: Files<K>, chain: seq<K>, index: int)
    requires index < |chain|
    ensures Elsewhere(files, RotateFrom(files, chain, index), chain)
    decreases index
  {
    if index >= 1 {
      RotateElsewhere(Move(files, chain[index - 1], chain[index]), chain, index - 1);
    }
  }

  lemma AppendElsewhere<K(!new)>(files: Files<K>, chain: seq<K>, data: Bytes, limit: nat)
    requires chain != []
    ensures Elsewhere(files, Append(files, chain, data, limit), chain)
  {
    RotateElsewhere(files, chain, |chain| - 1);
  }

  lemma MoveFacts<K(!new)>(files: Files<K>, source: K, target: K)
    requires source != target
    ensures source !in Move(files, source, target)
    ensures source in files ==> target in Move(files, source, target) && Move(files, source, target)[target] == files[source]
    ensures source !in files ==> Move(files, source, target) == files
    ensures forall n :: n != source && n != target ==>
              (n in Move(files, source, target) <==> n in files) &&
              (n in files ==> Move(files, source, target)[n] == files[n])
  {
  }

  /** What one append does to the contents. */
  ghost function PushBytes(c: seq<Bytes>, data: Bytes, limit: nat, count: nat): seq<Bytes> {
    if c == [] then [data]
    else if |c[0]| + |data| > limit && count >= 2 then [data] + if |c| < count then c else c[..count - 1]
    else [c[0] + data] + c[1..]
  }

  lemma AppendStores<K(!new)>(files: Files<K>, chain: seq<K>, c: seq<Bytes>, data: Bytes, limit: nat)
    requires Distinct(chain) && chain != [] && Stores(files, chain, c)
    ensures Stores(Append(files, chain, data, limit), chain, PushBytes(c, data, limit, |chain|))
  {
    if Full(files, chain[0], data, limit) && |chain| >= 2 {
      RotateShifts(files, chain, |chain| - 1, c);
      OpenSegment(RotateFrom(files, chain, |chain| - 1), chain, if |c| < |chain| then c else c[..|chain| - 1], data);
    } else {
      assert Append(files, chain, data, limit) == Write(files, chain[0], data);
    }
  }

  /** Writing to a chain whose first place is free. */
  lemma OpenSegment<K(!new)>(f: Files<K>, chain: seq<K>, kept: seq<Bytes>, data: Bytes)
    requires Distinct(chain) && |kept| < |chain| && chain[0] !in f
    requires forall i :: 1 <= i <= |kept| ==> chain[i] in f && f[chain[i]] == kept[i - 1]
    requires forall i :: |kept| < i < |chain| ==> chain[i] !in f
    ensures Stores(Write(f, chain[0], data), chain, [data] + kept)
  {
  }

  lemma ContentsCons(head: seq<Bytes>, w: Segments)
    ensures Contents([head] + w) == [Flat(head)] + Contents(w)
  {
  }

  lemma ContentsSlice(w: Segments, i: nat, j: nat)
    requires i <= j <= |w|
    ensures Contents(w[i..j]) == Contents(w)[i..j]
  {
  }

  lemma PushContents(w: Segments, data: Bytes, limit: nat, count: nat)
    requires |w| <= count
    ensures Contents(Push(w, data, limit, count)) == PushBytes(Contents(w), data, limit, count)
  {
    FlatOne(data);
    if w == [] {
      ContentsCons([data], []);
    } else if Size(w[0]) + |data| > limit && count >= 2 {
      var k := if |w| < count then |w| else count - 1;
      assert w[0..|w|] == w && w[0..k] == w[..k];
      ContentsSlice(w, 0, k);
      ContentsCons([data], w[0..k]);
    } else {
      FlatMore(w[0], data);
      assert w[1..|w|] == w[1..];
      ContentsSlice(w, 1, |w|);
      ContentsCons(w[0] + [data], w[1..]);
    }
  }

  /** The files and the record view stay together over one append, and no other file changes. */
  lemma AppendRefinesPush<K(!new)>(files: Files<K>, chain: seq<K>, w: Segments, data: Bytes, limit: nat)
    requires Distinct(chain) && chain != [] && Holds(files, chain, w)
    ensures Holds(Append(files, chain, data, limit), chain, Push(w, data, limit, |chain|))
    ensures Elsewhere(files, Append(files, chain, data, limit), chain)
  {
    AppendElsewhere(files, chain, data, limit);
    AppendStores(files, chain, Contents(w), data, limit);
    PushContents(w, data, limit, |chain|);
  }

  ghost predicate Apart<K>(a: seq<K>, b: seq<K>) {
    forall i :: 0 <= i < |a| ==> a[i] !in b
  }

  /** An append to one chain leaves a disjoint chain as it was. */
  lemma AppendApart<K(!new)>(files: Files<K>, chain: seq<K>, other: seq<K>, w: Segments, data: Bytes, limit: nat)
    requires other != [] && Apart(chain, other) && Holds(files, chain, w)
    ensures Holds(Append(files, other, data, limit), chain, w)
  {
    AppendElsewhere(files, other, data, limit);
  }

  lemma FlatOne(data: Bytes)
    ensures Flat([data]) == data
  {
    assert Flat([data]) == Flat([]) + data;
  }

  lemma FlatMore(records: seq<Bytes>, data: Bytes)
    ensures Flat(records + [data]) == Flat(records) + data
  {
    assert (records + [data])[..|records|] == records;
  }

  // ---------------------------------------------------------------- whole runs

  /** The record view after appending every record of h, from an empty log. */
  ghost function Run(h: seq<Bytes>, limit: nat, count: nat): Segments {
    if h == [] then [] else Push(Run(h[..|h| - 1], limit, count), h[|h| - 1], limit, count)
  }

  ghost predicate Accepted(h: seq<Bytes>, limit: nat) {
    forall i :: 0 <= i < |h| ==> |h[i]| <= limit
  }

  ghost predicate Bounded(w: Segments, limit: nat) {
    forall i :: 0 <= i < |w| ==> Size(w[i]) <= limit
  }

  /** Two neighbouring segments together hold more than one segment's worth. */
  ghost predicate Packed(w: Segments, limit: nat) {
    forall i :: 0 <= i < |w| - 1 ==> Size(w[i]) + Size(w[i + 1]) > limit
  }

  lemma {:induction false} FlatAppend(a: seq<Bytes>, b: seq<Bytes>)
    ensures Flat(a + b) == Flat(a) + Flat(b)
  {
    if b == [] {
      assert a + b == a;
    } else {
      assert (a + b)[..|a + b| - 1] == a + b[..|b| - 1];
      FlatAppend(a, b[..|b| - 1]);
    }
  }

  lemma {:induction false} RetainedCons(head: seq<Bytes>, w: Segments)
    ensures Retained([head] + w) == Retained(w) + head
  {
    assert ([head] + w)[1..] == w;
  }

  ghost predicate IsSuffix(a: seq<Bytes>, b: seq<Bytes>) {
    |a| <= |b| && a == b[|b| - |a|..]
  }

  lemma SuffixAppend(a: seq<Bytes>, b: seq<Bytes>, c: seq<Bytes>)
    requires IsSuffix(a, b)
    ensures IsSuffix(a + c, b + c)
  {
    assert b == b[..|b| - |a|] + a;
  }

  lemma SuffixTrans(a: seq<Bytes>, b: seq<Bytes>, c: seq<Bytes>)
    requires IsSuffix(a, b) && IsSuffix(b, c)
    ensures IsSuffix(a, c)
  {
  }

  /** Dropping the oldest segments drops a prefix of the records. */
  lemma {:induction false} RetainedTake(w: Segments, k: nat)
    requires k <= |w|
    ensures IsSuffix(Retained(w[..k]), Retained(w))
  {
    if k > 0 {
      RetainedTake(w[1..], k - 1);
      assert w[..k][1..] == w[1..][..k - 1];
      SuffixAppend(Retained(w[1..][..k - 1]), Retained(w[1..]), w[0]);
    }
  }

  /** What one append keeps: nothing leaves the log except a prefix, and only when every segment is in use. */
  lemma PushKeepsSuffix(w: Segments, data: Bytes, limit: nat, count: nat)
    requires |w| <= count && count >= 1
    ensures var w' := Push(w, data, limit, count);
            && 1 <= |w'| <= count && |w| <= |w'|
            && IsSuffix(Retained(w'), Retained(w) + [data])
            && (Retained(w') != Retained(w) + [data] ==> |w| == count >= 2)
  {
    if w == [] {
      RetainedCons([data], []);
    } else if Size(w[0]) + |data| > limit && count >= 2 {
      PushOpens(w, if |w| < count then |w| else count - 1, data);
      assert w[..|w|] == w;
    } else {
      PushExtends(w, data);
    }
  }

  lemma PushOpens(w: Segments, k: nat, data: Bytes)
    requires k <= |w|
    ensures IsSuffix(Retained([[data]] + w[..k]), Retained(w) + [data])
    ensures k == |w| ==> Retained([[data]] + w[..k]) == Retained(w) + [data]
  {
    RetainedCons([data], w[..k]);
    RetainedTake(w, k);
    SuffixAppend(Retained(w[..k]), Retained(w), [data]);
    assert w[..|w|] == w;
  }

  lemma PushExtends(w: Segments, data: Bytes)
    requires w != []
    ensures Retained([w[0] + [data]] + w[1..]) == Retained(w) + [data]
  {
    RetainedCons(w[0] + [data], w[1..]);
    assert Retained(w[1..]) + (w[0] + [data]) == (Retained(w[1..]) + w[0]) + [data];
  }

  ghost predicate Tight(w: Segments, limit: nat) {
    Bounded(w, limit) && Packed(w, limit)
  }

  lemma TightCons(head: seq<Bytes>, w: Segments, limit: nat)
    requires Tight(w, limit) && Size(head) <= limit && (w != [] ==> Size(head) + Size(w[0]) > limit)
    ensures Tight([head] + w, limit)
  {
    var v := [head] + w;
    forall i | 0 <= i < |v| - 1 ensures Size(v[i]) + Size(v[i + 1]) > limit {
      if i > 0 {
        var j := i - 1;
        assert v[i] == w[j] && v[i + 1] == w[j + 1];
      }
    }
  }

  lemma TightSlice(w: Segments, limit: nat, i: nat, j: nat)
    requires Tight(w, limit) && i <= j <= |w|
    ensures Tight(w[i..j], limit)
  {
    forall k | 0 <= k < j - i - 1 ensures Size(w[i..j][k]) + Size(w[i..j][k + 1]) > limit {
      var m := i + k;
      assert Size(w[m]) + Size(w[m + 1]) > limit;
    }
  }

  lemma PushKeepsTight(w: Segments, data: Bytes, limit: nat, count: nat)
    requires |w| <= count && count >= 2 && |data| <= limit && Tight(w, limit)
    ensures Tight(Push(w, data, limit, count), limit)
  {
    FlatOne(data);
    if w == [] {
      TightCons([data], [], limit);
    } else if Size(w[0]) + |data| > limit {
      var k := if |w| < count then |w| else count - 1;
      assert w[0..|w|] == w && w[0..k] == w[..k];
      TightSlice(w, limit, 0, k);
      TightCons([data], w[0..k], limit);
    } else {
      FlatMore(w[0], data);
      assert w[1..|w|] == w[1..];
      TightSlice(w, limit, 1, |w|);
      if |w| > 1 { assert Size(w[0]) + Size(w[0 + 1]) > limit; }
      TightCons(w[0] + [data], w[1..], limit);
    }
  }

  /** After any run of appends the log is a suffix of the records appended, so whole records only, and it
      has lost something only if every segment is in use. */
  lemma {:induction false} RetainsSuffix(h: seq<Bytes>, limit: nat, count: nat)
    requires count >= 1
    ensures IsSuffix(Retained(Run(h, limit, count)), h)
    ensures |Run(h, limit, count)| <= count
    ensures Retained(Run(h, limit, count)) != h ==> |Run(h, limit, count)| == count >= 2
  {
    if h != [] {
      var k := |h| - 1;
      RetainsSuffix(h[..k], limit, count);
      assert h == h[..k] + [h[k]];
      SuffixStep(h[..k], h[k], Run(h[..k], limit, count), limit, count);
    }
  }

  lemma SuffixStep(h: seq<Bytes>, data: Bytes, w: Segments, limit: nat, count: nat)
    requires count >= 1 && |w| <= count && IsSuffix(Retained(w), h)
    requires Retained(w) != h ==> |w| == count >= 2
    ensures var w' := Push(w, data, limit, count);
            && |w'| <= count && IsSuffix(Retained(w'), h + [data])
            && (Retained(w') != h + [data] ==> |w'| == count >= 2)
  {
    PushKeepsSuffix(w, data, limit, count);
    SuffixAppend(Retained(w), h, [data]);
    SuffixTrans(Retained(Push(w, data, limit, count)), Retained(w) + [data], h + [data]);
  }

  /** With at least two segments, every segment of every run stays within the limit. */
  lemma {:induction false} SegmentsBounded(h: seq<Bytes>, limit: nat, count: nat)
    requires count >= 2 && Accepted(h, limit)
    ensures Tight(Run(h, limit, count), limit)
  {
    if h != [] {
      SegmentsBounded(h[..|h| - 1], limit, count);
      RetainsSuffix(h[..|h| - 1], limit, count);
      PushKeepsTight(Run(h[..|h| - 1], limit, count), h[|h| - 1], limit, count);
    }
  }

  lemma HalfStep(n: nat, limit: nat)
    requires n >= 2
    ensures (n / 2) * limit == ((n - 2) / 2) * limit + limit
  {
    assert n / 2 == (n - 2) / 2 + 1;
  }

  /** Segments taken in neighbouring pairs. */
  lemma {:induction false} TightSize(w: Segments, limit: nat)
    requires Tight(w, limit)
    ensures |Flat(Retained(w))| >= (|w| / 2) * limit
    ensures |w| >= 2 ==> |Flat(Retained(w))| > (|w| / 2) * limit
    decreases |w|
  {
    if |w| >= 2 {
      var tail := w[1..];
      var rest := tail[1..];
      assert rest == w[2..|w|];
      TightSlice(w, limit, 2, |w|);
      TightSize(rest, limit);
      FlatAppend(Retained(tail), w[0]);
      FlatAppend(Retained(rest), tail[0]);
      HalfStep(|w|, limit);
      assert Size(w[0]) + Size(w[0 + 1]) > limit;
    }
  }

  /** Once anything has been dropped, more than half the chain's nominal size remains. */
  lemma EnoughRemains(h: seq<Bytes>, limit: nat, count: nat)
    requires count >= 2 && Accepted(h, limit) && Retained(Run(h, limit, count)) != h
    ensures |Flat(Retained(Run(h, limit, count)))| > (count / 2) * limit
  {
    RetainsSuffix(h, limit, count);
    SegmentsBounded(h, limit, count);
    TightSize(Run(h, limit, count), limit);
  }

  // ---------------------------------------------------------------- one segment is not a bound

  ghost function Repeat(data: Bytes, n: nat): (h: seq<Bytes>)
    ensures |h| == n && forall i :: 0 <= i < n ==> h[i] == data
  {
    if n == 0 then [] else Repeat(data, n - 1) + [data]
  }

  lemma {:induction false} RepeatSize(n: nat)
    ensures Size(Repeat([0], n)) == n
  {
    if n > 0 {
      RepeatSize(n - 1);
      FlatMore(Repeat([0], n - 1), [0]);
    }
  }

  lemma {:induction false} OneSegmentGrows(limit: nat, n: nat)
    requires n > 0
    ensures Run(Repeat([0], n), limit, 1) == [Repeat([0], n)]
  {
    var h := Repeat([0], n - 1);
    assert Repeat([0], n)[..n - 1] == h;
    if n > 1 {
      OneSegmentGrows(limit, n - 1);
      assert Run(h, limit, 1) == [h];
      assert [h + [[0]]] + [h][1..] == [h + [[0]]];
    } else {
      assert Run(h, limit, 1) == [];
    }
  }

  /** The size bound holds for every run exactly when there are at least two segments, or when the limit
      admits only empty records. */
  lemma BoundedIff(limit: nat, count: nat)
    requires count >= 1
    ensures (forall h: seq<Bytes> :: Accepted(h, limit) ==> Bounded(Run(h, limit, count), limit))
            <==> count >= 2 || limit == 0
  {
    if count >= 2 || limit == 0 {
      forall h: seq<Bytes> | Accepted(h, limit) ensures Bounded(Run(h, limit, count), limit) {
        if count >= 2 {
          SegmentsBounded(h, limit, count);
        } else {
          EmptyRecordsBounded(h);
        }
      }
    } else {
      OneSegmentExceeds(limit);
    }
  }

  lemma OneSegmentExceeds(limit: nat)
    requires limit > 0
    ensures exists h: seq<Bytes> :: Accepted(h, limit) && !Bounded(Run(h, limit, 1), limit)
  {
    var h := Repeat([0], limit + 1);
    OneSegmentGrows(limit, limit + 1);
    RepeatSize(limit + 1);
    assert Accepted(h, limit);
    assert Size(Run(h, limit, 1)[0]) > limit;
  }

  lemma EmptyRecordsBounded(h: seq<Bytes>)
    requires Accepted(h, 0)
    ensures Bounded(Run(h, 0, 1), 0)
  {
    RetainsSuffix(h, 0, 1);
    var w := Run(h, 0, 1);
    if w != [] {
      assert w == [w[0]];
      RetainedCons(w[0], []);
      assert Retained([w[0]] + []) == w[0];
      EmptyRecords(w[0]);
    }
  }

  lemma {:induction false} EmptyRecords(h: seq<Bytes>)
    requires Accepted(h, 0)
    ensures Size(h) == 0
  {
    if h != [] {
      EmptyRecords(h[..|h| - 1]);
    }
  }
}
