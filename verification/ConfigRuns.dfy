/** Whole lives of a configuration: layers in any number and order, some of them refused, and resolutions of "auto"
    in between. */
module ConfigRuns {
  import opened Results
  import opened ConfigSchema
  import opened LayeredConfig
  import opened EffectiveConfiguration
  import opened ConfigPrecedence

  datatype Call =
    | Layer(paths: set<string>, entries: seq<Entry>, earlier: seq<Problem>)
    | Resolve(key: string, resolved: Value)

  /** The values after one call; a refused call leaves them. */
  ghost function AfterCall(v: Values, c: Call, schema: seq<Spec>, reader: Reader): Values {
    match c
    case Layer(paths, entries, earlier) =>
      var w := World(schema, reader, paths);
      if Accepts(w, v, entries, earlier) then AssignAll(v, TakenAll(w, entries)) else v
    case Resolve(key, resolved) =>
      if Resolvable(v, schema, reader.sizes, key, resolved) then WithResolution(v, key, resolved) else v
  }

  /** The values after a run of calls from v. */
  ghost function RunCalls(v: Values, calls: seq<Call>, schema: seq<Spec>, reader: Reader): Values {
    if calls == [] then v
    else AfterCall(RunCalls(v, calls[..|calls| - 1], schema, reader), calls[|calls| - 1], schema, reader)
  }

  /** The object's methods make exactly these calls. */
  lemma OutcomeIsCall(before: Snapshot, after: Snapshot, schema: seq<Spec>, reader: Reader, paths: set<string>,
                      entries: seq<Entry>, earlier: seq<Problem>, sections: seq<Named>, r: Option<ConfigError>)
    requires Outcome(before, after, World(schema, reader, paths), entries, earlier, sections, r)
    ensures after.values == AfterCall(before.values, Layer(paths, entries, earlier), schema, reader)
  {
  }

  /** The assignments of the accepted layers of a run, in order. */
  ghost function AcceptedOf(v: Values, calls: seq<Call>, schema: seq<Spec>, reader: Reader): seq<Assignment> {
    if calls == [] then []
    else
      var c := calls[|calls| - 1];
      AcceptedOf(v, calls[..|calls| - 1], schema, reader)
      + NewlyAccepted(RunCalls(v, calls[..|calls| - 1], schema, reader), c, schema, reader)
  }

  ghost function NewlyAccepted(v: Values, c: Call, schema: seq<Spec>, reader: Reader): seq<Assignment> {
    if c.Layer? && Accepts(World(schema, reader, c.paths), v, c.entries, c.earlier) then
      TakenAll(World(schema, reader, c.paths), c.entries)
    else []
  }

  // ---------------------------------------------------------------- resolutions aside, a run is its assignments

  /** The same settings with the same values and sources, resolutions aside. */
  ghost predicate SameButResolved(v: Values, w: Values) {
    v.Keys == w.Keys
    && forall key :: key in v ==> v[key].(resolved := None) == w[key].(resolved := None)
  }

  lemma AssignSame(v: Values, w: Values, a: Assignment)
    requires SameButResolved(v, w)
    ensures SameButResolved(Assign(v, a), Assign(w, a))
  {
    if a.spec.key in v { assert v[a.spec.key].(resolved := None).source == w[a.spec.key].(resolved := None).source; }
  }

  lemma {:induction false} AssignAllSame(v: Values, w: Values, all: seq<Assignment>)
    requires SameButResolved(v, w)
    ensures SameButResolved(AssignAll(v, all), AssignAll(w, all))
  {
    if all != [] {
      AssignAllSame(v, w, all[..|all| - 1]);
      AssignSame(AssignAll(v, all[..|all| - 1]), AssignAll(w, all[..|all| - 1]), all[|all| - 1]);
    }
  }

  /** Layers add up to one list of assignments. */
  lemma {:induction false} AssignAllJoins(v: Values, a: seq<Assignment>, b: seq<Assignment>)
    ensures AssignAll(AssignAll(v, a), b) == AssignAll(v, a + b)
  {
    if b == [] {
      assert a + b == a;
    } else {
      var n := |b| - 1;
      AssignAllJoins(v, a, b[..n]);
      assert (a + b)[..|a + b| - 1] == a + b[..n];
    }
  }

  lemma CallIsAssignments(v: Values, w: Values, c: Call, schema: seq<Spec>, reader: Reader)
    requires SameButResolved(v, w)
    ensures SameButResolved(AfterCall(v, c, schema, reader), AssignAll(w, NewlyAccepted(v, c, schema, reader)))
  {
    AssignAllSame(v, w, NewlyAccepted(v, c, schema, reader));
  }

  lemma {:induction false} RunIsAssignments(v: Values, calls: seq<Call>, schema: seq<Spec>, reader: Reader)
    ensures SameButResolved(RunCalls(v, calls, schema, reader), AssignAll(v, AcceptedOf(v, calls, schema, reader)))
  {
    if calls != [] {
      var p, c := calls[..|calls| - 1], calls[|calls| - 1];
      var all, now := AcceptedOf(v, p, schema, reader), RunCalls(v, p, schema, reader);
      RunIsAssignments(v, p, schema, reader);
      CallIsAssignments(now, AssignAll(v, all), c, schema, reader);
      AssignAllJoins(v, all, NewlyAccepted(now, c, schema, reader));
    }
  }

  // ---------------------------------------------------------------- the effective value after any run

  lemma {:induction false} DefaultsAreDefault(schema: seq<Spec>, n: nat, key: string)
    requires n <= |schema| && key in DefaultsUpTo(schema, n)
    ensures DefaultsUpTo(schema, n)[key].source == Default
  {
    if key != schema[n - 1].key { DefaultsAreDefault(schema, n - 1, key); }
  }

  ghost predicate Unassigned(all: seq<Assignment>, key: string) {
    forall j :: 0 <= j < |all| ==> all[j].spec.key != key
  }

  /** The last of the assignments of highest precedence to a key. */
  ghost predicate LastOfHighest(all: seq<Assignment>, key: string, i: nat) {
    && i < |all| && all[i].spec.key == key
    && forall j :: 0 <= j < |all| && all[j].spec.key == key ==>
         Rank(all[j]) <= Rank(all[i]) && (j > i ==> Rank(all[j]) < Rank(all[i]))
  }

  /** After any run from the defaults, a key that no accepted layer assigned is as declared, and any other has value
      and source of the last assignment among the accepted ones of highest precedence. */
  lemma EffectiveAfterRun(calls: seq<Call>, schema: seq<Spec>, reader: Reader, key: string)
    ensures var v, d := RunCalls(Defaults(schema), calls, schema, reader), Defaults(schema);
            var all := AcceptedOf(d, calls, schema, reader);
            if Unassigned(all, key) then
              (key in v <==> key in d) && (key in v ==> v[key].value == d[key].value && v[key].source == Default)
            else
              key in v && exists i: nat ::
                LastOfHighest(all, key, i) && v[key].value == all[i].value && v[key].source == all[i].source
  {
    var v, d := RunCalls(Defaults(schema), calls, schema, reader), Defaults(schema);
    var all := AcceptedOf(d, calls, schema, reader);
    RunIsAssignments(d, calls, schema, reader);
    AllSettled(d, all, key);
    if key in d { DefaultsAreDefault(schema, |schema|, key); }
    EffectiveOfSettled(v, d, all, key);
  }

  lemma EffectiveOfSettled(v: Values, d: Values, all: seq<Assignment>, key: string)
    requires SameButResolved(v, AssignAll(d, all)) && Settled(d, all, key)
    requires key in d ==> d[key].source == Default
    ensures if Unassigned(all, key) then
              (key in v <==> key in d) && (key in v ==> v[key].value == d[key].value && v[key].source == Default)
            else
              key in v && exists i: nat ::
                LastOfHighest(all, key, i) && v[key].value == all[i].value && v[key].source == all[i].source
  {
    var w := AssignAll(d, all);
    assert key in v ==> v[key].(resolved := None).value == w[key].value && v[key].(resolved := None).source == w[key].source;
    if i: nat :| Wins(d, all, key, i) && key in w && w[key] == Placed(all[i]) {
      assert LastOfHighest(all, key, i);
    }
  }

  // ---------------------------------------------------------------- every reachable state is sound

  ghost predicate Good(v: Values, schema: seq<Spec>, sizes: iset<string>) {
    Consistent(v, schema, sizes) && Coherent(v)
  }

  lemma CallKeepsGood(v: Values, c: Call, schema: seq<Spec>, reader: Reader)
    requires GoodSchema(schema, reader.sizes) && Good(v, schema, reader.sizes)
    ensures Good(AfterCall(v, c, schema, reader), schema, reader.sizes)
  {
    match c
    case Layer(paths, entries, earlier) =>
      TakenKeep(World(schema, reader, paths), v, entries);
    case Resolve(key, resolved) =>
      if Resolvable(v, schema, reader.sizes, key, resolved) {
        var spec := Find(schema, key).value;
        DeclaredIsSound(v, schema, reader.sizes, spec);
        ResolvedKeeps(v, schema, reader.sizes, spec, v[key].(resolved := Some(resolved)));
      }
  }

  /** Over every run from the defaults: all settings admissible, resolved only while "auto", from a request only
      where the schema allows, and all rules across settings kept. */
  lemma {:induction false} ReachableIsGood(calls: seq<Call>, schema: seq<Spec>, reader: Reader)
    requires GoodSchema(schema, reader.sizes)
    ensures Good(RunCalls(Defaults(schema), calls, schema, reader), schema, reader.sizes)
  {
    if calls == [] {
      DefaultsConsistent(schema, |schema|, reader.sizes);
    } else {
      var p := calls[..|calls| - 1];
      ReachableIsGood(p, schema, reader);
      CallKeepsGood(RunCalls(Defaults(schema), p, schema, reader), calls[|calls| - 1], schema, reader);
    }
  }

  // ---------------------------------------------------------------- the order of accepted layers

  /** Every call is a layer, accepted where it stands. */
  ghost predicate AllAccepted(v: Values, calls: seq<Call>, schema: seq<Spec>, reader: Reader) {
    calls != [] ==>
      && AllAccepted(v, calls[..|calls| - 1], schema, reader)
      && AcceptedAt(RunCalls(v, calls[..|calls| - 1], schema, reader), calls[|calls| - 1], schema, reader)
  }

  ghost predicate AcceptedAt(v: Values, c: Call, schema: seq<Spec>, reader: Reader) {
    c.Layer? && Accepts(World(schema, reader, c.paths), v, c.entries, c.earlier)
  }

  /** The entries of no two layers have the same precedence. */
  ghost predicate DifferentPrecedence(calls: seq<Call>) {
    forall i, j :: 0 <= i < j < |calls| ==> EntriesApart(EntriesOf(calls[i]), EntriesOf(calls[j]))
  }

  ghost function EntriesOf(c: Call): seq<Entry> { if c.Layer? then c.entries else [] }

  ghost predicate EntriesApart(a: seq<Entry>, b: seq<Entry>) {
    forall x, y :: 0 <= x < |a| && 0 <= y < |b| ==> Precedence(a[x].source) != Precedence(b[y].source)
  }

  ghost function TakenBy(c: Call, schema: seq<Spec>, reader: Reader): seq<Assignment> {
    if c.Layer? then TakenAll(World(schema, reader, c.paths), c.entries) else []
  }

  ghost function LayersOf(calls: seq<Call>, schema: seq<Spec>, reader: Reader): (r: seq<seq<Assignment>>)
    ensures |r| == |calls| && forall k :: 0 <= k < |r| ==> r[k] == TakenBy(calls[k], schema, reader)
  {
    seq(|calls|, k requires 0 <= k < |calls| => TakenBy(calls[k], schema, reader))
  }

  lemma {:induction false} OneMoreLayer(v: Values, layers: seq<seq<Assignment>>, last: seq<Assignment>)
    ensures Layers(v, layers + [last]) == AssignAll(Layers(v, layers), last)
    decreases |layers|
  {
    if layers == [] {
      assert [] + [last] == [last] && [last][1..] == [];
    } else {
      OneMoreLayer(AssignAll(v, layers[0]), layers[1..], last);
      assert (layers + [last])[1..] == layers[1..] + [last];
    }
  }

  lemma {:induction false} RunIsLayers(v: Values, calls: seq<Call>, schema: seq<Spec>, reader: Reader)
    requires AllAccepted(v, calls, schema, reader)
    ensures RunCalls(v, calls, schema, reader) == Layers(v, LayersOf(calls, schema, reader))
  {
    if calls != [] {
      var p, c := calls[..|calls| - 1], calls[|calls| - 1];
      RunIsLayers(v, p, schema, reader);
      AcceptedCall(RunCalls(v, p, schema, reader), c, schema, reader);
      OneMoreLayer(v, LayersOf(p, schema, reader), TakenBy(c, schema, reader));
      OneMoreCall(calls, schema, reader);
    }
  }

  lemma AcceptedCall(v: Values, c: Call, schema: seq<Spec>, reader: Reader)
    requires AcceptedAt(v, c, schema, reader)
    ensures AfterCall(v, c, schema, reader) == AssignAll(v, TakenBy(c, schema, reader))
  {
  }

  lemma OneMoreCall(calls: seq<Call>, schema: seq<Spec>, reader: Reader)
    requires calls != []
    ensures LayersOf(calls, schema, reader) ==
            LayersOf(calls[..|calls| - 1], schema, reader) + [TakenBy(calls[|calls| - 1], schema, reader)]
  {
  }

  lemma {:induction false} TakenSource(w: World, entries: seq<Entry>, k: nat) returns (x: nat)
    requires k < |TakenAll(w, entries)|
    ensures x < |entries| && TakenAll(w, entries)[k].source == entries[x].source
  {
    var n := |entries| - 1;
    if k < |TakenAll(w, entries[..n])| { x := TakenSource(w, entries[..n], k); } else { x := n; }
  }

  lemma TakenApart(v: World, w: World, a: seq<Entry>, b: seq<Entry>)
    requires EntriesApart(a, b)
    ensures Apart(TakenAll(v, a), TakenAll(w, b)) && Apart(TakenAll(w, b), TakenAll(v, a))
  {
    forall i, j | 0 <= i < |TakenAll(v, a)| && 0 <= j < |TakenAll(w, b)|
      ensures Rank(TakenAll(v, a)[i]) != Rank(TakenAll(w, b)[j])
    {
      var x := TakenSource(v, a, i);
      var y := TakenSource(w, b, j);
    }
  }

  lemma LayersApart(calls: seq<Call>, schema: seq<Spec>, reader: Reader)
    requires DifferentPrecedence(calls)
    ensures AllApart(LayersOf(calls, schema, reader))
  {
    var ls := LayersOf(calls, schema, reader);
    forall i, j | 0 <= i < j < |ls| ensures Apart(ls[i], ls[j]) && Apart(ls[j], ls[i]) {
      CallsApart(calls[i], calls[j], schema, reader);
    }
  }

  lemma CallsApart(a: Call, b: Call, schema: seq<Spec>, reader: Reader)
    requires EntriesApart(EntriesOf(a), EntriesOf(b))
    ensures Apart(TakenBy(a, schema, reader), TakenBy(b, schema, reader))
    ensures Apart(TakenBy(b, schema, reader), TakenBy(a, schema, reader))
  {
    if a.Layer? && b.Layer? {
      TakenApart(World(schema, reader, a.paths), World(schema, reader, b.paths), a.entries, b.entries);
    }
  }

  lemma {:induction false} LayersPermute(a: seq<Call>, b: seq<Call>, schema: seq<Spec>, reader: Reader)
    requires multiset(a) == multiset(b)
    ensures multiset(LayersOf(a, schema, reader)) == multiset(LayersOf(b, schema, reader))
    decreases |b|
  {
    if b == [] {
      assert |multiset(a)| == 0;
    } else {
      var p := FirstOf(a, b);
      var la, lb := LayersOf(a, schema, reader), LayersOf(b, schema, reader);
      LayersPermute(Without(a, p), b[1..], schema, reader);
      assert Without(la, p) == LayersOf(Without(a, p), schema, reader);
      assert Without(lb, 0) == LayersOf(b[1..], schema, reader);
      WithoutCounts(la, p);
      WithoutCounts(lb, 0);
    }
  }

  /** Layers of pairwise different precedence that are all accepted, in two orders, leave the object with the same
      values and sources. */
  lemma RunsInAnyOrder(v: Values, a: seq<Call>, b: seq<Call>, schema: seq<Spec>, reader: Reader)
    requires multiset(a) == multiset(b) && DifferentPrecedence(a)
    requires AllAccepted(v, a, schema, reader) && AllAccepted(v, b, schema, reader)
    ensures RunCalls(v, a, schema, reader) == RunCalls(v, b, schema, reader)
  {
    RunIsLayers(v, a, schema, reader);
    RunIsLayers(v, b, schema, reader);
    LayersApart(a, schema, reader);
    LayersPermute(a, b, schema, reader);
    AnyOrder(v, LayersOf(a, schema, reader), LayersOf(b, schema, reader));
  }
}
