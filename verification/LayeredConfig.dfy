/** The effective configuration: values with their sources, layered by precedence, changed only by whole
    layers that pass every check. */
module LayeredConfig {
  import opened Results
  import opened ConfigSchema
  import EditDistance

  datatype Source =
    | Default
    | File(path: string, line: nat)
    | Env(variable: string)
    | Cli(flag: string)
    | Request(requester: string, time: string)

  function Precedence(s: Source): nat {
    match s
    case Default => 0
    case File(_, _) => 1
    case Env(_) => 2
    case Cli(_) => 3
    case Request(_, _) => 4
  }

  datatype Sourced = Sourced(value: Value, source: Source, resolved: Option<Value>, rule: Option<string>)

  type Values = map<string, Sourced>

  datatype Assignment = Assignment(spec: Spec, value: Value, source: Source)

  function Placed(a: Assignment): Sourced {
    Sourced(a.value, a.source, None, if IsAuto(a.value) then Some(a.spec.rule) else None)
  }

  predicate Outranks(a: Assignment, current: Sourced) { Precedence(a.source) >= Precedence(current.source) }

  function Assign(v: Values, a: Assignment): Values {
    if a.spec.key !in v || Outranks(a, v[a.spec.key]) then v[a.spec.key := Placed(a)] else v
  }

  function AssignAll(v: Values, all: seq<Assignment>): Values {
    if all == [] then v else Assign(AssignAll(v, all[..|all| - 1]), all[|all| - 1])
  }

  // ---------------------------------------------------------------- rules across settings

  const PREFILL_MIN := "scheduler.prefill_min_chunk"
  const PREFILL_MAX := "scheduler.prefill_max_chunk"
  const BUCKETS := "warmup.buckets"
  const K_MAX := "spec.k_max"
  const TREE_MAX := "spec.tree_max"
  const MAX_CTX := "state.max_ctx"

  datatype Rule = PrefillOrder | DepthLimit | TreeLimit | DepthWithinTree | ContextMultiple

  ghost predicate HasInt(v: Values, key: string) { key in v && v[key].value.Int? }

  ghost predicate Readable(v: Values) {
    HasInt(v, PREFILL_MIN) && HasInt(v, PREFILL_MAX) && HasInt(v, K_MAX) && HasInt(v, TREE_MAX) && HasInt(v, MAX_CTX)
  }

  function MaxInt(items: seq<Value>): Option<int> {
    if items == [] then None
    else
      var rest := MaxInt(items[..|items| - 1]);
      match items[|items| - 1]
      case Int(n) => if rest.Some? && rest.value > n then rest else Some(n)
      case _ => rest
  }

  function LargestPrefillBucket(v: Values): int {
    if BUCKETS !in v || !v[BUCKETS].value.Table? then 2048
    else
      var axis := Field(v[BUCKETS].value.fields, "T_pre");
      if axis.None? || !axis.value.Array? then 2048
      else
        var m := MaxInt(axis.value.items);
        if m.Some? then m.value else 2048
  }

  /** Every rule that does not hold, in order. */
  function Violations(v: Values): seq<Rule>
    requires Readable(v)
  {
    var low, high := v[PREFILL_MIN].value.number, v[PREFILL_MAX].value.number;
    var depth, tree := v[K_MAX].value.number, v[TREE_MAX].value.number;
    (if !(low <= high <= LargestPrefillBucket(v)) then [PrefillOrder] else [])
    + (if depth > 15 then [DepthLimit] else [])
    + (if tree > 16 then [TreeLimit] else [])
    + (if depth > tree then [DepthWithinTree] else [])
    + (if v[MAX_CTX].value.number % 32 != 0 then [ContextMultiple] else [])
  }

  /** What the rules are for. */
  ghost predicate Coherent(v: Values) {
    && Readable(v)
    && v[PREFILL_MIN].value.number <= v[PREFILL_MAX].value.number <= LargestPrefillBucket(v)
    && v[K_MAX].value.number <= 15 && v[K_MAX].value.number <= v[TREE_MAX].value.number <= 16
    && v[MAX_CTX].value.number % 32 == 0
  }

  // ---------------------------------------------------------------- entries of a layer

  datatype Given = Text(raw: string) | Parsed(value: Value)

  datatype Entry = Entry(input: string, given: Given, source: Source)

  /** What entries are judged by. */
  datatype World = World(schema: seq<Spec>, reader: Reader, paths: set<string>)

  function Read(spec: Spec, g: Given, reader: Reader): Option<Value> {
    match g
    case Text(raw) => ReadText(spec, raw, reader)
    case Parsed(value) => Some(value)
  }

  predicate MayChange(spec: Spec, source: Source) { source.Request? ==> spec.mutability == Runtime }

  function CheckFor(w: World, spec: Spec, v: Value, source: Source): Option<Problem> {
    Check(spec, v, w.reader.sizes, !source.Request?, w.paths)
  }

  /** The assignment an entry amounts to, unless it is refused. */
  function Taken(w: World, e: Entry): Option<Assignment> {
    var spec := Canonical(w.schema, e.input);
    if spec.None? || !MayChange(spec.value, e.source) then None
    else
      var v := Read(spec.value, e.given, w.reader);
      if v.None? || CheckFor(w, spec.value, v.value, e.source).Some? then None
      else Some(Assignment(spec.value, v.value, e.source))
  }

  function TakenAll(w: World, entries: seq<Entry>): seq<Assignment> {
    if entries == [] then []
    else
      var last := Taken(w, entries[|entries| - 1]);
      TakenAll(w, entries[..|entries| - 1]) + if last.Some? then [last.value] else []
  }

  function Refused(w: World, entries: seq<Entry>): seq<Entry> {
    if entries == [] then []
    else
      var last := entries[|entries| - 1];
      Refused(w, entries[..|entries| - 1]) + if Taken(w, last).None? then [last] else []
  }

  /** The warning for a former name, given even when the value is then refused. */
  function RenameOf(w: World, e: Entry): seq<(string, string)> {
    if Find(w.schema, e.input).None? && Canonical(w.schema, e.input).Some? then
      [(e.input, Canonical(w.schema, e.input).value.key)]
    else []
  }

  function Renames(w: World, entries: seq<Entry>): seq<(string, string)> {
    if entries == [] then []
    else Renames(w, entries[..|entries| - 1]) + RenameOf(w, entries[|entries| - 1])
  }

  function Keys(schema: seq<Spec>): seq<string> {
    if schema == [] then [] else [schema[0].key] + Keys(schema[1..])
  }

  /** The suggestion for an unknown key is a declared key no other is preferred to. */
  ghost predicate Suggests(schema: seq<Spec>, p: Problem, input: string) {
    && p.UnknownKey? && p.key == input && (schema != [] ==> p.nearest in Keys(schema))
    && forall k :: k in Keys(schema) ==> EditDistance.Preferred(input, p.nearest, k)
  }

  /** The problem reported for a refused entry. */
  ghost predicate Explains(w: World, p: Problem, e: Entry) {
    var spec := Canonical(w.schema, e.input);
    if spec.None? then Suggests(w.schema, p, e.input)
    else if !MayChange(spec.value, e.source) then p == NotRuntime(spec.value.key)
    else
      var v := Read(spec.value, e.given, w.reader);
      if v.None? then p == WrongType(spec.value.key) else CheckFor(w, spec.value, v.value, e.source) == Some(p)
  }

  ghost predicate ExplainsAll(w: World, problems: seq<Problem>, entries: seq<Entry>) {
    |problems| == |entries| && forall k :: 0 <= k < |entries| ==> Explains(w, problems[k], entries[k])
  }

  method Unknown(schema: seq<Spec>, input: string) returns (p: Problem)
    ensures Suggests(schema, p, input)
  {
    var nearest := EditDistance.Nearest(input, Keys(schema));
    p := UnknownKey(input, nearest);
  }

  /** One entry: its assignment or its problem. */
  method Judge(w: World, e: Entry) returns (r: Result<Assignment, Problem>)
    ensures Taken(w, e) == if r.Ok? then Some(r.value) else None
    ensures r.Err? ==> Explains(w, r.error, e)
  {
    var spec := Canonical(w.schema, e.input);
    if spec.None? {
      var p := Unknown(w.schema, e.input);
      return Err(p);
    }
    if !MayChange(spec.value, e.source) { return Err(NotRuntime(spec.value.key)); }
    var v := Read(spec.value, e.given, w.reader);
    if v.None? { return Err(WrongType(spec.value.key)); }
    var p := CheckFor(w, spec.value, v.value, e.source);
    if p.Some? { return Err(p.value); }
    r := Ok(Assignment(spec.value, v.value, e.source));
  }

  /** What the entries seen leave: the values with the good ones assigned in order, a problem for each refused one
      in order, and a warning for each former name. */
  datatype Gathering = Gathering(values: Values, problems: seq<Problem>, warnings: seq<(string, string)>)

  ghost predicate Gathers(g: Gathering, w: World, values: Values, seen: seq<Entry>) {
    && g.values == AssignAll(values, TakenAll(w, seen))
    && ExplainsAll(w, g.problems, Refused(w, seen)) && g.warnings == Renames(w, seen)
  }

  function Add(g: Gathering, r: Result<Assignment, Problem>, warning: seq<(string, string)>): Gathering {
    match r
    case Ok(a) => Gathering(Assign(g.values, a), g.problems, g.warnings + warning)
    case Err(p) => Gathering(g.values, g.problems + [p], g.warnings + warning)
  }

  /** Works on a copy of the values. */
  method TakeEntries(w: World, values: Values, entries: seq<Entry>) returns (g: Gathering)
    ensures Gathers(g, w, values, entries)
  {
    g := Gathering(values, [], []);
    ghost var seen: seq<Entry> := [];
    for i := 0 to |entries|
      invariant seen == entries[..i] && Gathers(g, w, values, seen)
    {
      var r := Judge(w, entries[i]);
      AddGathers(g, w, values, seen, entries[i], r);
      seen := seen + [entries[i]];
      g := Add(g, r, RenameOf(w, entries[i]));
    }
    assert seen == entries;
  }

  lemma AddGathers(g: Gathering, w: World, values: Values, seen: seq<Entry>, e: Entry, r: Result<Assignment, Problem>)
    requires Gathers(g, w, values, seen)
    requires Taken(w, e) == (if r.Ok? then Some(r.value) else None) && (r.Err? ==> Explains(w, r.error, e))
    ensures Gathers(Add(g, r, RenameOf(w, e)), w, values, seen + [e])
  {
    OneMoreEntry(w, values, seen, e);
    if r.Ok? {
      assert Refused(w, seen) + [] == Refused(w, seen);
    } else {
      ExplainsLast(w, g.problems, Refused(w, seen), r.error, e);
    }
  }

  lemma ExplainsLast(w: World, problems: seq<Problem>, entries: seq<Entry>, p: Problem, e: Entry)
    requires ExplainsAll(w, problems, entries) && Explains(w, p, e)
    ensures ExplainsAll(w, problems + [p], entries + [e])
  {
  }

  lemma OneMoreEntry(w: World, values: Values, seen: seq<Entry>, e: Entry)
    ensures Refused(w, seen + [e]) == Refused(w, seen) + if Taken(w, e).None? then [e] else []
    ensures Renames(w, seen + [e]) == Renames(w, seen) + RenameOf(w, e)
    ensures AssignAll(values, TakenAll(w, seen + [e]))
            == if Taken(w, e).Some? then Assign(AssignAll(values, TakenAll(w, seen)), Taken(w, e).value)
               else AssignAll(values, TakenAll(w, seen))
  {
    assert (seen + [e])[..|seen|] == seen;
    if Taken(w, e).Some? {
      AssignLast(values, TakenAll(w, seen), Taken(w, e).value);
    } else {
      assert TakenAll(w, seen) + [] == TakenAll(w, seen);
    }
  }

  lemma AssignLast(v: Values, all: seq<Assignment>, a: Assignment)
    ensures AssignAll(v, all + [a]) == Assign(AssignAll(v, all), a)
  {
    assert (all + [a])[..|all|] == all;
  }
}
