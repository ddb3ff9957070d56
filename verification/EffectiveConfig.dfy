/** The configuration object: each layer is applied whole or not at all, and every state it can reach passes all
    checks. */
module EffectiveConfiguration {
  import opened Results
  import opened ConfigSchema
  import opened LayeredConfig

  // ---------------------------------------------------------------- what every reachable state satisfies

  /** One setting: admissible, resolved only while "auto", changed by request only where the schema allows. */
  ghost predicate Sound(spec: Spec, s: Sourced, sizes: iset<string>) {
    && Admissible(spec, s.value, sizes)
    && s.rule == (if IsAuto(s.value) then Some(spec.rule) else None)
    && (s.resolved.Some? ==> IsAuto(s.value) && !IsAuto(s.resolved.value) && Admissible(spec, s.resolved.value, sizes))
    && MayChange(spec, s.source)
  }

  /** The first n settings are there and sound. */
  ghost predicate SoundUpTo(v: Values, schema: seq<Spec>, n: nat, sizes: iset<string>)
    requires n <= |schema|
  {
    n == 0 || (SoundUpTo(v, schema, n - 1, sizes) && schema[n - 1].key in v
               && Sound(schema[n - 1], v[schema[n - 1].key], sizes))
  }

  ghost predicate Consistent(v: Values, schema: seq<Spec>, sizes: iset<string>) {
    SoundUpTo(v, schema, |schema|, sizes) && v.Keys <= KeySet(schema)
  }

  lemma {:induction false} SoundAt(v: Values, schema: seq<Spec>, n: nat, sizes: iset<string>, k: nat)
    requires k < n <= |schema| && SoundUpTo(v, schema, n, sizes)
    ensures schema[k].key in v && Sound(schema[k], v[schema[k].key], sizes)
  {
    if k < n - 1 { SoundAt(v, schema, n - 1, sizes, k); }
  }

  ghost function KeySet(schema: seq<Spec>): set<string> { set k | 0 <= k < |schema| :: schema[k].key }

  ghost predicate DistinctKeys(schema: seq<Spec>) {
    forall i, j :: 0 <= i < j < |schema| ==> schema[i].key != schema[j].key
  }

  ghost predicate IsIntSetting(schema: seq<Spec>, key: string) {
    exists k :: 0 <= k < |schema| && schema[k].key == key && schema[k].ty == IntType && !schema[k].auto
  }

  function DefaultOf(s: Spec): Sourced {
    Sourced(s.default, Default, None, if IsAuto(s.default) then Some(s.rule) else None)
  }

  /** The defaults of the first n settings. */
  function DefaultsUpTo(schema: seq<Spec>, n: nat): Values
    requires n <= |schema|
  {
    if n == 0 then map[] else DefaultsUpTo(schema, n - 1)[schema[n - 1].key := DefaultOf(schema[n - 1])]
  }

  function Defaults(schema: seq<Spec>): Values { DefaultsUpTo(schema, |schema|) }

  ghost predicate DefaultsAdmissible(schema: seq<Spec>, n: nat, sizes: iset<string>)
    requires n <= |schema|
  {
    n == 0 || (DefaultsAdmissible(schema, n - 1, sizes) && Admissible(schema[n - 1], schema[n - 1].default, sizes))
  }

  /** What the declarations have to provide. */
  ghost predicate GoodSchema(schema: seq<Spec>, sizes: iset<string>) {
    && DistinctKeys(schema) && DefaultsAdmissible(schema, |schema|, sizes)
    && IsIntSetting(schema, PREFILL_MIN) && IsIntSetting(schema, PREFILL_MAX)
    && IsIntSetting(schema, K_MAX) && IsIntSetting(schema, TREE_MAX) && IsIntSetting(schema, MAX_CTX)
    && Coherent(Defaults(schema))
  }

  /** Settings other than the changed one stay sound. */
  lemma {:induction false} OthersStaySound(v: Values, schema: seq<Spec>, n: nat, sizes: iset<string>, key: string, s: Sourced)
    requires n <= |schema| && SoundUpTo(v, schema, n, sizes)
    requires forall k :: 0 <= k < n && schema[k].key == key ==> Sound(schema[k], s, sizes)
    ensures SoundUpTo(v[key := s], schema, n, sizes)
  {
    if n > 0 { OthersStaySound(v, schema, n - 1, sizes, key, s); }
  }

  lemma {:induction false} DefaultsConsistent(schema: seq<Spec>, n: nat, sizes: iset<string>)
    requires DistinctKeys(schema) && n <= |schema| && DefaultsAdmissible(schema, n, sizes)
    ensures SoundUpTo(DefaultsUpTo(schema, n), schema, n, sizes) && DefaultsUpTo(schema, n).Keys <= KeySet(schema)
  {
    if n > 0 {
      var s := schema[n - 1];
      DefaultsConsistent(schema, n - 1, sizes);
      OthersStaySound(DefaultsUpTo(schema, n - 1), schema, n - 1, sizes, s.key, DefaultOf(s));
    }
  }

  ghost predicate GoodAssignment(a: Assignment, schema: seq<Spec>, sizes: iset<string>) {
    a.spec in schema && Admissible(a.spec, a.value, sizes) && MayChange(a.spec, a.source)
  }

  lemma AssignKeeps(v: Values, a: Assignment, schema: seq<Spec>, sizes: iset<string>)
    requires DistinctKeys(schema) && Consistent(v, schema, sizes) && GoodAssignment(a, schema, sizes)
    ensures Consistent(Assign(v, a), schema, sizes)
  {
    var i :| 0 <= i < |schema| && schema[i] == a.spec;
    assert Sound(a.spec, Placed(a), sizes);
    forall k | 0 <= k < |schema| && schema[k].key == a.spec.key ensures schema[k] == a.spec {
      assert k == i;
    }
    OthersStaySound(v, schema, |schema|, sizes, a.spec.key, Placed(a));
  }

  lemma {:induction false} AssignAllKeeps(v: Values, all: seq<Assignment>, schema: seq<Spec>, sizes: iset<string>)
    requires DistinctKeys(schema) && Consistent(v, schema, sizes)
    requires forall k :: 0 <= k < |all| ==> GoodAssignment(all[k], schema, sizes)
    ensures Consistent(AssignAll(v, all), schema, sizes)
  {
    if all != [] {
      AssignAllKeeps(v, all[..|all| - 1], schema, sizes);
      AssignKeeps(AssignAll(v, all[..|all| - 1]), all[|all| - 1], schema, sizes);
    }
  }

  lemma {:induction false} TakenAreGood(w: World, entries: seq<Entry>)
    ensures forall k :: 0 <= k < |TakenAll(w, entries)| ==>
              GoodAssignment(TakenAll(w, entries)[k], w.schema, w.reader.sizes)
  {
    if entries != [] {
      TakenAreGood(w, entries[..|entries| - 1]);
      TakenIsGood(w, entries[|entries| - 1]);
    }
  }

  lemma TakenIsGood(w: World, e: Entry)
    ensures Taken(w, e).Some? ==> GoodAssignment(Taken(w, e).value, w.schema, w.reader.sizes)
  {
    var t := Taken(w, e);
    if t.Some? {
      CheckedIsAdmissible(t.value.spec, t.value.value, w.reader.sizes, !e.source.Request?, w.paths);
    }
  }

  lemma IntSettingReads(v: Values, schema: seq<Spec>, sizes: iset<string>, key: string)
    requires Consistent(v, schema, sizes) && IsIntSetting(schema, key)
    ensures HasInt(v, key)
  {
    var k :| 0 <= k < |schema| && schema[k].key == key && schema[k].ty == IntType && !schema[k].auto;
    SoundAt(v, schema, |schema|, sizes, k);
  }

  lemma ConsistentReads(v: Values, schema: seq<Spec>, sizes: iset<string>)
    requires Consistent(v, schema, sizes) && GoodSchema(schema, sizes)
    ensures Readable(v)
  {
    IntSettingReads(v, schema, sizes, PREFILL_MIN);
    IntSettingReads(v, schema, sizes, PREFILL_MAX);
    IntSettingReads(v, schema, sizes, K_MAX);
    IntSettingReads(v, schema, sizes, TREE_MAX);
    IntSettingReads(v, schema, sizes, MAX_CTX);
  }

  /** No rule is reported exactly when all of them hold. */
  lemma CoherentIff(v: Values)
    requires Readable(v)
    ensures Violations(v) == [] <==> Coherent(v)
  {
  }

  // ---------------------------------------------------------------- the object

  datatype ConfigError =
    | BadVersion
    | Refusals(problems: seq<Problem>)
    | CrossField(rules: seq<Rule>)
    | NotAuto(key: string)

  datatype Proposal = Proposal(values: Values, renames: seq<(string, string)>)

  /** The layer would be accepted. */
  ghost predicate Accepts(w: World, values: Values, entries: seq<Entry>, earlier: seq<Problem>) {
    earlier == [] && Refused(w, entries) == [] && Coherent(AssignAll(values, TakenAll(w, entries)))
  }

  /** The report of a layer: the earlier problems and one for each refused entry, or the rules broken. */
  ghost predicate Reports(w: World, values: Values, entries: seq<Entry>, earlier: seq<Problem>, e: ConfigError) {
    if earlier == [] && Refused(w, entries) == [] then BreaksRules(AssignAll(values, TakenAll(w, entries)), e)
    else e.Refusals? && earlier <= e.problems && ExplainsAll(w, e.problems[|earlier|..], Refused(w, entries))
  }

  ghost predicate BreaksRules(v: Values, e: ConfigError) { Readable(v) && e == CrossField(Violations(v)) }

  /** Works a layer out on a copy of the values. */
  method Propose(w: World, values: Values, entries: seq<Entry>, earlier: seq<Problem>) returns (r: Result<Proposal, ConfigError>)
    requires GoodSchema(w.schema, w.reader.sizes) && Consistent(values, w.schema, w.reader.sizes)
    ensures r.Ok? <==> Accepts(w, values, entries, earlier)
    ensures r.Ok? ==> r.value == Proposal(AssignAll(values, TakenAll(w, entries)), Renames(w, entries))
                      && Consistent(r.value.values, w.schema, w.reader.sizes)
    ensures r.Err? ==> Reports(w, values, entries, earlier, r.error)
  {
    var g := TakeEntries(w, values, entries);
    if earlier + g.problems != [] {
      assert (earlier + g.problems)[|earlier|..] == g.problems;
      return Err(Refusals(earlier + g.problems));
    }
    TakenKeep(w, values, entries);
    CoherentIff(g.values);
    var rules := Violations(g.values);
    if rules != [] { return Err(CrossField(rules)); }
    r := Ok(Proposal(g.values, g.warnings));
  }

  lemma TakenKeep(w: World, values: Values, entries: seq<Entry>)
    requires GoodSchema(w.schema, w.reader.sizes) && Consistent(values, w.schema, w.reader.sizes)
    ensures var c := AssignAll(values, TakenAll(w, entries));
            Consistent(c, w.schema, w.reader.sizes) && Readable(c)
  {
    TakenAreGood(w, entries);
    AssignAllKeeps(values, TakenAll(w, entries), w.schema, w.reader.sizes);
    ConsistentReads(AssignAll(values, TakenAll(w, entries)), w.schema, w.reader.sizes);
  }

  lemma DeclaredIsSound(v: Values, schema: seq<Spec>, sizes: iset<string>, spec: Spec)
    requires Consistent(v, schema, sizes) && spec in schema
    ensures spec.key in v && Sound(spec, v[spec.key], sizes)
  {
    var k :| 0 <= k < |schema| && schema[k] == spec;
    SoundAt(v, schema, |schema|, sizes, k);
  }

  /** Replacing one setting's entry, with the value left alone, keeps everything. */
  lemma ResolvedKeeps(v: Values, schema: seq<Spec>, sizes: iset<string>, spec: Spec, s: Sourced)
    requires GoodSchema(schema, sizes) && Consistent(v, schema, sizes) && Coherent(v) && spec in schema
    requires spec.key in v && s.value == v[spec.key].value && Sound(spec, s, sizes)
    ensures Consistent(v[spec.key := s], schema, sizes) && Coherent(v[spec.key := s])
  {
    var i :| 0 <= i < |schema| && schema[i] == spec;
    forall k | 0 <= k < |schema| && schema[k].key == spec.key ensures schema[k] == spec {
      assert k == i;
    }
    OthersStaySound(v, schema, |schema|, sizes, spec.key, s);
    SameValuesCohere(v, v[spec.key := s]);
  }

  /** A declared setting that is "auto", and a concrete value it admits. */
  predicate Resolvable(v: Values, schema: seq<Spec>, sizes: iset<string>, key: string, resolved: Value) {
    var spec := Find(schema, key);
    spec.Some? && !IsAuto(resolved) && Admissible(spec.value, resolved, sizes) && key in v && IsAuto(v[key].value)
  }

  /** Why a setting cannot be resolved: it is not declared, the value is "auto" again or not admissible, or it has a
      concrete value already. */
  ghost predicate NotResolved(v: Values, schema: seq<Spec>, sizes: iset<string>, key: string, resolved: Value, e: ConfigError) {
    var spec := Find(schema, key);
    if spec.None? then e.Refusals? && |e.problems| == 1 && Suggests(schema, e.problems[0], key)
    else if IsAuto(resolved) then e == Refusals([WrongType(key)])
    else if !Admissible(spec.value, resolved, sizes) then
      e.Refusals? && |e.problems| == 1 && Check(spec.value, resolved, sizes, false, {}) == Some(e.problems[0])
    else e == ConfigError.NotAuto(key)
  }

  function WithResolution(v: Values, key: string, resolved: Value): Values
    requires key in v
  {
    v[key := v[key].(resolved := Some(resolved))]
  }

  lemma SameValuesCohere(v: Values, w: Values)
    requires v.Keys == w.Keys && Coherent(v) && forall key :: key in v ==> v[key].value == w[key].value
    ensures Coherent(w)
  {
    assert LargestPrefillBucket(v) == LargestPrefillBucket(w);
  }

  // ---------------------------------------------------------------- the entries of each kind of layer

  const CONFIG_VERSION := 1

  predicate VersionFits(table: seq<Named>) { Field(table, "config_version") == Some(Int(CONFIG_VERSION)) }

  predicate IsExtension(name: string) { |name| >= 2 && name[0] == 'x' && name[1] == '-' }

  /** The top-level sections kept for others. */
  function Sections(table: seq<Named>): seq<Named> {
    if table == [] then [] else (if IsExtension(table[0].name) then [table[0]] else []) + Sections(table[1..])
  }

  function Settings(table: seq<Named>): seq<Named> {
    if table == [] then []
    else (if IsExtension(table[0].name) || table[0].name == "config_version" then [] else [table[0]]) + Settings(table[1..])
  }

  predicate HasDescendants(schema: seq<Spec>, prefix: string) {
    exists k :: 0 <= k < |schema| && prefix + "." <= schema[k].key
  }

  datatype Flat = Flat(found: seq<Named>, unknown: seq<string>)

  function Join(a: Flat, b: Flat): Flat { Flat(a.found + b.found, a.unknown + b.unknown) }

  /** Settings by full key, going into tables only where declared settings lie below. */
  function Flatten(schema: seq<Spec>, prefix: string, fields: seq<Named>): Flat
    decreases fields
  {
    if fields == [] then Flat([], [])
    else
      var Named(name, value) := fields[0];
      var key := prefix + name;
      Join(if Canonical(schema, key).Some? then Flat([Named(key, value)], [])
           else if value.Table? && HasDescendants(schema, key) then
             Flatten(schema, key + ".", value.fields)
           else Flat([], [key]),
           Flatten(schema, prefix, fields[1..]))
  }

  /** Every flattened key names a setting, by its own or its former name. */
  lemma {:induction false} FlattenFindsDeclared(schema: seq<Spec>, prefix: string, fields: seq<Named>)
    ensures forall k :: 0 <= k < |Flatten(schema, prefix, fields).found| ==>
              Canonical(schema, Flatten(schema, prefix, fields).found[k].name).Some?
    ensures forall k :: 0 <= k < |Flatten(schema, prefix, fields).unknown| ==>
              Canonical(schema, Flatten(schema, prefix, fields).unknown[k]).None?
    decreases fields
  {
    if fields != [] {
      var Named(name, value) := fields[0];
      FlattenFindsDeclared(schema, prefix, fields[1..]);
      if value.Table? {
        FlattenFindsDeclared(schema, prefix + name + ".", value.fields);
      }
    }
  }

  function FileEntries(found: seq<Named>, path: string, lines: map<string, nat>): (e: seq<Entry>)
    ensures |e| == |found|
  {
    seq(|found|, k requires 0 <= k < |found| =>
      Entry(found[k].name, Parsed(found[k].value), File(path, if found[k].name in lines then lines[found[k].name] else 1)))
  }

  /** Double underscores become dots, letters become small. */
  function Dotted(s: string): string {
    if s == [] then []
    else if |s| >= 2 && s[0] == '_' && s[1] == '_' then "." + Dotted(s[2..])
    else [LowerChar(s[0])] + Dotted(s[1..])
  }

  function EnvEntries(vars: seq<(string, string)>): seq<Entry> {
    if vars == [] then []
    else
      var (name, raw) := vars[0];
      (if "R9V__" <= name then [Entry(Dotted(name[5..]), Text(raw), Env(name))] else []) + EnvEntries(vars[1..])
  }

  function FlagKey(flag: string): string { if "--" <= flag then flag[2..] else flag }

  function CliEntries(flags: seq<(string, string)>): (e: seq<Entry>)
    ensures |e| == |flags|
  {
    seq(|flags|, k requires 0 <= k < |flags| => Entry(FlagKey(flags[k].0), Text(flags[k].1), Cli(flags[k].0)))
  }

  function RequestEntries(given: seq<(string, string)>, requester: string, time: string): (e: seq<Entry>)
    ensures |e| == |given|
  {
    seq(|given|, k requires 0 <= k < |given| => Entry(given[k].0, Text(given[k].1), Request(requester, time)))
  }

  ghost predicate SuggestsAll(schema: seq<Spec>, problems: seq<Problem>, keys: seq<string>) {
    |problems| == |keys| && forall k :: 0 <= k < |keys| ==> Suggests(schema, problems[k], keys[k])
  }

  method UnknownAll(schema: seq<Spec>, keys: seq<string>) returns (problems: seq<Problem>)
    ensures SuggestsAll(schema, problems, keys)
  {
    problems := [];
    for i := 0 to |keys|
      invariant |problems| == i && forall k :: 0 <= k < i ==> Suggests(schema, problems[k], keys[k])
    {
      var p := Unknown(schema, keys[i]);
      problems := problems + [p];
    }
  }

  datatype Snapshot = Snapshot(values: Values, extensions: seq<Named>, warnings: seq<(string, string)>)

  /** A layer is applied whole, or reported and nothing changes. */
  ghost predicate Outcome(before: Snapshot, after: Snapshot, w: World, entries: seq<Entry>, earlier: seq<Problem>,
                          sections: seq<Named>, r: Option<ConfigError>) {
    if r.None? then
      && Accepts(w, before.values, entries, earlier)
      && after == Snapshot(AssignAll(before.values, TakenAll(w, entries)), sections, before.warnings + Renames(w, entries))
    else
      !Accepts(w, before.values, entries, earlier) && after == before && Reports(w, before.values, entries, earlier, r.value)
  }

  class EffectiveConfig {
    const schema: seq<Spec>
    const reader: Reader
    var values: Values
    var extensions: seq<Named>
    var warnings: seq<(string, string)>

    ghost predicate Valid()
      reads this
    {
      GoodSchema(schema, reader.sizes) && Consistent(values, schema, reader.sizes) && Coherent(values)
    }

    function State(): Snapshot
      reads this
    {
      Snapshot(values, extensions, warnings)
    }

    constructor (schema: seq<Spec>, reader: Reader)
      requires GoodSchema(schema, reader.sizes)
      ensures Valid() && State() == Snapshot(Defaults(schema), [], [])
      ensures this.schema == schema && this.reader == reader
    {
      this.schema, this.reader := schema, reader;
      values, extensions, warnings := Defaults(schema), [], [];
      new;
      DefaultsConsistent(schema, |schema|, reader.sizes);
    }

    /** earlier are the problems found before the entries were looked at. */
    method Commit(w: World, entries: seq<Entry>, earlier: seq<Problem>, sections: seq<Named>)
      returns (r: Option<ConfigError>)
      requires Valid() && w.schema == schema && w.reader == reader
      modifies this
      ensures Valid() && Outcome(old(State()), State(), w, entries, earlier, sections, r)
    {
      var p := Propose(w, values, entries, earlier);
      if p.Err? { return Some(p.error); }
      values, extensions, warnings := p.value.values, sections, warnings + p.value.renames;
      r := None;
    }

    method ApplyFile(path: string, table: seq<Named>, lines: map<string, nat>, paths: set<string>)
      returns (r: Option<ConfigError>, ghost earlier: seq<Problem>)
      requires Valid()
      modifies this
      ensures Valid()
      ensures !VersionFits(table) ==> r == Some(BadVersion) && State() == old(State())
      ensures VersionFits(table) ==>
                var flat := Flatten(schema, "", Settings(table));
                && SuggestsAll(schema, earlier, flat.unknown)
                && Outcome(old(State()), State(), World(schema, reader, paths), FileEntries(flat.found, path, lines),
                           earlier, Sections(table), r)
    {
      earlier := [];
      if !VersionFits(table) { return Some(BadVersion), []; }
      var flat := Flatten(schema, "", Settings(table));
      var problems := UnknownAll(schema, flat.unknown);
      earlier := problems;
      r := Commit(World(schema, reader, paths), FileEntries(flat.found, path, lines), problems, Sections(table));
    }

    method ApplyEnv(vars: seq<(string, string)>, paths: set<string>) returns (r: Option<ConfigError>)
      requires Valid()
      modifies this
      ensures Valid()
      ensures Outcome(old(State()), State(), World(schema, reader, paths), EnvEntries(vars), [], old(extensions), r)
    {
      r := Commit(World(schema, reader, paths), EnvEntries(vars), [], extensions);
    }

    method ApplyCli(flags: seq<(string, string)>, paths: set<string>) returns (r: Option<ConfigError>)
      requires Valid()
      modifies this
      ensures Valid()
      ensures Outcome(old(State()), State(), World(schema, reader, paths), CliEntries(flags), [], old(extensions), r)
    {
      r := Commit(World(schema, reader, paths), CliEntries(flags), [], extensions);
    }

    /** Approved changes while running. Paths are not looked at. */
    method ApplyRuntime(given: seq<(string, string)>, requester: string, time: string) returns (r: Option<ConfigError>)
      requires Valid()
      modifies this
      ensures Valid()
      ensures Outcome(old(State()), State(), World(schema, reader, {}), RequestEntries(given, requester, time), [],
                      old(extensions), r)
    {
      r := Commit(World(schema, reader, {}), RequestEntries(given, requester, time), [], extensions);
    }

    /** Attaches what an "auto" rule came to. The value stays "auto". */
    method ResolveAuto(key: string, resolved: Value) returns (r: Option<ConfigError>)
      requires Valid()
      modifies this`values
      ensures Valid()
      ensures r.None? <==> Resolvable(old(values), schema, reader.sizes, key, resolved)
      ensures values == if r.None? then WithResolution(old(values), key, resolved) else old(values)
      ensures r.Some? ==> NotResolved(old(values), schema, reader.sizes, key, resolved, r.value)
    {
      var spec := Find(schema, key);
      if spec.None? {
        var p := Unknown(schema, key);
        return Some(Refusals([p]));
      }
      if IsAuto(resolved) { return Some(Refusals([WrongType(key)])); }
      var p := Check(spec.value, resolved, reader.sizes, false, {});
      if p.Some? { return Some(Refusals([p.value])); }
      DeclaredIsSound(values, schema, reader.sizes, spec.value);
      var current := values[key];
      if !IsAuto(current.value) { return Some(ConfigError.NotAuto(key)); }
      ResolvedKeeps(values, schema, reader.sizes, spec.value, current.(resolved := Some(resolved)));
      values := WithResolution(values, key, resolved);
      r := None;
    }
  }
}
