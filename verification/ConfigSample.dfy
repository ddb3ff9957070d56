/** A small schema that meets every demand, and two layers on it whose order matters. */
module ConfigSample {
  import opened Results
  import opened ConfigSchema
  import opened LayeredConfig
  import opened EffectiveConfiguration
  import opened ConfigPrecedence
  import opened ConfigMeaning

  function IntSetting(key: string, low: real, high: real, default: int): Spec {
    Spec(key, IntType, false, Within(low, high), Runtime, Int(default), "", "")
  }

  /** The settings the rules read, with the ranges and defaults of the program's own schema. */
  const SAMPLE: seq<Spec> := [
    IntSetting(PREFILL_MIN, 1.0, 16384.0, 128), IntSetting(PREFILL_MAX, 1.0, 16384.0, 2048),
    IntSetting(K_MAX, 0.0, 15.0, 8), IntSetting(TREE_MAX, 1.0, 16.0, 16), IntSetting(MAX_CTX, 32.0, 1048576.0, 32768)
  ]

  lemma KeysDiffer()
    ensures PREFILL_MIN != PREFILL_MAX && PREFILL_MIN != K_MAX && PREFILL_MIN != TREE_MAX && PREFILL_MIN != MAX_CTX
    ensures PREFILL_MAX != K_MAX && PREFILL_MAX != TREE_MAX && PREFILL_MAX != MAX_CTX
    ensures K_MAX != TREE_MAX && K_MAX != MAX_CTX && TREE_MAX != MAX_CTX
    ensures BUCKETS !in {PREFILL_MIN, PREFILL_MAX, K_MAX, TREE_MAX, MAX_CTX}
  {
    assert PREFILL_MIN[19] == 'i' && PREFILL_MAX[19] == 'a';
    assert PREFILL_MIN[1] == 'c' && PREFILL_MAX[1] == 'c' && MAX_CTX[1] == 't' && BUCKETS[1] == 'a';
    assert K_MAX[1] == 'p' && TREE_MAX[1] == 'p' && K_MAX[5] == 'k' && TREE_MAX[5] == 't';
  }

  lemma SampleAdmits(k: nat)
    requires k < 5
    ensures Admissible(SAMPLE[k], SAMPLE[k].default, iset{})
  {
  }

  lemma {:induction false} SampleDefaultsAdmissible(n: nat)
    requires n <= 5
    ensures DefaultsAdmissible(SAMPLE, n, iset{})
  {
    if n > 0 {
      SampleAdmits(n - 1);
      SampleDefaultsAdmissible(n - 1);
    }
  }

  lemma {:induction false} DefaultAt(schema: seq<Spec>, n: nat, k: nat)
    requires DistinctKeys(schema) && k < n <= |schema|
    ensures schema[k].key in DefaultsUpTo(schema, n) && DefaultsUpTo(schema, n)[schema[k].key] == DefaultOf(schema[k])
  {
    if k < n - 1 { DefaultAt(schema, n - 1, k); }
  }

  lemma {:induction false} OnlyDeclared(schema: seq<Spec>, n: nat, key: string)
    requires n <= |schema| && key in DefaultsUpTo(schema, n)
    ensures exists k :: 0 <= k < n && schema[k].key == key
  {
    if key != schema[n - 1].key { OnlyDeclared(schema, n - 1, key); }
  }

  /** The demands on a schema can be met. */
  lemma SampleIsGood()
    ensures GoodSchema(SAMPLE, iset{})
  {
    KeysDiffer();
    SampleDefaultsAdmissible(5);
    assert DistinctKeys(SAMPLE);
    SampleCoheres();
    assert SAMPLE[0].key == PREFILL_MIN && SAMPLE[1].key == PREFILL_MAX && SAMPLE[2].key == K_MAX;
    assert SAMPLE[3].key == TREE_MAX && SAMPLE[4].key == MAX_CTX;
  }

  lemma SampleCoheres()
    ensures DistinctKeys(SAMPLE) && Coherent(Defaults(SAMPLE)) && BUCKETS !in Defaults(SAMPLE)
    ensures Defaults(SAMPLE)[PREFILL_MIN] == DefaultOf(SAMPLE[0]) && Defaults(SAMPLE)[PREFILL_MAX] == DefaultOf(SAMPLE[1])
  {
    KeysDiffer();
    assert DistinctKeys(SAMPLE);
    DefaultAt(SAMPLE, 5, 0);
    DefaultAt(SAMPLE, 5, 1);
    DefaultAt(SAMPLE, 5, 2);
    DefaultAt(SAMPLE, 5, 3);
    DefaultAt(SAMPLE, 5, 4);
    if BUCKETS in Defaults(SAMPLE) {
      OnlyDeclared(SAMPLE, 5, BUCKETS);
      assert false;
    }
  }

  // ---------------------------------------------------------------- an order that is refused

  const WORLD: World := World(SAMPLE, Reader(imap[], imap["32" := 32, "4" := 4, "6" := 6], imap[], imap[], iset{}), {})

  const LOWER_MINIMUM: seq<Entry> := [Entry(PREFILL_MIN, Text("32"), Cli("--scheduler.prefill_min_chunk"))]
  const LOWER_MAXIMUM: seq<Entry> := [Entry(PREFILL_MAX, Parsed(Int(64)), File("r9v.toml", 3))]

  /** The first layer is what a command line gives. */
  lemma FromTheCommandLine()
    ensures CliEntries([("--scheduler.prefill_min_chunk", "32")]) == LOWER_MINIMUM
  {
    assert "--scheduler.prefill_min_chunk"[2..] == PREFILL_MIN;
  }

  const SETTING: Named := Named("prefill_max_chunk", Int(64))
  const SECTION: Named := Named("scheduler", Table([SETTING]))

  /** The second is what a file gives: its version, and one setting in a section on line 3. */
  lemma FromTheFile(table: seq<Named>)
    requires table == [Named("config_version", Int(1)), SECTION]
    ensures VersionFits(table)
    ensures var flat := Flatten(SAMPLE, "", Settings(table));
            flat.unknown == [] && FileEntries(flat.found, "r9v.toml", map[PREFILL_MAX := 3]) == LOWER_MAXIMUM
  {
    OneSection(table);
    InTheSection();
  }

  lemma OneSection(table: seq<Named>)
    requires table == [Named("config_version", Int(1)), SECTION]
    ensures Settings(table) == [SECTION]
  {
    assert "config_version"[0] == 'c' && SECTION.name[0] == 's';
    assert table[1..] == [SECTION] && [SECTION][1..] == [];
    assert Settings([]) == [];
    assert Settings([SECTION]) == [SECTION] + Settings([]);
    assert Settings(table) == [] + Settings([SECTION]);
  }

  lemma InTheSection()
    ensures Flatten(SAMPLE, "", [SECTION]) == Flat([Named(PREFILL_MAX, Int(64))], [])
  {
    SectionIsNoSetting();
    SectionHasSettings();
    MaximumIsDeclared();
    KeyInSection();
    FlattenOne(SAMPLE, SECTION.name, SETTING, PREFILL_MAX);
  }

  lemma SectionHasSettings()
    ensures HasDescendants(SAMPLE, SECTION.name)
  {
    assert SECTION.name + "." <= SAMPLE[1].key;
  }

  lemma KeyInSection()
    ensures (SECTION.name + ".") + SETTING.name == PREFILL_MAX
  {
  }

  lemma FlattenOne(schema: seq<Spec>, name: string, setting: Named, key: string)
    requires Canonical(schema, name).None? && HasDescendants(schema, name)
    requires key == (name + ".") + setting.name && Canonical(schema, key).Some?
    ensures Flatten(schema, "", [Named(name, Table([setting]))]) == Flat([Named(key, setting.value)], [])
  {
    FlattenSetting(schema, name + ".", setting, key);
    FlattenSection(schema, name, [setting]);
  }

  lemma FlattenSetting(schema: seq<Spec>, prefix: string, setting: Named, key: string)
    requires key == prefix + setting.name && Canonical(schema, key).Some?
    ensures Flatten(schema, prefix, [setting]) == Flat([Named(key, setting.value)], [])
  {
    assert [setting][1..] == [] && Flatten(schema, prefix, []) == Flat([], []);
  }

  lemma FlattenSection(schema: seq<Spec>, name: string, fields: seq<Named>)
    requires Canonical(schema, name).None? && HasDescendants(schema, name)
    ensures Flatten(schema, "", [Named(name, Table(fields))]) == Flatten(schema, name + ".", fields)
  {
    var section, inner := Named(name, Table(fields)), Flatten(schema, name + ".", fields);
    assert "" + name == name && [section][1..] == [] && Flatten(schema, "", []) == Flat([], []);
    assert Flatten(schema, "", [section]) == Join(inner, Flat([], []));
    assert inner.found + [] == inner.found && inner.unknown + [] == inner.unknown;
  }

  lemma SectionIsNoSetting()
    ensures Canonical(SAMPLE, SECTION.name).None?
  {
    assert forall k :: 0 <= k < 5 ==> |SAMPLE[k].key| != |SECTION.name| && SAMPLE[k].renamedFrom == "";
    NothingFound(SAMPLE, SECTION.name);
  }

  lemma {:induction false} NothingFound(schema: seq<Spec>, key: string)
    requires forall k :: 0 <= k < |schema| ==> schema[k].key != key && schema[k].renamedFrom == ""
    ensures Find(schema, key).None? && FindRenamed(schema, key).None?
  {
    if schema != [] { NothingFound(schema[1..], key); }
  }

  lemma MaximumIsDeclared()
    ensures Find(SAMPLE, PREFILL_MAX) == Some(SAMPLE[1]) == Canonical(SAMPLE, PREFILL_MAX)
  {
    KeysDiffer();
    assert SAMPLE[1..][0] == SAMPLE[1];
  }

  lemma TakenOne(e: Entry)
    ensures TakenAll(WORLD, [e]) == (if Taken(WORLD, e).Some? then [Taken(WORLD, e).value] else [])
    ensures Refused(WORLD, [e]) == (if Taken(WORLD, e).Some? then [] else [e])
  {
    assert [e][..0] == [];
  }

  lemma MinimumTaken()
    ensures Taken(WORLD, LOWER_MINIMUM[0]) == Some(Assignment(SAMPLE[0], Int(32), LOWER_MINIMUM[0].source))
  {
    assert Find(SAMPLE, PREFILL_MIN) == Some(SAMPLE[0]);
  }

  lemma MaximumTaken()
    ensures Taken(WORLD, LOWER_MAXIMUM[0]) == Some(Assignment(SAMPLE[1], Int(64), LOWER_MAXIMUM[0].source))
  {
    MaximumIsDeclared();
  }

  lemma AssignOne(v: Values, a: Assignment)
    ensures AssignAll(v, [a]) == Assign(v, a)
  {
    assert [a][..0] == [];
  }

  /** From the defaults, a flag that lowers the prefill minimum and then a file that lowers the maximum are both
      accepted; the file first is refused, because on its own it puts the maximum below the minimum. */
  lemma OrderMatters()
    ensures AcceptsBoth(WORLD, Defaults(SAMPLE), LOWER_MINIMUM, LOWER_MAXIMUM)
    ensures !Accepts(WORLD, Defaults(SAMPLE), LOWER_MAXIMUM, [])
  {
    MinimumTaken();
    MaximumTaken();
    SampleCoheres();
    var v := Defaults(SAMPLE);
    var min, max := Taken(WORLD, LOWER_MINIMUM[0]).value, Taken(WORLD, LOWER_MAXIMUM[0]).value;
    TakenOne(LOWER_MINIMUM[0]);
    TakenOne(LOWER_MAXIMUM[0]);
    AcceptanceDependsOnOrder(v, max, min);
    AssignOne(v, min);
    AssignOne(v, max);
    AssignOne(Assign(v, min), max);
  }

  // ---------------------------------------------------------------- a flag and a variable for the same setting

  const VARIABLE: seq<Entry> := [Entry(K_MAX, Text("4"), Env("R9V__SPEC__K_MAX"))]
  const FLAG: seq<Entry> := [Entry(K_MAX, Text("6"), Cli("--spec.k_max"))]

  lemma FromTheEnvironment()
    ensures EnvEntries([("R9V__SPEC__K_MAX", "4")]) == VARIABLE
    ensures CliEntries([("--spec.k_max", "6")]) == FLAG
  {
    DepthIsSpellable();
    ShoutedName();
    VariableSetsKey(K_MAX, "4");
    DepthFlag();
  }

  lemma DepthFlag()
    ensures CliEntries([("--spec.k_max", "6")]) == FLAG
  {
    assert "--spec.k_max"[2..] == K_MAX;
  }

  lemma DepthIsSpellable()
    ensures Spellable(K_MAX)
  {
  }

  lemma ShoutedName()
    ensures "R9V__" + Shout(K_MAX) == "R9V__SPEC__K_MAX"
  {
    ShoutedMiddle();
    ShoutStep('p', "ec.k_max", "EC__K_MAX");
    ShoutStep('s', "pec.k_max", "PEC__K_MAX");
    assert ['s'] + "pec.k_max" == K_MAX;
  }

  lemma ShoutedMiddle()
    ensures Shout("ec.k_max") == "EC__K_MAX"
  {
    ShoutedEnd();
    ShoutStep('.', "k_max", "K_MAX");
    ShoutStep('c', ".k_max", "__K_MAX");
    ShoutStep('e', "c.k_max", "C__K_MAX");
  }

  lemma ShoutedEnd()
    ensures Shout("k_max") == "K_MAX"
  {
    ShoutStep('x', "", "");
    ShoutStep('a', "x", "X");
    ShoutStep('m', "ax", "AX");
    ShoutStep('_', "max", "MAX");
    ShoutStep('k', "_max", "_MAX");
  }

  lemma DepthIsDeclared()
    ensures Find(SAMPLE, K_MAX) == Some(SAMPLE[2])
  {
    KeysDiffer();
    assert SAMPLE[2..][0] == SAMPLE[2] && SAMPLE[1..][1..] == SAMPLE[2..];
    assert Find(SAMPLE, K_MAX) == Find(SAMPLE[1..], K_MAX) == Find(SAMPLE[2..], K_MAX);
  }

  lemma VariableTaken()
    ensures Taken(WORLD, VARIABLE[0]) == Some(Assignment(SAMPLE[2], Int(4), VARIABLE[0].source))
  {
    DepthIsDeclared();
  }

  lemma FlagTaken()
    ensures Taken(WORLD, FLAG[0]) == Some(Assignment(SAMPLE[2], Int(6), FLAG[0].source))
  {
    DepthIsDeclared();
  }

  lemma DepthByDefault()
    ensures K_MAX in Defaults(SAMPLE) && Defaults(SAMPLE)[K_MAX].source == Default
  {
    KeysDiffer();
    assert DistinctKeys(SAMPLE);
    DefaultAt(SAMPLE, 5, 2);
  }

  /** The flag decides, in whichever order the two come. */
  lemma FlagBeatsVariable()
    ensures var d := Defaults(SAMPLE);
            var flag, variable := TakenAll(WORLD, FLAG), TakenAll(WORLD, VARIABLE);
            && Shown(AssignAll(AssignAll(d, flag), variable), 6, FLAG[0].source)
            && Shown(AssignAll(AssignAll(d, variable), flag), 6, FLAG[0].source)
  {
    FlagTaken();
    VariableTaken();
    DepthByDefault();
    TakenOne(FLAG[0]);
    TakenOne(VARIABLE[0]);
    BothOrders(Defaults(SAMPLE), Taken(WORLD, FLAG[0]).value, Taken(WORLD, VARIABLE[0]).value);
  }

  lemma BothOrders(d: Values, flag: Assignment, variable: Assignment)
    requires flag.spec.key == variable.spec.key == K_MAX && flag.source.Cli? && variable.source.Env? && flag.value == Int(6)
    requires K_MAX in d && d[K_MAX].source == Default
    ensures Shown(AssignAll(AssignAll(d, [flag]), [variable]), 6, flag.source)
    ensures Shown(AssignAll(AssignAll(d, [variable]), [flag]), 6, flag.source)
  {
    AssignOne(d, flag);
    AssignOne(d, variable);
    AssignOne(Assign(d, flag), variable);
    AssignOne(Assign(d, variable), flag);
    FlagOverVariable(d, flag, variable);
  }

  ghost predicate Shown(v: Values, n: int, source: Source) {
    K_MAX in v && v[K_MAX].value == Int(n) && v[K_MAX].source == source
  }

  // ---------------------------------------------------------------- a number only a file can give

  /** The step budget, as the program declares it: a number of milliseconds, or "auto". */
  const STEP_BUDGET: Spec :=
    Spec("scheduler.step_budget_ms", FloatType, true, Within(1.0, 1000.0), Runtime, Str("auto"), "measured", "")

  /** From a file 50 milliseconds are accepted. As text they are refused, whatever the readers accept. */
  lemma BudgetOnlyFromFile(reader: Reader, paths: set<string>)
    ensures Check(STEP_BUDGET, Float(50.0), reader.sizes, true, paths).None?
    ensures Check(STEP_BUDGET, ReadText(STEP_BUDGET, "50", reader).value, reader.sizes, false, paths)
            == Some(WrongType(STEP_BUDGET.key))
  {
    assert STEP_BUDGET.key[0] == 's' && !IsLoadPath(STEP_BUDGET.key);
    assert Lower("50")[0] == '5' && |Unquote("50")| == 2;
  }
}
