/** What the configuration does in terms of its sources, texts and values, without the ranks, readers and checks it is
    built from. */
module ConfigMeaning {
  import opened Results
  import opened ConfigSchema
  import opened LayeredConfig
  import opened EffectiveConfiguration
  import opened ConfigRuns

  // ---------------------------------------------------------------- which source wins

  datatype Kind = Requests | Flags | Variables | Files

  predicate From(a: Assignment, kind: Kind) {
    match kind
    case Requests => a.source.Request?
    case Flags => a.source.Cli?
    case Variables => a.source.Env?
    case Files => a.source.File?
  }

  /** Nothing of this kind was assigned to the key. */
  ghost predicate Silent(all: seq<Assignment>, key: string, kind: Kind) {
    forall j :: 0 <= j < |all| && all[j].spec.key == key ==> !From(all[j], kind)
  }

  ghost predicate OnlyFiles(all: seq<Assignment>, key: string) {
    Silent(all, key, Requests) && Silent(all, key, Flags) && Silent(all, key, Variables)
  }

  /** The last assignment of this kind to the key. */
  ghost predicate LastFrom(all: seq<Assignment>, key: string, kind: Kind, i: nat) {
    && i < |all| && all[i].spec.key == key && From(all[i], kind)
    && forall j :: i < j < |all| && all[j].spec.key == key ==> !From(all[j], kind)
  }

  /** The key holds value and source of the assignment. */
  ghost predicate Shows(v: Values, key: string, a: Assignment) {
    key in v && v[key].value == a.value && v[key].source == a.source
  }

  /** After any run from the defaults, a key shows the last accepted request for it; without one, the last flag; without
      either, the last variable; without any of these, the last file entry; and what the schema declares when no
      accepted layer assigned it. */
  lemma RequestsThenFlagsThenVariablesThenFiles(calls: seq<Call>, schema: seq<Spec>, reader: Reader, key: string, i: nat)
    ensures var v, d := RunCalls(Defaults(schema), calls, schema, reader), Defaults(schema);
            var all := AcceptedOf(d, calls, schema, reader);
            && (LastFrom(all, key, Requests, i) ==> Shows(v, key, all[i]))
            && (LastFrom(all, key, Flags, i) && Silent(all, key, Requests) ==> Shows(v, key, all[i]))
            && (LastFrom(all, key, Variables, i) && Silent(all, key, Requests) && Silent(all, key, Flags) ==>
                  Shows(v, key, all[i]))
            && (LastFrom(all, key, Files, i) && OnlyFiles(all, key) ==> Shows(v, key, all[i]))
            && (Unassigned(all, key) && key in d ==> key in v && v[key].value == d[key].value && v[key].source == Default)
  {
    var v, d := RunCalls(Defaults(schema), calls, schema, reader), Defaults(schema);
    var all := AcceptedOf(d, calls, schema, reader);
    EffectiveAfterRun(calls, schema, reader, key);
    if !Unassigned(all, key) {
      var w: nat :| LastOfHighest(all, key, w) && v[key].value == all[w].value && v[key].source == all[w].source;
      HighestIsLast(all, key, w, i);
    }
  }

  /** The assignment that wins by rank is the last of the strongest kind. */
  lemma HighestIsLast(all: seq<Assignment>, key: string, w: nat, i: nat)
    requires LastOfHighest(all, key, w)
    ensures LastFrom(all, key, Requests, i) ==> i == w
    ensures LastFrom(all, key, Flags, i) && Silent(all, key, Requests) ==> i == w
    ensures LastFrom(all, key, Variables, i) && Silent(all, key, Requests) && Silent(all, key, Flags) ==> i == w
    ensures LastFrom(all, key, Files, i) && OnlyFiles(all, key) ==> i == w
  {
  }

  /** Over the default, a flag and a variable for one key leave the flag's value in either order. */
  lemma FlagOverVariable(v: Values, flag: Assignment, variable: Assignment)
    requires flag.spec.key == variable.spec.key && flag.source.Cli? && variable.source.Env?
    requires flag.spec.key in v && v[flag.spec.key].source == Default
    ensures Shows(Assign(Assign(v, flag), variable), flag.spec.key, flag)
    ensures Shows(Assign(Assign(v, variable), flag), flag.spec.key, flag)
  {
  }

  // ---------------------------------------------------------------- where entries come from

  /** Every entry of a layer says truly where it comes from. */
  lemma EntrySources(vars: seq<(string, string)>, flags: seq<(string, string)>, given: seq<(string, string)>,
                     requester: string, time: string, found: seq<Named>, path: string, lines: map<string, nat>, k: nat)
    ensures k < |EnvEntries(vars)| ==> EnvEntries(vars)[k].source.Env?
    ensures k < |flags| ==> CliEntries(flags)[k].source == Cli(flags[k].0) && CliEntries(flags)[k].given == Text(flags[k].1)
    ensures k < |given| ==>
              RequestEntries(given, requester, time)[k] == Entry(given[k].0, Text(given[k].1), Request(requester, time))
    ensures k < |found| ==>
              var e := FileEntries(found, path, lines)[k];
              && e.input == found[k].name && e.given == Parsed(found[k].value) && e.source.File? && e.source.path == path
              && e.source.line == if found[k].name in lines then lines[found[k].name] else 1
  {
    if k < |EnvEntries(vars)| { VariableSource(vars, k); }
  }

  lemma {:induction false} VariableSource(vars: seq<(string, string)>, k: nat)
    requires k < |EnvEntries(vars)|
    ensures EnvEntries(vars)[k].source.Env? && EnvEntries(vars)[k].given.Text?
  {
    if "R9V__" <= vars[0].0 {
      if k > 0 { VariableSource(vars[1..], k - 1); }
    } else {
      VariableSource(vars[1..], k);
    }
  }

  /** Two dashes before a flag's key are optional. */
  lemma FlagNames(key: string)
    ensures FlagKey("--" + key) == key && (!("--" <= key) ==> FlagKey(key) == key)
  {
    assert ("--" + key)[2..] == key;
  }

  // ---------------------------------------------------------------- how a key is spelt as a variable

  /** Capital letters, and two underscores for a dot. */
  function Shout(key: string): string {
    if key == [] then []
    else (if key[0] == '.' then "__" else if 'a' <= key[0] <= 'z' then [(key[0] as int - 32) as char] else [key[0]])
         + Shout(key[1..])
  }

  lemma ShoutStep(c: char, rest: string, shouted: string)
    requires Shout(rest) == shouted
    ensures Shout([c] + rest) ==
            (if c == '.' then "__" else if 'a' <= c <= 'z' then [(c as int - 32) as char] else [c]) + shouted
  {
    assert ([c] + rest)[1..] == rest;
  }

  /** No capital letter, and no underscore before another or before a dot. */
  predicate Spellable(key: string) {
    && (forall i :: 0 <= i < |key| ==> !('A' <= key[i] <= 'Z'))
    && (forall i :: 0 <= i < |key| - 1 && key[i] == '_' ==> key[i + 1] != '_' && key[i + 1] != '.')
  }

  lemma {:induction false} SpeltKey(key: string)
    requires Spellable(key)
    ensures Dotted(Shout(key)) == key
    ensures key != [] ==> Shout(key) != [] && (Shout(key)[0] == '_' <==> key[0] in {'_', '.'})
  {
    if key != [] {
      SpeltKey(key[1..]);
      var rest := Shout(key[1..]);
      if key[0] == '.' {
        assert Shout(key) == "__" + rest && ("__" + rest)[2..] == rest;
      } else {
        var c := if 'a' <= key[0] <= 'z' then (key[0] as int - 32) as char else key[0];
        assert Shout(key) == [c] + rest && ([c] + rest)[1..] == rest;
        assert LowerChar(c) == key[0];
        assert key[0] == '_' && |key| > 1 ==> key[1] !in {'_', '.'};
        assert key[1..] == [] ==> rest == [];
        assert c == '_' && |rest| > 0 ==> rest[0] != '_';
      }
      assert key == [key[0]] + key[1..];
    }
  }

  /** A variable spelt from a key sets that key. */
  lemma VariableSetsKey(key: string, raw: string)
    requires Spellable(key)
    ensures var name := "R9V__" + Shout(key);
            EnvEntries([(name, raw)]) == [Entry(key, Text(raw), Env(name))]
  {
    var name := "R9V__" + Shout(key);
    SpeltKey(key);
    assert name[5..] == Shout(key);
    assert [(name, raw)][1..] == [] && EnvEntries([]) == [];
  }

  /** Other variables are no settings. */
  lemma OtherVariables(name: string, raw: string)
    requires !("R9V__" <= name)
    ensures EnvEntries([(name, raw)]) == []
  {
    assert [(name, raw)][1..] == [] && EnvEntries([]) == [];
  }

  // ---------------------------------------------------------------- what a file says at its top

  lemma {:induction false} TopLevel(table: seq<Named>, n: Named)
    ensures n in Sections(table) <==> n in table && |n.name| >= 2 && n.name[..2] == "x-"
    ensures n in Settings(table) <==> n in table && !(|n.name| >= 2 && n.name[..2] == "x-") && n.name != "config_version"
  {
    if table != [] {
      TopLevel(table[1..], n);
      assert |n.name| >= 2 ==> (n.name[..2] == "x-" <==> n.name[0] == 'x' && n.name[1] == '-');
    }
  }

  lemma OnlyVersionOne(v: Value)
    ensures VersionFits([Named("config_version", v)]) <==> v == Int(1)
    ensures !VersionFits([])
  {
  }

  // ---------------------------------------------------------------- looking settings up

  lemma {:induction false} FindIff(schema: seq<Spec>, key: string)
    ensures Find(schema, key).None? <==> forall k :: 0 <= k < |schema| ==> schema[k].key != key
    ensures FindRenamed(schema, key).None? <==> key == "" || forall k :: 0 <= k < |schema| ==> schema[k].renamedFrom != key
  {
    if schema != [] {
      FindIff(schema[1..], key);
      assert forall k :: 1 <= k < |schema| ==> schema[k] == schema[1..][k - 1];
    }
  }

  /** A key means the setting of that name; a name no longer used means the setting that had it. */
  lemma CanonicalMeans(schema: seq<Spec>, k: nat)
    requires DistinctKeys(schema) && k < |schema|
    ensures Canonical(schema, schema[k].key) == Some(schema[k])
    ensures var was := schema[k].renamedFrom;
            was != "" && (forall j :: 0 <= j < |schema| ==> schema[j].key != was && (schema[j].renamedFrom == was ==> j == k)) ==>
              Canonical(schema, was) == Some(schema[k])
  {
    FindIff(schema, schema[k].key);
    var own := Find(schema, schema[k].key).value;
    var i :| 0 <= i < |schema| && schema[i] == own;
    assert i == k;
    FindIff(schema, schema[k].renamedFrom);
  }

  // ---------------------------------------------------------------- admissible values

  /** The values of a setting, by type. "auto" is always admissible where the type allows it. */
  lemma AutoAdmitted(spec: Spec, sizes: iset<string>)
    ensures spec.auto ==> Admissible(spec, Str("auto"), sizes)
  {
  }

  /** Integers: not negative, and within the range. */
  lemma IntAdmitted(spec: Spec, v: Value, sizes: iset<string>, low: real, high: real)
    requires spec.ty == IntType && !IsAuto(v)
    ensures spec.constraint == Unconstrained ==> (Admissible(spec, v, sizes) <==> v.Int? && v.number >= 0)
    ensures spec.constraint == Within(low, high) ==>
              (Admissible(spec, v, sizes) <==> v.Int? && v.number >= 0 && low <= v.number as real <= high)
  {
  }

  /** Measures: integers count as measures. */
  lemma FloatAdmitted(spec: Spec, v: Value, sizes: iset<string>, low: real, high: real)
    requires spec.ty == FloatType && !IsAuto(v) && spec.constraint == Within(low, high)
    ensures Admissible(spec, v, sizes)
            <==> (v.Float? && low <= v.measure <= high) || (v.Int? && low <= v.number as real <= high)
  {
  }

  /** Texts: one of those listed, if any are; sizes: what the size parser accepts. */
  lemma TextAdmitted(spec: Spec, v: Value, sizes: iset<string>, names: seq<string>)
    requires !IsAuto(v)
    ensures spec.ty == TextType && spec.constraint == Unconstrained ==> (Admissible(spec, v, sizes) <==> v.Str?)
    ensures spec.ty == TextType && spec.constraint == OneOf(names) ==> (Admissible(spec, v, sizes) <==> v.Str? && v.text in names)
    ensures spec.ty == BytesType && spec.constraint == Unconstrained ==>
              (Admissible(spec, v, sizes) <==> v.Str? && v.text in sizes)
    ensures spec.ty == BoolType && spec.constraint == Unconstrained ==> (Admissible(spec, v, sizes) <==> v.Bool?)
    ensures spec.ty == StringsType && spec.constraint == Unconstrained ==>
              (Admissible(spec, v, sizes) <==> v.Array? && forall k :: 0 <= k < |v.items| ==> v.items[k].Str?)
  {
  }

  /** Bucket sets: three axes in any order, none empty, of integers that are positive, or for the prefill axis not
      negative. */
  lemma BucketsAdmitted(spec: Spec, s: seq<Value>, dec: seq<Value>, pre: seq<Value>, sizes: iset<string>)
    requires spec.ty == BucketsType && spec.constraint == Unconstrained
    ensures Admissible(spec, Table([Named("S", Array(s)), Named("T_dec", Array(dec)), Named("T_pre", Array(pre))]), sizes)
            <==> s != [] && dec != [] && pre != []
                 && (forall k :: 0 <= k < |s| ==> s[k].Int? && s[k].number >= 1)
                 && (forall k :: 0 <= k < |dec| ==> dec[k].Int? && dec[k].number >= 1)
                 && (forall k :: 0 <= k < |pre| ==> pre[k].Int? && pre[k].number >= 0)
  {
    var f := [Named("S", Array(s)), Named("T_dec", Array(dec)), Named("T_pre", Array(pre))];
    assert "S" != "T_dec" && "S" != "T_pre";
    assert "T_dec"[2] == 'd' && "T_pre"[2] == 'p';
    assert f[1..] == [f[1], f[2]] && [f[1], f[2]][1..] == [f[2]];
    assert Field(f, "S") == Some(Array(s)) && Field(f[1..], "T_dec") == Some(Array(dec));
    assert Field(f, "T_dec") == Field(f[1..], "T_dec");
    assert Field(f, "T_pre") == Field(f[1..], "T_pre") == Field([f[2]], "T_pre") == Some(Array(pre));
  }

  /** A path to load from has to exist, unless it says that there is none or is a request's. */
  lemma PathChecked(spec: Spec, path: string, sizes: iset<string>, paths: set<string>)
    requires spec.ty == TextType && !spec.auto && spec.constraint == Unconstrained
    ensures Check(spec, Str(path), sizes, true, paths) == None
            <==> spec.key !in {"load.model", "load.draft_model", "load.eagle_head", "load.cache_dir"}
                 || path in {"none", "(none)", "auto"} || path in paths
    ensures Check(spec, Str(path), sizes, false, paths) == None
  {
  }

  /** What is wrong, when a value is not admissible. */
  lemma ProblemsSay(spec: Spec, v: Value, sizes: iset<string>, low: real, high: real, names: seq<string>)
    requires !IsAuto(v)
    ensures spec.ty == IntType && !(v.Int? && v.number >= 0) ==> Check(spec, v, sizes, false, {}) == Some(WrongType(spec.key))
    ensures spec.ty == IntType && v.Int? && v.number >= 0 && spec.constraint == Within(low, high) ==>
              (v.number as real < low || v.number as real > high ==> Check(spec, v, sizes, false, {}) == Some(OutOfRange(spec.key)))
    ensures spec.ty == TextType && v.Str? && spec.constraint == OneOf(names) && v.text !in names ==>
              Check(spec, v, sizes, false, {}) == Some(NotListed(spec.key))
    ensures spec.ty == BytesType && v.Str? && v.text !in sizes ==> Check(spec, v, sizes, false, {}) == Some(WrongType(spec.key))
    ensures spec.ty == TextType && v.Str? && spec.constraint == Unconstrained && !spec.auto && spec.key == "load.model" ==>
              (v.text !in {"none", "(none)"} ==> Check(spec, v, sizes, true, {}) == Some(MissingPath(spec.key)))
  {
  }

  // ---------------------------------------------------------------- requests

  /** Whatever a request set in any run may be changed while running. */
  lemma RequestedMayChange(calls: seq<Call>, schema: seq<Spec>, reader: Reader, k: nat)
    requires GoodSchema(schema, reader.sizes) && k < |schema|
    ensures var v := RunCalls(Defaults(schema), calls, schema, reader);
            schema[k].key in v && (v[schema[k].key].source.Request? ==> schema[k].mutability == Runtime)
  {
    ReachableIsGood(calls, schema, reader);
    SoundAt(RunCalls(Defaults(schema), calls, schema, reader), schema, |schema|, reader.sizes, k);
  }

  /** A request is taken as a flag would be, for settings that may be changed while running, and refused for others; paths
      are not looked at. */
  lemma RequestTaken(w: World, key: string, raw: string, requester: string, time: string, spec: Spec)
    requires Canonical(w.schema, key) == Some(spec)
    ensures var t := Taken(w, Entry(key, Text(raw), Request(requester, time)));
            var v := ReadText(spec, raw, w.reader);
            if spec.mutability == Runtime && v.Some? && Admissible(spec, v.value, w.reader.sizes) then
              t == Some(Assignment(spec, v.value, Request(requester, time)))
            else t == None
  {
    if ReadText(spec, raw, w.reader).Some? {
      var v := ReadText(spec, raw, w.reader).value;
      assert Check(spec, v, w.reader.sizes, false, w.paths).None? <==> Check(spec, v, w.reader.sizes, false, {}).None?;
    }
  }

  /** From a file, a variable or a flag, a path to load from is taken only when it exists or says that there is none. */
  lemma PathTaken(w: World, key: string, path: string, source: Source, spec: Spec)
    requires Canonical(w.schema, key) == Some(spec) && !source.Request?
    requires spec.ty == TextType && !spec.auto && spec.constraint == Unconstrained && spec.key == "load.model"
    ensures Taken(w, Entry(key, Parsed(Str(path)), source)).Some? <==> path in {"none", "(none)", "auto"} || path in w.paths
  {
  }

  /** What the report of a refused entry says. */
  lemma RefusalsSay(w: World, p: Problem, e: Entry)
    requires Explains(w, p, e)
    ensures Canonical(w.schema, e.input) == None ==> p.UnknownKey? && p.key == e.input
    ensures Canonical(w.schema, e.input).Some? ==>
              var spec := Canonical(w.schema, e.input).value;
              && (e.source.Request? && spec.mutability != Runtime ==> p == NotRuntime(spec.key))
              && (!(e.source.Request? && spec.mutability != Runtime) && e.given.Text? ==>
                    (ReadText(spec, e.given.raw, w.reader) == None ==> p == WrongType(spec.key)))
              && (!e.source.Request? && e.given.Parsed? ==>
                    Check(spec, e.given.value, w.reader.sizes, true, w.paths) == Some(p))
  {
  }

  // ---------------------------------------------------------------- texts

  lemma {:induction false} LowerAt(s: string, i: nat)
    requires i < |s|
    ensures |Lower(s)| == |s| && Lower(s)[i] == if 'A' <= s[i] <= 'Z' then (s[i] as int + 32) as char else s[i]
  {
    if i > 0 { LowerAt(s[1..], i - 1); } else { LowerLength(s); }
  }

  lemma {:induction false} LowerLength(s: string)
    ensures |Lower(s)| == |s|
  {
    if s != [] { LowerLength(s[1..]); }
  }

  ghost predicate Quotes(s: string) { forall i :: 0 <= i < |s| ==> s[i] == '"' }

  /** Quotes around a text are dropped, all of them; those inside stay. */
  lemma UnquoteInside(left: string, s: string, right: string)
    requires Quotes(left) && Quotes(right) && (s != [] ==> s[0] != '"' && s[|s| - 1] != '"')
    ensures Unquote(left + s + right) == s
  {
    if s == [] {
      assert left + s + right == left + right;
      AllQuotes(left + right);
    } else {
      assert (s + right)[0] == s[0];
      LeftQuotes(left, s + right);
      assert left + s + right == left + (s + right);
      RightQuotes(s, right);
    }
  }

  lemma {:induction false} AllQuotes(s: string)
    requires Quotes(s)
    ensures UnquoteLeft(s) == []
  {
    if s != [] { AllQuotes(s[1..]); }
  }

  lemma {:induction false} LeftQuotes(left: string, s: string)
    requires Quotes(left) && s != [] && s[0] != '"'
    ensures UnquoteLeft(left + s) == s
  {
    if left == [] {
      assert left + s == s;
    } else {
      LeftQuotes(left[1..], s);
      assert (left + s)[1..] == left[1..] + s;
    }
  }

  lemma {:induction false} RightQuotes(s: string, right: string)
    requires Quotes(right) && s != [] && s[|s| - 1] != '"'
    ensures UnquoteRight(s + right) == s
  {
    if right == [] {
      assert s + right == s;
    } else {
      RightQuotes(s, right[..|right| - 1]);
      assert (s + right)[..|s + right| - 1] == s + right[..|right| - 1];
    }
  }

  /** How a text is read, by type. */
  lemma ReadMeans(spec: Spec, raw: string, reader: Reader)
    requires !spec.auto
    ensures spec.ty == BoolType ==> ReadText(spec, raw, reader) == if raw in reader.bools then Some(Bool(reader.bools[raw])) else None
    ensures spec.ty == IntType ==> ReadText(spec, raw, reader) == if raw in reader.ints then Some(Int(reader.ints[raw])) else None
    ensures spec.ty == FloatType ==>
              ReadText(spec, raw, reader) == if raw in reader.floats then Some(Float(reader.floats[raw])) else None
    ensures spec.ty in {StringsType, BucketsType} ==>
              ReadText(spec, raw, reader) == if raw in reader.fragments then Some(reader.fragments[raw]) else None
    ensures spec.ty in {BytesType, TextType} ==> ReadText(spec, raw, reader) == Some(Str(Unquote(raw)))
  {
  }

  // ---------------------------------------------------------------- the rules across settings

  lemma {:induction false} LargestInt(items: seq<Value>, m: int)
    ensures MaxInt(items) == Some(m) <==> Int(m) in items && forall k :: 0 <= k < |items| && items[k].Int? ==> items[k].number <= m
    ensures MaxInt(items) == None <==> forall k :: 0 <= k < |items| ==> !items[k].Int?
  {
    if items != [] {
      var p, last := items[..|items| - 1], items[|items| - 1];
      assert items == p + [last];
      LargestInt(p, m);
      if MaxInt(p).Some? { LargestInt(p, MaxInt(p).value); }
    }
  }

  /** With buckets given, the largest prefill bucket is the largest on the prefill axis. */
  lemma BucketsGiven(v: Values, s: seq<Value>, dec: seq<Value>, pre: seq<Value>, m: int)
    requires BUCKETS in v
    requires v[BUCKETS].value == Table([Named("S", Array(s)), Named("T_dec", Array(dec)), Named("T_pre", Array(pre))])
    requires Int(m) in pre && forall k :: 0 <= k < |pre| && pre[k].Int? ==> pre[k].number <= m
    ensures LargestPrefillBucket(v) == m
  {
    var f := v[BUCKETS].value.fields;
    assert "S" != "T_pre" && "T_dec"[2] == 'd' && "T_pre"[2] == 'p';
    assert f[1..] == [f[1], f[2]] && [f[1], f[2]][1..] == [f[2]];
    assert Field(f, "T_pre") == Field(f[1..], "T_pre") == Field([f[2]], "T_pre") == Some(Array(pre));
    LargestInt(pre, m);
  }

  /** Without bucket axes the largest prefill bucket is 2048. */
  lemma NoBuckets(v: Values)
    ensures BUCKETS !in v ==> LargestPrefillBucket(v) == 2048
    ensures BUCKETS in v && v[BUCKETS].value == Str("auto") ==> LargestPrefillBucket(v) == 2048
    ensures BUCKETS in v && v[BUCKETS].value == Table([]) ==> LargestPrefillBucket(v) == 2048
    ensures BUCKETS in v && v[BUCKETS].value == Table([Named("T_pre", Array([]))]) ==> LargestPrefillBucket(v) == 2048
  {
  }

  /** Each rule is reported exactly when it is broken. */
  lemma RulesReported(v: Values)
    requires Readable(v)
    ensures PrefillOrder in Violations(v)
            <==> v["scheduler.prefill_min_chunk"].value.number > v["scheduler.prefill_max_chunk"].value.number
                 || v["scheduler.prefill_max_chunk"].value.number > LargestPrefillBucket(v)
    ensures DepthLimit in Violations(v) <==> v["spec.k_max"].value.number > 15
    ensures TreeLimit in Violations(v) <==> v["spec.tree_max"].value.number > 16
    ensures DepthWithinTree in Violations(v) <==> v["spec.k_max"].value.number > v["spec.tree_max"].value.number
    ensures ContextMultiple in Violations(v) <==> v["state.max_ctx"].value.number % 32 != 0
  {
  }
}
