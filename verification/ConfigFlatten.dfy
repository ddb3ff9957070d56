/** Which settings of a file are found: every declared one that is written where it belongs, and no other. */
module ConfigFlatten {
  import opened Results
  import opened ConfigSchema
  import opened EffectiveConfiguration

  /** The table holds the value at the path of names. */
  ghost predicate At(fields: seq<Named>, path: seq<string>, v: Value)
    decreases fields
  {
    fields != [] && (HeadAt(fields[0], path, v) || At(fields[1..], path, v))
  }

  ghost predicate HeadAt(field: Named, path: seq<string>, v: Value)
    decreases field
  {
    && path != [] && field.name == path[0]
    && if |path| == 1 then field.value == v else field.value.Table? && At(field.value.fields, path[1..], v)
  }

  /** The names of the path, with dots between them. */
  ghost function FullKey(prefix: string, path: seq<string>): string
    requires path != []
    decreases |path|
  {
    if |path| == 1 then prefix + path[0] else FullKey(prefix + path[0] + ".", path[1..])
  }

  /** No table on the way is itself a setting, and each has settings below it. */
  ghost predicate Open(schema: seq<Spec>, prefix: string, path: seq<string>)
    decreases |path|
  {
    |path| >= 2 ==>
      && Canonical(schema, prefix + path[0]).None? && HasDescendants(schema, prefix + path[0])
      && Open(schema, prefix + path[0] + ".", path[1..])
  }

  /** The key is written at this path, with this value, where flattening gets to it. */
  ghost predicate Reached(schema: seq<Spec>, prefix: string, fields: seq<Named>, path: seq<string>, n: Named) {
    path != [] && At(fields, path, n.value) && Open(schema, prefix, path) && FullKey(prefix, path) == n.name
  }

  /** A key that flattening gets to and cannot go into is reported as unknown. */
  ghost predicate Stuck(schema: seq<Spec>, n: Named) {
    Canonical(schema, n.name).None? && !(n.value.Table? && HasDescendants(schema, n.name))
  }

  // ---------------------------------------------------------------- what one field gives

  /** What the first field contributes. */
  function OfHead(schema: seq<Spec>, prefix: string, field: Named): Flat {
    var key := prefix + field.name;
    if Canonical(schema, key).Some? then Flat([Named(key, field.value)], [])
    else if field.value.Table? && HasDescendants(schema, key) then Flatten(schema, key + ".", field.value.fields)
    else Flat([], [key])
  }

  lemma FlattenHead(schema: seq<Spec>, prefix: string, fields: seq<Named>)
    requires fields != []
    ensures Flatten(schema, prefix, fields) == Join(OfHead(schema, prefix, fields[0]), Flatten(schema, prefix, fields[1..]))
  {
  }

  lemma InJoin(a: Flat, b: Flat, n: Named, key: string)
    ensures n in Join(a, b).found <==> n in a.found || n in b.found
    ensures key in Join(a, b).unknown <==> key in a.unknown || key in b.unknown
  {
  }

  // ---------------------------------------------------------------- from the path to the flattened key

  lemma {:induction false} ReachedIsFound(schema: seq<Spec>, prefix: string, fields: seq<Named>, path: seq<string>, n: Named)
    requires Reached(schema, prefix, fields, path, n)
    ensures Canonical(schema, n.name).Some? ==> n in Flatten(schema, prefix, fields).found
    ensures Stuck(schema, n) ==> n.name in Flatten(schema, prefix, fields).unknown
    decreases fields
  {
    FlattenHead(schema, prefix, fields);
    InJoin(OfHead(schema, prefix, fields[0]), Flatten(schema, prefix, fields[1..]), n, n.name);
    if HeadAt(fields[0], path, n.value) {
      HeadIsFound(schema, prefix, fields[0], path, n);
    } else {
      ReachedIsFound(schema, prefix, fields[1..], path, n);
    }
  }

  lemma {:induction false} HeadIsFound(schema: seq<Spec>, prefix: string, field: Named, path: seq<string>, n: Named)
    requires HeadAt(field, path, n.value) && Open(schema, prefix, path) && FullKey(prefix, path) == n.name
    ensures Canonical(schema, n.name).Some? ==> n in OfHead(schema, prefix, field).found
    ensures Stuck(schema, n) ==> n.name in OfHead(schema, prefix, field).unknown
    decreases field
  {
    if |path| >= 2 {
      ReachedIsFound(schema, prefix + path[0] + ".", field.value.fields, path[1..], n);
    }
  }

  // ---------------------------------------------------------------- from the flattened key to the path

  lemma {:induction false} FoundIsReached(schema: seq<Spec>, prefix: string, fields: seq<Named>, n: Named)
    returns (path: seq<string>)
    requires n in Flatten(schema, prefix, fields).found
    ensures Reached(schema, prefix, fields, path, n)
    decreases fields
  {
    FlattenHead(schema, prefix, fields);
    var field := fields[0];
    InJoin(OfHead(schema, prefix, field), Flatten(schema, prefix, fields[1..]), n, n.name);
    if n in Flatten(schema, prefix, fields[1..]).found {
      path := FoundIsReached(schema, prefix, fields[1..], n);
    } else if Canonical(schema, prefix + field.name).Some? {
      path := [field.name];
    } else {
      var below := FoundIsReached(schema, prefix + field.name + ".", field.value.fields, n);
      path := [field.name] + below;
      Deeper(schema, prefix, fields, below, n);
    }
  }

  lemma Deeper(schema: seq<Spec>, prefix: string, fields: seq<Named>, below: seq<string>, n: Named)
    requires fields != [] && fields[0].value.Table?
    requires Canonical(schema, prefix + fields[0].name).None? && HasDescendants(schema, prefix + fields[0].name)
    requires Reached(schema, prefix + fields[0].name + ".", fields[0].value.fields, below, n)
    ensures Reached(schema, prefix, fields, [fields[0].name] + below, n)
  {
    var path := [fields[0].name] + below;
    assert path[1..] == below && path[0] == fields[0].name && |path| >= 2;
    assert HeadAt(fields[0], path, n.value);
  }

  lemma {:induction false} UnknownIsReached(schema: seq<Spec>, prefix: string, fields: seq<Named>, key: string)
    returns (path: seq<string>, v: Value)
    requires key in Flatten(schema, prefix, fields).unknown
    ensures Reached(schema, prefix, fields, path, Named(key, v)) && Stuck(schema, Named(key, v))
    decreases fields
  {
    FlattenHead(schema, prefix, fields);
    var field := fields[0];
    InJoin(OfHead(schema, prefix, field), Flatten(schema, prefix, fields[1..]), Named(key, field.value), key);
    if key in Flatten(schema, prefix, fields[1..]).unknown {
      path, v := UnknownIsReached(schema, prefix, fields[1..], key);
    } else if field.value.Table? && HasDescendants(schema, prefix + field.name) {
      var below;
      below, v := UnknownIsReached(schema, prefix + field.name + ".", field.value.fields, key);
      path := [field.name] + below;
      Deeper(schema, prefix, fields, below, Named(key, v));
    } else {
      path, v := [field.name], field.value;
    }
  }

  // ---------------------------------------------------------------- the promise

  /** A setting is found exactly when its key is a current or former name and is written where flattening gets to. */
  lemma FoundIff(schema: seq<Spec>, fields: seq<Named>, n: Named)
    ensures n in Flatten(schema, "", fields).found
            <==> Canonical(schema, n.name).Some? && exists path :: Reached(schema, "", fields, path, n)
  {
    if n in Flatten(schema, "", fields).found {
      var path := FoundIsReached(schema, "", fields, n);
      FlattenFindsDeclared(schema, "", fields);
    }
    forall path | Canonical(schema, n.name).Some? && Reached(schema, "", fields, path, n)
      ensures n in Flatten(schema, "", fields).found
    {
      ReachedIsFound(schema, "", fields, path, n);
    }
  }

  /** A key is reported as unknown exactly when it is written there, is no name of a setting, and is not a table with
      settings below it. */
  lemma UnknownIff(schema: seq<Spec>, fields: seq<Named>, key: string)
    ensures key in Flatten(schema, "", fields).unknown
            <==> exists path, v :: Reached(schema, "", fields, path, Named(key, v)) && Stuck(schema, Named(key, v))
  {
    if key in Flatten(schema, "", fields).unknown {
      var path, v := UnknownIsReached(schema, "", fields, key);
    }
    forall path, v | Reached(schema, "", fields, path, Named(key, v)) && Stuck(schema, Named(key, v))
      ensures key in Flatten(schema, "", fields).unknown
    {
      ReachedIsFound(schema, "", fields, path, Named(key, v));
    }
  }

  // ---------------------------------------------------------------- current names

  /** No table on the way is itself a setting. */
  ghost predicate NoneAbove(schema: seq<Spec>, prefix: string, path: seq<string>)
    decreases |path|
  {
    |path| >= 2 ==> Canonical(schema, prefix + path[0]).None? && NoneAbove(schema, prefix + path[0] + ".", path[1..])
  }

  lemma {:induction false} KeyExtends(prefix: string, path: seq<string>)
    requires path != []
    ensures prefix <= FullKey(prefix, path)
    decreases |path|
  {
    if |path| >= 2 { KeyExtends(prefix + path[0] + ".", path[1..]); }
  }

  /** A key that is declared under its own name has settings below every table on the way, namely itself. */
  lemma {:induction false} DeclaredIsOpen(schema: seq<Spec>, prefix: string, path: seq<string>)
    requires path != [] && Find(schema, FullKey(prefix, path)).Some?
    ensures Open(schema, prefix, path) <==> NoneAbove(schema, prefix, path)
    decreases |path|
  {
    if |path| >= 2 {
      var table := prefix + path[0];
      KeyExtends(table + ".", path[1..]);
      var spec := Find(schema, FullKey(prefix, path)).value;
      var k :| 0 <= k < |schema| && schema[k] == spec;
      assert table + "." <= schema[k].key;
      DeclaredIsOpen(schema, table + ".", path[1..]);
    }
  }

  /** The key is written at this path, and no table on the way is itself a setting. */
  ghost predicate Written(schema: seq<Spec>, fields: seq<Named>, path: seq<string>, n: Named) {
    path != [] && At(fields, path, n.value) && NoneAbove(schema, "", path) && FullKey("", path) == n.name
  }

  /** For a current name that is all: the setting is found exactly when it is written so somewhere in the file. */
  lemma DeclaredFoundIff(schema: seq<Spec>, fields: seq<Named>, n: Named)
    requires Find(schema, n.name).Some?
    ensures n in Flatten(schema, "", fields).found <==> exists path :: Written(schema, fields, path, n)
  {
    FoundIff(schema, fields, n);
    if n in Flatten(schema, "", fields).found {
      var path :| Reached(schema, "", fields, path, n);
      DeclaredIsOpen(schema, "", path);
      assert Written(schema, fields, path, n);
    }
    forall path | Written(schema, fields, path, n) ensures Reached(schema, "", fields, path, n) {
      DeclaredIsOpen(schema, "", path);
    }
  }

  /** A former name is worse off in a file than in a flag: once no setting of today lies in its section, the section
      is reported as unknown and the setting in it is lost. */
  lemma FormerSectionLost(schema: seq<Spec>, section: string, name: string, v: Value)
    requires Canonical(schema, section).None? && !HasDescendants(schema, section)
    ensures Flatten(schema, "", [Named(section, Table([Named(name, v)]))]) == Flat([], [section])
  {
    var field := Named(section, Table([Named(name, v)]));
    assert "" + section == section && [field][1..] == [];
    FlattenHead(schema, "", [field]);
  }

  /** A setting that moved from one section to another. */
  const MOVED: Spec := Spec("new.depth", IntType, false, Unconstrained, Runtime, Int(1), "", "old.depth")

  lemma MovedIsLost()
    ensures Canonical([MOVED], "old.depth") == Some(MOVED)
    ensures Flatten([MOVED], "", [Named("old", Table([Named("depth", Int(2))]))]) == Flat([], ["old"])
  {
    assert "new.depth" != "old.depth" && |"old"| != |"old.depth"| && |"old"| != |"new.depth"|;
    assert Find([MOVED], "old.depth") == None && Find([MOVED], "old") == None;
    assert !HasDescendants([MOVED], "old") by {
      assert ("old" + ".")[0] == 'o' && MOVED.key[0] == 'n';
    }
    FormerSectionLost([MOVED], "old", "depth", Int(2));
  }
}
