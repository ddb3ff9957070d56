/** Settings: what the schema declares and what values it admits. The schema itself is a parameter, and so are
    the library's readers of numbers and TOML fragments and the file system's answers. */
module ConfigSchema {
  import opened Results

  /** A configuration value; tables keep the order of their fields. */
  datatype Value =
    | Bool(truth: bool)
    | Int(number: int)
    | Float(measure: real)
    | Str(text: string)
    | Array(items: seq<Value>)
    | Table(fields: seq<Named>)

  datatype Named = Named(name: string, value: Value)

  datatype Type = BoolType | IntType | FloatType | StringsType | BucketsType | BytesType | TextType

  datatype Constraint = Unconstrained | OneOf(names: seq<string>) | Within(low: real, high: real)

  datatype Mutability = Runtime | Reload | Load

  /** One declared setting; auto tells whether its type defers to a rule on "auto". */
  datatype Spec = Spec(key: string, ty: Type, auto: bool, constraint: Constraint, mutability: Mutability,
                       default: Value, rule: string, renamedFrom: string)

  /** The texts the library's readers accept, and what they mean. Texts are already trimmed. */
  datatype Reader = Reader(bools: imap<string, bool>, ints: imap<string, int>, floats: imap<string, real>,
                           fragments: imap<string, Value>, sizes: iset<string>)

  datatype Problem =
    | UnknownKey(key: string, nearest: string)
    | WrongType(key: string)
    | OutOfRange(key: string)
    | NotListed(key: string)
    | MissingPath(key: string)
    | NotRuntime(key: string)

  predicate IsAuto(v: Value) { v == Str("auto") }

  predicate IsLoadPath(key: string) {
    key in {"load.model", "load.draft_model", "load.eagle_head", "load.cache_dir"}
  }

  // ---------------------------------------------------------------- looking settings up

  function Find(schema: seq<Spec>, key: string): (r: Option<Spec>)
    ensures r.Some? ==> r.value in schema && r.value.key == key
  {
    if schema == [] then None else if schema[0].key == key then Some(schema[0]) else Find(schema[1..], key)
  }

  function FindRenamed(schema: seq<Spec>, key: string): (r: Option<Spec>)
    ensures r.Some? ==> r.value in schema && r.value.renamedFrom == key != ""
  {
    if schema == [] then None
    else if schema[0].renamedFrom != "" && schema[0].renamedFrom == key then Some(schema[0])
    else FindRenamed(schema[1..], key)
  }

  /** The setting an input key means, under its own name or a former one. */
  function Canonical(schema: seq<Spec>, input: string): (r: Option<Spec>)
    ensures r.Some? ==> r.value in schema
  {
    if Find(schema, input).Some? then Find(schema, input) else FindRenamed(schema, input)
  }

  // ---------------------------------------------------------------- admissible values

  function Field(fields: seq<Named>, name: string): Option<Value> {
    if fields == [] then None else if fields[0].name == name then Some(fields[0].value) else Field(fields[1..], name)
  }

  predicate GoodAxis(v: Option<Value>, least: int) {
    v.Some? && v.value.Array? && v.value.items != []
    && forall k :: 0 <= k < |v.value.items| ==> v.value.items[k].Int? && v.value.items[k].number >= least
  }

  predicate GoodBuckets(v: Value) {
    v.Table? && |v.fields| == 3
    && GoodAxis(Field(v.fields, "S"), 1) && GoodAxis(Field(v.fields, "T_dec"), 1) && GoodAxis(Field(v.fields, "T_pre"), 0)
  }

  predicate HasType(ty: Type, v: Value) {
    match ty
    case BoolType => v.Bool?
    case IntType => v.Int? && v.number >= 0
    case FloatType => v.Float? || v.Int?
    case StringsType => v.Array? && forall k :: 0 <= k < |v.items| ==> v.items[k].Str?
    case BucketsType => GoodBuckets(v)
    case BytesType => v.Str?
    case TextType => v.Str?
  }

  function Numeric(v: Value): Option<real> {
    if v.Float? then Some(v.measure) else if v.Int? then Some(v.number as real) else None
  }

  function CheckConstraint(spec: Spec, v: Value): Option<Problem> {
    match spec.constraint
    case Unconstrained => None
    case OneOf(names) =>
      if !v.Str? then Some(WrongType(spec.key)) else if v.text !in names then Some(NotListed(spec.key)) else None
    case Within(low, high) =>
      var n := Numeric(v);
      if n.None? then Some(WrongType(spec.key))
      else if !(low <= n.value <= high) then Some(OutOfRange(spec.key))
      else None
  }

  /** What is wrong with a value for a setting. Paths are looked at only where files are to be loaded. */
  function Check(spec: Spec, v: Value, sizes: iset<string>, checkPath: bool, paths: set<string>): Option<Problem> {
    if spec.auto && IsAuto(v) then None
    else if !HasType(spec.ty, v) then Some(WrongType(spec.key))
    else if spec.ty == BytesType && v.text !in sizes then Some(WrongType(spec.key))
    else if CheckConstraint(spec, v).Some? then CheckConstraint(spec, v)
    else if checkPath && IsLoadPath(spec.key) && v.Str? && v.text !in {"none", "(none)", "auto"} && v.text !in paths then
      Some(MissingPath(spec.key))
    else None
  }

  /** Admissible whatever files exist. */
  predicate Admissible(spec: Spec, v: Value, sizes: iset<string>) {
    Check(spec, v, sizes, false, {}).None?
  }

  lemma CheckedIsAdmissible(spec: Spec, v: Value, sizes: iset<string>, checkPath: bool, paths: set<string>)
    requires Check(spec, v, sizes, checkPath, paths).None?
    ensures Admissible(spec, v, sizes)
  {
  }

  // ---------------------------------------------------------------- values from text

  function LowerChar(c: char): char { if 'A' <= c <= 'Z' then (c as int + 32) as char else c }

  function Lower(s: string): string { if s == [] then [] else [LowerChar(s[0])] + Lower(s[1..]) }

  function UnquoteLeft(s: string): string { if s != [] && s[0] == '"' then UnquoteLeft(s[1..]) else s }

  function UnquoteRight(s: string): string {
    if s != [] && s[|s| - 1] == '"' then UnquoteRight(s[..|s| - 1]) else s
  }

  /** Without the quotes around it. */
  function Unquote(s: string): string { UnquoteRight(UnquoteLeft(s)) }

  /** Reading the text of a variable, flag or request. A setting that may be "auto" is read as text whatever
      its concrete type. */
  function ReadText(spec: Spec, raw: string, reader: Reader): Option<Value> {
    if spec.auto then Some(Str(if Lower(raw) == "auto" then "auto" else Unquote(raw)))
    else
      match spec.ty
      case BoolType => if raw in reader.bools then Some(Bool(reader.bools[raw])) else None
      case IntType => if raw in reader.ints then Some(Int(reader.ints[raw])) else None
      case FloatType => if raw in reader.floats then Some(Float(reader.floats[raw])) else None
      case StringsType => if raw in reader.fragments then Some(reader.fragments[raw]) else None
      case BucketsType => if raw in reader.fragments then Some(reader.fragments[raw]) else None
      case BytesType => Some(Str(Unquote(raw)))
      case TextType => Some(Str(Unquote(raw)))
  }

  /** So a number, truth value, list or bucket set that may be "auto" can be given as text only as "auto". */
  lemma AutoNumbersReadOnlyAuto(spec: Spec, raw: string, reader: Reader, checkPath: bool, paths: set<string>)
    requires spec.auto && spec.ty !in {BytesType, TextType}
    ensures Check(spec, ReadText(spec, raw, reader).value, reader.sizes, checkPath, paths).None?
            <==> Lower(raw) == "auto" || Unquote(raw) == "auto"
  {
  }
}
