/** The schema compiler of tools/export_contracts.py.

    `Compile` and `Declare` produce TypeScript types as syntax trees. Both sides get a meaning over
    JSON values: `ValidWithin` is JSON Schema Draft 2020-12 validation, `InhabitsWithin` is structural
    TypeScript assignability. The bound counts how many references a derivation unfolds, so a value is
    valid, or inhabits a type, when some bound admits it: the least reading of recursive definitions. */
module Contracts {
  import opened Wrappers
  import opened JsonValues
  import opened Literals

  // ---------------------------------------------------------------------------------------------
  // JSON Schema

  datatype TypeName = TNull | TBoolean | TInteger | TNumber | TString | TArray | TObject

  datatype TypeKeyword = NoType | OneType(name: TypeName) | ManyTypes(names: seq<TypeName>)

  datatype AnyOf = NoAnyOf | AnyOf(options: seq<Schema>)

  datatype PrefixItems = NoPrefixItems | PrefixItems(schemas: seq<Schema>)

  datatype Properties = NoProperties | Properties(fields: map<string, Schema>)

  datatype Additional = NoAdditional | AdditionalFlag(allowed: bool) | AdditionalSchema(schema: Schema)

  datatype Schema = Schema(typ: TypeKeyword, rest: Keywords)

  /** Every keyword but `type`. `required` keeps its order and `prefixItems` its absence, which Python's
      `==` sees. `patterns` are the keys of `patternProperties`; `assertions` holds each further keyword with
      its value (`minLength`, `allOf`, the pattern subschemas, ...), which can only narrow; `annotations`
      holds those that never decide validity (`title`, `description`, `default`, ...). */
  datatype Keywords = Keywords(
    reference: Option<string>,
    constant: Option<Json>,
    enumeration: Option<seq<Json>>,
    anyOf: AnyOf,
    items: Option<Schema>,
    prefixItems: PrefixItems,
    properties: Properties,
    required: Option<seq<string>>,
    additional: Additional,
    patterns: set<string>,
    assertions: map<string, Json>,
    annotations: map<string, Json>)

  const NO_KEYWORDS :=
    Keywords(None, None, None, NoAnyOf, None, NoPrefixItems, NoProperties, None, NoAdditional, {}, map[], map[])

  /** No keywords but the annotations of `k`. */
  function Annotated(k: Keywords): Keywords {
    NO_KEYWORDS.(annotations := k.annotations)
  }

  /** What the abstract keywords mean: when a pattern matches a name, and when an assertion holds. */
  datatype Vocabulary = Vocabulary(matches: (string, string) -> bool, asserts: (string, Json, Json) -> bool)

  /** `reference.rsplit("/", 1)[-1]` */
  function RefName(reference: string): string {
    if '/' !in reference then reference else
    assert exists i :: 0 <= i < |reference| && reference[i] == '/';
    RefName(reference[1..])
  }

  /** The reference names one entry of `$defs` directly, with nothing to unescape. */
  predicate IsLocal(reference: string, names: set<string>) {
    && reference == "#/$defs/" + RefName(reference)
    && '~' !in RefName(reference) && '%' !in RefName(reference)
    && RefName(reference) in names
  }

  predicate HasType(v: Json, t: TypeName) {
    match t
    case TNull => v.JNull?
    case TBoolean => v.JBool?
    case TInteger => v.JNum? && v.n.Floor as real == v.n
    case TNumber => v.JNum?
    case TString => v.JStr?
    case TArray => v.JArr?
    case TObject => v.JObj?
  }

  predicate TypeAllows(typ: TypeKeyword, v: Json) {
    match typ
    case NoType => true
    case OneType(t) => HasType(v, t)
    case ManyTypes(ts) => exists t | t in ts :: HasType(v, t)
  }

  /** `set(schema.get("required", []))` */
  function Required(k: Keywords): set<string> {
    if k.required.Some? then set f | f in k.required.value else {}
  }

  function Prefix(k: Keywords): seq<Schema> {
    if k.prefixItems.PrefixItems? then k.prefixItems.schemas else []
  }

  function PropertyFields(k: Keywords): map<string, Schema> {
    if k.properties.Properties? then k.properties.fields else map[]
  }

  ghost predicate Exempt(o: Vocabulary, k: Keywords, name: string) {
    name in PropertyFields(k) || exists p | p in k.patterns :: o.matches(p, name)
  }

  /** Draft 2020-12 validation: the conjunction of all keywords present, each reference resolved in
      `defs`, unfolding at most `n` references on any branch. */
  ghost predicate ValidWithin(n: nat, defs: map<string, Schema>, o: Vocabulary, s: Schema, v: Json)
    decreases n, s
  {
    var k := s.rest;
    && TypeAllows(s.typ, v)
    && (k.reference.Some? ==>
          n > 0 && IsLocal(k.reference.value, defs.Keys) &&
          ValidWithin(n - 1, defs, o, defs[RefName(k.reference.value)], v))
    && (k.constant.Some? ==> v == k.constant.value)
    && (k.enumeration.Some? ==> v in k.enumeration.value)
    && (k.anyOf.AnyOf? ==>
          exists i | 0 <= i < |k.anyOf.options| :: ValidWithin(n, defs, o, k.anyOf.options[i], v))
    && (v.JArr? ==> forall i | 0 <= i < |v.items| ::
          if i < |Prefix(k)| then ValidWithin(n, defs, o, Prefix(k)[i], v.items[i])
          else k.items.Some? ==> ValidWithin(n, defs, o, k.items.value, v.items[i]))
    && (v.JObj? ==>
          && Required(k) <= v.fields.Keys
          && (forall f | f in v.fields ::
                && (k.properties.Properties? && f in k.properties.fields ==>
                      ValidWithin(n, defs, o, k.properties.fields[f], v.fields[f]))
                && (k.additional.AdditionalFlag? && !Exempt(o, k, f) ==> k.additional.allowed)
                && (k.additional.AdditionalSchema? && !Exempt(o, k, f) ==>
                      ValidWithin(n, defs, o, k.additional.schema, v.fields[f]))))
    && forall a | a in k.assertions :: o.asserts(a, k.assertions[a], v)
  }

  // ---------------------------------------------------------------------------------------------
  // TypeScript

  datatype TsField = TsField(optional: bool, typ: TsType)

  datatype TsType =
    | TsUnknown
    | TsNull
    | TsBoolean
    | TsNumber
    | TsString
    | TsLiteral(value: Json)
    | TsRef(name: string)
    | TsUnion(options: seq<TsType>)
    | TsArray(element: TsType)
    | TsRecord(element: TsType)
    | TsObject(fields: map<string, TsField>)

  /** Structural assignability. An object type is read strictly: it holds of JSON objects only. */
  ghost predicate InhabitsWithin(n: nat, env: map<string, TsType>, t: TsType, v: Json)
    decreases n, t
  {
    match t
    case TsUnknown => true
    case TsNull => v.JNull?
    case TsBoolean => v.JBool?
    case TsNumber => v.JNum?
    case TsString => v.JStr?
    case TsLiteral(value) => LiteralHolds(value, v)
    case TsRef(name) => n > 0 && name in env && InhabitsWithin(n - 1, env, env[name], v)
    case TsUnion(options) => exists i | 0 <= i < |options| :: InhabitsWithin(n, env, options[i], v)
    case TsArray(element) =>
      v.JArr? && forall i | 0 <= i < |v.items| :: InhabitsWithin(n, env, element, v.items[i])
    case TsRecord(element) =>
      v.JObj? && forall f | f in v.fields :: InhabitsWithin(n, env, element, v.fields[f])
    case TsObject(fields) =>
      v.JObj? && forall f | f in fields ::
        if f in v.fields then InhabitsWithin(n, env, fields[f].typ, v.fields[f]) else fields[f].optional
  }

  // ---------------------------------------------------------------------------------------------
  // The compiler

  predicate IsSpecial(k: Keywords) {
    k.reference.Some? || k.constant.Some? || k.enumeration.Some? || k.anyOf.AnyOf?
  }

  function TsLiterals(values: seq<Json>): (r: seq<TsType>)
    ensures |r| == |values| && forall i | 0 <= i < |r| :: r[i] == TsLiteral(values[i])
  {
    seq(|values|, i requires 0 <= i < |values| => TsLiteral(values[i]))
  }

  /** `ts_type`, with the cases of `ts_special_type` first. A list of types re-enters with the same
      keywords and one type, so the measure is the keywords, then whether `type` is a list. */
  function Compile(s: Schema): TsType
    decreases s.rest, if s.typ.ManyTypes? then 1 else 0, 2
  {
    var k := s.rest;
    if k.reference.Some? then TsRef(RefName(k.reference.value))
    else if k.constant.Some? then TsLiteral(k.constant.value)
    else if k.enumeration.Some? then TsUnion(TsLiterals(k.enumeration.value))
    else if k.anyOf.AnyOf? then
      TsUnion(seq(|k.anyOf.options|, i requires 0 <= i < |k.anyOf.options| => Compile(k.anyOf.options[i])))
    else match s.typ
      case ManyTypes(ts) =>
        TsUnion(seq(|ts|, i requires 0 <= i < |ts| =>
          if ts[i] == TNull then TsNull else Compile(s.(typ := OneType(ts[i])))))
      case OneType(TArray) => TsArray(if k.items.Some? then Compile(k.items.value) else TsUnknown)
      case OneType(TObject) => CompileObject(s)
      case _ =>
        if k.properties.Properties? then CompileObject(s)
        else match s.typ
          case OneType(TString) => TsString
          case OneType(TInteger) => TsNumber
          case OneType(TNumber) => TsNumber
          case OneType(TBoolean) => TsBoolean
          case OneType(TNull) => TsNull
          case _ => TsUnknown
  }

  /** `ts_object_type` */
  function CompileObject(s: Schema): TsType
    decreases s.rest, if s.typ.ManyTypes? then 1 else 0, 1
  {
    if PropertyFields(s.rest) == map[] && s.rest.additional.AdditionalSchema?
    then TsRecord(Compile(s.rest.additional.schema))
    else TsObject(CompileFields(s.rest))
  }

  function CompileFields(k: Keywords): map<string, TsField>
    decreases k, 0, 0
  {
    if k.properties.Properties?
    then map f | f in k.properties.fields :: TsField(f !in Required(k), Compile(k.properties.fields[f]))
    else map[]
  }

  /** `render_interface` takes the branch of the alias. */
  predicate IsAlias(s: Schema) {
    s.typ != OneType(TObject) && s.rest.properties.NoProperties?
  }

  /** `render_interface`: an interface for an object schema, an alias of the compiled type otherwise. */
  function Declare(s: Schema): TsType {
    if IsAlias(s) then Compile(s)
    else TsObject(CompileFields(s.rest))
  }

  /** The generated module: one declaration for every definition. */
  function Declarations(defs: map<string, Schema>): map<string, TsType> {
    map name | name in defs :: Declare(defs[name])
  }

  // ---------------------------------------------------------------------------------------------
  // Soundness: every valid value inhabits the emitted type

  predicate Mentions(typ: TypeKeyword, t: TypeName) {
    typ == OneType(t) || (typ.ManyTypes? && t in typ.names)
  }

  /** `properties` stands only beside a type that the object branch, the array branch or the literal
      `null` takes care of. */
  predicate PropertiesGuard(s: Schema) {
    s.rest.properties.Properties? ==>
      match s.typ
      case NoType => false
      case OneType(t) => t == TArray || t == TObject
      case ManyTypes(ts) => forall t | t in ts :: t == TArray || t == TObject || t == TNull
  }

  /** The subschemas the compiler descends into are compilable, and no keyword outside the compiled
      ones decides which values those subschemas constrain. */
  ghost predicate PartsCompilable(s: Schema, names: set<string>)
    decreases s.rest, 0
  {
    var k := s.rest;
    && (Mentions(s.typ, TArray) && k.items.Some? ==> Prefix(k) == [] && Compilable(k.items.value, names))
    && (Mentions(s.typ, TObject) ==>
          if PropertyFields(k) == map[] && k.additional.AdditionalSchema?
          then k.patterns == {} && Compilable(k.additional.schema, names)
          else k.properties.Properties? ==>
            forall f | f in k.properties.fields :: Compilable(k.properties.fields[f], names))
  }

  ghost predicate Compilable(s: Schema, names: set<string>)
    decreases s.rest, 1
  {
    var k := s.rest;
    if k.reference.Some? then IsLocal(k.reference.value, names)
    else if k.constant.Some? then PrintsAsTypeScript(k.constant.value)
    else if k.enumeration.Some? then forall x | x in k.enumeration.value :: PrintsAsTypeScript(x)
    else if k.anyOf.AnyOf? then forall i | 0 <= i < |k.anyOf.options| :: Compilable(k.anyOf.options[i], names)
    else PropertiesGuard(s) && PartsCompilable(s, names)
  }

  /** Only objects are of the type. */
  predicate OnlyObjects(typ: TypeKeyword) {
    match typ
    case NoType => false
    case OneType(t) => t == TObject
    case ManyTypes(ts) => forall t | t in ts :: t == TObject
  }

  ghost predicate FieldsCompilable(s: Schema, names: set<string>) {
    forall f | f in PropertyFields(s.rest) :: Compilable(PropertyFields(s.rest)[f], names)
  }

  ghost predicate Declarable(s: Schema, names: set<string>) {
    if IsAlias(s) then Compilable(s, names) else OnlyObjects(s.typ) && FieldsCompilable(s, names)
  }

  ghost predicate AllDeclarable(defs: map<string, Schema>) {
    forall name | name in defs :: Declarable(defs[name], defs.Keys)
  }

  lemma {:induction false} CompileSound(n: nat, defs: map<string, Schema>, o: Vocabulary, s: Schema, v: Json)
    requires AllDeclarable(defs) && Compilable(s, defs.Keys) && ValidWithin(n, defs, o, s, v)
    ensures InhabitsWithin(n, Declarations(defs), Compile(s), v)
    decreases n, s.rest, if s.typ.ManyTypes? then 1 else 0, 2
  {
    if IsSpecial(s.rest) {
      CompileSpecialSound(n, defs, o, s, v);
    } else if s.typ.ManyTypes? {
      var i :| 0 <= i < |s.typ.names| && HasType(v, s.typ.names[i]);
      if s.typ.names[i] != TNull {
        CompileTypedSound(n, defs, o, s.(typ := OneType(s.typ.names[i])), v);
      }
      assert InhabitsWithin(n, Declarations(defs), Compile(s).options[i], v);
    } else {
      CompileTypedSound(n, defs, o, s, v);
    }
  }

  lemma {:induction false} CompileSpecialSound(n: nat, defs: map<string, Schema>, o: Vocabulary, s: Schema, v: Json)
    requires IsSpecial(s.rest)
    requires AllDeclarable(defs) && Compilable(s, defs.Keys) && ValidWithin(n, defs, o, s, v)
    ensures InhabitsWithin(n, Declarations(defs), Compile(s), v)
    decreases n, s.rest, 0, 1
  {
    var k := s.rest;
    if k.reference.Some? {
      DeclareSound(n - 1, defs, o, defs[RefName(k.reference.value)], v);
    } else if k.constant.Some? {
      HoldsOfItself(v);
    } else if k.enumeration.Some? {
      var i :| 0 <= i < |k.enumeration.value| && k.enumeration.value[i] == v;
      HoldsOfItself(v);
      assert InhabitsWithin(n, Declarations(defs), TsLiterals(k.enumeration.value)[i], v);
    } else {
      var i :| 0 <= i < |k.anyOf.options| && ValidWithin(n, defs, o, k.anyOf.options[i], v);
      CompileSound(n, defs, o, k.anyOf.options[i], v);
      assert InhabitsWithin(n, Declarations(defs), Compile(s).options[i], v);
    }
  }

  lemma {:induction false} CompileTypedSound(n: nat, defs: map<string, Schema>, o: Vocabulary, s: Schema, v: Json)
    requires !IsSpecial(s.rest) && !s.typ.ManyTypes?
    requires AllDeclarable(defs) && Compilable(s, defs.Keys) && ValidWithin(n, defs, o, s, v)
    ensures InhabitsWithin(n, Declarations(defs), Compile(s), v)
    decreases n, s.rest, 0, 1
  {
    var k := s.rest;
    if s.typ == OneType(TArray) {
      if k.items.Some? {
        forall i | 0 <= i < |v.items|
          ensures InhabitsWithin(n, Declarations(defs), Compile(k.items.value), v.items[i])
        {
          CompileSound(n, defs, o, k.items.value, v.items[i]);
        }
      }
    } else if s.typ == OneType(TObject) {
      if PropertyFields(k) == map[] && k.additional.AdditionalSchema? {
        assert Compile(s) == TsRecord(Compile(k.additional.schema));
        forall f | f in v.fields
          ensures InhabitsWithin(n, Declarations(defs), Compile(k.additional.schema), v.fields[f])
        {
          CompileSound(n, defs, o, k.additional.schema, v.fields[f]);
        }
      } else {
        assert Compile(s) == TsObject(CompileFields(k));
        FieldsSound(n, defs, o, s, v);
      }
    }
  }

  lemma {:induction false} FieldsSound(n: nat, defs: map<string, Schema>, o: Vocabulary, s: Schema, v: Json)
    requires AllDeclarable(defs) && v.JObj? && ValidWithin(n, defs, o, s, v) && FieldsCompilable(s, defs.Keys)
    ensures InhabitsWithin(n, Declarations(defs), TsObject(CompileFields(s.rest)), v)
    decreases n, s.rest, 0, 0
  {
    var fields := PropertyFields(s.rest);
    forall f | f in fields && f in v.fields
      ensures InhabitsWithin(n, Declarations(defs), Compile(fields[f]), v.fields[f])
    {
      CompileSound(n, defs, o, fields[f], v.fields[f]);
    }
  }

  lemma {:induction false} DeclareSound(n: nat, defs: map<string, Schema>, o: Vocabulary, s: Schema, v: Json)
    requires AllDeclarable(defs) && Declarable(s, defs.Keys) && ValidWithin(n, defs, o, s, v)
    ensures InhabitsWithin(n, Declarations(defs), Declare(s), v)
    decreases n, s.rest, 1, 3
  {
    if IsAlias(s) {
      CompileSound(n, defs, o, s, v);
    } else {
      FieldsSound(n, defs, o, s, v);
    }
  }

  /** Valid, and inhabiting, under some bound on the references unfolded. */
  ghost predicate Valid(defs: map<string, Schema>, o: Vocabulary, s: Schema, v: Json) {
    exists n: nat :: ValidWithin(n, defs, o, s, v)
  }

  ghost predicate Inhabits(env: map<string, TsType>, t: TsType, v: Json) {
    exists n: nat :: InhabitsWithin(n, env, t, v)
  }

  ghost predicate Sound(defs: map<string, Schema>, s: Schema) {
    forall o, v :: Valid(defs, o, s, v) ==> Inhabits(Declarations(defs), Compile(s), v)
  }

  /** Sound on every compilable schema, references and recursion included. */
  lemma CompilableIsSound(defs: map<string, Schema>, s: Schema)
    requires AllDeclarable(defs) && Compilable(s, defs.Keys)
    ensures Sound(defs, s)
  {
    forall o, v | Valid(defs, o, s, v)
      ensures Inhabits(Declarations(defs), Compile(s), v)
    {
      var n: nat :| ValidWithin(n, defs, o, s, v);
      CompileSound(n, defs, o, s, v);
    }
  }

  // ---------------------------------------------------------------------------------------------
  // The guard is exact

  /** A value of the type that is neither an array nor an object. */
  function Scalar(t: TypeName): Json {
    match t
    case TNull => JNull
    case TBoolean => JBool(true)
    case TString => JStr("")
    case _ => JNum(0.0)
  }

  ghost function AnyVocabulary(): Vocabulary {
    Vocabulary((p, f) => true, (a, x, v) => true)
  }

  lemma ScalarEscapes(env: map<string, TsType>, n: nat, s: Schema, t: TypeName)
    requires !IsSpecial(s.rest) && s.rest.properties.Properties?
    requires t != TArray && t != TObject
    requires (s.typ == NoType && t == TNull) || s.typ == OneType(t)
            || (s.typ.ManyTypes? && t in s.typ.names && t != TNull)
    ensures !InhabitsWithin(n, env, Compile(s), Scalar(t))
  {
    if s.typ.ManyTypes? {
      forall i | 0 <= i < |s.typ.names|
        ensures !InhabitsWithin(n, env, Compile(s).options[i], Scalar(t))
      {
        if s.typ.names[i] != TNull {
          assert Compile(s.(typ := OneType(s.typ.names[i]))).TsArray?
              || Compile(s.(typ := OneType(s.typ.names[i]))).TsObject?
              || Compile(s.(typ := OneType(s.typ.names[i]))).TsRecord?;
        }
      }
    }
  }

  /** Where the object branch is reached and the parts compile, the emitted type is sound if and only
      if `properties` is guarded: without the guard some scalar is valid and inhabits nothing. */
  lemma SoundIffPropertiesGuarded(defs: map<string, Schema>, s: Schema)
    requires AllDeclarable(defs) && !IsSpecial(s.rest) && PartsCompilable(s, defs.Keys)
    ensures Sound(defs, s) <==> PropertiesGuard(s)
  {
    if PropertiesGuard(s) {
      CompilableIsSound(defs, s);
    } else {
      var t := match s.typ
        case NoType => TNull
        case OneType(t) => t
        case ManyTypes(ts) => (var t :| t in ts && t != TArray && t != TObject && t != TNull; t);
      forall n: nat ensures !InhabitsWithin(n, Declarations(defs), Compile(s), Scalar(t)) {
        ScalarEscapes(Declarations(defs), n, s, t);
      }
      assert ValidWithin(0, defs, AnyVocabulary(), s, Scalar(t));
      assert Valid(defs, AnyVocabulary(), s, Scalar(t));
    }
  }

  // ---------------------------------------------------------------------------------------------
  // Precision: on schemas TypeScript can express, the emitted type admits nothing else

  /** The keywords add nothing beyond the type `t` that TypeScript cannot say. */
  ghost predicate PreciseAs(k: Keywords, t: TypeName, names: set<string>)
    decreases k, 0, 0
  {
    match t
    case TArray => Prefix(k) == [] && (k.items.Some? ==> Precise(k.items.value, names))
    case TObject =>
      if PropertyFields(k) == map[] && k.additional.AdditionalSchema?
      then Required(k) == {} && k.patterns == {} && Precise(k.additional.schema, names)
      else PreciseFields(k, names)
    case TInteger => false
    case _ => k.properties.NoProperties?
  }

  ghost predicate PreciseFields(k: Keywords, names: set<string>)
    decreases k, -1
  {
    && Required(k) <= PropertyFields(k).Keys
    && (k.additional.NoAdditional? || k.additional == AdditionalFlag(true))
    && (k.properties.Properties? ==> forall f | f in k.properties.fields :: Precise(k.properties.fields[f], names))
  }

  ghost predicate Precise(s: Schema, names: set<string>)
    decreases s.rest, 1
  {
    if IsSpecial(s.rest) then PreciseSpecial(s, names) else PreciseTyped(s, names)
  }

  ghost predicate PreciseTyped(s: Schema, names: set<string>)
    decreases s.rest, 0, 1
  {
    && s.rest.assertions == map[]
    && match s.typ
       case NoType => s.rest == Annotated(s.rest)
       case OneType(t) => PreciseAs(s.rest, t, names)
       case ManyTypes(ts) => forall t | t in ts :: t == TNull || PreciseAs(s.rest, t, names)
  }

  /** The type allows each of the constants, and none of them leaves room for further values. */
  ghost predicate ExactValues(typ: TypeKeyword, values: seq<Json>) {
    forall x | x in values :: TypeAllows(typ, x) && IsExactLiteral(x)
  }

  /** The special keyword stands alone, or constants beside a type that allows them. */
  ghost predicate PreciseSpecial(s: Schema, names: set<string>)
    requires IsSpecial(s.rest)
    decreases s.rest, 0
  {
    var k := s.rest;
    if k.reference.Some? then
      s == Schema(NoType, Annotated(k).(reference := k.reference)) && IsLocal(k.reference.value, names)
    else if k.constant.Some? then
      k == Annotated(k).(constant := k.constant) && ExactValues(s.typ, [k.constant.value])
    else if k.enumeration.Some? then
      k == Annotated(k).(enumeration := k.enumeration) && ExactValues(s.typ, k.enumeration.value)
    else
      && s == Schema(NoType, Annotated(k).(anyOf := k.anyOf))
      && forall i | 0 <= i < |k.anyOf.options| :: Precise(k.anyOf.options[i], names)
  }

  ghost predicate PreciseDeclaration(s: Schema, names: set<string>) {
    if IsAlias(s) then Precise(s, names)
    else s.typ == OneType(TObject) && !IsSpecial(s.rest) && s.rest.assertions == map[] && PreciseFields(s.rest, names)
  }

  ghost predicate AllPrecise(defs: map<string, Schema>) {
    forall name | name in defs :: PreciseDeclaration(defs[name], defs.Keys)
  }

  lemma {:induction false} CompilePrecise(n: nat, defs: map<string, Schema>, o: Vocabulary, s: Schema, v: Json)
    requires AllPrecise(defs) && Precise(s, defs.Keys) && InhabitsWithin(n, Declarations(defs), Compile(s), v)
    ensures ValidWithin(n, defs, o, s, v)
    decreases n, s.rest, if s.typ.ManyTypes? then 1 else 0, 2
  {
    if IsSpecial(s.rest) {
      CompileSpecialPrecise(n, defs, o, s, v);
    } else if s.typ.ManyTypes? {
      assert PreciseTyped(s, defs.Keys);
      var i :| 0 <= i < |s.typ.names| && InhabitsWithin(n, Declarations(defs), Compile(s).options[i], v);
      if s.typ.names[i] != TNull {
        CompileOnePrecise(n, defs, o, s.(typ := OneType(s.typ.names[i])), v);
      }
      assert HasType(v, s.typ.names[i]);
    } else if s.typ.OneType? {
      assert PreciseTyped(s, defs.Keys);
      CompileOnePrecise(n, defs, o, s, v);
    }
  }

  /** Nothing but special keywords. */
  predicate OnlySpecial(s: Schema) {
    s.rest == Annotated(s.rest).(reference := s.rest.reference, constant := s.rest.constant,
                                 enumeration := s.rest.enumeration, anyOf := s.rest.anyOf)
  }

  lemma OnlySpecialValid(n: nat, defs: map<string, Schema>, o: Vocabulary, s: Schema, v: Json)
    requires OnlySpecial(s) && TypeAllows(s.typ, v)
    requires var k := s.rest;
             && (k.reference.Some? ==>
                   n > 0 && IsLocal(k.reference.value, defs.Keys) &&
                   ValidWithin(n - 1, defs, o, defs[RefName(k.reference.value)], v))
             && (k.constant.Some? ==> v == k.constant.value)
             && (k.enumeration.Some? ==> v in k.enumeration.value)
             && (k.anyOf.AnyOf? ==>
                   exists i | 0 <= i < |k.anyOf.options| :: ValidWithin(n, defs, o, k.anyOf.options[i], v))
    ensures ValidWithin(n, defs, o, s, v)
  {
  }

  lemma {:induction false} CompileSpecialPrecise(n: nat, defs: map<string, Schema>, o: Vocabulary, s: Schema, v: Json)
    requires IsSpecial(s.rest)
    requires AllPrecise(defs) && PreciseSpecial(s, defs.Keys) && InhabitsWithin(n, Declarations(defs), Compile(s), v)
    ensures ValidWithin(n, defs, o, s, v)
    decreases n, s.rest, 0, 1
  {
    var k := s.rest;
    assert OnlySpecial(s);
    if k.reference.Some? {
      DeclarePrecise(n - 1, defs, o, defs[RefName(k.reference.value)], v);
    } else if k.constant.Some? {
      ExactIff(k.constant.value);
    } else if k.enumeration.Some? {
      var i :| 0 <= i < |k.enumeration.value| && InhabitsWithin(n, Declarations(defs), Compile(s).options[i], v);
      ExactIff(k.enumeration.value[i]);
      assert k.enumeration.value[i] == v;
    } else {
      var i :| 0 <= i < |k.anyOf.options| && InhabitsWithin(n, Declarations(defs), Compile(s).options[i], v);
      CompilePrecise(n, defs, o, k.anyOf.options[i], v);
    }
    OnlySpecialValid(n, defs, o, s, v);
  }

  lemma {:induction false} CompileOnePrecise(n: nat, defs: map<string, Schema>, o: Vocabulary, s: Schema, v: Json)
    requires s.typ.OneType? && !IsSpecial(s.rest)
    requires AllPrecise(defs) && PreciseTyped(s, defs.Keys) && InhabitsWithin(n, Declarations(defs), Compile(s), v)
    ensures ValidWithin(n, defs, o, s, v)
    decreases n, s.rest, 0, 1
  {
    var k := s.rest;
    if s.typ.name == TArray {
      if k.items.Some? {
        forall i | 0 <= i < |v.items|
          ensures ValidWithin(n, defs, o, k.items.value, v.items[i])
        {
          CompilePrecise(n, defs, o, k.items.value, v.items[i]);
        }
      }
    } else if s.typ.name == TObject {
      if PropertyFields(k) == map[] && k.additional.AdditionalSchema? {
        assert Compile(s) == TsRecord(Compile(k.additional.schema));
        forall f | f in v.fields
          ensures ValidWithin(n, defs, o, k.additional.schema, v.fields[f])
        {
          CompilePrecise(n, defs, o, k.additional.schema, v.fields[f]);
        }
      } else {
        assert Compile(s) == TsObject(CompileFields(k));
        FieldsPrecise(n, defs, o, s, v);
      }
    }
  }

  lemma {:induction false} FieldsPrecise(n: nat, defs: map<string, Schema>, o: Vocabulary, s: Schema, v: Json)
    requires AllPrecise(defs) && s.typ == OneType(TObject) && !IsSpecial(s.rest) && s.rest.assertions == map[]
    requires PreciseFields(s.rest, defs.Keys)
    requires InhabitsWithin(n, Declarations(defs), TsObject(CompileFields(s.rest)), v)
    ensures ValidWithin(n, defs, o, s, v)
    decreases n, s.rest, 0, 0
  {
    var fields := PropertyFields(s.rest);
    forall f | f in fields && f in v.fields
      ensures ValidWithin(n, defs, o, fields[f], v.fields[f])
    {
      CompilePrecise(n, defs, o, fields[f], v.fields[f]);
    }
    forall f | f in Required(s.rest) ensures f in v.fields {
      assert f in CompileFields(s.rest);
    }
  }

  lemma {:induction false} DeclarePrecise(n: nat, defs: map<string, Schema>, o: Vocabulary, s: Schema, v: Json)
    requires AllPrecise(defs) && PreciseDeclaration(s, defs.Keys)
    requires InhabitsWithin(n, Declarations(defs), Declare(s), v)
    ensures ValidWithin(n, defs, o, s, v)
    decreases n, s.rest, 1, 3
  {
    if IsAlias(s) {
      CompilePrecise(n, defs, o, s, v);
    } else {
      FieldsPrecise(n, defs, o, s, v);
    }
  }

  /** On expressible schemas the emitted type and the schema hold of exactly the same values. */
  lemma PreciseIsExact(defs: map<string, Schema>, o: Vocabulary, s: Schema, v: Json)
    requires AllDeclarable(defs) && AllPrecise(defs)
    requires Compilable(s, defs.Keys) && Precise(s, defs.Keys)
    ensures Valid(defs, o, s, v) <==> Inhabits(Declarations(defs), Compile(s), v)
  {
    if Valid(defs, o, s, v) {
      CompilableIsSound(defs, s);
    }
    if Inhabits(Declarations(defs), Compile(s), v) {
      var n: nat :| InhabitsWithin(n, Declarations(defs), Compile(s), v);
      CompilePrecise(n, defs, o, s, v);
    }
  }
}
