/** What the types of tools/export_contracts.py hold of, said over the schema: which fields an object must
    have, and how a closed object is read once TypeScript has forgotten that it is closed. */
module ContractTypes {
  import opened Wrappers
  import opened JsonValues
  import opened Contracts
  import opened ContractLimits
  import opened Literals

  // ---------------------------------------------------------------------------------------------
  // References

  /** A reference into `$defs` is printed as the name of the definition. */
  lemma ReferencePrintsName(name: string)
    requires '/' !in name
    ensures RefName("#/$defs/" + name) == name
  {
    LastSegment("#/$defs", name);
    assert "#/$defs" + "/" + name == "#/$defs/" + name;
  }

  lemma {:induction false} LastSegment(before: string, name: string)
    requires '/' !in name
    ensures RefName(name) == name && RefName(before + "/" + name) == name
  {
    var whole := before + "/" + name;
    assert whole[|before|] == '/';
    if before == "" {
      assert whole[1..] == name;
    } else {
      assert whole[1..] == before[1..] + "/" + name;
      LastSegment(before[1..], name);
    }
  }

  predicate IsWhole(v: Json, i: int) {
    v == JNum(i as real)
  }

  /** An integer is printed as a number: the type cannot tell whole numbers from others. */
  lemma IntegersAreNumbers(defs: map<string, Schema>, o: Vocabulary, v: Json)
    ensures var integer := Schema(OneType(TInteger), NO_KEYWORDS);
            && (Valid(defs, o, integer, v) <==> exists i :: IsWhole(v, i))
            && (Inhabits(Declarations(defs), Compile(integer), v) <==> v.JNum?)
  {
    var integer := Schema(OneType(TInteger), NO_KEYWORDS);
    if v.JNum? {
      assert InhabitsWithin(0, Declarations(defs), Compile(integer), v);
      if v.n.Floor as real == v.n {
        assert IsWhole(v, v.n.Floor);
        assert ValidWithin(0, defs, o, integer, v);
      }
    }
  }

  // ---------------------------------------------------------------------------------------------
  // Objects

  /** An object with every required property, whose properties are of the types of their own schemas.
      Neither `additionalProperties` nor any assertion matters. */
  ghost predicate HasShape(env: map<string, TsType>, k: Keywords, v: Json) {
    && v.JObj?
    && (k.required.Some? ==> forall f | f in PropertyFields(k) && f in k.required.value :: f in v.fields)
    && (forall f | f in PropertyFields(k) && f in v.fields ::
          Inhabits(env, Compile(PropertyFields(k)[f]), v.fields[f]))
  }

  lemma FieldsHoldIff(env: map<string, TsType>, k: Keywords, v: Json)
    ensures Inhabits(env, TsObject(CompileFields(k)), v) <==> HasShape(env, k, v)
  {
    var fields := CompileFields(k);
    ObjectHoldsOf(env, fields, v);
    assert forall f :: f in fields <==> f in PropertyFields(k);
  }

  /** The schema reaches the object branch, and is no record. */
  predicate IsObjectType(s: Schema) {
    && !IsSpecial(s.rest)
    && (s.typ == OneType(TObject) ||
        (s.rest.properties.Properties? && (s.typ == NoType || (s.typ.OneType? && s.typ.name != TArray))))
    && (PropertyFields(s.rest) != map[] || !s.rest.additional.AdditionalSchema?)
  }

  lemma ObjectTypeIff(env: map<string, TsType>, s: Schema, v: Json)
    requires IsObjectType(s)
    ensures Inhabits(env, Compile(s), v) <==> HasShape(env, s.rest, v)
  {
    assert Compile(s) == TsObject(CompileFields(s.rest));
    FieldsHoldIff(env, s.rest, v);
  }

  /** An interface is declared for `type: object` and for `properties` beside any type or keyword. */
  lemma InterfaceTypeIff(env: map<string, TsType>, s: Schema, v: Json)
    requires s.typ == OneType(TObject) || s.rest.properties.Properties?
    ensures Inhabits(env, Declare(s), v) <==> HasShape(env, s.rest, v)
  {
    FieldsHoldIff(env, s.rest, v);
  }

  // ---------------------------------------------------------------------------------------------
  // Closed objects

  /** The object without the fields that are not named. */
  function Cut(v: Json, names: set<string>): Json {
    if v.JObj? then JObj(map f | f in v.fields && f in names :: v.fields[f]) else v
  }

  /** `additionalProperties` may be anything, `false` above all. */
  ghost predicate PreciseProperties(defs: map<string, Schema>, s: Schema) {
    && s.typ == OneType(TObject) && !IsSpecial(s.rest) && s.rest.assertions == map[]
    && Required(s.rest) <= PropertyFields(s.rest).Keys
    && FieldsCompilable(s, defs.Keys)
    && forall f | f in PropertyFields(s.rest) :: Precise(PropertyFields(s.rest)[f], defs.Keys)
  }

  lemma CutIsValid(n: nat, defs: map<string, Schema>, o: Vocabulary, s: Schema, v: Json)
    requires AllPrecise(defs) && PreciseProperties(defs, s)
    requires InhabitsWithin(n, Declarations(defs), TsObject(CompileFields(s.rest)), v)
    ensures ValidWithin(n, defs, o, s, Cut(v, PropertyFields(s.rest).Keys))
  {
    var fields := PropertyFields(s.rest);
    forall f | f in fields && f in v.fields ensures ValidWithin(n, defs, o, fields[f], v.fields[f]) {
      CompilePrecise(n, defs, o, fields[f], v.fields[f]);
    }
    forall f | f in Required(s.rest) ensures f in v.fields {
      assert f in CompileFields(s.rest);
    }
  }

  lemma ValidCutFits(n: nat, defs: map<string, Schema>, o: Vocabulary, s: Schema, v: Json)
    requires AllDeclarable(defs) && PreciseProperties(defs, s)
    requires ValidWithin(n, defs, o, s, Cut(v, PropertyFields(s.rest).Keys))
    ensures InhabitsWithin(n, Declarations(defs), TsObject(CompileFields(s.rest)), v)
  {
    var cut := Cut(v, PropertyFields(s.rest).Keys);
    FieldsSound(n, defs, o, s, cut);
    forall f | f in CompileFields(s.rest) ensures f in v.fields <==> f in cut.fields {
    }
  }

  /** A value is of the interface, or of the object type, exactly when it is valid once its undeclared fields
      are cut off. */
  lemma CutIff(defs: map<string, Schema>, o: Vocabulary, s: Schema, v: Json)
    requires AllDeclarable(defs) && AllPrecise(defs) && PreciseProperties(defs, s)
    ensures var valid := Valid(defs, o, s, Cut(v, PropertyFields(s.rest).Keys));
            && (Inhabits(Declarations(defs), Declare(s), v) <==> valid)
            && (IsObjectType(s) ==> (Inhabits(Declarations(defs), Compile(s), v) <==> valid))
  {
    var env, fields := Declarations(defs), TsObject(CompileFields(s.rest));
    assert Declare(s) == fields && (IsObjectType(s) ==> Compile(s) == fields);
    if Inhabits(env, fields, v) {
      var n: nat :| InhabitsWithin(n, env, fields, v);
      CutIsValid(n, defs, o, s, v);
    }
    if Valid(defs, o, s, Cut(v, PropertyFields(s.rest).Keys)) {
      var n: nat :| ValidWithin(n, defs, o, s, Cut(v, PropertyFields(s.rest).Keys));
      ValidCutFits(n, defs, o, s, v);
    }
  }

  // ---------------------------------------------------------------------------------------------
  // What the compiler keeps of a schema

  /** The schema that the compiler sees: one keyword where a special one decides, one type at a time,
      integers as numbers, objects open, required names only where declared, and no assertions. */
  function Kept(s: Schema): Schema
    decreases s.rest, if s.typ.ManyTypes? then 1 else 0, 2
  {
    var k := s.rest;
    if k.reference.Some? then Schema(NoType, NO_KEYWORDS.(reference := k.reference))
    else if k.constant.Some? then Schema(NoType, NO_KEYWORDS.(constant := k.constant))
    else if k.enumeration.Some? then Schema(NoType, NO_KEYWORDS.(enumeration := k.enumeration))
    else if k.anyOf.AnyOf? then
      var ss := k.anyOf.options;
      Schema(NoType, NO_KEYWORDS.(anyOf := AnyOf(seq(|ss|, i requires 0 <= i < |ss| => Kept(ss[i])))))
    else match s.typ
      case ManyTypes(ts) =>
        var options := seq(|ts|, i requires 0 <= i < |ts| =>
          if ts[i] == TNull then Schema(OneType(TNull), NO_KEYWORDS) else Kept(s.(typ := OneType(ts[i]))));
        Schema(NoType, NO_KEYWORDS.(anyOf := AnyOf(options)))
      case OneType(TArray) =>
        Schema(OneType(TArray), NO_KEYWORDS.(items := if k.items.Some? then Some(Kept(k.items.value)) else None))
      case OneType(TObject) => KeptObject(s)
      case _ =>
        if k.properties.Properties? then KeptObject(s)
        else if s.typ == OneType(TInteger) then Schema(OneType(TNumber), NO_KEYWORDS)
        else Schema(s.typ, NO_KEYWORDS)
  }

  function KeptObject(s: Schema): Schema
    decreases s.rest, if s.typ.ManyTypes? then 1 else 0, 1
  {
    if PropertyFields(s.rest) == map[] && s.rest.additional.AdditionalSchema?
    then Schema(OneType(TObject), NO_KEYWORDS.(additional := AdditionalSchema(Kept(s.rest.additional.schema))))
    else KeptFields(s.rest)
  }

  /** The names of a list that are declared. */
  function Declared(names: seq<string>, fields: set<string>): (r: seq<string>)
    ensures forall f :: f in r <==> f in names && f in fields
  {
    if names == [] then []
    else Declared(names[..|names| - 1], fields)
         + if names[|names| - 1] in fields then [names[|names| - 1]] else []
  }

  function KeptFields(k: Keywords): Schema
    decreases k, 0, 0
  {
    var names := if k.required.Some? then k.required.value else [];
    Schema(OneType(TObject), NO_KEYWORDS.(
      properties := if k.properties.Properties?
                    then Properties(map f | f in k.properties.fields :: Kept(k.properties.fields[f]))
                    else NoProperties,
      required := Some(Declared(names, PropertyFields(k).Keys))))
  }

  function KeptDeclaration(s: Schema): Schema {
    if IsAlias(s) then Kept(s) else KeptFields(s.rest)
  }

  function KeptAll(defs: map<string, Schema>): map<string, Schema> {
    map name | name in defs :: KeptDeclaration(defs[name])
  }

  /** Where the compiler descends, references lead to definitions and constants print exactly. */
  ghost predicate Prints(s: Schema, names: set<string>)
    decreases s.rest, if s.typ.ManyTypes? then 1 else 0, 2
  {
    var k := s.rest;
    if k.reference.Some? then IsLocal(k.reference.value, names)
    else if k.constant.Some? then IsExactLiteral(k.constant.value)
    else if k.enumeration.Some? then forall x | x in k.enumeration.value :: IsExactLiteral(x)
    else if k.anyOf.AnyOf? then forall i | 0 <= i < |k.anyOf.options| :: Prints(k.anyOf.options[i], names)
    else match s.typ
      case ManyTypes(ts) => forall t | t in ts && t != TNull :: Prints(s.(typ := OneType(t)), names)
      case OneType(TArray) => k.items.Some? ==> Prints(k.items.value, names)
      case OneType(TObject) => ObjectPrints(s, names)
      case _ => k.properties.Properties? ==> ObjectPrints(s, names)
  }

  ghost predicate ObjectPrints(s: Schema, names: set<string>)
    decreases s.rest, if s.typ.ManyTypes? then 1 else 0, 1
  {
    if PropertyFields(s.rest) == map[] && s.rest.additional.AdditionalSchema?
    then Prints(s.rest.additional.schema, names)
    else FieldsPrint(s.rest, names)
  }

  ghost predicate FieldsPrint(k: Keywords, names: set<string>)
    decreases k, 0, 0
  {
    k.properties.Properties? ==> forall f | f in k.properties.fields :: Prints(k.properties.fields[f], names)
  }

  ghost predicate AllPrint(defs: map<string, Schema>) {
    forall name | name in defs ::
      if IsAlias(defs[name]) then Prints(defs[name], defs.Keys) else FieldsPrint(defs[name].rest, defs.Keys)
  }

  lemma {:induction false} CompileKept(s: Schema)
    ensures Compile(Kept(s)) == Compile(s)
    decreases s.rest, if s.typ.ManyTypes? then 1 else 0, 2
  {
    var k := s.rest;
    if k.reference.Some? || k.constant.Some? || k.enumeration.Some? {
    } else if k.anyOf.AnyOf? {
      CompileKeptOptions(s);
    } else if s.typ.ManyTypes? {
      CompileKeptTypes(s);
    } else if s.typ == OneType(TArray) {
      if k.items.Some? {
        CompileKept(k.items.value);
      }
    } else if s.typ == OneType(TObject) || k.properties.Properties? {
      assert Compile(s) == CompileObject(s) && Kept(s) == KeptObject(s);
      CompileKeptObject(s);
    }
  }

  lemma {:induction false} CompileKeptOptions(s: Schema)
    requires PrintsOptions(s.rest)
    ensures Compile(Kept(s)) == Compile(s)
    decreases s.rest, if s.typ.ManyTypes? then 1 else 0, 1
  {
    var ss := s.rest.anyOf.options;
    forall i | 0 <= i < |ss| ensures Compile(Kept(ss[i])) == Compile(ss[i]) {
      CompileKept(ss[i]);
    }
    assert Compile(Kept(s)).options == Compile(s).options;
  }

  lemma {:induction false} CompileKeptTypes(s: Schema)
    requires !IsSpecial(s.rest) && s.typ.ManyTypes?
    ensures Compile(Kept(s)) == Compile(s)
    decreases s.rest, 1, 1
  {
    var ts := s.typ.names;
    forall i | 0 <= i < |ts| && ts[i] != TNull
      ensures Compile(Kept(s.(typ := OneType(ts[i])))) == Compile(s.(typ := OneType(ts[i])))
    {
      CompileKept(s.(typ := OneType(ts[i])));
    }
    assert Compile(Kept(s)).options == Compile(s).options;
  }

  /** `anyOf` decides. */
  predicate PrintsOptions(k: Keywords) {
    k.reference.None? && k.constant.None? && k.enumeration.None? && k.anyOf.AnyOf?
  }

  lemma {:induction false} CompileKeptObject(s: Schema)
    ensures Compile(KeptObject(s)) == CompileObject(s)
    decreases s.rest, if s.typ.ManyTypes? then 1 else 0, 1
  {
    if PropertyFields(s.rest) == map[] && s.rest.additional.AdditionalSchema? {
      CompileKept(s.rest.additional.schema);
      assert CompileObject(KeptObject(s)) == CompileObject(s);
    } else {
      CompileKeptFields(s.rest);
      assert CompileObject(KeptFields(s.rest)) == TsObject(CompileFields(s.rest));
    }
  }

  lemma {:induction false} CompileKeptFields(k: Keywords)
    ensures CompileFields(KeptFields(k).rest) == CompileFields(k)
    ensures PropertyFields(KeptFields(k).rest).Keys == PropertyFields(k).Keys
    decreases k, 0, 0
  {
    var fields, m := PropertyFields(k), KeptFields(k).rest;
    assert PropertyFields(m).Keys == fields.Keys;
    forall f | f in fields ensures Compile(PropertyFields(m)[f]) == Compile(fields[f]) {
      CompileKept(fields[f]);
    }
    assert forall f | f in fields :: f in Required(m) <==> f in Required(k);
  }

  lemma DeclarationsKept(defs: map<string, Schema>)
    ensures Declarations(KeptAll(defs)) == Declarations(defs)
  {
    forall name | name in defs ensures Declare(KeptAll(defs)[name]) == Declare(defs[name]) {
      DeclareKept(defs[name]);
    }
  }

  lemma DeclareKept(s: Schema)
    ensures Declare(KeptDeclaration(s)) == Declare(s)
  {
    if IsAlias(s) {
      CompileKept(s);
      KeptAlias(s);
    } else {
      CompileKeptFields(s.rest);
    }
  }

  lemma KeptAlias(s: Schema)
    requires IsAlias(s)
    ensures IsAlias(Kept(s))
  {
  }

  function UnionOf(options: seq<Schema>): Schema {
    Schema(NoType, NO_KEYWORDS.(anyOf := AnyOf(options)))
  }

  lemma UnionIsPrecise(options: seq<Schema>, names: set<string>)
    requires forall i | 0 <= i < |options| :: Precise(options[i], names) && Compilable(options[i], names)
    ensures Precise(UnionOf(options), names) && Compilable(UnionOf(options), names)
  {
    var s := UnionOf(options);
    assert s.rest.anyOf.options == options && IsSpecial(s.rest);
    assert PreciseSpecial(s, names);
  }

  lemma {:induction false} KeptIsPrecise(s: Schema, names: set<string>)
    requires Prints(s, names)
    ensures Precise(Kept(s), names) && Compilable(Kept(s), names)
    decreases s.rest, if s.typ.ManyTypes? then 1 else 0, 2
  {
    var k := s.rest;
    if k.reference.Some? || k.constant.Some? || k.enumeration.Some? {
    } else if k.anyOf.AnyOf? {
      var ss := k.anyOf.options;
      forall i | 0 <= i < |ss| ensures Precise(Kept(ss[i]), names) && Compilable(Kept(ss[i]), names) {
        KeptIsPrecise(ss[i], names);
      }
      UnionIsPrecise(Kept(s).rest.anyOf.options, names);
    } else if s.typ.ManyTypes? {
      KeptTypesArePrecise(s, names);
    } else if s.typ == OneType(TArray) {
      if k.items.Some? {
        KeptIsPrecise(k.items.value, names);
      }
    } else if s.typ == OneType(TObject) || k.properties.Properties? {
      assert Kept(s) == KeptObject(s);
      KeptObjectIsPrecise(s, names);
    }
  }

  lemma {:induction false} KeptTypesArePrecise(s: Schema, names: set<string>)
    requires !IsSpecial(s.rest) && s.typ.ManyTypes? && Prints(s, names)
    ensures Precise(Kept(s), names) && Compilable(Kept(s), names)
    decreases s.rest, 1, 1
  {
    var ts, options := s.typ.names, Kept(s).rest.anyOf.options;
    forall i | 0 <= i < |ts| ensures Precise(options[i], names) && Compilable(options[i], names) {
      if ts[i] == TNull {
        assert options[i] == Schema(OneType(TNull), NO_KEYWORDS);
      } else {
        KeptIsPrecise(s.(typ := OneType(ts[i])), names);
      }
    }
    assert Kept(s) == UnionOf(options);
    UnionIsPrecise(options, names);
  }

  lemma {:induction false} KeptObjectIsPrecise(s: Schema, names: set<string>)
    requires ObjectPrints(s, names)
    ensures Precise(KeptObject(s), names) && Compilable(KeptObject(s), names)
    decreases s.rest, if s.typ.ManyTypes? then 1 else 0, 1
  {
    if PropertyFields(s.rest) == map[] && s.rest.additional.AdditionalSchema? {
      KeptIsPrecise(s.rest.additional.schema, names);
    } else {
      KeptFieldsArePrecise(s.rest, names);
    }
  }

  lemma {:induction false} KeptFieldsArePrecise(k: Keywords, names: set<string>)
    requires FieldsPrint(k, names)
    ensures Precise(KeptFields(k), names) && Compilable(KeptFields(k), names)
    ensures PreciseDeclaration(KeptFields(k), names) && Declarable(KeptFields(k), names)
    decreases k, 0, 0
  {
    var fields, m := PropertyFields(k), KeptFields(k).rest;
    assert PropertyFields(m).Keys == fields.Keys;
    forall f | f in fields
      ensures Precise(PropertyFields(m)[f], names) && Compilable(PropertyFields(m)[f], names)
    {
      KeptIsPrecise(fields[f], names);
    }
    assert PreciseFields(m, names);
    assert PreciseTyped(KeptFields(k), names);
  }

  lemma KeptAllArePrecise(defs: map<string, Schema>)
    requires AllPrint(defs)
    ensures AllPrecise(KeptAll(defs)) && AllDeclarable(KeptAll(defs))
  {
    assert KeptAll(defs).Keys == defs.Keys;
    forall name | name in defs
      ensures PreciseDeclaration(KeptAll(defs)[name], defs.Keys) && Declarable(KeptAll(defs)[name], defs.Keys)
    {
      if IsAlias(defs[name]) {
        KeptIsPrecise(defs[name], defs.Keys);
        KeptAlias(defs[name]);
      } else {
        KeptFieldsArePrecise(defs[name].rest, defs.Keys);
      }
    }
  }

  /** Whatever the schema asserts besides, the emitted type holds of exactly the values valid against what the
      compiler keeps of it and of the definitions. */
  lemma CompileIsKept(defs: map<string, Schema>, o: Vocabulary, s: Schema, v: Json)
    requires AllPrint(defs) && Prints(s, defs.Keys)
    ensures Inhabits(Declarations(defs), Compile(s), v) <==> Valid(KeptAll(defs), o, Kept(s), v)
  {
    assert KeptAll(defs).Keys == defs.Keys;
    KeptAllArePrecise(defs);
    KeptIsPrecise(s, defs.Keys);
    DeclarationsKept(defs);
    CompileKept(s);
    PreciseIsExact(KeptAll(defs), o, Kept(s), v);
  }
}
