/** Exactly when the types of tools/export_contracts.py are sound where the compiler prints less than the
    schema says: constants, `items` after `prefixItems`, records beside `patternProperties`, interfaces. */
module ContractLimits {
  import opened Wrappers
  import opened JsonValues
  import opened Literals
  import opened Contracts

  // ---------------------------------------------------------------------------------------------
  // Bounds

  lemma {:induction false} InhabitsMonotone(n: nat, m: nat, env: map<string, TsType>, t: TsType, v: Json)
    requires n <= m && InhabitsWithin(n, env, t, v)
    ensures InhabitsWithin(m, env, t, v)
    decreases n, t
  {
    match t
    case TsRef(name) => InhabitsMonotone(n - 1, m - 1, env, env[name], v);
    case TsUnion(options) =>
      var i :| 0 <= i < |options| && InhabitsWithin(n, env, options[i], v);
      InhabitsMonotone(n, m, env, options[i], v);
    case TsArray(element) =>
      forall i | 0 <= i < |v.items| ensures InhabitsWithin(m, env, element, v.items[i]) {
        InhabitsMonotone(n, m, env, element, v.items[i]);
      }
    case TsRecord(element) =>
      forall f | f in v.fields ensures InhabitsWithin(m, env, element, v.fields[f]) {
        InhabitsMonotone(n, m, env, element, v.fields[f]);
      }
    case TsObject(fields) =>
      forall f | f in fields && f in v.fields ensures InhabitsWithin(m, env, fields[f].typ, v.fields[f]) {
        InhabitsMonotone(n, m, env, fields[f].typ, v.fields[f]);
      }
    case _ =>
  }

  /** Finitely many values of a type inhabit it under one bound. */
  lemma CommonBound(env: map<string, TsType>, t: TsType, values: set<Json>) returns (n: nat)
    requires forall v | v in values :: Inhabits(env, t, v)
    ensures forall v | v in values :: InhabitsWithin(n, env, t, v)
  {
    if values == {} {
      n := 0;
    } else {
      var v :| v in values;
      var one: nat :| InhabitsWithin(one, env, t, v);
      var others := CommonBound(env, t, values - {v});
      n := if one > others then one else others;
      forall w | w in values ensures InhabitsWithin(n, env, t, w) {
        InhabitsMonotone(if w == v then one else others, n, env, t, w);
      }
    }
  }

  /** More references, more patterns matched and more assertions met admit no fewer values. */
  lemma {:induction false} ValidMonotone(n: nat, m: nat, defs: map<string, Schema>, o: Vocabulary, s: Schema, v: Json)
    requires n <= m && ValidWithin(n, defs, o, s, v)
    ensures ValidWithin(m, defs, AnyVocabulary(), s, v)
    decreases n, s
  {
    var k := s.rest;
    if k.reference.Some? {
      ValidMonotone(n - 1, m - 1, defs, o, defs[RefName(k.reference.value)], v);
    }
    if k.anyOf.AnyOf? {
      var i :| 0 <= i < |k.anyOf.options| && ValidWithin(n, defs, o, k.anyOf.options[i], v);
      ValidMonotone(n, m, defs, o, k.anyOf.options[i], v);
    }
    if v.JArr? {
      forall i | 0 <= i < |v.items| && i < |Prefix(k)|
        ensures ValidWithin(m, defs, AnyVocabulary(), Prefix(k)[i], v.items[i])
      {
        ValidMonotone(n, m, defs, o, Prefix(k)[i], v.items[i]);
      }
      forall i | |Prefix(k)| <= i < |v.items| && k.items.Some?
        ensures ValidWithin(m, defs, AnyVocabulary(), k.items.value, v.items[i])
      {
        ValidMonotone(n, m, defs, o, k.items.value, v.items[i]);
      }
    }
    if v.JObj? {
      forall f | f in v.fields && k.properties.Properties? && f in k.properties.fields
        ensures ValidWithin(m, defs, AnyVocabulary(), k.properties.fields[f], v.fields[f])
      {
        ValidMonotone(n, m, defs, o, k.properties.fields[f], v.fields[f]);
      }
      forall f | f in v.fields && k.additional.AdditionalSchema? && !Exempt(AnyVocabulary(), k, f)
        ensures ValidWithin(m, defs, AnyVocabulary(), k.additional.schema, v.fields[f])
      {
        ExemptInAny(o, k, f);
        ValidMonotone(n, m, defs, o, k.additional.schema, v.fields[f]);
      }
      forall f | f in v.fields && !Exempt(AnyVocabulary(), k, f) ensures !Exempt(o, k, f) {
        ExemptInAny(o, k, f);
      }
    }
  }

  lemma ExemptInAny(o: Vocabulary, k: Keywords, f: string)
    ensures Exempt(o, k, f) ==> Exempt(AnyVocabulary(), k, f)
  {
    if Exempt(o, k, f) && f !in PropertyFields(k) {
      var p :| p in k.patterns && o.matches(p, f);
      assert AnyVocabulary().matches(p, f);
    }
  }

  /** Valid under some reading of the keywords that are not compiled. */
  ghost predicate Possible(defs: map<string, Schema>, s: Schema, v: Json) {
    Valid(defs, AnyVocabulary(), s, v)
  }

  lemma ValidIsPossible(defs: map<string, Schema>, o: Vocabulary, s: Schema, v: Json)
    requires Valid(defs, o, s, v)
    ensures Possible(defs, s, v)
  {
    var n: nat :| ValidWithin(n, defs, o, s, v);
    ValidMonotone(n, n, defs, o, s, v);
  }

  /** So soundness over all readings is soundness over the most permissive one. */
  lemma SoundIffPossible(defs: map<string, Schema>, s: Schema)
    ensures Sound(defs, s) <==> forall v :: Possible(defs, s, v) ==> Inhabits(Declarations(defs), Compile(s), v)
  {
    forall o, v | Valid(defs, o, s, v) ensures Possible(defs, s, v) {
      ValidIsPossible(defs, o, s, v);
    }
  }

  // ---------------------------------------------------------------------------------------------
  // Records

  /** The object with a value under each of the names. */
  function Uniform(names: set<string>, v: Json): Json {
    JObj(map f | f in names :: v)
  }

  lemma RecordHoldsOf(env: map<string, TsType>, element: TsType, v: Json)
    ensures Inhabits(env, TsRecord(element), v) <==>
            v.JObj? && forall f | f in v.fields :: Inhabits(env, element, v.fields[f])
  {
    if Inhabits(env, TsRecord(element), v) {
      var n: nat :| InhabitsWithin(n, env, TsRecord(element), v);
      assert forall f | f in v.fields :: InhabitsWithin(n, env, element, v.fields[f]);
    }
    if v.JObj? && forall f | f in v.fields :: Inhabits(env, element, v.fields[f]) {
      var n := CommonBound(env, element, v.fields.Values);
      assert InhabitsWithin(n, env, TsRecord(element), v);
    }
  }

  predicate IsRecord(s: Schema) {
    && s.typ == OneType(TObject) && !IsSpecial(s.rest)
    && PropertyFields(s.rest) == map[] && s.rest.additional.AdditionalSchema?
  }

  lemma RecordAdmits(defs: map<string, Schema>, s: Schema, names: set<string>, v: Json)
    requires IsRecord(s) && Required(s.rest) <= names
    requires s.rest.patterns != {} || Possible(defs, s.rest.additional.schema, v)
    ensures Possible(defs, s, Uniform(names, v))
  {
    var k := s.rest;
    if k.patterns != {} {
      var p :| p in k.patterns;
      assert AnyVocabulary().matches(p, "");
      forall f ensures Exempt(AnyVocabulary(), k, f) {
        assert AnyVocabulary().matches(p, f);
      }
      assert ValidWithin(0, defs, AnyVocabulary(), s, Uniform(names, v));
    } else {
      var n: nat :| ValidWithin(n, defs, AnyVocabulary(), k.additional.schema, v);
      assert ValidWithin(n, defs, AnyVocabulary(), s, Uniform(names, v));
    }
  }

  lemma RecordLimits(defs: map<string, Schema>, s: Schema, v: Json)
    requires IsRecord(s) && Possible(defs, s, v)
    ensures v.JObj?
    ensures s.rest.patterns == {} ==> forall f | f in v.fields :: Possible(defs, s.rest.additional.schema, v.fields[f])
  {
    var n: nat :| ValidWithin(n, defs, AnyVocabulary(), s, v);
    forall f | f in v.fields && s.rest.patterns == {}
      ensures ValidWithin(n, defs, AnyVocabulary(), s.rest.additional.schema, v.fields[f])
    {
    }
  }

  lemma RecordElement(defs: map<string, Schema>, s: Schema, v: Json)
    requires IsRecord(s) && Sound(defs, s)
    requires s.rest.patterns != {} || Possible(defs, s.rest.additional.schema, v)
    ensures Inhabits(Declarations(defs), Compile(s.rest.additional.schema), v)
  {
    var names := Required(s.rest) + {"x"};
    assert Compile(s) == TsRecord(Compile(s.rest.additional.schema));
    RecordAdmits(defs, s, names, v);
    RecordHoldsOf(Declarations(defs), Compile(s.rest.additional.schema), Uniform(names, v));
    assert Uniform(names, v).fields["x"] == v;
  }

  /** The type excludes no JSON value. */
  ghost predicate HoldsOfAll(env: map<string, TsType>, t: TsType) {
    forall v :: Inhabits(env, t, v)
  }

  lemma RecordSoundIf(defs: map<string, Schema>, s: Schema)
    requires IsRecord(s)
    requires var element := s.rest.additional.schema;
             if s.rest.patterns == {} then Sound(defs, element) else HoldsOfAll(Declarations(defs), Compile(element))
    ensures Sound(defs, s)
  {
    var env, element := Declarations(defs), s.rest.additional.schema;
    assert Compile(s) == TsRecord(Compile(element));
    SoundIffPossible(defs, s);
    SoundIffPossible(defs, element);
    forall v | Possible(defs, s, v) ensures Inhabits(env, Compile(s), v) {
      RecordLimits(defs, s, v);
      RecordHoldsOf(env, Compile(element), v);
    }
  }

  /** A record type is printed with `additionalProperties` for every name. Without `patternProperties` it
      is exactly as sound as that schema. Beside them it is sound only if the element type excludes
      nothing: names that match a pattern are not constrained by `additionalProperties`. */
  lemma RecordSoundIff(defs: map<string, Schema>, s: Schema)
    requires IsRecord(s)
    ensures var element := s.rest.additional.schema;
            Sound(defs, s) <==>
            if s.rest.patterns == {} then Sound(defs, element) else HoldsOfAll(Declarations(defs), Compile(element))
  {
    var env, element := Declarations(defs), s.rest.additional.schema;
    if Sound(defs, s) {
      SoundIffPossible(defs, element);
      forall v | s.rest.patterns != {} || Possible(defs, element, v) ensures Inhabits(env, Compile(element), v) {
        RecordElement(defs, s, v);
      }
      if s.rest.patterns != {} {
        assert HoldsOfAll(env, Compile(element));
      }
    } else if if s.rest.patterns == {} then Sound(defs, element) else HoldsOfAll(env, Compile(element)) {
      RecordSoundIf(defs, s);
    }
  }

  /** The concrete case: a pattern-matched name whose value is no number, against a record of numbers. */
  lemma PatternPropertiesEscape()
    ensures var number := Schema(OneType(TNumber), NO_KEYWORDS);
            var k := NO_KEYWORDS.(patterns := {"^x"}, additional := AdditionalSchema(number));
            !Sound(map[], Schema(OneType(TObject), k))
  {
    var number := Schema(OneType(TNumber), NO_KEYWORDS);
    var k := NO_KEYWORDS.(patterns := {"^x"}, additional := AdditionalSchema(number));
    RecordSoundIff(map[], Schema(OneType(TObject), k));
    assert "^x" in {"^x"};
    forall n: nat ensures !InhabitsWithin(n, Declarations(map[]), TsNumber, JNull) {
    }
    assert !Inhabits(Declarations(map[]), Compile(number), JNull);
  }

  // ---------------------------------------------------------------------------------------------
  // Arrays

  lemma ArrayHoldsOf(env: map<string, TsType>, element: TsType, v: Json)
    ensures Inhabits(env, TsArray(element), v) <==>
            v.JArr? && forall i | 0 <= i < |v.items| :: Inhabits(env, element, v.items[i])
  {
    if Inhabits(env, TsArray(element), v) {
      var n: nat :| InhabitsWithin(n, env, TsArray(element), v);
      assert forall i | 0 <= i < |v.items| :: InhabitsWithin(n, env, element, v.items[i]);
    }
    if v.JArr? && forall i | 0 <= i < |v.items| :: Inhabits(env, element, v.items[i]) {
      var n := CommonBound(env, element, set x | x in v.items);
      assert InhabitsWithin(n, env, TsArray(element), v);
    }
  }

  predicate IsTypedArray(s: Schema) {
    s.typ == OneType(TArray) && !IsSpecial(s.rest) && s.rest.items.Some?
  }

  /** The schema of the element at a position. */
  function At(k: Keywords, i: nat): Schema
    requires k.items.Some?
  {
    if i < |Prefix(k)| then Prefix(k)[i] else k.items.value
  }

  ghost predicate Satisfiable(defs: map<string, Schema>, s: Schema) {
    exists v :: Possible(defs, s, v)
  }

  /** Some array has an element at the position. */
  ghost predicate Extends(defs: map<string, Schema>, k: Keywords, i: nat)
    requires k.items.Some?
  {
    forall j: nat | j < i :: Satisfiable(defs, At(k, j))
  }

  /** An array valid at every position before `i`. */
  lemma Before(defs: map<string, Schema>, k: Keywords, i: nat) returns (w: seq<Json>, n: nat)
    requires k.items.Some? && Extends(defs, k, i)
    ensures |w| == i && forall j: nat | j < i :: ValidWithin(n, defs, AnyVocabulary(), At(k, j), w[j])
  {
    if i == 0 {
      w, n := [], 0;
    } else {
      w, n := Before(defs, k, i - 1);
      w, n := Append(defs, k, w, n);
    }
  }

  lemma Append(defs: map<string, Schema>, k: Keywords, w: seq<Json>, n: nat) returns (w': seq<Json>, n': nat)
    requires k.items.Some? && Satisfiable(defs, At(k, |w|))
    requires forall j: nat | j < |w| :: ValidWithin(n, defs, AnyVocabulary(), At(k, j), w[j])
    ensures |w'| == |w| + 1 && forall j: nat | j < |w'| :: ValidWithin(n', defs, AnyVocabulary(), At(k, j), w'[j])
  {
    var v :| Possible(defs, At(k, |w|), v);
    w' := w + [v];
    n' := AppendBound(defs, k, w, n, v);
  }

  lemma AppendBound(defs: map<string, Schema>, k: Keywords, w: seq<Json>, n: nat, v: Json) returns (n': nat)
    requires k.items.Some? && Possible(defs, At(k, |w|), v)
    requires forall j: nat | j < |w| :: ValidWithin(n, defs, AnyVocabulary(), At(k, j), w[j])
    ensures forall j: nat | j < |w| + 1 :: ValidWithin(n', defs, AnyVocabulary(), At(k, j), (w + [v])[j])
  {
    var one: nat :| ValidWithin(one, defs, AnyVocabulary(), At(k, |w|), v);
    n' := if one > n then one else n;
    forall j: nat | j < |w| + 1 ensures ValidWithin(n', defs, AnyVocabulary(), At(k, j), (w + [v])[j]) {
      ValidMonotone(if j < |w| then n else one, n', defs, AnyVocabulary(), At(k, j), (w + [v])[j]);
    }
  }

  lemma ArrayAdmits(defs: map<string, Schema>, s: Schema, i: nat, v: Json) returns (list: Json)
    requires IsTypedArray(s) && Extends(defs, s.rest, i) && Possible(defs, At(s.rest, i), v)
    ensures Possible(defs, s, list) && list.JArr? && i < |list.items| && list.items[i] == v
  {
    var w, n := Before(defs, s.rest, i);
    var m := AppendBound(defs, s.rest, w, n, v);
    list := JArr(w + [v]);
    assert forall j: nat | j < |w| + 1 :: ValidWithin(m, defs, AnyVocabulary(), At(s.rest, j), list.items[j]);
    assert ValidWithin(m, defs, AnyVocabulary(), s, list);
  }

  lemma ArrayLimits(defs: map<string, Schema>, s: Schema, v: Json)
    requires IsTypedArray(s) && Possible(defs, s, v)
    ensures v.JArr? && forall j: nat | j < |v.items| :: Possible(defs, At(s.rest, j), v.items[j])
  {
    var n: nat :| ValidWithin(n, defs, AnyVocabulary(), s, v);
    forall j: nat | j < |v.items| ensures ValidWithin(n, defs, AnyVocabulary(), At(s.rest, j), v.items[j]) {
    }
  }

  /** At every position that some array reaches, what the schema of the position admits is of the type
      printed for `items`. All positions after the prefix are alike. */
  ghost predicate PrefixFits(defs: map<string, Schema>, k: Keywords)
    requires k.items.Some?
  {
    forall i: nat, v | i <= |Prefix(k)| && Extends(defs, k, i) && Possible(defs, At(k, i), v) ::
      Inhabits(Declarations(defs), Compile(k.items.value), v)
  }

  /** An array type is printed with `items` for every element. It is sound exactly when the values of each
      `prefixItems` position are of that type too, positions that no array reaches excepted. */
  lemma ArraySoundIff(defs: map<string, Schema>, s: Schema)
    requires IsTypedArray(s)
    ensures Sound(defs, s) <==> PrefixFits(defs, s.rest)
  {
    var env, k := Declarations(defs), s.rest;
    var element := Compile(k.items.value);
    assert Compile(s) == TsArray(element);
    SoundIffPossible(defs, s);
    if Sound(defs, s) {
      forall i: nat, v | i <= |Prefix(k)| && Extends(defs, k, i) && Possible(defs, At(k, i), v)
        ensures Inhabits(env, element, v)
      {
        var list := ArrayAdmits(defs, s, i, v);
        ArrayHoldsOf(env, element, list);
      }
    }
    if PrefixFits(defs, k) {
      forall v | Possible(defs, s, v) ensures Inhabits(env, Compile(s), v) {
        ArrayFits(defs, s, v);
        ArrayHoldsOf(env, element, v);
      }
    }
  }

  lemma ArrayFits(defs: map<string, Schema>, s: Schema, v: Json)
    requires IsTypedArray(s) && PrefixFits(defs, s.rest) && Possible(defs, s, v)
    ensures v.JArr? && forall i | 0 <= i < |v.items| ::
            Inhabits(Declarations(defs), Compile(s.rest.items.value), v.items[i])
  {
    var k := s.rest;
    ArrayLimits(defs, s, v);
    forall i: nat | i < |v.items| ensures Inhabits(Declarations(defs), Compile(k.items.value), v.items[i]) {
      var first := if i < |Prefix(k)| then i else |Prefix(k)|;
      assert At(k, first) == At(k, i);
      assert Extends(defs, k, first);
    }
  }

  /** The concrete case: a string in the first place, before numbers. */
  lemma PrefixItemsEscape()
    ensures var text := Schema(OneType(TString), NO_KEYWORDS);
            var number := Schema(OneType(TNumber), NO_KEYWORDS);
            var k := NO_KEYWORDS.(prefixItems := PrefixItems([text]), items := Some(number));
            !Sound(map[], Schema(OneType(TArray), k))
  {
    var text := Schema(OneType(TString), NO_KEYWORDS);
    var number := Schema(OneType(TNumber), NO_KEYWORDS);
    var k := NO_KEYWORDS.(prefixItems := PrefixItems([text]), items := Some(number));
    ArraySoundIff(map[], Schema(OneType(TArray), k));
    assert ValidWithin(0, map[], AnyVocabulary(), text, JStr("a"));
    assert At(k, 0) == text && Possible(map[], At(k, 0), JStr("a"));
    forall n: nat ensures !InhabitsWithin(n, Declarations(map[]), TsNumber, JStr("a")) {
    }
    assert Extends(map[], k, 0) && !Inhabits(Declarations(map[]), Compile(number), JStr("a"));
  }

  // ---------------------------------------------------------------------------------------------
  // Objects

  predicate IsStruct(s: Schema) {
    s.typ == OneType(TObject) && !IsSpecial(s.rest) && !IsRecord(s)
  }

  /** The value may stand under the name, whatever the patterns match. */
  ghost predicate FieldWithin(n: nat, defs: map<string, Schema>, k: Keywords, f: string, v: Json) {
    if f in PropertyFields(k) then ValidWithin(n, defs, AnyVocabulary(), PropertyFields(k)[f], v)
    else k.patterns == {} ==>
      && (k.additional.AdditionalFlag? ==> k.additional.allowed)
      && (k.additional.AdditionalSchema? ==> ValidWithin(n, defs, AnyVocabulary(), k.additional.schema, v))
  }

  ghost predicate FieldPossible(defs: map<string, Schema>, k: Keywords, f: string, v: Json) {
    exists n: nat :: FieldWithin(n, defs, k, f, v)
  }

  lemma FieldMonotone(n: nat, m: nat, defs: map<string, Schema>, k: Keywords, f: string, v: Json)
    requires n <= m && FieldWithin(n, defs, k, f, v)
    ensures FieldWithin(m, defs, k, f, v)
  {
    if f in PropertyFields(k) {
      ValidMonotone(n, m, defs, AnyVocabulary(), PropertyFields(k)[f], v);
    } else if k.patterns == {} && k.additional.AdditionalSchema? {
      ValidMonotone(n, m, defs, AnyVocabulary(), k.additional.schema, v);
    }
  }

  lemma ExemptIff(k: Keywords, f: string)
    ensures Exempt(AnyVocabulary(), k, f) <==> f in PropertyFields(k) || k.patterns != {}
  {
    if k.patterns != {} {
      var p :| p in k.patterns;
      assert AnyVocabulary().matches(p, f);
    }
  }

  lemma StructValidIff(n: nat, defs: map<string, Schema>, s: Schema, v: Json)
    requires IsStruct(s)
    ensures ValidWithin(n, defs, AnyVocabulary(), s, v) <==>
            && v.JObj? && Required(s.rest) <= v.fields.Keys
            && forall f | f in v.fields :: FieldWithin(n, defs, s.rest, f, v.fields[f])
  {
    if v.JObj? {
      forall f | f in v.fields
        ensures Exempt(AnyVocabulary(), s.rest, f) <==> f in PropertyFields(s.rest) || s.rest.patterns != {}
      {
        ExemptIff(s.rest, f);
      }
    }
  }

  /** An object with the given names, all possible. */
  lemma Fill(defs: map<string, Schema>, k: Keywords, names: set<string>) returns (m: map<string, Json>, n: nat)
    requires forall f | f in names :: exists v :: FieldPossible(defs, k, f, v)
    ensures m.Keys == names && forall f | f in m :: FieldWithin(n, defs, k, f, m[f])
  {
    if names == {} {
      m, n := map[], 0;
    } else {
      var f :| f in names;
      var rest, bound := Fill(defs, k, names - {f});
      var v :| FieldPossible(defs, k, f, v);
      m, n := FillOne(defs, k, rest, bound, f, v);
    }
  }

  lemma FillOne(defs: map<string, Schema>, k: Keywords, m: map<string, Json>, n: nat, f: string, v: Json)
    returns (m': map<string, Json>, n': nat)
    requires FieldPossible(defs, k, f, v) && forall g | g in m :: FieldWithin(n, defs, k, g, m[g])
    ensures m' == m[f := v] && forall g | g in m' :: FieldWithin(n', defs, k, g, m'[g])
  {
    var one: nat :| FieldWithin(one, defs, k, f, v);
    m', n' := m[f := v], if one > n then one else n;
    forall g | g in m' ensures FieldWithin(n', defs, k, g, m'[g]) {
      FieldMonotone(if g == f then one else n, n', defs, k, g, m'[g]);
    }
  }

  /** Some valid object has the field. */
  ghost predicate Occurs(defs: map<string, Schema>, k: Keywords, f: string) {
    forall g | g in Required(k) && g != f :: exists v :: FieldPossible(defs, k, g, v)
  }

  /** What each property admits, in objects that can have it, is of the type printed for it. */
  ghost predicate FieldsFit(defs: map<string, Schema>, k: Keywords) {
    forall f, v | f in PropertyFields(k) && Occurs(defs, k, f) && Possible(defs, PropertyFields(k)[f], v) ::
      Inhabits(Declarations(defs), Compile(PropertyFields(k)[f]), v)
  }

  lemma FieldIsPossible(defs: map<string, Schema>, k: Keywords, f: string, v: Json)
    requires f in PropertyFields(k)
    ensures FieldPossible(defs, k, f, v) <==> Possible(defs, PropertyFields(k)[f], v)
  {
    if Possible(defs, PropertyFields(k)[f], v) {
      var n: nat :| ValidWithin(n, defs, AnyVocabulary(), PropertyFields(k)[f], v);
      assert FieldWithin(n, defs, k, f, v);
    }
    if FieldPossible(defs, k, f, v) {
      var n: nat :| FieldWithin(n, defs, k, f, v);
      assert ValidWithin(n, defs, AnyVocabulary(), PropertyFields(k)[f], v);
    }
  }

  lemma StructAdmits(defs: map<string, Schema>, s: Schema, f: string, v: Json) returns (whole: Json)
    requires IsStruct(s) && Occurs(defs, s.rest, f) && FieldPossible(defs, s.rest, f, v)
    ensures Possible(defs, s, whole) && whole.JObj? && f in whole.fields && whole.fields[f] == v
  {
    var m, n := Fill(defs, s.rest, Required(s.rest) - {f});
    var m', n' := FillOne(defs, s.rest, m, n, f, v);
    whole := JObj(m');
    StructValidIff(n', defs, s, whole);
  }

  lemma FieldsBound(env: map<string, TsType>, fields: map<string, TsField>, m: map<string, Json>) returns (n: nat)
    requires forall f | f in fields && f in m :: Inhabits(env, fields[f].typ, m[f])
    ensures forall f | f in fields && f in m :: InhabitsWithin(n, env, fields[f].typ, m[f])
    decreases fields
  {
    if fields == map[] {
      n := 0;
    } else {
      var f :| f in fields;
      n := FieldsBound(env, fields - {f}, m);
      if f in m {
        var one: nat :| InhabitsWithin(one, env, fields[f].typ, m[f]);
        var others := n;
        n := if one > n then one else n;
        forall g | g in fields && g in m ensures InhabitsWithin(n, env, fields[g].typ, m[g]) {
          assert g != f ==> g in fields - {f} && (fields - {f})[g] == fields[g];
          InhabitsMonotone(if g == f then one else others, n, env, fields[g].typ, m[g]);
        }
      }
    }
  }

  lemma ObjectHoldsOf(env: map<string, TsType>, fields: map<string, TsField>, v: Json)
    ensures Inhabits(env, TsObject(fields), v) <==>
            && v.JObj?
            && forall f | f in fields ::
                 if f in v.fields then Inhabits(env, fields[f].typ, v.fields[f]) else fields[f].optional
  {
    if Inhabits(env, TsObject(fields), v) {
      var n: nat :| InhabitsWithin(n, env, TsObject(fields), v);
      assert forall f | f in fields && f in v.fields :: InhabitsWithin(n, env, fields[f].typ, v.fields[f]);
    }
    if v.JObj? && forall f | f in fields ::
         if f in v.fields then Inhabits(env, fields[f].typ, v.fields[f]) else fields[f].optional
    {
      var n := FieldsBound(env, fields, v.fields);
      assert InhabitsWithin(n, env, TsObject(fields), v);
    }
  }

  lemma StructElement(defs: map<string, Schema>, s: Schema, f: string, v: Json)
    requires IsStruct(s) && Sound(defs, s) && f in PropertyFields(s.rest) && Occurs(defs, s.rest, f)
    requires Possible(defs, PropertyFields(s.rest)[f], v)
    ensures Inhabits(Declarations(defs), Compile(PropertyFields(s.rest)[f]), v)
  {
    assert Compile(s) == TsObject(CompileFields(s.rest));
    FieldIsPossible(defs, s.rest, f, v);
    var whole := StructAdmits(defs, s, f, v);
    SoundIffPossible(defs, s);
    ObjectHoldsOf(Declarations(defs), CompileFields(s.rest), whole);
    assert f in CompileFields(s.rest);
  }

  lemma StructFits(defs: map<string, Schema>, s: Schema, v: Json)
    requires IsStruct(s) && FieldsFit(defs, s.rest) && Possible(defs, s, v)
    ensures Inhabits(Declarations(defs), Compile(s), v)
  {
    assert Compile(s) == TsObject(CompileFields(s.rest));
    var n: nat :| ValidWithin(n, defs, AnyVocabulary(), s, v);
    StructValidIff(n, defs, s, v);
    forall f | f in v.fields ensures FieldPossible(defs, s.rest, f, v.fields[f]) {
    }
    forall f | f in PropertyFields(s.rest) && f in v.fields
      ensures Inhabits(Declarations(defs), Compile(PropertyFields(s.rest)[f]), v.fields[f])
    {
      FieldIsPossible(defs, s.rest, f, v.fields[f]);
      assert Occurs(defs, s.rest, f);
    }
    ObjectHoldsOf(Declarations(defs), CompileFields(s.rest), v);
  }

  /** An object type is sound exactly when each property is, for the values it can have in some object. */
  lemma StructSoundIff(defs: map<string, Schema>, s: Schema)
    requires IsStruct(s)
    ensures Sound(defs, s) <==> FieldsFit(defs, s.rest)
  {
    SoundIffPossible(defs, s);
    if Sound(defs, s) {
      forall f, v | f in PropertyFields(s.rest) && Occurs(defs, s.rest, f)
                    && Possible(defs, PropertyFields(s.rest)[f], v)
        ensures Inhabits(Declarations(defs), Compile(PropertyFields(s.rest)[f]), v)
      {
        StructElement(defs, s, f, v);
      }
    } else if FieldsFit(defs, s.rest) {
      forall v | Possible(defs, s, v) ensures Inhabits(Declarations(defs), Compile(s), v) {
        StructFits(defs, s, v);
      }
    }
  }

  // ---------------------------------------------------------------------------------------------
  // Lists of types

  /** The same keywords under one of the types. */
  function Typed(s: Schema, t: TypeName): Schema {
    s.(typ := OneType(t))
  }

  predicate IsGuardedList(s: Schema) {
    !IsSpecial(s.rest) && s.typ.ManyTypes? && PropertiesGuard(s)
  }

  lemma CompiledKind(s: Schema, t: TypeName)
    requires IsGuardedList(s) && t in s.typ.names && t != TNull
    ensures var c := Compile(Typed(s, t));
            match t
            case TArray => c.TsArray?
            case TObject => c.TsObject? || c.TsRecord?
            case _ => c == TsString || c == TsNumber || c == TsBoolean
  {
  }

  /** Only the option of the type array holds of arrays, only that of the type object of objects. */
  lemma OptionKind(n: nat, env: map<string, TsType>, s: Schema, i: nat, v: Json)
    requires IsGuardedList(s) && i < |s.typ.names| && InhabitsWithin(n, env, Compile(s).options[i], v)
    ensures (v.JArr? ==> s.typ.names[i] == TArray) && (v.JObj? ==> s.typ.names[i] == TObject)
    ensures s.typ.names[i] != TNull ==> InhabitsWithin(n, env, Compile(Typed(s, s.typ.names[i])), v)
  {
    if s.typ.names[i] != TNull {
      CompiledKind(s, s.typ.names[i]);
    }
  }

  lemma ScalarInhabits(env: map<string, TsType>, s: Schema, t: TypeName, v: Json)
    requires IsGuardedList(s) && t in s.typ.names && t != TNull && HasType(v, t) && !v.JArr? && !v.JObj?
    ensures Inhabits(env, Compile(Typed(s, t)), v)
  {
    assert s.rest.properties.NoProperties?;
    assert InhabitsWithin(0, env, Compile(Typed(s, t)), v);
  }

  lemma TypedIsPossible(defs: map<string, Schema>, s: Schema, t: TypeName, v: Json)
    requires s.typ.ManyTypes? && t in s.typ.names
    ensures Possible(defs, Typed(s, t), v) <==> Possible(defs, s, v) && HasType(v, t)
  {
    forall n: nat
      ensures ValidWithin(n, defs, AnyVocabulary(), Typed(s, t), v) <==>
              ValidWithin(n, defs, AnyVocabulary(), s, v) && HasType(v, t)
    {
    }
  }

  lemma OfOneType(defs: map<string, Schema>, s: Schema, v: Json) returns (t: TypeName)
    requires s.typ.ManyTypes? && Possible(defs, s, v)
    ensures t in s.typ.names && HasType(v, t)
  {
    var n: nat :| ValidWithin(n, defs, AnyVocabulary(), s, v);
    t :| t in s.typ.names && HasType(v, t);
  }

  lemma ListSoundIf(defs: map<string, Schema>, s: Schema)
    requires IsGuardedList(s) && forall t | t in s.typ.names && t != TNull :: Sound(defs, Typed(s, t))
    ensures Sound(defs, s)
  {
    var env := Declarations(defs);
    SoundIffPossible(defs, s);
    forall v | Possible(defs, s, v) ensures Inhabits(env, Compile(s), v) {
      var t := OfOneType(defs, s, v);
      var i: nat :| i < |s.typ.names| && s.typ.names[i] == t;
      if t == TNull {
        assert InhabitsWithin(0, env, Compile(s).options[i], v);
        assert InhabitsWithin(0, env, Compile(s), v);
      } else {
        TypedIsPossible(defs, s, t, v);
        SoundIffPossible(defs, Typed(s, t));
        var n: nat :| InhabitsWithin(n, env, Compile(Typed(s, t)), v);
        assert InhabitsWithin(n, env, Compile(s).options[i], v);
        assert InhabitsWithin(n, env, Compile(s), v);
      }
    }
  }

  lemma ListSoundOnlyIf(defs: map<string, Schema>, s: Schema, t: TypeName)
    requires IsGuardedList(s) && t in s.typ.names && t != TNull && Sound(defs, s)
    ensures Sound(defs, Typed(s, t))
  {
    var env := Declarations(defs);
    SoundIffPossible(defs, s);
    SoundIffPossible(defs, Typed(s, t));
    forall v | Possible(defs, Typed(s, t), v) ensures Inhabits(env, Compile(Typed(s, t)), v) {
      TypedIsPossible(defs, s, t, v);
      if v.JArr? || v.JObj? {
        var n: nat :| InhabitsWithin(n, env, Compile(s), v);
        var i: nat :| i < |s.typ.names| && InhabitsWithin(n, env, Compile(s).options[i], v);
        OptionKind(n, env, s, i, v);
      } else {
        ScalarInhabits(env, s, t, v);
      }
    }
  }

  /** A list of types is sound exactly when each of its types is; null is always printed soundly. */
  lemma ListSoundIff(defs: map<string, Schema>, s: Schema)
    requires IsGuardedList(s)
    ensures Sound(defs, s) <==> forall t | t in s.typ.names && t != TNull :: Sound(defs, Typed(s, t))
  {
    if Sound(defs, s) {
      forall t | t in s.typ.names && t != TNull ensures Sound(defs, Typed(s, t)) {
        ListSoundOnlyIf(defs, s, t);
      }
    } else if forall t | t in s.typ.names && t != TNull :: Sound(defs, Typed(s, t)) {
      ListSoundIf(defs, s);
    }
  }

  // ---------------------------------------------------------------------------------------------
  // Constants

  /** The values whose types the compiler prints, for `const` or else `enum`. */
  function PrintedValues(k: Keywords): Option<seq<Json>> {
    if k.reference.Some? then None
    else if k.constant.Some? then Some([k.constant.value])
    else k.enumeration
  }

  lemma LiteralsHold(n: nat, env: map<string, TsType>, values: seq<Json>, v: Json)
    ensures InhabitsWithin(n, env, TsUnion(TsLiterals(values)), v) <==> UnionHolds(values, v)
  {
    var options := TsLiterals(values);
    if UnionHolds(values, v) {
      var y :| y in values && LiteralHolds(y, v);
      var i :| 0 <= i < |values| && values[i] == y;
      assert InhabitsWithin(n, env, options[i], v);
    }
    if InhabitsWithin(n, env, TsUnion(options), v) {
      var i :| 0 <= i < |options| && InhabitsWithin(n, env, options[i], v);
      assert values[i] in values;
    }
  }

  lemma PrintedHolds(n: nat, env: map<string, TsType>, s: Schema, v: Json)
    requires PrintedValues(s.rest).Some?
    ensures InhabitsWithin(n, env, Compile(s), v) <==> UnionHolds(PrintedValues(s.rest).value, v)
  {
    var values := PrintedValues(s.rest).value;
    if s.rest.constant.Some? {
      assert values[0] in values && Compile(s) == TsLiteral(values[0]);
    } else {
      assert Compile(s) == TsUnion(TsLiterals(values));
      LiteralsHold(n, env, values, v);
    }
  }

  lemma PrintedInhabits(env: map<string, TsType>, s: Schema, v: Json)
    requires PrintedValues(s.rest).Some?
    ensures Inhabits(env, Compile(s), v) <==> UnionHolds(PrintedValues(s.rest).value, v)
  {
    PrintedHolds(0, env, s, v);
    if Inhabits(env, Compile(s), v) {
      var n: nat :| InhabitsWithin(n, env, Compile(s), v);
      PrintedHolds(n, env, s, v);
    }
  }

  lemma PrintedLimits(defs: map<string, Schema>, o: Vocabulary, s: Schema, v: Json)
    requires PrintedValues(s.rest).Some? && Valid(defs, o, s, v)
    ensures v in PrintedValues(s.rest).value
  {
    var n: nat :| ValidWithin(n, defs, o, s, v);
  }

  /** Each listed value that some reading of the other keywords admits is of a type printed for the list. */
  ghost predicate ValuesFit(defs: map<string, Schema>, s: Schema)
    requires PrintedValues(s.rest).Some?
  {
    var values := PrintedValues(s.rest).value;
    forall x | x in values && Possible(defs, s, x) :: UnionHolds(values, x)
  }

  /** `const` and `enum`, beside any other keywords but `$ref`. */
  lemma ValuesSoundIff(defs: map<string, Schema>, s: Schema)
    requires PrintedValues(s.rest).Some?
    ensures Sound(defs, s) <==> ValuesFit(defs, s)
  {
    var values := PrintedValues(s.rest).value;
    SoundIffPossible(defs, s);
    forall v ensures Inhabits(Declarations(defs), Compile(s), v) <==> UnionHolds(values, v) {
      PrintedInhabits(Declarations(defs), s, v);
    }
    forall v | Possible(defs, s, v) ensures v in values {
      PrintedLimits(defs, AnyVocabulary(), s, v);
    }
  }

  predicate IsConstant(s: Schema, c: Json) {
    s.rest.reference.None? && s.rest.constant == Some(c)
  }

  /** The type printed for a constant is sound exactly when nothing inside is printed as something else, or
      the other keywords exclude the constant. */
  lemma ConstantSoundIffPrintable(defs: map<string, Schema>, s: Schema, c: Json)
    requires IsConstant(s, c)
    ensures Sound(defs, s) <==> (Possible(defs, s, c) ==> PrintsAsTypeScript(c))
  {
    ValuesSoundIff(defs, s);
    HoldsOfItself(c);
    assert PrintedValues(s.rest).value == [c] && c in [c];
    assert UnionHolds([c], c) <==> LiteralHolds(c, c);
  }

  /** `const` and `enum` beside `type`, annotations and keywords that are not compiled. */
  predicate IsPlain(s: Schema) {
    && PrintedValues(s.rest).Some?
    && s.rest == Annotated(s.rest).(constant := s.rest.constant, enumeration := s.rest.enumeration,
                                    assertions := s.rest.assertions)
  }

  predicate Allowed(s: Schema, x: Json) {
    && TypeAllows(s.typ, x)
    && (s.rest.constant.Some? ==> x == s.rest.constant.value)
    && (s.rest.enumeration.Some? ==> x in s.rest.enumeration.value)
  }

  lemma PlainMeans(defs: map<string, Schema>, o: Vocabulary, s: Schema, x: Json)
    requires IsPlain(s)
    ensures Possible(defs, s, x) <==> Allowed(s, x)
    ensures s.rest.assertions == map[] ==> (Valid(defs, o, s, x) <==> Allowed(s, x))
  {
    forall n: nat ensures ValidWithin(n, defs, AnyVocabulary(), s, x) <==> Allowed(s, x) {
    }
    assert Allowed(s, x) ==> ValidWithin(0, defs, AnyVocabulary(), s, x);
    if s.rest.assertions == map[] {
      forall n: nat ensures ValidWithin(n, defs, o, s, x) <==> Allowed(s, x) {
      }
      assert Allowed(s, x) ==> ValidWithin(0, defs, o, s, x);
    }
  }

  /** There the condition is one on the listed values alone. */
  lemma PlainValuesSoundIff(defs: map<string, Schema>, s: Schema)
    requires IsPlain(s)
    ensures var values := PrintedValues(s.rest).value;
            Sound(defs, s) <==> forall x | x in values && Allowed(s, x) :: UnionHolds(values, x)
  {
    ValuesSoundIff(defs, s);
    forall x ensures Possible(defs, s, x) <==> Allowed(s, x) {
      PlainMeans(defs, AnyVocabulary(), s, x);
    }
  }

  /** Valid values and inhabitants are the same. */
  ghost predicate Exact(defs: map<string, Schema>, s: Schema) {
    forall o, v :: Valid(defs, o, s, v) <==> Inhabits(Declarations(defs), Compile(s), v)
  }

  /** A constant's type is exact exactly when, besides, no object at any depth leaves room for further
      fields and no keyword excludes the constant; or when nothing is valid and the type is empty. */
  lemma ConstantExactIff(defs: map<string, Schema>, s: Schema, c: Json)
    requires IsConstant(s, c)
    ensures Exact(defs, s) <==>
            || (IsExactLiteral(c) && forall o :: Valid(defs, o, s, c))
            || (!Possible(defs, s, c) && forall v :: !LiteralHolds(c, v))
  {
    ExactIff(c);
    forall v ensures Inhabits(Declarations(defs), Compile(s), v) <==> LiteralHolds(c, v) {
      PrintedInhabits(Declarations(defs), s, v);
      assert c in [c];
    }
    forall o, v | Valid(defs, o, s, v) ensures v == c && Possible(defs, s, c) {
      PrintedLimits(defs, o, s, v);
      ValidIsPossible(defs, o, s, v);
    }
    if Exact(defs, s) {
      assert Valid(defs, AnyVocabulary(), s, c) <==> Possible(defs, s, c);
      forall v ensures LiteralHolds(c, v) <==> v == c && Possible(defs, s, c) {
        assert Valid(defs, AnyVocabulary(), s, v) <==> Inhabits(Declarations(defs), Compile(s), v);
      }
    }
  }

  /** Constants and enumerations beside a type that allows every value listed are exact exactly when each
      value prints and holds no object. */
  lemma PlainValuesExactIff(defs: map<string, Schema>, s: Schema)
    requires IsPlain(s) && s.rest.assertions == map[]
    requires forall x | x in PrintedValues(s.rest).value :: Allowed(s, x)
    ensures Exact(defs, s) <==> forall x | x in PrintedValues(s.rest).value :: IsExactLiteral(x)
  {
    var values := PrintedValues(s.rest).value;
    UnionExactIff(values);
    forall o, v
      ensures Valid(defs, o, s, v) <==> v in values
      ensures Inhabits(Declarations(defs), Compile(s), v) <==> UnionHolds(values, v)
    {
      PlainMeans(defs, o, s, v);
      PrintedInhabits(Declarations(defs), s, v);
    }
    if Exact(defs, s) {
      forall v ensures UnionHolds(values, v) <==> v in values {
        assert Valid(defs, AnyVocabulary(), s, v) <==> Inhabits(Declarations(defs), Compile(s), v);
      }
    }
  }

  /** The concrete case: `{"const": {"a": 1}}` is printed as an object type, which admits more. */
  lemma ObjectConstantEscapes()
    ensures var s := Schema(NoType, NO_KEYWORDS.(constant := Some(JObj(map["a" := JNum(1.0)]))));
            var v := JObj(map["a" := JNum(1.0), "b" := JNum(2.0)]);
            !Possible(map[], s, v) && Inhabits(map[], Compile(s), v)
  {
    var c := JObj(map["a" := JNum(1.0)]);
    var v := JObj(map["a" := JNum(1.0), "b" := JNum(2.0)]);
    assert "b" in v.fields && "b" !in c.fields;
    assert AsRead("a") == "a" by {
      AsReadLength("a");
    }
    assert NestedHolds(c, v);
    assert InhabitsWithin(0, map[], TsLiteral(c), v);
  }

  // ---------------------------------------------------------------------------------------------
  // Interfaces

  /** Every valid value inhabits the declaration of the definition. */
  ghost predicate DeclaredSound(defs: map<string, Schema>, s: Schema) {
    forall o, v :: Valid(defs, o, s, v) ==> Inhabits(Declarations(defs), Declare(s), v)
  }

  /** A value of the type that is no object. */
  function NonObject(t: TypeName): Json {
    if t == TArray then JArr([]) else Scalar(t)
  }

  /** An interface is emitted for `properties` beside any type. It is sound exactly when the type admits
      nothing but objects: `["object", "null"]` lets null escape. */
  lemma InterfaceSoundIff(defs: map<string, Schema>, s: Schema)
    requires !IsAlias(s) && !IsSpecial(s.rest)
    requires OnlyObjects(s.typ) ==> AllDeclarable(defs) && FieldsCompilable(s, defs.Keys)
    ensures DeclaredSound(defs, s) <==> OnlyObjects(s.typ)
  {
    if OnlyObjects(s.typ) {
      forall o, v | Valid(defs, o, s, v) ensures Inhabits(Declarations(defs), Declare(s), v) {
        var n: nat :| ValidWithin(n, defs, o, s, v);
        DeclareSound(n, defs, o, s, v);
      }
    } else {
      var t := match s.typ
        case NoType => TNull
        case OneType(t) => t
        case ManyTypes(ts) => (var t :| t in ts && t != TObject; t);
      var v := NonObject(t);
      assert TypeAllows(s.typ, v);
      assert ValidWithin(0, defs, AnyVocabulary(), s, v);
      assert Valid(defs, AnyVocabulary(), s, v);
      assert Declare(s) == TsObject(CompileFields(s.rest));
      assert !v.JObj?;
      forall n: nat ensures !InhabitsWithin(n, Declarations(defs), TsObject(CompileFields(s.rest)), v) {
      }
      assert !Inhabits(Declarations(defs), Declare(s), v);
    }
  }
}
