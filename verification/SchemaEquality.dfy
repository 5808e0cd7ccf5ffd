/** Python's `==` between two schema dictionaries, by which tools/export_contracts.py tells definitions apart. */
module SchemaEquality {
  import opened Wrappers
  import opened JsonValues
  import opened Contracts

  /** Schemas that Python's `==` cannot tell apart have the same representative. */
  function CanonSchema(s: Schema): Schema {
    Schema(s.typ, CanonKeywords(s.rest))
  }

  function CanonKeywords(k: Keywords): Keywords {
    k.(constant := if k.constant.Some? then Some(Canon(k.constant.value)) else None,
       enumeration := if k.enumeration.Some? then Some(CanonAll(k.enumeration.value)) else None,
       anyOf := match k.anyOf
         case NoAnyOf => NoAnyOf
         case AnyOf(ss) => AnyOf(seq(|ss|, i requires 0 <= i < |ss| => CanonSchema(ss[i]))),
       items := if k.items.Some? then Some(CanonSchema(k.items.value)) else None,
       prefixItems := match k.prefixItems
         case NoPrefixItems => NoPrefixItems
         case PrefixItems(ss) => PrefixItems(seq(|ss|, i requires 0 <= i < |ss| => CanonSchema(ss[i]))),
       properties := match k.properties
         case NoProperties => NoProperties
         case Properties(m) => Properties(map f | f in m :: CanonSchema(m[f])),
       additional := match k.additional
         case AdditionalSchema(a) => AdditionalSchema(CanonSchema(a))
         case other => other,
       assertions := CanonEntries(k.assertions),
       annotations := CanonEntries(k.annotations))
  }

  function CanonEntries(m: map<string, Json>): map<string, Json> {
    map f | f in m :: Canon(m[f])
  }

  // ---------------------------------------------------------------------------------------------
  // What the representative identifies

  /** Keyword by keyword: subschemas recursively, JSON values as Python compares them, all else exactly. */
  predicate SameSchema(s: Schema, t: Schema)
    decreases s, 1
  {
    s.typ == t.typ && SameKeywords(s.rest, t.rest)
  }

  predicate SameKeywords(k: Keywords, m: Keywords)
    decreases k, 2
  {
    && k.reference == m.reference && k.required == m.required && k.patterns == m.patterns
    && SameOption(k.constant, m.constant) && SameLists(k.enumeration, m.enumeration)
    && SameEntries(k.assertions, m.assertions) && SameEntries(k.annotations, m.annotations)
    && SameAnyOf(k, m) && SameItems(k, m) && SamePrefix(k, m) && SameProperties(k, m) && SameAdditional(k, m)
  }

  predicate SameOption(a: Option<Json>, b: Option<Json>) {
    a.Some? == b.Some? && (a.Some? ==> SameValue(a.value, b.value))
  }

  predicate SameLists(a: Option<seq<Json>>, b: Option<seq<Json>>) {
    && a.Some? == b.Some?
    && (a.Some? ==> |a.value| == |b.value| && forall i | 0 <= i < |a.value| :: SameValue(a.value[i], b.value[i]))
  }

  predicate SameEntries(a: map<string, Json>, b: map<string, Json>) {
    a.Keys == b.Keys && forall f | f in a :: SameValue(a[f], b[f])
  }

  predicate SameAnyOf(k: Keywords, m: Keywords)
    decreases k, 1
  {
    match k.anyOf
    case NoAnyOf => m.anyOf.NoAnyOf?
    case AnyOf(ss) =>
      && m.anyOf.AnyOf? && |ss| == |m.anyOf.options|
      && forall i | 0 <= i < |ss| :: SameSchema(ss[i], m.anyOf.options[i])
  }

  predicate SameItems(k: Keywords, m: Keywords)
    decreases k, 1
  {
    k.items.Some? == m.items.Some? && (k.items.Some? ==> SameSchema(k.items.value, m.items.value))
  }

  predicate SamePrefix(k: Keywords, m: Keywords)
    decreases k, 1
  {
    match k.prefixItems
    case NoPrefixItems => m.prefixItems.NoPrefixItems?
    case PrefixItems(ss) =>
      && m.prefixItems.PrefixItems? && |ss| == |m.prefixItems.schemas|
      && forall i | 0 <= i < |ss| :: SameSchema(ss[i], m.prefixItems.schemas[i])
  }

  predicate SameProperties(k: Keywords, m: Keywords)
    decreases k, 1
  {
    match k.properties
    case NoProperties => m.properties.NoProperties?
    case Properties(fields) =>
      && m.properties.Properties? && fields.Keys == m.properties.fields.Keys
      && forall f | f in fields :: SameSchema(fields[f], m.properties.fields[f])
  }

  predicate SameAdditional(k: Keywords, m: Keywords)
    decreases k, 1
  {
    match k.additional
    case AdditionalSchema(a) => m.additional.AdditionalSchema? && SameSchema(a, m.additional.schema)
    case other => m.additional == other
  }

  lemma EntriesIff(a: map<string, Json>, b: map<string, Json>)
    ensures CanonEntries(a) == CanonEntries(b) <==> SameEntries(a, b)
  {
    var x, y := CanonEntries(a), CanonEntries(b);
    assert x.Keys == a.Keys && y.Keys == b.Keys;
    if a.Keys == b.Keys {
      forall f | f in a ensures x[f] == y[f] <==> SameValue(a[f], b[f]) {
        PyEqIff(a[f], b[f]);
      }
    }
  }

  lemma ListsIff(a: seq<Json>, b: seq<Json>)
    ensures CanonAll(a) == CanonAll(b) <==> SameLists(Some(a), Some(b))
  {
    if |a| == |b| {
      forall i | 0 <= i < |a| ensures CanonAll(a)[i] == CanonAll(b)[i] <==> SameValue(a[i], b[i]) {
        PyEqIff(a[i], b[i]);
      }
    }
  }

  lemma OptionIff(k: Keywords, m: Keywords)
    ensures CanonKeywords(k).constant == CanonKeywords(m).constant <==> SameOption(k.constant, m.constant)
  {
    if k.constant.Some? && m.constant.Some? {
      PyEqIff(k.constant.value, m.constant.value);
    }
  }

  lemma EnumerationIff(k: Keywords, m: Keywords)
    ensures CanonKeywords(k).enumeration == CanonKeywords(m).enumeration <==> SameLists(k.enumeration, m.enumeration)
  {
    if k.enumeration.Some? && m.enumeration.Some? {
      ListsIff(k.enumeration.value, m.enumeration.value);
    }
  }

  lemma CanonOfEntries(k: Keywords)
    ensures CanonKeywords(k).assertions == CanonEntries(k.assertions)
    ensures CanonKeywords(k).annotations == CanonEntries(k.annotations)
  {
  }

  function CanonSchemas(ss: seq<Schema>): (r: seq<Schema>)
    ensures |r| == |ss| && forall i | 0 <= i < |r| :: r[i] == CanonSchema(ss[i])
  {
    seq(|ss|, i requires 0 <= i < |ss| => CanonSchema(ss[i]))
  }

  predicate SameSchemas(ss: seq<Schema>, ts: seq<Schema>) {
    |ss| == |ts| && forall i | 0 <= i < |ss| :: SameSchema(ss[i], ts[i])
  }

  lemma SchemasIff(ss: seq<Schema>, ts: seq<Schema>)
    requires |ss| == |ts| ==>
               forall i | 0 <= i < |ss| :: CanonSchema(ss[i]) == CanonSchema(ts[i]) <==> SameSchema(ss[i], ts[i])
    ensures CanonSchemas(ss) == CanonSchemas(ts) <==> SameSchemas(ss, ts)
  {
    var cs, ds := CanonSchemas(ss), CanonSchemas(ts);
    if cs == ds {
      assert |ss| == |ts|;
      forall i | 0 <= i < |ss| ensures SameSchema(ss[i], ts[i]) {
        assert cs[i] == ds[i];
      }
    }
  }

  lemma {:induction false} AnyOfIff(k: Keywords, m: Keywords)
    ensures CanonKeywords(k).anyOf == CanonKeywords(m).anyOf <==> SameAnyOf(k, m)
    decreases k, 1
  {
    if k.anyOf.AnyOf? && m.anyOf.AnyOf? {
      var ss, ts := k.anyOf.options, m.anyOf.options;
      if |ss| == |ts| {
        forall i | 0 <= i < |ss| ensures CanonSchema(ss[i]) == CanonSchema(ts[i]) <==> SameSchema(ss[i], ts[i]) {
          CanonIff(ss[i], ts[i]);
        }
      }
      SchemasIff(ss, ts);
      assert CanonKeywords(k).anyOf == AnyOf(CanonSchemas(ss)) && CanonKeywords(m).anyOf == AnyOf(CanonSchemas(ts));
    }
  }

  lemma {:induction false} PrefixIff(k: Keywords, m: Keywords)
    ensures CanonKeywords(k).prefixItems == CanonKeywords(m).prefixItems <==> SamePrefix(k, m)
    decreases k, 1
  {
    if k.prefixItems.PrefixItems? && m.prefixItems.PrefixItems? {
      var ss, ts := k.prefixItems.schemas, m.prefixItems.schemas;
      if |ss| == |ts| {
        forall i | 0 <= i < |ss| ensures CanonSchema(ss[i]) == CanonSchema(ts[i]) <==> SameSchema(ss[i], ts[i]) {
          CanonIff(ss[i], ts[i]);
        }
      }
      SchemasIff(ss, ts);
      assert CanonKeywords(k).prefixItems == PrefixItems(CanonSchemas(ss));
      assert CanonKeywords(m).prefixItems == PrefixItems(CanonSchemas(ts));
    }
  }

  lemma {:induction false} PropertiesIff(k: Keywords, m: Keywords)
    ensures CanonKeywords(k).properties == CanonKeywords(m).properties <==> SameProperties(k, m)
    decreases k, 1
  {
    if k.properties.Properties? && m.properties.Properties? {
      var fs, gs := k.properties.fields, m.properties.fields;
      var cs, ds := CanonKeywords(k).properties.fields, CanonKeywords(m).properties.fields;
      assert cs.Keys == fs.Keys && ds.Keys == gs.Keys;
      if fs.Keys == gs.Keys {
        forall f | f in fs ensures cs[f] == ds[f] <==> SameSchema(fs[f], gs[f]) {
          CanonIff(fs[f], gs[f]);
        }
      }
    }
  }

  lemma {:induction false} SubschemaIff(k: Keywords, m: Keywords)
    ensures CanonKeywords(k).items == CanonKeywords(m).items <==> SameItems(k, m)
    ensures CanonKeywords(k).additional == CanonKeywords(m).additional <==> SameAdditional(k, m)
    decreases k, 1
  {
    if k.items.Some? && m.items.Some? {
      CanonIff(k.items.value, m.items.value);
    }
    if k.additional.AdditionalSchema? && m.additional.AdditionalSchema? {
      CanonIff(k.additional.schema, m.additional.schema);
    }
  }

  /** Two schemas have one representative exactly when Python cannot tell them apart. */
  lemma {:induction false} CanonIff(s: Schema, t: Schema)
    ensures CanonSchema(s) == CanonSchema(t) <==> SameSchema(s, t)
    decreases s, 1
  {
    var k, m := s.rest, t.rest;
    OptionIff(k, m);
    EnumerationIff(k, m);
    CanonOfEntries(k);
    CanonOfEntries(m);
    EntriesIff(k.assertions, m.assertions);
    EntriesIff(k.annotations, m.annotations);
    AnyOfIff(k, m);
    PrefixIff(k, m);
    PropertiesIff(k, m);
    SubschemaIff(k, m);
  }

  // ---------------------------------------------------------------------------------------------
  // Schemas without booleans

  predicate NoBooleans(values: map<string, Json>) {
    forall f | f in values :: !HasBoolean(values[f])
  }

  /** No boolean occurs in a JSON value inside the schema; flags such as `additionalProperties` may. */
  predicate BooleanFree(s: Schema) {
    var k := s.rest;
    && (k.constant.Some? ==> !HasBoolean(k.constant.value))
    && (k.enumeration.Some? ==> forall x | x in k.enumeration.value :: !HasBoolean(x))
    && NoBooleans(k.assertions) && NoBooleans(k.annotations)
    && (k.anyOf.AnyOf? ==> forall i | 0 <= i < |k.anyOf.options| :: BooleanFree(k.anyOf.options[i]))
    && (k.items.Some? ==> BooleanFree(k.items.value))
    && (k.prefixItems.PrefixItems? ==>
          forall i | 0 <= i < |k.prefixItems.schemas| :: BooleanFree(k.prefixItems.schemas[i]))
    && (k.properties.Properties? ==> forall f | f in k.properties.fields :: BooleanFree(k.properties.fields[f]))
    && (k.additional.AdditionalSchema? ==> BooleanFree(k.additional.schema))
  }

  lemma EntriesAreEqual(a: map<string, Json>, b: map<string, Json>)
    requires SameEntries(a, b) && NoBooleans(a) && NoBooleans(b)
    ensures a == b
  {
    forall f | f in a ensures a[f] == b[f] {
      SameIsEqual(a[f], b[f]);
    }
  }

  lemma ListsAreEqual(a: seq<Json>, b: seq<Json>)
    requires SameLists(Some(a), Some(b)) && forall x | x in a + b :: !HasBoolean(x)
    ensures a == b
  {
    forall i | 0 <= i < |a| ensures a[i] == b[i] {
      assert a[i] in a + b && b[i] in a + b;
      SameIsEqual(a[i], b[i]);
    }
  }

  lemma ValuesAreEqual(k: Keywords, m: Keywords)
    requires SameKeywords(k, m) && BooleanFree(Schema(NoType, k)) && BooleanFree(Schema(NoType, m))
    ensures k.constant == m.constant && k.enumeration == m.enumeration
    ensures k.assertions == m.assertions && k.annotations == m.annotations
  {
    if k.constant.Some? {
      SameIsEqual(k.constant.value, m.constant.value);
    }
    if k.enumeration.Some? {
      ListsAreEqual(k.enumeration.value, m.enumeration.value);
    }
    EntriesAreEqual(k.assertions, m.assertions);
    EntriesAreEqual(k.annotations, m.annotations);
  }

  /** There Python's equality is identity. */
  lemma {:induction false} SameSchemaIsEqual(s: Schema, t: Schema)
    requires SameSchema(s, t) && BooleanFree(s) && BooleanFree(t)
    ensures s == t
    decreases s
  {
    var k, m := s.rest, t.rest;
    ValuesAreEqual(k, m);
    assert SameAnyOf(k, m) && SameItems(k, m) && SamePrefix(k, m) && SameProperties(k, m) && SameAdditional(k, m);
    if k.anyOf.AnyOf? {
      forall i | 0 <= i < |k.anyOf.options| ensures k.anyOf.options[i] == m.anyOf.options[i] {
        SameSchemaIsEqual(k.anyOf.options[i], m.anyOf.options[i]);
      }
    }
    if k.items.Some? {
      SameSchemaIsEqual(k.items.value, m.items.value);
    }
    if k.prefixItems.PrefixItems? {
      forall i | 0 <= i < |k.prefixItems.schemas| ensures k.prefixItems.schemas[i] == m.prefixItems.schemas[i] {
        SameSchemaIsEqual(k.prefixItems.schemas[i], m.prefixItems.schemas[i]);
      }
    }
    if k.properties.Properties? {
      forall f | f in k.properties.fields ensures k.properties.fields[f] == m.properties.fields[f] {
        SameSchemaIsEqual(k.properties.fields[f], m.properties.fields[f]);
      }
    }
    if k.additional.AdditionalSchema? {
      SameSchemaIsEqual(k.additional.schema, m.additional.schema);
    }
  }
}
