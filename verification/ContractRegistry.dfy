/** One TypeScript namespace for all registered contracts: the merging loop of tools/export_contracts.py,
    and the soundness of the whole export. */
module ContractRegistry {
  import opened Wrappers
  import opened JsonValues
  import opened Literals
  import opened Contracts
  import opened ContractLimits
  import opened SchemaEquality

  datatype Registration = Registration(title: string, root: Schema, defs: map<string, Schema>)

  /** `definitions.get(name)` is absent or equal, by Python's `==`, to the schema. */
  predicate Agrees(definitions: map<string, Schema>, name: string, s: Schema) {
    name in definitions ==> CanonSchema(definitions[name]) == CanonSchema(s)
  }

  /** The dictionary after the registrations: later bindings replace earlier ones. */
  function Merge(registry: seq<Registration>): map<string, Schema> {
    if registry == [] then map[] else
      var last := registry[|registry| - 1];
      Merge(registry[..|registry| - 1]) + last.defs + map[last.title := last.root]
  }

  /** One registration raises no `ValueError` against the dictionary so far. */
  ghost predicate StepAccepted(before: map<string, Schema>, r: Registration) {
    && (forall name | name in r.defs :: Agrees(before, name, r.defs[name]))
    && Agrees(before + r.defs, r.title, r.root)
  }

  ghost predicate Accepted(registry: seq<Registration>) {
    registry != [] ==>
      && Accepted(registry[..|registry| - 1])
      && StepAccepted(Merge(registry[..|registry| - 1]), registry[|registry| - 1])
  }

  lemma {:induction false} AcceptedPrefix(registry: seq<Registration>, i: nat)
    requires i <= |registry| && Accepted(registry)
    ensures Accepted(registry[..i])
  {
    if i == |registry| {
      assert registry[..i] == registry;
    } else {
      AcceptedPrefix(registry[..|registry| - 1], i);
      assert registry[..|registry| - 1][..i] == registry[..i];
    }
  }

  /** The body of the merging loop of `main`: `$defs` first, then the root. */
  method AddRegistration(before: map<string, Schema>, registration: Registration)
    returns (r: Result<map<string, Schema>, string>)
    ensures r.Success? <==> StepAccepted(before, registration)
    ensures r.Success? ==> r.value == before + registration.defs + map[registration.title := registration.root]
  {
    var definitions := before;
    var pending := registration.defs.Keys;
    while pending != {}
      invariant pending <= registration.defs.Keys
      invariant definitions == before + (registration.defs - pending)
      invariant forall name | name in registration.defs && name !in pending ::
          Agrees(before, name, registration.defs[name])
    {
      var name :| name in pending;
      if !Agrees(definitions, name, registration.defs[name]) {
        return Failure(name);
      }
      definitions := definitions[name := registration.defs[name]];
      pending := pending - {name};
    }
    assert definitions == before + registration.defs;
    if !Agrees(definitions, registration.title, registration.root) {
      return Failure(registration.title);
    }
    definitions := definitions[registration.title := registration.root];
    return Success(definitions);
  }

  /** The merging loop of `main`. */
  method CollectDefinitions(registry: seq<Registration>) returns (r: Result<map<string, Schema>, string>)
    ensures r.Success? <==> Accepted(registry)
    ensures r.Success? ==> r.value == Merge(registry)
  {
    r := Success(map[]);
    for i := 0 to |registry|
      invariant Accepted(registry[..i])
      invariant r == Success(Merge(registry[..i]))
    {
      assert registry[..i + 1][..i] == registry[..i];
      r := AddRegistration(r.value, registry[i]);
      if r.Failure? {
        if Accepted(registry) { AcceptedPrefix(registry, i + 1); }
        return;
      }
    }
    assert registry[..|registry|] == registry;
  }

  ghost predicate Binds(r: Registration, name: string, s: Schema) {
    (name in r.defs && r.defs[name] == s) || (name == r.title && s == r.root)
  }

  ghost predicate Bound(registry: seq<Registration>, name: string, s: Schema) {
    exists r | r in registry :: Binds(r, name, s)
  }

  /** Any two schemas bound to one name have one representative. */
  ghost predicate Unified(registry: seq<Registration>) {
    forall name, s, t :: Bound(registry, name, s) && Bound(registry, name, t) ==> CanonSchema(s) == CanonSchema(t)
  }

  /** The last registration that binds a name decides, its root before its `$defs`. */
  lemma {:induction false} MergeKeepsLast(registry: seq<Registration>, i: nat, name: string)
    requires i < |registry| && (name == registry[i].title || name in registry[i].defs)
    requires forall j | i < j < |registry| :: name != registry[j].title && name !in registry[j].defs
    ensures name in Merge(registry)
    ensures Merge(registry)[name] == if name == registry[i].title then registry[i].root else registry[i].defs[name]
  {
    if i < |registry| - 1 {
      MergeKeepsLast(registry[..|registry| - 1], i, name);
    }
  }

  lemma {:induction false} MergeIsBound(registry: seq<Registration>)
    ensures forall name | name in Merge(registry) :: Bound(registry, name, Merge(registry)[name])
    ensures forall name, s | Bound(registry, name, s) :: name in Merge(registry)
  {
    if registry != [] {
      var earlier, last := registry[..|registry| - 1], registry[|registry| - 1];
      MergeIsBound(earlier);
      forall name | name in Merge(registry)
        ensures Bound(registry, name, Merge(registry)[name])
      {
        if name == last.title || name in last.defs {
          assert Binds(last, name, Merge(registry)[name]);
        } else {
          assert Bound(earlier, name, Merge(earlier)[name]);
          var r :| r in earlier && Binds(r, name, Merge(earlier)[name]);
          assert r in registry;
        }
      }
      forall name, s | Bound(registry, name, s)
        ensures name in Merge(registry)
      {
        var r :| r in registry && Binds(r, name, s);
        if r != last {
          assert r in earlier;
          assert Bound(earlier, name, s);
        }
      }
    }
  }

  lemma {:induction false} AcceptedIffUnified(registry: seq<Registration>)
    ensures Accepted(registry) <==> Unified(registry)
  {
    if registry != [] {
      var earlier, last := registry[..|registry| - 1], registry[|registry| - 1];
      AcceptedIffUnified(earlier);
      MergeIsBound(earlier);
      assert forall name, s :: Bound(registry, name, s) <==> Bound(earlier, name, s) || Binds(last, name, s) by {
        assert registry == earlier + [last];
      }
      if Accepted(registry) {
        forall name, s, t | Bound(registry, name, s) && Bound(registry, name, t)
          ensures CanonSchema(s) == CanonSchema(t)
        {
          if Bound(earlier, name, s) { MergedAgrees(earlier, name, s); }
          if Bound(earlier, name, t) { MergedAgrees(earlier, name, t); }
          AgreesWithLast(Merge(earlier), last, name, s);
          AgreesWithLast(Merge(earlier), last, name, t);
        }
      }
      if Unified(registry) {
        assert Unified(earlier);
        forall name | name in last.defs ensures Agrees(Merge(earlier), name, last.defs[name]) {
          assert Binds(last, name, last.defs[name]);
        }
        assert Binds(last, last.title, last.root);
        if last.title in last.defs {
          assert Binds(last, last.title, last.defs[last.title]);
        }
      }
    }
  }

  /** What agreed with the dictionary still does after one more accepted registration. */
  lemma AgreesWithLast(before: map<string, Schema>, last: Registration, name: string, s: Schema)
    requires StepAccepted(before, last)
    requires (name in before && Agrees(before, name, s)) || Binds(last, name, s)
    ensures var after := before + last.defs + map[last.title := last.root];
            name in after && Agrees(after, name, s)
  {
  }

  lemma MergedAgrees(earlier: seq<Registration>, name: string, s: Schema)
    requires Unified(earlier) && Bound(earlier, name, s)
    ensures name in Merge(earlier) && Agrees(Merge(earlier), name, s)
  {
    MergeIsBound(earlier);
    assert Bound(earlier, name, Merge(earlier)[name]);
  }

  /** Any two schemas bound to one name are equal to Python, keyword by keyword. */
  ghost predicate Consistent(registry: seq<Registration>) {
    forall name, s, t :: Bound(registry, name, s) && Bound(registry, name, t) ==> SameSchema(s, t)
  }

  /** The incremental check accepts exactly the registries in which no name has two meanings. */
  lemma AcceptedIffConsistent(registry: seq<Registration>)
    ensures Accepted(registry) <==> Consistent(registry)
  {
    AcceptedIffUnified(registry);
    forall name, s, t | Bound(registry, name, s) && Bound(registry, name, t)
      ensures CanonSchema(s) == CanonSchema(t) <==> SameSchema(s, t)
    {
      CanonIff(s, t);
    }
  }

  /** In an accepted registry, two bindings of one name without booleans are one schema. */
  lemma AcceptedIsOne(registry: seq<Registration>, name: string, s: Schema, t: Schema)
    requires Accepted(registry) && Bound(registry, name, s) && Bound(registry, name, t)
    requires BooleanFree(s) && BooleanFree(t)
    ensures s == t
  {
    AcceptedIffConsistent(registry);
    SameSchemaIsEqual(s, t);
  }

  /** No two bindings of one name differ while being equal to Python (`true` against 1). */
  ghost predicate Unambiguous(registry: seq<Registration>) {
    forall name, s, t ::
      Bound(registry, name, s) && Bound(registry, name, t) && CanonSchema(s) == CanonSchema(t) ==> s == t
  }

  lemma {:induction false} ValidInLarger(
      n: nat, small: map<string, Schema>, large: map<string, Schema>, o: Vocabulary, s: Schema, v: Json)
    requires forall name | name in small :: name in large && large[name] == small[name]
    requires ValidWithin(n, small, o, s, v)
    ensures ValidWithin(n, large, o, s, v)
    decreases n, s
  {
    var k := s.rest;
    if k.reference.Some? {
      ValidInLarger(n - 1, small, large, o, small[RefName(k.reference.value)], v);
    }
    if k.anyOf.AnyOf? {
      var i :| 0 <= i < |k.anyOf.options| && ValidWithin(n, small, o, k.anyOf.options[i], v);
      ValidInLarger(n, small, large, o, k.anyOf.options[i], v);
    }
    if v.JArr? {
      forall i | 0 <= i < |v.items| && i < |Prefix(k)|
        ensures ValidWithin(n, large, o, Prefix(k)[i], v.items[i])
      {
        ValidInLarger(n, small, large, o, Prefix(k)[i], v.items[i]);
      }
      forall i | |Prefix(k)| <= i < |v.items| && k.items.Some?
        ensures ValidWithin(n, large, o, k.items.value, v.items[i])
      {
        ValidInLarger(n, small, large, o, k.items.value, v.items[i]);
      }
    }
    if v.JObj? {
      forall f | f in v.fields && k.properties.Properties? && f in k.properties.fields
        ensures ValidWithin(n, large, o, k.properties.fields[f], v.fields[f])
      {
        ValidInLarger(n, small, large, o, k.properties.fields[f], v.fields[f]);
      }
      forall f | f in v.fields && k.additional.AdditionalSchema? && !Exempt(o, k, f)
        ensures ValidWithin(n, large, o, k.additional.schema, v.fields[f])
      {
        ValidInLarger(n, small, large, o, k.additional.schema, v.fields[f]);
      }
    }
  }

  // ---------------------------------------------------------------------------------------------
  // When a contract is exported soundly

  /** Every value valid against the contract, under its own `$defs`, inhabits the declaration carrying its
      title in the one generated module. */
  ghost predicate Exported(registry: seq<Registration>, r: Registration) {
    forall o, v :: Valid(r.defs, o, r.root, v) ==> Inhabits(Declarations(Merge(registry)), TsRef(r.title), v)
  }

  /** What is valid against the contract is valid against the definition that the merge kept for its title. */
  ghost predicate Carried(registry: seq<Registration>, r: Registration)
    requires r.title in Merge(registry)
  {
    forall o, v :: Valid(r.defs, o, r.root, v) ==> Valid(Merge(registry), o, Merge(registry)[r.title], v)
  }

  lemma TitleIsMerged(registry: seq<Registration>, r: Registration)
    requires r in registry
    ensures r.title in Merge(registry)
    ensures Accepted(registry) ==> CanonSchema(Merge(registry)[r.title]) == CanonSchema(r.root)
  {
    MergeIsBound(registry);
    assert Binds(r, r.title, r.root);
    assert Bound(registry, r.title, r.root);
    if Accepted(registry) {
      AcceptedIffUnified(registry);
        assert Bound(registry, r.title, Merge(registry)[r.title]);
    }
  }

  lemma RefInhabits(env: map<string, TsType>, name: string, v: Json)
    ensures Inhabits(env, TsRef(name), v) <==> name in env && Inhabits(env, env[name], v)
  {
    if Inhabits(env, TsRef(name), v) {
      var n: nat :| InhabitsWithin(n, env, TsRef(name), v);
      assert InhabitsWithin(n - 1, env, env[name], v);
    }
    if name in env && Inhabits(env, env[name], v) {
      var n: nat :| InhabitsWithin(n, env, env[name], v);
      assert InhabitsWithin(n + 1, env, TsRef(name), v);
    }
  }

  lemma DeclaredIff(defs: map<string, Schema>, o: Vocabulary, name: string, v: Json)
    requires name in defs && AllDeclarable(defs)
    ensures Valid(defs, o, defs[name], v) ==> Inhabits(Declarations(defs), TsRef(name), v)
    ensures AllPrecise(defs) && Inhabits(Declarations(defs), TsRef(name), v) ==> Valid(defs, o, defs[name], v)
  {
    RefInhabits(Declarations(defs), name, v);
    if Valid(defs, o, defs[name], v) {
      var n: nat :| ValidWithin(n, defs, o, defs[name], v);
      DeclareSound(n, defs, o, defs[name], v);
    }
    if AllPrecise(defs) && Inhabits(Declarations(defs), Declare(defs[name]), v) {
      var n: nat :| InhabitsWithin(n, Declarations(defs), Declare(defs[name]), v);
      DeclarePrecise(n, defs, o, defs[name], v);
    }
  }

  /** Where the merged definitions compile soundly, a contract is exported soundly if validity carries over;
      where they also compile exactly, only then. */
  lemma ExportedIffCarried(registry: seq<Registration>, r: Registration)
    requires r in registry && AllDeclarable(Merge(registry))
    ensures r.title in Merge(registry)
    ensures Carried(registry, r) ==> Exported(registry, r)
    ensures AllPrecise(Merge(registry)) ==> (Exported(registry, r) <==> Carried(registry, r))
  {
    TitleIsMerged(registry, r);
    forall o, v | Valid(r.defs, o, r.root, v)
      ensures Valid(Merge(registry), o, Merge(registry)[r.title], v) ==>
                Inhabits(Declarations(Merge(registry)), TsRef(r.title), v)
      ensures AllPrecise(Merge(registry)) && Inhabits(Declarations(Merge(registry)), TsRef(r.title), v) ==>
                Valid(Merge(registry), o, Merge(registry)[r.title], v)
    {
      DeclaredIff(Merge(registry), o, r.title, v);
    }
  }

  lemma KeptUnchanged(registry: seq<Registration>, r: Registration)
    requires Accepted(registry) && Unambiguous(registry) && r in registry
    ensures r.title in Merge(registry) && Merge(registry)[r.title] == r.root
    ensures forall name | name in r.defs :: name in Merge(registry) && Merge(registry)[name] == r.defs[name]
  {
    AcceptedIffUnified(registry);
    MergeIsBound(registry);
    BoundIsKept(registry, Merge(registry), r);
  }

  lemma BoundIsKept(registry: seq<Registration>, kept: map<string, Schema>, r: Registration)
    requires Unified(registry) && Unambiguous(registry) && r in registry
    requires forall name | name in kept :: Bound(registry, name, kept[name])
    requires forall name, s | Bound(registry, name, s) :: name in kept
    ensures r.title in kept && kept[r.title] == r.root
    ensures forall name | name in r.defs :: name in kept && kept[name] == r.defs[name]
  {
    forall name, s | Binds(r, name, s) ensures name in kept && kept[name] == s {
      assert Bound(registry, name, s);
    }
    assert Binds(r, r.title, r.root);
    assert forall name | name in r.defs :: Binds(r, name, r.defs[name]);
  }

  /** If no two bindings of a name differ, every contract is exported soundly. */
  lemma ExportSound(registry: seq<Registration>, r: Registration)
    requires Accepted(registry) && Unambiguous(registry) && AllDeclarable(Merge(registry)) && r in registry
    ensures Exported(registry, r)
  {
    var all := Merge(registry);
    KeptUnchanged(registry, r);
    forall o, v | Valid(r.defs, o, r.root, v) ensures Valid(all, o, all[r.title], v) {
      var n: nat :| ValidWithin(n, r.defs, o, r.root, v);
      ValidInLarger(n, r.defs, all, o, r.root, v);
    }
    ExportedIffCarried(registry, r);
  }

  /** The definition kept for a contract of constants is one of constants, equal to Python. */
  lemma ValuesAreMerged(registry: seq<Registration>, r: Registration)
    requires Accepted(registry) && r in registry && IsAlias(r.root) && PrintedValues(r.root.rest).Some?
    ensures r.title in Merge(registry) && IsAlias(Merge(registry)[r.title])
    ensures var kept := PrintedValues(Merge(registry)[r.title].rest);
            kept.Some? && CanonAll(kept.value) == CanonAll(PrintedValues(r.root.rest).value)
  {
    TitleIsMerged(registry, r);
    CanonKeepsValues(Merge(registry)[r.title], r.root);
  }

  lemma CanonKeepsValues(s: Schema, t: Schema)
    requires CanonSchema(s) == CanonSchema(t) && IsAlias(t) && PrintedValues(t.rest).Some?
    ensures IsAlias(s) && PrintedValues(s.rest).Some?
    ensures CanonAll(PrintedValues(s.rest).value) == CanonAll(PrintedValues(t.rest).value)
  {
    var k, m := CanonKeywords(s.rest), CanonKeywords(t.rest);
    assert k.reference == m.reference && k.constant == m.constant && k.enumeration == m.enumeration;
    assert k.properties == m.properties;
  }

  /** A contract of constants, whatever the other definitions are, is exported soundly exactly when each of
      its constants that some reading admits is of the type printed for the constants that were kept. */
  lemma ExportedValuesIff(registry: seq<Registration>, r: Registration)
    requires Accepted(registry) && r in registry && IsAlias(r.root) && PrintedValues(r.root.rest).Some?
    ensures r.title in Merge(registry) && PrintedValues(Merge(registry)[r.title].rest).Some?
    ensures var values, kept := PrintedValues(r.root.rest).value, PrintedValues(Merge(registry)[r.title].rest).value;
            && (Exported(registry, r) <==>
                forall x | x in values && Possible(r.defs, r.root, x) :: UnionHolds(kept, x))
            && (IsPlain(r.root) ==>
                (Exported(registry, r) <==> forall x | x in values && Allowed(r.root, x) :: UnionHolds(kept, x)))
  {
    ValuesAreMerged(registry, r);
    var env, s := Declarations(Merge(registry)), Merge(registry)[r.title];
    forall v ensures Inhabits(env, TsRef(r.title), v) <==> UnionHolds(PrintedValues(s.rest).value, v) {
      RefInhabits(env, r.title, v);
      PrintedInhabits(env, s, v);
    }
    forall o, v | Valid(r.defs, o, r.root, v)
      ensures v in PrintedValues(r.root.rest).value && Possible(r.defs, r.root, v)
    {
      PrintedLimits(r.defs, o, r.root, v);
      ValidIsPossible(r.defs, o, r.root, v);
    }
    if IsPlain(r.root) {
      forall x ensures Possible(r.defs, r.root, x) <==> Allowed(r.root, x) {
        PlainMeans(r.defs, AnyVocabulary(), r.root, x);
      }
    }
    if Exported(registry, r) {
      forall x | Possible(r.defs, r.root, x) ensures UnionHolds(PrintedValues(s.rest).value, x) {
        assert Valid(r.defs, AnyVocabulary(), r.root, x);
      }
    }
  }

  /** A contract of a single constant is exported soundly exactly when the constant kept for its title is the
      same, not merely equal to Python, and prints, or other keywords exclude the constant. */
  lemma ExportedConstantIff(registry: seq<Registration>, r: Registration, c: Json)
    requires Accepted(registry) && r in registry && IsAlias(r.root) && IsConstant(r.root, c)
    ensures r.title in Merge(registry) && Merge(registry)[r.title].rest.constant.Some?
    ensures Exported(registry, r) <==>
            (Possible(r.defs, r.root, c) ==>
               Merge(registry)[r.title].rest.constant.value == c && PrintsAsTypeScript(c))
  {
    ExportedValuesIff(registry, r);
    TitleIsMerged(registry, r);
    var kept := Merge(registry)[r.title].rest;
    assert CanonKeywords(kept).constant == CanonKeywords(r.root.rest).constant;
    assert CanonKeywords(kept).reference == CanonKeywords(r.root.rest).reference;
    var d := kept.constant.value;
    assert PrintedValues(kept).value == [d] && PrintedValues(r.root.rest).value == [c];
    assert d in [d] && c in [c] && (UnionHolds([d], c) <==> LiteralHolds(d, c));
    HoldsOfItself(c);
    if LiteralHolds(d, c) && !IsAtom(d) {
      EqualHolds(d, c);
    }
  }

  /** Without that condition the check lets two meanings through: `{"const": true}` and `{"const": 1}`
      are equal dictionaries to Python, and the later one decides the type for both contracts. */
  lemma BooleanAndNumberCollide()
    ensures exists registry: seq<Registration>, r: Registration ::
      Accepted(registry) && AllDeclarable(Merge(registry)) && r in registry && !Exported(registry, r)
  {
    var yes := Schema(NoType, NO_KEYWORDS.(constant := Some(JBool(true))));
    var one := Schema(NoType, NO_KEYWORDS.(constant := Some(JNum(1.0))));
    var first, second := Registration("Flag", yes, map[]), Registration("Flag", one, map[]);
    var registry := [first, second];
    TwoAccepted(first, second);
    assert first in registry;
    ExportedConstantIff(registry, first, JBool(true));
    PlainMeans(map[], AnyVocabulary(), yes, JBool(true));
    assert !Exported(registry, first);
  }

  /** `Unambiguous` is not necessary: `{"enum": [true, 1]}` and `{"enum": [1, true]}` are equal dictionaries
      to Python and differ, and both contracts are exported soundly. */
  lemma AmbiguousButSound()
    ensures exists registry: seq<Registration> ::
              && Accepted(registry) && !Unambiguous(registry)
              && forall r | r in registry :: Exported(registry, r)
  {
    var yes, one := JBool(true), JNum(1.0);
    var first := Registration("Flag", Schema(NoType, NO_KEYWORDS.(enumeration := Some([yes, one]))), map[]);
    var second := Registration("Flag", Schema(NoType, NO_KEYWORDS.(enumeration := Some([one, yes]))), map[]);
    var registry := [first, second];
    assert CanonAll([yes, one]) == CanonAll([one, yes]);
    TwoAccepted(first, second);
    assert [yes, one][0] != [one, yes][0];
    TwoMeanings(first, second);
    assert yes in [one, yes] && one in [one, yes];
    forall r | r in registry ensures Exported(registry, r) {
      ValuesKept(registry, r, [one, yes]);
    }
  }

  lemma TwoMeanings(first: Registration, second: Registration)
    requires first.title == second.title && first.root != second.root
    requires CanonSchema(first.root) == CanonSchema(second.root)
    ensures !Unambiguous([first, second])
  {
    var registry := [first, second];
    assert first in registry && second in registry;
    assert Binds(first, first.title, first.root) && Binds(second, first.title, second.root);
    assert Bound(registry, first.title, first.root) && Bound(registry, first.title, second.root);
  }

  /** It is enough that the constants, in any order, are kept and print. */
  lemma ValuesKept(registry: seq<Registration>, r: Registration, kept: seq<Json>)
    requires Accepted(registry) && r in registry && IsAlias(r.root) && PrintedValues(r.root.rest).Some?
    requires r.title in Merge(registry) && PrintedValues(Merge(registry)[r.title].rest) == Some(kept)
    requires forall x | x in PrintedValues(r.root.rest).value :: x in kept && PrintsAsTypeScript(x)
    ensures Exported(registry, r)
  {
    ExportedValuesIff(registry, r);
    forall x | x in PrintedValues(r.root.rest).value ensures UnionHolds(kept, x) {
      HoldsOfItself(x);
    }
  }

  /** Two contracts under one title, equal to Python, are accepted, and the later one is kept. */
  lemma TwoAccepted(first: Registration, second: Registration)
    requires first.title == second.title && first.defs == map[] == second.defs
    requires CanonSchema(first.root) == CanonSchema(second.root)
    ensures Accepted([first, second]) && Merge([first, second]) == map[first.title := second.root]
  {
    assert [first, second][..1] == [first] && [first][..0] == [];
    assert Merge([first]) == map[first.title := first.root];
    assert Accepted([first]);
  }
}
