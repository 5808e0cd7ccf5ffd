/** License evidence written into a Python SBOM by tools/complete_python_sbom_license_evidence.py. */
module Enrichment {
  import opened Wrappers
  import opened Text
  import opened JsonStrings
  import opened DistributionNames
  import opened Sorting
  import opened Distinct

  // ---------------------------------------------------------------------------------------------
  // Documents

  /** A JSON value as far as `==` with a string and `str` can see it. */
  datatype Value = Missing | Str(s: string) | Other(text: string)

  function AsText(v: Value): string {
    match v
    case Missing => ""
    case Str(s) => s
    case Other(text) => text
  }

  datatype Property = NotAnObject | Property(name: Value, value: Value, rest: string)

  datatype Properties = NoProperties | NotAList | PropertyList(items: seq<Property>)

  /** The `licenses` value: what the SBOM came with (its truth and its `json.dumps` text), or what was written. */
  datatype Licenses = Upstream(truthy: bool, text: string) | FromEvidence(spdx: string)

  /** A component; `name` and `version` are their `str` texts, `rest` is everything else. */
  datatype Component =
    | Opaque(text: string)
    | Component(name: string, version: string, purl: Value, licenses: Licenses, properties: Properties, rest: string)

  datatype Evidence = Evidence(
    name: string, version: string, purl: string, spdx: string, artifactSha: string, licenseSha: string)

  datatype Error =
    | NotExactlyOne | PurlMismatch | LicenseConflict
    | PropertiesNotAList | ConflictingProperty(name: string) | PropertyNotAnObject

  // ---------------------------------------------------------------------------------------------
  // Texts

  const BEFORE_ID := "[{\"license\": {\"id\": \""
  const AFTER_ID := "\"}}]"

  /** `json.dumps(licenses, sort_keys=True)` */
  function LicenseText(licenses: Licenses): string {
    match licenses
    case Upstream(_, text) => text
    case FromEvidence(spdx) => BEFORE_ID + Escape(spdx) + AFTER_ID
  }

  predicate IsTruthy(licenses: Licenses) {
    licenses.Upstream? ==> licenses.truthy
  }

  predicate OccursAt(text: string, part: string, i: nat) {
    i + |part| <= |text| && text[i..i + |part|] == part
  }

  /** `part in text` */
  predicate Contains(text: string, part: string) {
    exists i | 0 <= i <= |text| :: OccursAt(text, part, i)
  }

  // ---------------------------------------------------------------------------------------------
  // One component

  predicate Matches(c: Component, e: Evidence) {
    c.Component? && NormalizedName(c.name) == NormalizedName(e.name) && c.version == e.version
  }

  type Addition = (string, string)

  const SCHEMA_VERSION := "cybercontrol.python-license-evidence.v1"

  function Additions(e: Evidence): seq<Addition> {
    [("cybercontrol:license-evidence-artifact-sha256", e.artifactSha),
     ("cybercontrol:license-evidence-license-file-sha256", e.licenseSha),
     ("cybercontrol:license-evidence-schema", SCHEMA_VERSION)]
  }

  predicate Conflicting(items: seq<Property>, a: Addition) {
    exists p | p in items :: p.Property? && p.name == Str(a.0) && p.value != Str(a.1)
  }

  predicate Present(items: seq<Property>, a: Addition) {
    exists p | p in items :: p.Property? && p.name == Str(a.0) && p.value == Str(a.1)
  }

  function AddOne(items: seq<Property>, a: Addition): Result<seq<Property>, Error> {
    if Conflicting(items, a) then Failure(ConflictingProperty(a.0))
    else if Present(items, a) then Success(items)
    else Success(items + [Property(Str(a.0), Str(a.1), "")])
  }

  function AddAll(items: seq<Property>, additions: seq<Addition>): Result<seq<Property>, Error> {
    if additions == [] then Success(items) else
      var earlier := AddAll(items, additions[..|additions| - 1]);
      if earlier.Failure? then earlier else AddOne(earlier.value, additions[|additions| - 1])
  }

  function SortName(p: Property): string {
    if p.Property? then AsText(p.name) else ""
  }

  function SortValue(p: Property): string {
    if p.Property? then AsText(p.value) else ""
  }

  /** The order of the keys `(str(name), str(value))`. */
  predicate PropertyLeq(p: Property, q: Property) {
    StringLeq(SortName(p), SortName(q)) && (SortName(p) == SortName(q) ==> StringLeq(SortValue(p), SortValue(q)))
  }

  function ItemsOf(properties: Properties): seq<Property> {
    if properties.PropertyList? then properties.items else []
  }

  function SortProperties(items: seq<Property>): Result<seq<Property>, Error> {
    if NotAnObject in items then Failure(PropertyNotAnObject) else Success(Sort(PropertyLeq, items))
  }

  predicate LicenseAgrees(licenses: Licenses, e: Evidence) {
    IsTruthy(licenses) ==> Contains(LicenseText(licenses), e.spdx)
  }

  function CompletedLicenses(licenses: Licenses, e: Evidence): Licenses {
    if IsTruthy(licenses) then licenses else FromEvidence(e.spdx)
  }

  /** The body of the loop of `enrich_document` on the component it selects. */
  function EnrichComponent(c: Component, e: Evidence): Result<Component, Error>
    requires c.Component?
  {
    if !LicenseAgrees(c.licenses, e) then Failure(LicenseConflict)
    else if c.properties.NotAList? then Failure(PropertiesNotAList)
    else
      var added := AddAll(ItemsOf(c.properties), Additions(e));
      if added.Failure? then Failure(added.error)
      else
        var sorted := SortProperties(added.value);
        if sorted.Failure? then Failure(sorted.error)
        else Success(c.(licenses := CompletedLicenses(c.licenses, e), properties := PropertyList(sorted.value)))
  }

  // ---------------------------------------------------------------------------------------------
  // A document

  function MatchCount(doc: seq<Component>, e: Evidence): nat {
    if doc == [] then 0 else MatchCount(doc[..|doc| - 1], e) + if Matches(doc[|doc| - 1], e) then 1 else 0
  }

  function FirstMatch(doc: seq<Component>, e: Evidence): (i: nat)
    requires MatchCount(doc, e) > 0
    ensures i < |doc| && Matches(doc[i], e)
  {
    if MatchCount(doc[..|doc| - 1], e) > 0 then FirstMatch(doc[..|doc| - 1], e) else |doc| - 1
  }

  /** `_component` */
  function FindComponent(doc: seq<Component>, e: Evidence): (r: Result<nat, Error>)
    ensures r.Success? ==> r.value < |doc| && Matches(doc[r.value], e)
  {
    if MatchCount(doc, e) != 1 then Failure(NotExactlyOne)
    else if doc[FirstMatch(doc, e)].purl != Str(e.purl) then Failure(PurlMismatch)
    else Success(FirstMatch(doc, e))
  }

  function EnrichOne(doc: seq<Component>, e: Evidence): Result<seq<Component>, Error> {
    var found := FindComponent(doc, e);
    if found.Failure? then Failure(found.error)
    else
      var enriched := EnrichComponent(doc[found.value], e);
      if enriched.Failure? then Failure(enriched.error) else Success(doc[found.value := enriched.value])
  }

  function EnrichAll(doc: seq<Component>, entries: seq<Evidence>): Result<seq<Component>, Error> {
    if entries == [] then Success(doc) else
      var earlier := EnrichAll(doc, entries[..|entries| - 1]);
      if earlier.Failure? then earlier else EnrichOne(earlier.value, entries[|entries| - 1])
  }

  /** The loop over the three additions, and the sort, on one component. */
  method CompleteComponent(c: Component, e: Evidence) returns (r: Result<Component, Error>)
    requires c.Component?
    ensures r == EnrichComponent(c, e)
  {
    var licenses := c.licenses;
    if IsTruthy(licenses) {
      if !Contains(LicenseText(licenses), e.spdx) { return Failure(LicenseConflict); }
    } else {
      licenses := FromEvidence(e.spdx);
    }
    if c.properties.NotAList? { return Failure(PropertiesNotAList); }
    var properties := ItemsOf(c.properties);
    var additions := Additions(e);
    for i := 0 to |additions|
      invariant AddAll(ItemsOf(c.properties), additions[..i]) == Success(properties)
    {
      assert additions[..i + 1][..i] == additions[..i];
      if Conflicting(properties, additions[i]) {
        FailureStays(ItemsOf(c.properties), additions, i + 1);
        return Failure(ConflictingProperty(additions[i].0));
      }
      if !Present(properties, additions[i]) {
        properties := properties + [Property(Str(additions[i].0), Str(additions[i].1), "")];
      }
    }
    assert additions[..|additions|] == additions;
    if NotAnObject in properties { return Failure(PropertyNotAnObject); }
    return Success(c.(licenses := licenses, properties := PropertyList(Sort(PropertyLeq, properties))));
  }

  lemma {:induction false} FailureStays(items: seq<Property>, additions: seq<Addition>, i: nat)
    requires i <= |additions| && AddAll(items, additions[..i]).Failure?
    ensures AddAll(items, additions) == AddAll(items, additions[..i])
  {
    if i < |additions| {
      assert additions[..|additions| - 1][..i] == additions[..i];
      FailureStays(items, additions[..|additions| - 1], i);
    } else {
      assert additions[..i] == additions;
    }
  }

  /** `enrich_document`: a copy of the components is updated in place, entry by entry. */
  method EnrichDocument(document: seq<Component>, entries: seq<Evidence>) returns (r: Result<seq<Component>, Error>)
    ensures r == EnrichAll(document, entries)
  {
    var enriched := new Component[|document|](i requires 0 <= i < |document| => document[i]);
    assert enriched[..] == document;
    for i := 0 to |entries|
      invariant EnrichAll(document, entries[..i]) == Success(enriched[..])
    {
      assert entries[..i + 1][..i] == entries[..i];
      var found := FindComponent(enriched[..], entries[i]);
      if found.Failure? {
        EnrichFailureStays(document, entries, i + 1);
        return Failure(found.error);
      }
      var completed := CompleteComponent(enriched[found.value], entries[i]);
      if completed.Failure? {
        EnrichFailureStays(document, entries, i + 1);
        return Failure(completed.error);
      }
      enriched[found.value] := completed.value;
    }
    assert entries[..|entries|] == entries;
    return Success(enriched[..]);
  }

  lemma {:induction false} EnrichFailureStays(doc: seq<Component>, entries: seq<Evidence>, i: nat)
    requires i <= |entries| && EnrichAll(doc, entries[..i]).Failure?
    ensures EnrichAll(doc, entries) == EnrichAll(doc, entries[..i])
  {
    if i < |entries| {
      assert entries[..|entries| - 1][..i] == entries[..i];
      EnrichFailureStays(doc, entries[..|entries| - 1], i);
    } else {
      assert entries[..i] == entries;
    }
  }

  // ---------------------------------------------------------------------------------------------
  // Entries with distinct identities do not interfere

  /** The identity `load_evidence` requires to be unique. */
  function Key(e: Evidence): (string, string) {
    (NormalizedName(e.name), e.version)
  }

  function Keys(entries: seq<Evidence>): (r: seq<(string, string)>)
    ensures |r| == |entries| && forall i | 0 <= i < |r| :: r[i] == Key(entries[i])
  {
    seq(|entries|, i requires 0 <= i < |entries| => Key(entries[i]))
  }

  predicate UniqueIdentities(entries: seq<Evidence>) {
    NoDuplicates(Keys(entries))
  }

  /** The test of `load_evidence`: `len(set(keys)) != len(keys)`. */
  method CheckIdentities(entries: seq<Evidence>) returns (ok: bool)
    ensures ok <==> UniqueIdentities(entries)
  {
    var keys := Keys(entries);
    ElementsCount(keys);
    ok := |Elements(keys)| == |keys|;
  }

  lemma {:induction false} NoMatch(doc: seq<Component>, e: Evidence)
    requires MatchCount(doc, e) == 0
    ensures forall i | 0 <= i < |doc| :: !Matches(doc[i], e)
  {
    if doc != [] {
      NoMatch(doc[..|doc| - 1], e);
      assert forall i | 0 <= i < |doc| - 1 :: doc[i] == doc[..|doc| - 1][i];
    }
  }

  /** A single match is the one found. */
  lemma {:induction false} OnlyMatch(doc: seq<Component>, e: Evidence, i: nat)
    requires MatchCount(doc, e) == 1 && i < |doc| && Matches(doc[i], e)
    ensures i == FirstMatch(doc, e)
  {
    var front := doc[..|doc| - 1];
    assert forall j | 0 <= j < |front| :: front[j] == doc[j];
    if Matches(doc[|doc| - 1], e) {
      NoMatch(front, e);
    } else {
      OnlyMatch(front, e, i);
    }
  }

  lemma {:induction false} SameMatches(doc: seq<Component>, other: seq<Component>, e: Evidence)
    requires |doc| == |other| && forall i | 0 <= i < |doc| :: Matches(doc[i], e) <==> Matches(other[i], e)
    ensures MatchCount(doc, e) == MatchCount(other, e)
    ensures MatchCount(doc, e) > 0 ==> FirstMatch(doc, e) == FirstMatch(other, e)
  {
    if doc != [] {
      SameMatches(doc[..|doc| - 1], other[..|other| - 1], e);
    }
  }

  lemma DistinctKeysDistinctMatches(c: Component, d: Evidence, e: Evidence)
    requires Matches(c, d) && Matches(c, e)
    ensures Key(d) == Key(e)
  {
  }

  /** The entry, alone, can be applied. */
  predicate Enrichable(doc: seq<Component>, e: Evidence) {
    FindComponent(doc, e).Success? && EnrichComponent(doc[FindComponent(doc, e).value], e).Success?
  }

  /** What every component has become, each by its own entry only. */
  ghost predicate IsEnriched(doc: seq<Component>, entries: seq<Evidence>, out: seq<Component>) {
    && |out| == |doc|
    && forall i | 0 <= i < |doc| ::
         && ((forall e | e in entries :: !Matches(doc[i], e)) ==> out[i] == doc[i])
         && (forall e | e in entries && Matches(doc[i], e) :: EnrichComponent(doc[i], e) == Success(out[i]))
  }

  /** The fields that identify a component. */
  predicate SameIdentity(c: Component, d: Component) {
    if c.Component? then d.Component? && c.name == d.name && c.version == d.version && c.purl == d.purl else c == d
  }

  lemma EnrichKeepsIdentity(c: Component, e: Evidence)
    requires c.Component? && EnrichComponent(c, e).Success?
    ensures SameIdentity(c, EnrichComponent(c, e).value)
  {
  }

  lemma EnrichedIdentity(doc: seq<Component>, entries: seq<Evidence>, out: seq<Component>, i: nat)
    requires IsEnriched(doc, entries, out) && i < |doc|
    ensures SameIdentity(doc[i], out[i])
  {
    if exists d :: d in entries && Matches(doc[i], d) {
      var d :| d in entries && Matches(doc[i], d);
      EnrichKeepsIdentity(doc[i], d);
    }
  }

  lemma SameIdentitySameFind(doc: seq<Component>, out: seq<Component>, e: Evidence)
    requires |doc| == |out| && forall i | 0 <= i < |doc| :: SameIdentity(doc[i], out[i])
    ensures FindComponent(doc, e) == FindComponent(out, e)
  {
    SameMatches(doc, out, e);
  }

  /** The pass never changes which component an entry selects. */
  lemma EnrichedMatches(doc: seq<Component>, entries: seq<Evidence>, out: seq<Component>, e: Evidence)
    requires IsEnriched(doc, entries, out)
    ensures FindComponent(doc, e) == FindComponent(out, e)
  {
    forall i | 0 <= i < |doc| ensures SameIdentity(doc[i], out[i]) {
      EnrichedIdentity(doc, entries, out, i);
    }
    SameIdentitySameFind(doc, out, e);
  }

  lemma FreshKey(entries: seq<Evidence>, last: Evidence)
    requires UniqueIdentities(entries + [last])
    ensures UniqueIdentities(entries) && forall e | e in entries :: Key(e) != Key(last)
  {
    var keys := Keys(entries + [last]);
    forall i, j | 0 <= i < j < |entries| ensures Keys(entries)[i] != Keys(entries)[j] {
      assert keys[i] != keys[j];
    }
    forall e | e in entries ensures Key(e) != Key(last) {
      var i :| 0 <= i < |entries| && entries[i] == e;
      assert keys[i] != keys[|entries|];
    }
  }

  /** One more entry with a fresh identity acts on the result as it would on the original. */
  lemma EnrichedStep(doc: seq<Component>, entries: seq<Evidence>, out: seq<Component>, last: Evidence)
    requires UniqueIdentities(entries + [last]) && IsEnriched(doc, entries, out)
    ensures EnrichOne(out, last).Success? <==> Enrichable(doc, last)
    ensures EnrichOne(out, last).Success? ==> IsEnriched(doc, entries + [last], EnrichOne(out, last).value)
  {
    FreshKey(entries, last);
    EnrichedMatches(doc, entries, out, last);
    var found := FindComponent(doc, last);
    if found.Success? {
      var index := found.value;
      forall e | e in entries ensures !Matches(doc[index], e) {
        if Matches(doc[index], e) {
          DistinctKeysDistinctMatches(doc[index], e, last);
        }
      }
      assert out[index] == doc[index];
      if Enrichable(doc, last) {
        EnrichedAfter(doc, entries, out, last, EnrichOne(out, last).value);
      }
    }
  }

  lemma EnrichedAfter(
      doc: seq<Component>, entries: seq<Evidence>, out: seq<Component>, last: Evidence, after: seq<Component>)
    requires IsEnriched(doc, entries, out) && FindComponent(doc, last).Success?
    requires var index := FindComponent(doc, last).value;
             && index < |out| && (forall e | e in entries :: !Matches(doc[index], e))
             && EnrichComponent(doc[index], last).Success?
             && after == out[index := EnrichComponent(doc[index], last).value]
    ensures IsEnriched(doc, entries + [last], after)
  {
    var index := FindComponent(doc, last).value;
    forall i | 0 <= i < |doc|
      ensures (forall e | e in entries + [last] :: !Matches(doc[i], e)) ==> after[i] == doc[i]
      ensures forall e | e in entries + [last] && Matches(doc[i], e) :: EnrichComponent(doc[i], e) == Success(after[i])
    {
      assert forall e :: e in entries + [last] <==> e in entries || e == last;
      if Matches(doc[i], last) {
        OnlyMatch(doc, last, i);
        assert i == index;
      } else {
        assert i != index;
        assert after[i] == out[i];
      }
    }
  }

  /** The whole pass succeeds exactly when every entry can be applied by itself, and then each component
      is enriched by its own entry or left untouched. */
  lemma {:induction false} EnrichAllIff(doc: seq<Component>, entries: seq<Evidence>)
    requires UniqueIdentities(entries)
    ensures EnrichAll(doc, entries).Success? <==> forall e | e in entries :: Enrichable(doc, e)
    ensures EnrichAll(doc, entries).Success? ==> IsEnriched(doc, entries, EnrichAll(doc, entries).value)
  {
    if entries != [] {
      var front, last := entries[..|entries| - 1], entries[|entries| - 1];
      assert entries == front + [last];
      FreshKey(front, last);
      EnrichAllIff(doc, front);
      assert forall e :: e in entries <==> e in front || e == last;
      if EnrichAll(doc, front).Success? {
        EnrichedStep(doc, front, EnrichAll(doc, front).value, last);
      }
    }
  }

  lemma EnrichedIsUnique(
      doc: seq<Component>, entries: seq<Evidence>, others: seq<Evidence>, a: seq<Component>, b: seq<Component>)
    requires forall e :: e in entries <==> e in others
    requires IsEnriched(doc, entries, a) && IsEnriched(doc, others, b)
    ensures a == b
  {
    forall i | 0 <= i < |doc| ensures a[i] == b[i] {
      if exists e :: e in entries && Matches(doc[i], e) {
        var e :| e in entries && Matches(doc[i], e);
        assert EnrichComponent(doc[i], e) == Success(a[i]) == Success(b[i]);
      }
    }
  }

  /** Any order of uniquely identified entries gives the same document, or every order fails. */
  lemma EnrichmentIsConfluent(doc: seq<Component>, entries: seq<Evidence>, others: seq<Evidence>)
    requires UniqueIdentities(entries) && multiset(entries) == multiset(others)
    ensures EnrichAll(doc, entries).Success? <==> EnrichAll(doc, others).Success?
    ensures EnrichAll(doc, entries).Success? ==> EnrichAll(doc, entries) == EnrichAll(doc, others)
  {
    forall e ensures e in entries <==> e in others {
      assert e in entries <==> e in multiset(entries);
      assert e in others <==> e in multiset(others);
    }
    assert |entries| == |multiset(entries)| == |others|;
    UniqueAfterPermutation(entries, others);
    EnrichAllIff(doc, entries);
    EnrichAllIff(doc, others);
    if EnrichAll(doc, entries).Success? {
      EnrichedIsUnique(doc, entries, others, EnrichAll(doc, entries).value, EnrichAll(doc, others).value);
    }
  }

  lemma UniqueAfterPermutation(entries: seq<Evidence>, others: seq<Evidence>)
    requires UniqueIdentities(entries) && |entries| == |others| && forall e :: e in entries <==> e in others
    ensures UniqueIdentities(others)
  {
    KeysWithin(entries, others);
    KeysWithin(others, entries);
    SameElementsDistinct(Keys(entries), Keys(others));
  }

  lemma KeysWithin(entries: seq<Evidence>, others: seq<Evidence>)
    requires forall e | e in entries :: e in others
    ensures forall key | key in Keys(entries) :: key in Keys(others)
  {
    forall key | key in Keys(entries) ensures key in Keys(others) {
      var i :| 0 <= i < |entries| && Key(entries[i]) == key;
      assert entries[i] in others;
      var j :| 0 <= j < |others| && others[j] == entries[i];
      assert Keys(others)[j] == key;
    }
  }

  // ---------------------------------------------------------------------------------------------
  // A second pass

  predicate DistinctNames(additions: seq<Addition>) {
    forall i, j | 0 <= i < j < |additions| :: additions[i].0 != additions[j].0
  }

  lemma AdditionNamesDiffer(e: Evidence)
    ensures DistinctNames(Additions(e))
  {
    assert |Additions(e)[0].0| == 45 && |Additions(e)[1].0| == 49 && |Additions(e)[2].0| == 36;
  }

  /** The additions that no property states already. */
  function Missing(items: seq<Property>, additions: seq<Addition>): seq<Property> {
    if additions == [] then [] else
      var last := additions[|additions| - 1];
      Missing(items, additions[..|additions| - 1])
      + if Present(items, last) then [] else [Property(Str(last.0), Str(last.1), "")]
  }

  predicate NoneConflicts(items: seq<Property>, additions: seq<Addition>) {
    forall a | a in additions :: !Conflicting(items, a)
  }

  lemma {:induction false} MissingMembers(items: seq<Property>, additions: seq<Addition>)
    ensures forall p :: p in Missing(items, additions) <==>
              exists a | a in additions :: !Present(items, a) && p == Property(Str(a.0), Str(a.1), "")
  {
    if additions != [] {
      var front, last := additions[..|additions| - 1], additions[|additions| - 1];
      MissingMembers(items, front);
      assert forall a :: a in additions <==> a in front || a == last;
    }
  }

  /** Additions under other names neither conflict with an addition nor state it. */
  lemma OtherNames(items: seq<Property>, front: seq<Addition>, a: Addition)
    requires forall b | b in front :: b.0 != a.0
    ensures Conflicting(items + Missing(items, front), a) <==> Conflicting(items, a)
    ensures Present(items + Missing(items, front), a) <==> Present(items, a)
  {
    MissingMembers(items, front);
    assert forall p :: p in items + Missing(items, front) <==> p in items || p in Missing(items, front);
  }

  /** The loop over the additions fails exactly when one of them conflicts with what the component came
      with, and appends those that are missing there. */
  lemma {:induction false} AddAllMeans(items: seq<Property>, additions: seq<Addition>)
    requires DistinctNames(additions)
    ensures AddAll(items, additions).Success? <==> NoneConflicts(items, additions)
    ensures AddAll(items, additions).Success? ==> AddAll(items, additions).value == items + Missing(items, additions)
  {
    if additions != [] {
      var front, last := additions[..|additions| - 1], additions[|additions| - 1];
      AddAllMeans(items, front);
      forall b | b in front ensures b.0 != last.0 {
        var i :| 0 <= i < |front| && front[i] == b;
        assert additions[i].0 != additions[|additions| - 1].0;
      }
      OtherNames(items, front, last);
      assert forall a :: a in additions <==> a in front || a == last;
    }
  }

  /** The items hold the addition and nothing that contradicts it. */
  predicate Settled(items: seq<Property>, a: Addition) {
    Present(items, a) && !Conflicting(items, a)
  }

  lemma AddOneSettles(items: seq<Property>, a: Addition, b: Addition)
    requires AddOne(items, a).Success?
    ensures Settled(AddOne(items, a).value, a)
    ensures a.0 != b.0 && Settled(items, b) ==> Settled(AddOne(items, a).value, b)
  {
    var out := AddOne(items, a).value;
    var added := Property(Str(a.0), Str(a.1), "");
    assert Present(items, a) || added in out;
    assert forall p :: p in out <==> p in items || (!Present(items, a) && p == added);
  }

  lemma {:induction false} AddAllSettles(items: seq<Property>, additions: seq<Addition>)
    requires AddAll(items, additions).Success? && DistinctNames(additions)
    ensures forall a | a in additions :: Settled(AddAll(items, additions).value, a)
  {
    if additions != [] {
      var front, last := additions[..|additions| - 1], additions[|additions| - 1];
      AddAllSettles(items, front);
      var earlier := AddAll(items, front).value;
      forall a | a in additions ensures Settled(AddAll(items, additions).value, a) {
        AddOneSettles(earlier, last, a);
        assert a == last || a in front;
        if a != last {
          var i :| 0 <= i < |front| && front[i] == a;
          assert additions[i].0 != additions[|additions| - 1].0;
        }
      }
    }
  }

  lemma {:induction false} SettledIsFixed(items: seq<Property>, additions: seq<Addition>)
    requires forall a | a in additions :: Settled(items, a)
    ensures AddAll(items, additions) == Success(items)
  {
    if additions != [] {
      SettledIsFixed(items, additions[..|additions| - 1]);
      assert additions[|additions| - 1] in additions;
    }
  }

  lemma SettledAfterSort(items: seq<Property>, a: Addition)
    requires Settled(items, a)
    ensures Settled(Sort(PropertyLeq, items), a)
  {
    SortMembers(PropertyLeq, items);
  }

  lemma PropertyOrder()
    ensures TotalPreorder(PropertyLeq)
  {
    StringOrder();
    forall p, q ensures PropertyLeq(p, q) || PropertyLeq(q, p) {
      assert StringLeq(SortName(p), SortName(q)) || StringLeq(SortName(q), SortName(p));
      assert StringLeq(SortValue(p), SortValue(q)) || StringLeq(SortValue(q), SortValue(p));
    }
    forall p, q, r | PropertyLeq(p, q) && PropertyLeq(q, r) ensures PropertyLeq(p, r) {
      StringLeqTransitive(SortName(p), SortName(q), SortName(r));
      if SortName(p) == SortName(r) {
        StringLeqAntisymmetric(SortName(p), SortName(q));
        StringLeqTransitive(SortValue(p), SortValue(q), SortValue(r));
      }
    }
  }

  /** The properties of an enriched component are settled and sorted, so a second pass keeps them. */
  lemma PropertiesAreFixed(items: seq<Property>, e: Evidence)
    requires AddAll(items, Additions(e)).Success? && NotAnObject !in AddAll(items, Additions(e)).value
    ensures var sorted := Sort(PropertyLeq, AddAll(items, Additions(e)).value);
            AddAll(sorted, Additions(e)) == Success(sorted) && SortProperties(sorted) == Success(sorted)
  {
    var added := AddAll(items, Additions(e)).value;
    var sorted := Sort(PropertyLeq, added);
    AdditionNamesDiffer(e);
    AddAllSettles(items, Additions(e));
    forall a | a in Additions(e) ensures Settled(sorted, a) {
      SettledAfterSort(added, a);
    }
    SettledIsFixed(sorted, Additions(e));
    PropertyOrder();
    SortSorted(PropertyLeq, added);
    SortIsIdentity(PropertyLeq, sorted);
    SortMembers(PropertyLeq, added);
  }

  lemma SortedAdditions(items: seq<Property>, e: Evidence)
    requires AddAll(items, Additions(e)).Success?
    ensures var sorted := Sort(PropertyLeq, AddAll(items, Additions(e)).value);
            Sorted(PropertyLeq, sorted) && forall a | a in Additions(e) :: Present(sorted, a)
  {
    var added := AddAll(items, Additions(e)).value;
    PropertyOrder();
    SortSorted(PropertyLeq, added);
    AdditionNamesDiffer(e);
    AddAllSettles(items, Additions(e));
    forall a | a in Additions(e) ensures Present(Sort(PropertyLeq, added), a) {
      SettledAfterSort(added, a);
    }
  }

  /** A component is enriched exactly when a license it has agrees with the evidence, its properties are a
      list of objects, and none of them contradicts the evidence. Then a license it has is kept and a missing
      one is written, exactly the missing statements join the properties, which end sorted, and everything
      else stays. */
  lemma EnrichComponentMeans(c: Component, e: Evidence)
    requires c.Component?
    ensures var items := ItemsOf(c.properties);
            EnrichComponent(c, e).Success? <==>
            && (IsTruthy(c.licenses) ==> Contains(LicenseText(c.licenses), e.spdx))
            && !c.properties.NotAList? && NotAnObject !in items && NoneConflicts(items, Additions(e))
    ensures EnrichComponent(c, e).Success? ==>
              var items, d := ItemsOf(c.properties), EnrichComponent(c, e).value;
              && d == c.(licenses := d.licenses, properties := d.properties)
              && d.licenses == (if IsTruthy(c.licenses) then c.licenses else FromEvidence(e.spdx))
              && d.properties.PropertyList? && Sorted(PropertyLeq, d.properties.items)
              && multiset(d.properties.items) == multiset(items) + multiset(Missing(items, Additions(e)))
              && (forall a | a in Additions(e) :: Present(d.properties.items, a))
  {
    var items := ItemsOf(c.properties);
    AdditionNamesDiffer(e);
    AddAllMeans(items, Additions(e));
    MissingMembers(items, Additions(e));
    assert NotAnObject in items + Missing(items, Additions(e)) <==> NotAnObject in items;
    if EnrichComponent(c, e).Success? {
      SortedAdditions(items, e);
    }
  }

  /** Enriching again gives the same component exactly when its license text still contains the
      expression: always, if the text came from upstream. */
  lemma EnrichComponentTwice(c: Component, e: Evidence)
    requires c.Component? && EnrichComponent(c, e).Success?
    ensures var once := EnrichComponent(c, e).value;
            if Contains(LicenseText(once.licenses), e.spdx) then EnrichComponent(once, e) == Success(once)
            else EnrichComponent(once, e) == Failure(LicenseConflict) && !IsTruthy(c.licenses)
  {
    PropertiesAreFixed(ItemsOf(c.properties), e);
  }

  /** Every entry finds its expression in the text it would write itself. */
  predicate SelfContained(e: Evidence) {
    Contains(LicenseText(FromEvidence(e.spdx)), e.spdx)
  }

  /** The entry writes its license onto a component that had none. */
  predicate Writes(doc: seq<Component>, e: Evidence) {
    FindComponent(doc, e).Success? && !IsTruthy(doc[FindComponent(doc, e).value].licenses)
  }

  /** The entry can be applied and changes nothing. */
  predicate IsFixedBy(doc: seq<Component>, e: Evidence) {
    var found := FindComponent(doc, e);
    found.Success? && EnrichComponent(doc[found.value], e) == Success(doc[found.value])
  }

  lemma EnrichedTwiceOne(doc: seq<Component>, entries: seq<Evidence>, out: seq<Component>, e: Evidence)
    requires IsEnriched(doc, entries, out) && e in entries && Enrichable(doc, e)
    ensures Enrichable(out, e) <==> (Writes(doc, e) ==> SelfContained(e))
    ensures Enrichable(out, e) ==> IsFixedBy(out, e)
  {
    EnrichedMatches(doc, entries, out, e);
    var index := FindComponent(doc, e).value;
    assert EnrichComponent(doc[index], e) == Success(out[index]);
    EnrichComponentTwice(doc[index], e);
    WrittenLicense(doc[index], e);
  }

  lemma WrittenLicense(c: Component, e: Evidence)
    requires c.Component? && EnrichComponent(c, e).Success?
    ensures var once := EnrichComponent(c, e).value;
            Contains(LicenseText(once.licenses), e.spdx) <==> (IsTruthy(c.licenses) || SelfContained(e))
  {
  }

  /** A second pass over the result succeeds, and then changes nothing, exactly when each entry that wrote
      its license finds its own expression in the text it wrote. */
  lemma SecondPassIff(doc: seq<Component>, entries: seq<Evidence>)
    requires UniqueIdentities(entries) && EnrichAll(doc, entries).Success?
    ensures var out := EnrichAll(doc, entries).value;
            if forall e | e in entries :: Writes(doc, e) ==> SelfContained(e)
            then EnrichAll(out, entries) == Success(out)
            else EnrichAll(out, entries).Failure?
  {
    var out := EnrichAll(doc, entries).value;
    EnrichAllIff(doc, entries);
    EnrichAllIff(out, entries);
    forall e | e in entries
      ensures Enrichable(out, e) <==> (Writes(doc, e) ==> SelfContained(e))
      ensures Enrichable(out, e) ==> IsFixedBy(out, e)
    {
      EnrichedTwiceOne(doc, entries, out, e);
    }
    if EnrichAll(out, entries).Success? {
      SecondPassChangesNothing(out, entries, EnrichAll(out, entries).value);
    }
  }

  lemma SecondPassChangesNothing(out: seq<Component>, entries: seq<Evidence>, again: seq<Component>)
    requires IsEnriched(out, entries, again) && forall e | e in entries :: IsFixedBy(out, e)
    ensures again == out
  {
    forall i | 0 <= i < |out| ensures again[i] == out[i] {
      if exists e :: e in entries && Matches(out[i], e) {
        var e :| e in entries && Matches(out[i], e);
        assert IsFixedBy(out, e);
        FoundIs(out, e, i);
      }
    }
  }

  lemma FoundIs(doc: seq<Component>, e: Evidence, i: nat)
    requires FindComponent(doc, e).Success? && i < |doc| && Matches(doc[i], e)
    ensures FindComponent(doc, e).value == i
  {
    OnlyMatch(doc, e, i);
  }

  /** An expression free of JSON escapes is found again, so plain evidence enriches idempotently. */
  lemma PlainIsSelfContained(e: Evidence)
    requires IsPlain(e.spdx)
    ensures SelfContained(e)
  {
    PlainIsUnescaped(e.spdx);
    var text := LicenseText(FromEvidence(e.spdx));
    assert text[|BEFORE_ID|..|BEFORE_ID| + |e.spdx|] == e.spdx;
    assert OccursAt(text, e.spdx, |BEFORE_ID|);
  }

  lemma OccurrenceHasChars(text: string, part: string, i: nat)
    requires OccursAt(text, part, i)
    ensures forall c | c in part :: c in text
  {
    forall c | c in part ensures c in text {
      var j :| 0 <= j < |part| && part[j] == c;
      assert text[i..i + |part|][j] == text[i + j];
    }
  }

  /** An expression with a character outside printable ASCII is escaped away: evidence that wrote it is
      rejected by a second pass. */
  lemma NonAsciiIsLost(e: Evidence)
    requires !IsAscii(e.spdx)
    ensures !SelfContained(e)
  {
    var text := LicenseText(FromEvidence(e.spdx));
    EscapeIsAscii(e.spdx);
    assert IsAscii(BEFORE_ID) && IsAscii(AFTER_ID);
    assert IsAscii(text);
    var c :| c in e.spdx && !(' ' <= c <= '~');
    forall i | 0 <= i <= |text| ensures !OccursAt(text, e.spdx, i) {
      if OccursAt(text, e.spdx, i) {
        OccurrenceHasChars(text, e.spdx, i);
      }
    }
  }

  // ---------------------------------------------------------------------------------------------
  // Why identities must be unique

  const BARE := Component("p", "1", Str("u"), Upstream(false, "[]"), NoProperties, "")

  predicate Clash(c: Component, broad: Evidence, narrow: Evidence) {
    && c == BARE
    && broad == Evidence("p", "1", "u", seq(100, _ => 'A'), "a", "b") && narrow == broad.(spdx := "A")
  }

  lemma FirstEntrySucceeds(c: Component, broad: Evidence, narrow: Evidence, e: Evidence)
    requires Clash(c, broad, narrow) && (e == broad || e == narrow)
    ensures EnrichComponent(c, e).Success?
    ensures var once := EnrichComponent(c, e).value;
            && once.Component? && once.licenses == FromEvidence(e.spdx) && once.properties.PropertyList?
            && AddAll(once.properties.items, Additions(broad)) == Success(once.properties.items)
            && NotAnObject !in once.properties.items
  {
    EnrichComponentMeans(c, e);
    PropertiesAreFixed([], e);
    assert Additions(e) == Additions(broad);
  }

  lemma SecondEntryIff(once: Component, broad: Evidence, e: Evidence)
    requires once.Component? && once.licenses.FromEvidence? && once.properties.PropertyList?
    requires AddAll(once.properties.items, Additions(broad)) == Success(once.properties.items)
    requires NotAnObject !in once.properties.items && Additions(e) == Additions(broad)
    ensures EnrichComponent(once, e).Success? <==> Contains(LicenseText(once.licenses), e.spdx)
  {
  }

  lemma LicenseTexts(c: Component, broad: Evidence, narrow: Evidence)
    requires Clash(c, broad, narrow)
    ensures Contains(LicenseText(FromEvidence(broad.spdx)), narrow.spdx)
    ensures !Contains(LicenseText(FromEvidence(narrow.spdx)), broad.spdx)
  {
    PlainIsUnescaped(broad.spdx);
    PlainIsUnescaped(narrow.spdx);
    assert LicenseText(FromEvidence(broad.spdx))[|BEFORE_ID|..|BEFORE_ID| + 1] == "A";
    assert OccursAt(LicenseText(FromEvidence(broad.spdx)), "A", |BEFORE_ID|);
    assert |LicenseText(FromEvidence(narrow.spdx))| < 100;
  }

  lemma AloneIsFound(c: Component, e: Evidence)
    requires Matches(c, e) && c.purl == Str(e.purl)
    ensures FindComponent([c], e) == Success(0)
  {
    assert [c][..|[c]| - 1] == [];
    assert MatchCount([], e) == 0;
    assert MatchCount([c], e) == 1 && FirstMatch([c], e) == 0;
  }

  lemma OneEntry(c: Component, e: Evidence)
    requires Matches(c, e) && c.purl == Str(e.purl)
    ensures EnrichOne([c], e).Success? <==> EnrichComponent(c, e).Success?
    ensures EnrichOne([c], e).Success? ==> EnrichOne([c], e).value == [EnrichComponent(c, e).value]
  {
    AloneIsFound(c, e);
  }

  lemma TwoSteps(doc: seq<Component>, first: Evidence, second: Evidence)
    ensures EnrichAll(doc, [first, second]) ==
            var once := EnrichOne(doc, first);
            if once.Failure? then once else EnrichOne(once.value, second)
  {
    assert [first, second][..1] == [first] && [first][..0] == [];
    assert EnrichAll(doc, []) == Success(doc);
    assert EnrichAll(doc, [first]) == EnrichOne(doc, first);
  }

  lemma TwoEntries(c: Component, first: Evidence, second: Evidence)
    requires Matches(c, first) && c.purl == Str(first.purl) && Key(first) == Key(second) && first.purl == second.purl
    requires EnrichComponent(c, first).Success?
    ensures EnrichAll([c], [first, second]).Success? <==>
            EnrichComponent(EnrichComponent(c, first).value, second).Success?
  {
    EnrichKeepsIdentity(c, first);
    OneEntry(c, first);
    OneEntry(EnrichComponent(c, first).value, second);
    TwoSteps([c], first, second);
  }

  /** Two entries for one component can succeed in one order and fail in the other: the expression that
      is written first may contain the second, and not the other way round. */
  lemma OrderMattersWithoutUniqueIdentities(c: Component, broad: Evidence, narrow: Evidence)
    requires Clash(c, broad, narrow)
    ensures EnrichAll([c], [broad, narrow]).Success? && EnrichAll([c], [narrow, broad]).Failure?
  {
    FirstEntrySucceeds(c, broad, narrow, broad);
    FirstEntrySucceeds(c, broad, narrow, narrow);
    LicenseTexts(c, broad, narrow);
    SecondEntryIff(EnrichComponent(c, broad).value, broad, narrow);
    SecondEntryIff(EnrichComponent(c, narrow).value, broad, broad);
    TwoEntries(c, broad, narrow);
    TwoEntries(c, narrow, broad);
  }

  lemma BareIsEnriched(e: Evidence)
    requires Matches(BARE, e) && BARE.purl == Str(e.purl)
    ensures UniqueIdentities([e]) && EnrichAll([BARE], [e]).Success? && Writes([BARE], e)
  {
    EnrichComponentMeans(BARE, e);
    AloneIsFound(BARE, e);
    assert Enrichable([BARE], e);
    EnrichAllIff([BARE], [e]);
  }

  /** A first pass can succeed and the second one fail on its result: the expression written has a character
      that JSON escapes, so it is not found in the text again. */
  lemma SecondPassCanFail()
    ensures exists doc, entries ::
              && UniqueIdentities(entries) && EnrichAll(doc, entries).Success?
              && EnrichAll(EnrichAll(doc, entries).value, entries).Failure?
  {
    var e := Evidence("p", "1", "u", "\U{e9}", "a", "b");
    assert e.spdx[0] in e.spdx && !IsAscii(e.spdx);
    NonAsciiIsLost(e);
    BareIsEnriched(e);
    SecondPassIff([BARE], [e]);
    assert e in [e];
  }

  // ---------------------------------------------------------------------------------------------
  // What is written

  /** The property is stated with the value, and with no other. */
  predicate States(items: seq<Property>, name: string, value: string) {
    && (exists p | p in items :: p.Property? && p.name == Str(name) && p.value == Str(value))
    && forall p | p in items && p.Property? && p.name == Str(name) :: p.value == Str(value)
  }

  /** An enriched component states the digest of the artifact, that of the license file, and the schema,
      each under its own name. */
  lemma StatementsWritten(c: Component, e: Evidence)
    requires c.Component? && EnrichComponent(c, e).Success?
    ensures var d := EnrichComponent(c, e).value;
            && d.Component? && d.properties.PropertyList?
            && States(d.properties.items, "cybercontrol:license-evidence-artifact-sha256", e.artifactSha)
            && States(d.properties.items, "cybercontrol:license-evidence-license-file-sha256", e.licenseSha)
            && States(d.properties.items, "cybercontrol:license-evidence-schema",
                      "cybercontrol.python-license-evidence.v1")
  {
    var items, added := ItemsOf(c.properties), AddAll(ItemsOf(c.properties), Additions(e)).value;
    AdditionNamesDiffer(e);
    AddAllSettles(items, Additions(e));
    assert Additions(e)[0] in Additions(e) && Additions(e)[1] in Additions(e) && Additions(e)[2] in Additions(e);
    SettledAfterSort(added, Additions(e)[0]);
    SettledAfterSort(added, Additions(e)[1]);
    SettledAfterSort(added, Additions(e)[2]);
  }

  /** The properties end in the order of their names, and under one name of their values. */
  lemma PropertiesAreOrdered(c: Component, e: Evidence, i: nat, j: nat)
    requires c.Component? && EnrichComponent(c, e).Success?
    requires var d := EnrichComponent(c, e).value; d.Component? && i < j < |ItemsOf(d.properties)|
    ensures var items := ItemsOf(EnrichComponent(c, e).value.properties);
            && items[i].Property? && items[j].Property?
            && StringLeq(AsText(items[i].name), AsText(items[j].name))
            && (AsText(items[i].name) == AsText(items[j].name) ==>
                  StringLeq(AsText(items[i].value), AsText(items[j].value)))
  {
    var added := AddAll(ItemsOf(c.properties), Additions(e)).value;
    PropertyOrder();
    SortSorted(PropertyLeq, added);
    SortMembers(PropertyLeq, added);
    var items := ItemsOf(EnrichComponent(c, e).value.properties);
    assert items[i] in items && items[j] in items;
  }

  /** A license written is the expression as a JSON string, which reads back as the expression. */
  lemma LicenseWritten(e: Evidence)
    ensures LicenseText(FromEvidence(e.spdx)) == "[{\"license\": {\"id\": \"" + Escape(e.spdx) + "\"}}]"
    ensures Unescape(Escape(e.spdx)) == Some(e.spdx)
  {
    UnescapeEscape(e.spdx);
  }

  // ---------------------------------------------------------------------------------------------
  // Which component is selected

  /** Exactly one component has the name and version, and it has the package URL of the entry. */
  ghost predicate Selects(doc: seq<Component>, e: Evidence, i: int) {
    && 0 <= i < |doc| && Matches(doc[i], e) && doc[i].purl == Str(e.purl)
    && forall j | 0 <= j < |doc| && j != i :: !Matches(doc[j], e)
  }

  lemma {:induction false} OneMatchIff(doc: seq<Component>, e: Evidence, i: nat)
    requires i < |doc| && Matches(doc[i], e)
    ensures MatchCount(doc, e) >= 1
    ensures MatchCount(doc, e) == 1 <==> forall j | 0 <= j < |doc| && j != i :: !Matches(doc[j], e)
  {
    var front, last := doc[..|doc| - 1], |doc| - 1;
    assert forall j | 0 <= j < last :: front[j] == doc[j];
    if i == last {
      NoMatchIff(front, e);
    } else {
      OneMatchIff(front, e, i);
    }
  }

  lemma {:induction false} NoMatchIff(doc: seq<Component>, e: Evidence)
    ensures MatchCount(doc, e) == 0 <==> forall j | 0 <= j < |doc| :: !Matches(doc[j], e)
  {
    if doc != [] {
      NoMatchIff(doc[..|doc| - 1], e);
      assert forall j | 0 <= j < |doc| - 1 :: doc[..|doc| - 1][j] == doc[j];
    }
  }

  /** `_component` finds that one, or fails. */
  lemma FindIff(doc: seq<Component>, e: Evidence)
    ensures FindComponent(doc, e).Success? <==> exists i :: Selects(doc, e, i)
    ensures forall i | Selects(doc, e, i) :: FindComponent(doc, e) == Success(i as nat)
  {
    if FindComponent(doc, e).Success? {
      var i := FindComponent(doc, e).value;
      OneMatchIff(doc, e, i);
      assert Selects(doc, e, i);
    }
    forall i | Selects(doc, e, i) ensures FindComponent(doc, e) == Success(i as nat) {
      OneMatchIff(doc, e, i);
      OnlyMatch(doc, e, i);
    }
  }
}
