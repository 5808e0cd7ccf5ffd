/** Acceptance of the human-reviewed golden facts in tools/acceptance/build-phase7-dataset-inventory.py:
    checkers that collect issues in loops, against one declarative condition. */
module GoldenSet {
  import opened JsonValues
  import opened Distinct
  import opened Counters
  import HexDigests

  type Doc = map<string, Json>

  /** URL syntax, timestamp syntax and `str` of non-strings, left abstract. */
  datatype Recognisers = Recognisers(isHttps: string -> bool, isUtc: string -> bool, text: Json -> string)

  const SUPPORTED := "SUPPORTED"
  const CONTRADICTED := "CONTRADICTED"
  const INSUFFICIENT := "INSUFFICIENT_EVIDENCE"
  const ACCEPTED := JStr("ACCEPTED")
  const REJECTED := JStr("REJECTED")
  const PENDING := JStr("PENDING_HUMAN_HASH_CONFIRMATION")
  const DATASET_ID := JStr("phase7-academic-human-reviewed-facts.v1")
  const MINIMUM_FACTS := 60
  const MINIMUM_OUTCOME := 20
  const MINIMUM_TOPICS := 16

  predicate IsOutcome(s: string) {
    s == SUPPORTED || s == CONTRADICTED || s == INSUFFICIENT
  }

  predicate IsAllowedLicense(v: Json) {
    v == JStr("CC-BY-3.0") || v == JStr("CC-BY-4.0")
  }

  const REQUIRED_FACT_FIELDS: seq<string> := [
    "schema_version", "dataset_id", "fact_id", "target_module", "topic", "difficulty", "language", "claim",
    "expected_outcome", "expected_outcome_rationale", "citations", "license_expression", "curation_method",
    "source_text_reproduced", "contains_personal_data"]

  const REQUIRED_REVIEW_FIELDS: seq<string> := [
    "schema_version", "dataset_id", "facts_content_sha256", "source_ledger_content_sha256",
    "review_policy_content_sha256", "reviewer_subject_ref", "reviewer_qualification_statement",
    "conflict_of_interest", "conflict_disposition", "review_policy_version", "fact_count", "outcome_counts",
    "rights_review_decision", "decision"]

  const PROHIBITED_USES: seq<string> := [
    "compilation_text_reused", "chapter_figures_reused", "chapter_tables_reused", "verbatim_source_text_reused"]

  datatype Subject =
    | Ledger | Source(number: nat) | Facts | Fact(number: nat) | Citation(number: nat, citation: nat) | Review

  /** One entry of an error list; the wording of the messages is not modelled. */
  datatype Issue = Issue(about: Subject, what: string)

  // ---------------------------------------------------------------------------------------------
  // Collecting issues

  /** A condition that must hold, and what it is about. The tools list the negations. */
  type Condition = (bool, string)

  predicate AllHold(conditions: seq<Condition>) {
    forall i | 0 <= i < |conditions| :: conditions[i].0
  }

  predicate Fails(conditions: seq<Condition>, what: string) {
    exists i | 0 <= i < |conditions| :: !conditions[i].0 && conditions[i].1 == what
  }

  /** `errors.extend(message for condition, message in checks if condition)`: exactly what fails is raised. */
  function Raised(conditions: seq<Condition>, about: Subject): (issues: seq<Issue>)
    ensures issues == [] <==> AllHold(conditions)
    ensures forall issue :: issue in issues <==> issue.about == about && Fails(conditions, issue.what)
  {
    if conditions == [] then []
    else
      var front, last := conditions[..|conditions| - 1], conditions[|conditions| - 1];
      assert AllHold(conditions) <==> AllHold(front) && last.0 by {
        assert forall i | 0 <= i < |front| :: front[i] == conditions[i];
      }
      assert forall what :: Fails(conditions, what) <==> Fails(front, what) || (!last.0 && last.1 == what) by {
        RaisedStep(conditions);
      }
      Raised(front, about) + if last.0 then [] else [Issue(about, last.1)]
  }

  lemma RaisedStep(conditions: seq<Condition>)
    requires conditions != []
    ensures var front, last := conditions[..|conditions| - 1], conditions[|conditions| - 1];
            forall what :: Fails(conditions, what) <==> Fails(front, what) || (!last.0 && last.1 == what)
  {
    var front, last := conditions[..|conditions| - 1], conditions[|conditions| - 1];
    forall what ensures Fails(conditions, what) <==> Fails(front, what) || (!last.0 && last.1 == what) {
      if Fails(conditions, what) {
        var i :| 0 <= i < |conditions| && !conditions[i].0 && conditions[i].1 == what;
        if i < |front| {
          assert front[i] == conditions[i];
        }
      }
      if Fails(front, what) {
        var i :| 0 <= i < |front| && !front[i].0 && front[i].1 == what;
        assert conditions[i] == front[i];
      }
    }
  }

  predicate IsHttps(r: Recognisers, v: Json) {
    v.JStr? && r.isHttps(v.s)
  }

  predicate IsUtc(r: Recognisers, v: Json) {
    v.JStr? && r.isUtc(v.s)
  }

  /** `_is_sha256` */
  predicate IsSha256(v: Json) {
    v.JStr? && HexDigests.IsSha256(v.s)
  }

  /** Absent, `None`, empty text or empty list. */
  predicate Blank(record: Doc, field: string) {
    Get(record, field) == JNull || Get(record, field) == JStr("") || Get(record, field) == JArr([])
  }

  /** `_missing_fields` finds nothing. */
  predicate Complete(record: Doc, required: seq<string>) {
    forall f | f in required :: !Blank(record, f)
  }

  // ---------------------------------------------------------------------------------------------
  // The source ledger

  /** `isinstance(size, int) and size >= 1` */
  predicate IsPositiveInt(v: Json) {
    v == JBool(true) || (v.JNum? && v.n.Floor as real == v.n && v.n >= 1.0)
  }

  /** `_source_errors`: a licensed, attributed and paraphrased source whose content hash was verified. */
  function SourceConditions(source: Doc, r: Recognisers): seq<Condition> {
    [(Truthy(Get(source, "work_title")), "work_title"),
     (Truthy(Get(source, "chapter_title")), "chapter_title"),
     (Get(source, "chapter_authors").JArr? && Truthy(Get(source, "chapter_authors")), "chapter_authors"),
     (Truthy(Get(source, "publisher")), "publisher"),
     (Truthy(Get(source, "doi")), "doi"),
     (IsHttps(r, Get(source, "doi_url")), "doi_url"),
     (IsHttps(r, Get(source, "metadata_url")), "metadata_url"),
     (IsPositiveInt(Get(source, "source_byte_size")), "source_byte_size"),
     (IsUtc(r, Get(source, "remote_hash_verified_at_utc")), "remote_hash_verified_at_utc"),
     (Get(source, "attribution_required") == JBool(true), "attribution_required"),
     (Get(source, "included_material") == JStr("PARAPHRASED_CHAPTER_FACTS_ONLY"), "included_material"),
     (Get(source, "images_included") == JBool(false), "images_included"),
     (Get(source, "status") == JStr("INCLUDED"), "status"),
     (Get(source, "commercial_reuse_permitted") == JBool(true), "commercial_reuse_permitted"),
     (IsAllowedLicense(Get(source, "license_expression")), "license_expression"),
     (IsHttps(r, Get(source, "source_url")), "source_url"),
     (IsHttps(r, Get(source, "license_url")), "license_url"),
     (IsSha256(Get(source, "source_content_sha256")), "source_content_sha256"),
     (Truthy(Get(source, "license_evidence_locator")), "license_evidence_locator")]
  }

  /** An included source with nothing wrong. */
  predicate SourceOk(source: Json, r: Recognisers) {
    Identified(source) && AllHold(SourceConditions(source.fields, r))
  }

  /** The identifier of a source entry, if it has one. */
  predicate Identified(source: Json) {
    source.JObj? && Get(source.fields, "source_id").JStr? && Get(source.fields, "source_id").s != ""
  }

  function SourceId(source: Json): string
    requires Identified(source)
  {
    Get(source.fields, "source_id").s
  }

  function IndexOf(sources: seq<Json>): map<string, Doc> {
    if sources == [] then map[] else
      var last := sources[|sources| - 1];
      var earlier := IndexOf(sources[..|sources| - 1]);
      if Identified(last) then earlier[SourceId(last) := last.fields] else earlier
  }

  function Sources(ledger: Doc): seq<Json> {
    if Get(ledger, "included_sources").JArr? then Get(ledger, "included_sources").items else []
  }

  predicate DistinctSources(sources: seq<Json>) {
    forall i, j | 0 <= i < j < |sources| && Identified(sources[i]) && Identified(sources[j]) ::
      SourceId(sources[i]) != SourceId(sources[j])
  }

  function UseConditions(boundary: Doc): seq<Condition> {
    seq(|PROHIBITED_USES|, i requires 0 <= i < |PROHIBITED_USES| =>
      (Get(boundary, PROHIBITED_USES[i]) == JBool(false), PROHIBITED_USES[i]))
  }

  predicate LedgerOk(ledger: Doc, r: Recognisers) {
    && Get(ledger, "schema_version") == JStr("phase7.academic-source-ledger.v1")
    && Get(ledger, "rights_boundary").JObj?
    && AllHold(UseConditions(Get(ledger, "rights_boundary").fields))
    && Sources(ledger) != []
    && AllSourcesOk(Sources(ledger), r)
  }

  lemma {:induction false} IndexedIff(sources: seq<Json>, id: string)
    ensures id in IndexOf(sources) <==>
            exists source | source in sources :: Identified(source) && SourceId(source) == id
  {
    if sources != [] {
      var front, last := sources[..|sources| - 1], sources[|sources| - 1];
      assert sources == front + [last];
      IndexedIff(front, id);
    }
  }

  lemma {:induction false} IndexStep(sources: seq<Json>, i: nat)
    requires i < |sources|
    ensures IndexOf(sources[..i + 1]) ==
            if Identified(sources[i]) then IndexOf(sources[..i])[SourceId(sources[i]) := sources[i].fields]
            else IndexOf(sources[..i])
    ensures DistinctSources(sources[..i + 1]) <==>
            DistinctSources(sources[..i]) && (Identified(sources[i]) ==> SourceId(sources[i]) !in IndexOf(sources[..i]))
  {
    assert sources[..i + 1][..i] == sources[..i];
    if Identified(sources[i]) {
      IndexedIff(sources[..i], SourceId(sources[i]));
      if SourceId(sources[i]) in IndexOf(sources[..i]) {
        var source :| source in sources[..i] && Identified(source) && SourceId(source) == SourceId(sources[i]);
        var k :| 0 <= k < i && sources[k] == source;
        assert sources[..i + 1][k] == source && sources[..i + 1][i] == sources[i];
      } else {
        forall k | 0 <= k < i && Identified(sources[k]) ensures SourceId(sources[k]) != SourceId(sources[i]) {
          assert sources[..i][k] == sources[k];
          assert sources[k] in sources[..i];
        }
      }
    }
  }

  predicate AllSourcesOk(sources: seq<Json>, r: Recognisers) {
    (forall source | source in sources :: SourceOk(source, r)) && DistinctSources(sources)
  }

  lemma SourcesStep(sources: seq<Json>, i: nat, r: Recognisers)
    requires i < |sources|
    ensures AllSourcesOk(sources[..i + 1], r) <==>
            AllSourcesOk(sources[..i], r) && SourceOk(sources[i], r) && SourceId(sources[i]) !in IndexOf(sources[..i])
  {
    IndexStep(sources, i);
    assert sources[..i + 1] == sources[..i] + [sources[i]];
  }

  /** The loop of `_source_ledger_index` over the included sources. */
  method IndexSources(sources: seq<Json>, r: Recognisers) returns (index: map<string, Doc>, errors: seq<Issue>)
    ensures index == IndexOf(sources)
    ensures errors == [] <==> AllSourcesOk(sources, r)
  {
    index, errors := map[], [];
    for i := 0 to |sources|
      invariant index == IndexOf(sources[..i])
      invariant errors == [] <==> AllSourcesOk(sources[..i], r)
    {
      IndexStep(sources, i);
      SourcesStep(sources, i, r);
      var source := sources[i];
      if !source.JObj? {
        errors := errors + [Issue(Source(i + 1), "object")];
      } else if !Get(source.fields, "source_id").JStr? || Get(source.fields, "source_id").s == "" {
        errors := errors + [Issue(Source(i + 1), "source_id")];
      } else {
        var sourceId := Get(source.fields, "source_id").s;
        if sourceId in index {
          errors := errors + [Issue(Source(i + 1), "duplicated")];
        }
        index := index[sourceId := source.fields];
        errors := errors + Raised(SourceConditions(source.fields, r), Source(i + 1));
      }
    }
    assert sources[..|sources|] == sources;
  }

  /** `_source_ledger_index` */
  method SourceLedgerIndex(ledger: Doc, r: Recognisers) returns (index: map<string, Doc>, errors: seq<Issue>)
    ensures index == IndexOf(Sources(ledger))
    ensures errors == [] <==> LedgerOk(ledger, r)
  {
    errors := [];
    if Get(ledger, "schema_version") != JStr("phase7.academic-source-ledger.v1") {
      errors := errors + [Issue(Ledger, "schema_version")];
    }
    var boundary := Get(ledger, "rights_boundary");
    if !boundary.JObj? {
      errors := errors + [Issue(Ledger, "rights_boundary")];
    } else {
      errors := errors + Raised(UseConditions(boundary.fields), Ledger);
    }
    if Sources(ledger) == [] {
      return map[], errors + [Issue(Ledger, "included_sources")];
    }
    var sourceErrors;
    index, sourceErrors := IndexSources(Sources(ledger), r);
    errors := errors + sourceErrors;
  }

  // ---------------------------------------------------------------------------------------------
  // Facts

  /** The source a citation names, if the ledger has it. */
  predicate CitesKnown(citation: Json, index: map<string, Doc>) {
    citation.JObj? && Get(citation.fields, "source_id").JStr? && Get(citation.fields, "source_id").s in index
  }

  /** A located citation at an approved address of its source, under the source's own license. */
  function CitationConditions(citation: Doc, license: Json, source: Doc, r: Recognisers): seq<Condition> {
    var url := Get(citation, "source_url");
    [(PyEq(Get(source, "license_expression"), license), "license"),
     (Truthy(Get(citation, "locator")), "locator"),
     (IsHttps(r, url) && (url == Get(source, "source_url") || url == Get(source, "doi_url")), "source_url")]
  }

  predicate CitationOk(citation: Json, license: Json, index: map<string, Doc>, r: Recognisers) {
    && CitesKnown(citation, index)
    && AllHold(CitationConditions(citation.fields, license, index[Get(citation.fields, "source_id").s], r))
  }

  /** `_citation_errors` */
  function CitationIssues(citation: Json, about: Subject, license: Json, index: map<string, Doc>, r: Recognisers)
    : (issues: seq<Issue>)
    ensures issues == [] <==> CitationOk(citation, license, index, r)
  {
    if !citation.JObj? then [Issue(about, "object")]
    else if !CitesKnown(citation, index) then [Issue(about, "unknown source")]
    else
      Raised(CitationConditions(citation.fields, license, index[Get(citation.fields, "source_id").s], r), about)
  }

  /** A paraphrased, licensed statement for the academic module with a reviewed outcome. */
  function FactConditions(record: Doc): seq<Condition> {
    [(Get(record, "schema_version") == JStr("phase7.academic-golden-fact.v1"), "schema_version"),
     (Get(record, "dataset_id") == DATASET_ID, "dataset_id"),
     (Get(record, "target_module") == JStr("C3_ACADEMIC"), "target_module"),
     (Get(record, "language") == JStr("en-US"), "language"),
     (IsAllowedLicense(Get(record, "license_expression")), "license_expression"),
     (Get(record, "curation_method") == JStr("ORIGINAL_PARAPHRASE_FROM_LICENSED_SOURCE"), "curation_method"),
     (Get(record, "source_text_reproduced") == JBool(false), "source_text_reproduced"),
     (Get(record, "contains_personal_data") == JBool(false), "contains_personal_data"),
     (HasOutcome(record), "expected_outcome")]
  }

  predicate HasOutcome(record: Doc) {
    Get(record, "expected_outcome").JStr? && IsOutcome(Get(record, "expected_outcome").s)
  }

  predicate HasTopic(record: Doc) {
    Get(record, "topic").JStr? && Get(record, "topic").s != ""
  }

  function Citations(record: Doc): seq<Json> {
    if Get(record, "citations").JArr? then Get(record, "citations").items else []
  }

  predicate AllCitationsOk(citations: seq<Json>, license: Json, index: map<string, Doc>, r: Recognisers) {
    forall c | c in citations :: CitationOk(c, license, index, r)
  }

  predicate FactOk(record: Doc, index: map<string, Doc>, r: Recognisers) {
    && AllHold(FactConditions(record))
    && Citations(record) != []
    && AllCitationsOk(Citations(record), Get(record, "license_expression"), index, r)
  }

  function CitedBy(citations: seq<Json>, index: map<string, Doc>): set<string> {
    set c | c in citations && CitesKnown(c, index) :: Get(c.fields, "source_id").s
  }

  lemma CitationsStep(citations: seq<Json>, c: Json, license: Json, index: map<string, Doc>, r: Recognisers)
    ensures AllCitationsOk(citations + [c], license, index, r) <==>
            AllCitationsOk(citations, license, index, r) && CitationOk(c, license, index, r)
    ensures CitedBy(citations + [c], index) ==
            CitedBy(citations, index) + if CitesKnown(c, index) then {Get(c.fields, "source_id").s} else {}
  {
    assert forall d :: d in citations + [c] <==> d in citations || d == c;
  }

  /** The loop of `_fact_record_analysis` over the citations. */
  method CheckCitations(citations: seq<Json>, number: nat, license: Json, index: map<string, Doc>, r: Recognisers)
    returns (errors: seq<Issue>, used: set<string>)
    ensures errors == [] <==> AllCitationsOk(citations, license, index, r)
    ensures used == CitedBy(citations, index)
  {
    errors, used := [], {};
    for i := 0 to |citations|
      invariant errors == [] <==> AllCitationsOk(citations[..i], license, index, r)
      invariant used == CitedBy(citations[..i], index)
    {
      CitationsStep(citations[..i], citations[i], license, index, r);
      assert citations[..i + 1] == citations[..i] + [citations[i]];
      errors := errors + CitationIssues(citations[i], Citation(number, i + 1), license, index, r);
      if CitesKnown(citations[i], index) {
        used := used + {Get(citations[i].fields, "source_id").s};
      }
    }
    assert citations[..|citations|] == citations;
  }

  /** `_fact_record_analysis`; its outcome, module and topic are read off the record. */
  method FactRecordAnalysis(record: Doc, number: nat, index: map<string, Doc>, r: Recognisers)
    returns (errors: seq<Issue>, used: set<string>)
    ensures errors == [] <==> FactOk(record, index, r)
    ensures used == CitedBy(Citations(record), index)
  {
    errors, used := Raised(FactConditions(record), Fact(number)), {};
    if Citations(record) == [] {
      return errors + [Issue(Fact(number), "citations")], used;
    }
    var citationErrors;
    citationErrors, used := CheckCitations(Citations(record), number, Get(record, "license_expression"), index, r);
    errors := errors + citationErrors;
  }

  // ---------------------------------------------------------------------------------------------
  // The fact set

  /** `str(record.get("fact_id", ""))` */
  function FactId(record: Doc, r: Recognisers): string {
    if "fact_id" !in record then ""
    else if record["fact_id"].JStr? then record["fact_id"].s
    else r.text(record["fact_id"])
  }

  function FactIds(facts: seq<Doc>, r: Recognisers): (ids: seq<string>)
    ensures |ids| == |facts| && forall i | 0 <= i < |ids| :: ids[i] == FactId(facts[i], r)
  {
    seq(|facts|, i requires 0 <= i < |facts| => FactId(facts[i], r))
  }

  function OutcomeOf(record: Doc): string
    requires HasOutcome(record)
  {
    Get(record, "expected_outcome").s
  }

  /** The positions of the facts with the outcome. */
  function WithOutcome(facts: seq<Doc>, outcome: string): set<int> {
    set i | 0 <= i < |facts| && HasOutcome(facts[i]) && OutcomeOf(facts[i]) == outcome
  }

  /** How many facts have each valid outcome that occurs. */
  function OutcomeCounts(facts: seq<Doc>): Counter<string> {
    map outcome | outcome in (set f | f in facts && HasOutcome(f) :: OutcomeOf(f)) :: |WithOutcome(facts, outcome)|
  }

  function Topics(facts: seq<Doc>): set<string> {
    set f | f in facts && HasTopic(f) :: Get(f, "topic").s
  }

  /** The sources some citation of some fact names. */
  function UsedSources(facts: seq<Doc>, index: map<string, Doc>): set<string> {
    set f, c | f in facts && c in Citations(f) && CitesKnown(c, index) :: Get(c.fields, "source_id").s
  }

  predicate AllFactsOk(facts: seq<Doc>, index: map<string, Doc>, r: Recognisers) {
    forall f | f in facts :: FactOk(f, index, r)
  }

  predicate EnoughOfEach(facts: seq<Doc>) {
    forall outcome | outcome in {SUPPORTED, CONTRADICTED, INSUFFICIENT} ::
      |WithOutcome(facts, outcome)| >= MINIMUM_OUTCOME
  }

  function OutcomeConditions(counts: Counter<string>): seq<Condition> {
    [(Count(counts, CONTRADICTED) >= MINIMUM_OUTCOME, CONTRADICTED),
     (Count(counts, INSUFFICIENT) >= MINIMUM_OUTCOME, INSUFFICIENT),
     (Count(counts, SUPPORTED) >= MINIMUM_OUTCOME, SUPPORTED)]
  }

  lemma CountIsNumber(facts: seq<Doc>, outcome: string)
    ensures Count(OutcomeCounts(facts), outcome) == |WithOutcome(facts, outcome)|
  {
    if outcome !in OutcomeCounts(facts) {
      forall i | 0 <= i < |facts| && HasOutcome(facts[i]) ensures OutcomeOf(facts[i]) != outcome {
        assert facts[i] in facts;
      }
      assert WithOutcome(facts, outcome) == {};
    }
  }

  lemma EnoughIff(facts: seq<Doc>)
    ensures AllHold(OutcomeConditions(OutcomeCounts(facts))) <==> EnoughOfEach(facts)
  {
    CountIsNumber(facts, CONTRADICTED);
    CountIsNumber(facts, INSUFFICIENT);
    CountIsNumber(facts, SUPPORTED);
    var conditions := OutcomeConditions(OutcomeCounts(facts));
    assert AllHold(conditions) ==> conditions[0].0 && conditions[1].0 && conditions[2].0;
  }

  /** Identifiers, completeness and emptiness. */
  predicate IdentifiersOk(facts: seq<Doc>, r: Recognisers) {
    && facts != []
    && (forall f | f in facts :: Complete(f, REQUIRED_FACT_FIELDS) && FactId(f, r) != "")
    && NoDuplicates(FactIds(facts, r))
  }

  /** Counts, topics and coverage of the sources. */
  predicate CoverageOk(facts: seq<Doc>, index: map<string, Doc>) {
    && |facts| >= MINIMUM_FACTS && EnoughOfEach(facts)
    && |Topics(facts)| >= MINIMUM_TOPICS
    && UsedSources(facts, index) == index.Keys
  }

  predicate FactsOk(facts: seq<Doc>, index: map<string, Doc>, r: Recognisers) {
    IdentifiersOk(facts, r) && AllFactsOk(facts, index, r) && CoverageOk(facts, index)
  }

  /** The checks of `_golden_fact_analysis` before its loop. */
  method IdentifierIssues(facts: seq<Doc>, r: Recognisers) returns (errors: seq<Issue>)
    ensures errors == [] <==> IdentifiersOk(facts, r)
  {
    var ids := FactIds(facts, r);
    ElementsCount(ids);
    errors := [];
    if exists f | f in facts :: !Complete(f, REQUIRED_FACT_FIELDS) {
      errors := errors + [Issue(Facts, "missing fields")];
    }
    if facts == [] { errors := errors + [Issue(Facts, "empty")]; }
    if exists i | 0 <= i < |ids| :: ids[i] == "" { errors := errors + [Issue(Facts, "empty fact_id")]; }
    if |ids| != |Elements(ids)| { errors := errors + [Issue(Facts, "duplicate fact_id")]; }
    assert (exists i | 0 <= i < |ids| :: ids[i] == "") <==> (exists f | f in facts :: FactId(f, r) == "") by {
      if exists f | f in facts :: FactId(f, r) == "" {
        var f :| f in facts && FactId(f, r) == "";
        var i :| 0 <= i < |facts| && facts[i] == f;
        assert ids[i] == "";
      }
    }
  }

  lemma RecordsStep(facts: seq<Doc>, i: nat, index: map<string, Doc>, r: Recognisers)
    requires i < |facts|
    ensures AllFactsOk(facts[..i + 1], index, r) <==> AllFactsOk(facts[..i], index, r) && FactOk(facts[i], index, r)
  {
    assert facts[..i + 1] == facts[..i] + [facts[i]];
  }

  lemma NumberStep(facts: seq<Doc>, record: Doc, outcome: string)
    ensures |WithOutcome(facts + [record], outcome)| ==
            |WithOutcome(facts, outcome)| + if HasOutcome(record) && OutcomeOf(record) == outcome then 1 else 0
  {
    var added := if HasOutcome(record) && OutcomeOf(record) == outcome then {|facts| as int} else {};
    assert WithOutcome(facts + [record], outcome) == WithOutcome(facts, outcome) + added;
  }

  lemma OutcomesStep(facts: seq<Doc>, record: Doc)
    ensures OutcomeCounts(facts + [record]) ==
            if HasOutcome(record) then Bump(OutcomeCounts(facts), OutcomeOf(record)) else OutcomeCounts(facts)
  {
    var before, after := OutcomeCounts(facts), OutcomeCounts(facts + [record]);
    var bumped := if HasOutcome(record) then Bump(before, OutcomeOf(record)) else before;
    assert forall f :: f in facts + [record] <==> f in facts || f == record;
    forall outcome ensures outcome in after <==> outcome in bumped {
    }
    forall outcome | outcome in after ensures after[outcome] == bumped[outcome] {
      NumberStep(facts, record, outcome);
      CountIsNumber(facts, outcome);
      CountIsNumber(facts + [record], outcome);
    }
  }

  lemma TotalsStep(facts: seq<Doc>, i: nat, index: map<string, Doc>)
    requires i < |facts|
    ensures Topics(facts[..i + 1]) == Topics(facts[..i]) + if HasTopic(facts[i]) then {Get(facts[i], "topic").s} else {}
    ensures UsedSources(facts[..i + 1], index) == UsedSources(facts[..i], index) + CitedBy(Citations(facts[i]), index)
  {
    assert facts[..i + 1] == facts[..i] + [facts[i]];
  }

  /** One turn of the loop of `_golden_fact_analysis`. */
  method AbsorbRecord(record: Doc, number: nat, index: map<string, Doc>, r: Recognisers,
                      errors: seq<Issue>, counts: Counter<string>, topics: set<string>, used: set<string>)
    returns (errors': seq<Issue>, counts': Counter<string>, topics': set<string>, used': set<string>)
    ensures errors' == [] <==> errors == [] && FactOk(record, index, r)
    ensures counts' == if HasOutcome(record) then Bump(counts, OutcomeOf(record)) else counts
    ensures topics' == topics + if HasTopic(record) then {Get(record, "topic").s} else {}
    ensures used' == used + CitedBy(Citations(record), index)
  {
    var recordErrors, sourceIds := FactRecordAnalysis(record, number, index, r);
    errors', counts', topics', used' := errors + recordErrors, counts, topics, used + sourceIds;
    if HasOutcome(record) {
      counts' := Bump(counts, OutcomeOf(record));
    }
    if HasTopic(record) {
      topics' := topics + {Get(record, "topic").s};
    }
  }

  /** The loop of `_golden_fact_analysis`. */
  method AnalyseRecords(facts: seq<Doc>, index: map<string, Doc>, r: Recognisers)
    returns (errors: seq<Issue>, counts: Counter<string>, topics: set<string>, used: set<string>)
    ensures errors == [] <==> AllFactsOk(facts, index, r)
    ensures counts == OutcomeCounts(facts) && topics == Topics(facts) && used == UsedSources(facts, index)
  {
    errors, counts, topics, used := [], map[], {}, {};
    for i := 0 to |facts|
      invariant errors == [] <==> AllFactsOk(facts[..i], index, r)
      invariant counts == OutcomeCounts(facts[..i])
      invariant topics == Topics(facts[..i])
      invariant used == UsedSources(facts[..i], index)
    {
      RecordsStep(facts, i, index, r);
      OutcomesStep(facts[..i], facts[i]);
      assert facts[..i + 1] == facts[..i] + [facts[i]];
      TotalsStep(facts, i, index);
      errors, counts, topics, used := AbsorbRecord(facts[i], i + 1, index, r, errors, counts, topics, used);
    }
    assert facts[..|facts|] == facts;
  }

  /** `_golden_fact_analysis` */
  method GoldenFactAnalysis(facts: seq<Doc>, index: map<string, Doc>, r: Recognisers)
    returns (errors: seq<Issue>, counts: Counter<string>)
    ensures errors == [] <==> FactsOk(facts, index, r)
    ensures counts == OutcomeCounts(facts)
  {
    errors := IdentifierIssues(facts, r);
    var recordErrors, topics, used;
    recordErrors, counts, topics, used := AnalyseRecords(facts, index, r);
    errors := errors + recordErrors;
    if |facts| < MINIMUM_FACTS { errors := errors + [Issue(Facts, "too few facts")]; }
    EnoughIff(facts);
    errors := errors + Raised(OutcomeConditions(counts), Facts);
    if |topics| < MINIMUM_TOPICS { errors := errors + [Issue(Facts, "too few topics")]; }
    if used != index.Keys { errors := errors + [Issue(Facts, "uncited source")]; }
  }

  /** The positions of the facts with any valid outcome. */
  function Decided(facts: seq<Doc>): set<int> {
    set i | 0 <= i < |facts| && HasOutcome(facts[i])
  }

  lemma {:induction false} DecidedCount(facts: seq<Doc>)
    ensures |Decided(facts)| <= |facts|
  {
    if facts == [] {
      assert Decided(facts) == {};
    } else {
      var front := facts[..|facts| - 1];
      DecidedCount(front);
      assert Decided(facts) == Decided(front) + if HasOutcome(facts[|facts| - 1]) then {|facts| - 1} else {};
    }
  }

  /** Twenty facts of each outcome are sixty facts: the total minimum never decides. */
  lemma TotalMinimumIsImplied(facts: seq<Doc>)
    requires EnoughOfEach(facts)
    ensures |facts| >= MINIMUM_FACTS
  {
    var supported, contradicted := WithOutcome(facts, SUPPORTED), WithOutcome(facts, CONTRADICTED);
    var insufficient := WithOutcome(facts, INSUFFICIENT);
    assert |SUPPORTED| == 9 && |CONTRADICTED| == 12 && |INSUFFICIENT| == 21;
    assert supported !! contradicted && (supported + contradicted) !! insufficient;
    var all := supported + contradicted + insufficient;
    assert |all| == |supported| + |contradicted| + |insufficient|;
    assert Decided(facts) == all;
    DecidedCount(facts);
  }

  // ---------------------------------------------------------------------------------------------
  // The review

  datatype Digests = Digests(facts: string, ledger: string, policy: string)

  function CounterJson(counts: Counter<string>): Json {
    JObj(map k | k in counts :: JNum(counts[k] as real))
  }

  predicate StartsWith(v: Json, prefix: string) {
    v.JStr? && prefix <= v.s
  }

  /** A complete review, with its conflict disclosed, of exactly these contents and numbers. */
  function ReviewConditions(review: Doc, digests: Digests, factCount: nat, counts: Counter<string>): seq<Condition> {
    [(Complete(review, REQUIRED_REVIEW_FIELDS), "missing fields"),
     (Get(review, "schema_version") == JStr("phase7.academic-golden-review.v1"), "schema_version"),
     (Get(review, "dataset_id") == DATASET_ID, "dataset_id"),
     (Get(review, "facts_content_sha256") == JStr(digests.facts), "facts_content_sha256"),
     (Get(review, "source_ledger_content_sha256") == JStr(digests.ledger), "source_ledger_content_sha256"),
     (Get(review, "review_policy_content_sha256") == JStr(digests.policy), "review_policy_content_sha256"),
     (Get(review, "review_policy_version") == JStr("phase7.academic-review-policy.v1"), "review_policy_version"),
     (PyEq(Get(review, "fact_count"), JNum(factCount as real)), "fact_count"),
     (PyEq(Get(review, "outcome_counts"), CounterJson(counts)), "outcome_counts"),
     (Get(review, "conflict_of_interest") == JStr("PROJECT_AND_DATASET_OWNER"), "conflict_of_interest"),
     (Truthy(Get(review, "conflict_disposition")), "conflict_disposition"),
     (Truthy(Get(review, "reviewer_qualification_statement")), "reviewer_qualification_statement"),
     (StartsWith(Get(review, "reviewer_subject_ref"), "github:"), "reviewer_subject_ref")]
  }

  /** An accepted review accepts the rights too, at a stated time. */
  function AcceptanceConditions(review: Doc, r: Recognisers): seq<Condition> {
    [(Get(review, "rights_review_decision") == ACCEPTED, "rights_review_decision"),
     (IsUtc(r, Get(review, "reviewed_at_utc")), "reviewed_at_utc")]
  }

  /** `_review_errors` */
  method ReviewIssues(review: Doc, digests: Digests, factCount: nat, counts: Counter<string>, r: Recognisers)
    returns (errors: seq<Issue>, decision: Json)
    ensures decision == Get(review, "decision")
    ensures errors == [] <==>
            && AllHold(ReviewConditions(review, digests, factCount, counts))
            && decision in {PENDING, ACCEPTED, REJECTED}
            && (decision == ACCEPTED ==> AllHold(AcceptanceConditions(review, r)))
  {
    errors := Raised(ReviewConditions(review, digests, factCount, counts), Review);
    decision := Get(review, "decision");
    if decision !in {PENDING, ACCEPTED, REJECTED} { errors := errors + [Issue(Review, "decision")]; }
    if decision == ACCEPTED {
      errors := errors + Raised(AcceptanceConditions(review, r), Review);
    }
  }

  datatype State = MissingFiles | Invalid | Accepted | PendingConfirmation | Rejected

  /** `_golden_review_state` */
  function ReviewState(decision: Json, errors: seq<Issue>): (State, bool) {
    if errors != [] then (Invalid, false)
    else if decision == ACCEPTED then (Accepted, true)
    else if decision == PENDING then (PendingConfirmation, false)
    else if decision == REJECTED then (Rejected, false)
    else (Invalid, false)
  }

  // ---------------------------------------------------------------------------------------------
  // Acceptance

  predicate IsDecision(decision: Json) {
    decision in {PENDING, ACCEPTED, REJECTED}
  }

  /** Nothing is wrong with the facts, their ledger and the review, whatever it decides. */
  predicate Sound(facts: seq<Doc>, review: Doc, ledger: Doc, digests: Digests, r: Recognisers) {
    && AllHold(ReviewConditions(review, digests, |facts|, OutcomeCounts(facts)))
    && (Get(review, "decision") == ACCEPTED ==> AllHold(AcceptanceConditions(review, r)))
    && LedgerOk(ledger, r)
    && FactsOk(facts, IndexOf(Sources(ledger)), r)
  }

  /** Said declaratively: an accepted, complete review of exactly these facts over a sound ledger, with
      every fact and citation sound, unique identifiers, and enough facts, topics and coverage. */
  predicate Acceptable(facts: seq<Doc>, review: Doc, ledger: Doc, digests: Digests, r: Recognisers) {
    && Get(review, "decision") == ACCEPTED && AllHold(AcceptanceConditions(review, r))
    && AllHold(ReviewConditions(review, digests, |facts|, OutcomeCounts(facts)))
    && LedgerOk(ledger, r)
    && FactsOk(facts, IndexOf(Sources(ledger)), r)
  }

  /** `_human_golden_status` once all files exist and parse. */
  method HumanGoldenStatus(facts: seq<Doc>, review: Doc, ledger: Doc, digests: Digests, r: Recognisers)
    returns (state: State, eligible: bool, errors: seq<Issue>)
    ensures eligible <==> Acceptable(facts, review, ledger, digests, r)
    ensures errors == [] <==> Sound(facts, review, ledger, digests, r) && IsDecision(Get(review, "decision"))
    ensures eligible <==> state == Accepted
    ensures state == Accepted <==> errors == [] && Get(review, "decision") == JStr("ACCEPTED")
    ensures state == Rejected <==> errors == [] && Get(review, "decision") == JStr("REJECTED")
    ensures state == PendingConfirmation <==>
            errors == [] && Get(review, "decision") == JStr("PENDING_HUMAN_HASH_CONFIRMATION")
    ensures state == Invalid <==> errors != []
  {
    var index, ledgerErrors := SourceLedgerIndex(ledger, r);
    var factErrors, counts := GoldenFactAnalysis(facts, index, r);
    var reviewErrors, decision := ReviewIssues(review, digests, |facts|, counts, r);
    errors := ledgerErrors + factErrors + reviewErrors;
    var verdict := ReviewState(decision, errors);
    state, eligible := verdict.0, verdict.1;
  }

  /** An eligible set cites exactly the sources its ledger identifies. */
  lemma EligibleSetCoversLedger(facts: seq<Doc>, review: Doc, ledger: Doc, digests: Digests, r: Recognisers, id: string)
    requires Acceptable(facts, review, ledger, digests, r)
    ensures id in UsedSources(facts, IndexOf(Sources(ledger))) <==>
            exists source | source in Sources(ledger) :: Identified(source) && SourceId(source) == id
  {
    IndexedIff(Sources(ledger), id);
  }

  // ---------------------------------------------------------------------------------------------
  // What an eligible set guarantees of each citation, fact and review

  lemma {:induction false} IndexedIsSource(sources: seq<Json>, id: string)
    requires id in IndexOf(sources)
    ensures exists source | source in sources ::
              Identified(source) && SourceId(source) == id && source.fields == IndexOf(sources)[id]
  {
    var front, last := sources[..|sources| - 1], sources[|sources| - 1];
    assert sources == front + [last];
    if Identified(last) && SourceId(last) == id {
      assert last in sources;
    } else {
      IndexedIsSource(front, id);
      var source :| source in front && Identified(source) && SourceId(source) == id
                    && source.fields == IndexOf(front)[id];
      assert source in sources;
    }
  }

  /** `source` is the ledger's entry for the citation. */
  ghost predicate IsCitedSource(ledger: Doc, citation: Json, source: Doc) {
    && citation.JObj?
    && exists entry | entry in Sources(ledger) ::
         Identified(entry) && JStr(SourceId(entry)) == Get(citation.fields, "source_id") && entry.fields == source
  }

  lemma CitedSource(facts: seq<Doc>, ledger: Doc, r: Recognisers, f: Doc, c: Json) returns (source: Doc)
    requires LedgerOk(ledger, r) && FactsOk(facts, IndexOf(Sources(ledger)), r) && f in facts && c in Citations(f)
    ensures IsCitedSource(ledger, c, source) && AllHold(SourceConditions(source, r))
    ensures AllHold(CitationConditions(c.fields, Get(f, "license_expression"), source, r))
  {
    var index := IndexOf(Sources(ledger));
    assert FactOk(f, index, r);
    assert CitationOk(c, Get(f, "license_expression"), index, r);
    var id := Get(c.fields, "source_id").s;
    source := index[id];
    IndexedIsSource(Sources(ledger), id);
    var entry :| entry in Sources(ledger) && Identified(entry) && SourceId(entry) == id && entry.fields == source;
    assert SourceOk(entry, r);
  }

  /** An included source under a Creative Commons license, with commercial reuse permitted, attribution
      required, and nothing but paraphrases taken. */
  predicate MayBeReused(source: Doc, r: Recognisers) {
    && Get(source, "license_expression") in {JStr("CC-BY-3.0"), JStr("CC-BY-4.0")}
    && Get(source, "status") == JStr("INCLUDED")
    && Get(source, "commercial_reuse_permitted") == JBool(true) && Get(source, "attribution_required") == JBool(true)
    && Get(source, "images_included") == JBool(false)
    && Get(source, "included_material") == JStr("PARAPHRASED_CHAPTER_FACTS_ONLY")
    && Truthy(Get(source, "license_evidence_locator")) && IsHttps(r, Get(source, "license_url"))
  }

  /** Work, chapter, authors, publisher and DOI are named, and the content at its address was hashed. */
  ghost predicate CanBeTraced(source: Doc, r: Recognisers) {
    && Truthy(Get(source, "work_title")) && Truthy(Get(source, "chapter_title"))
    && Get(source, "chapter_authors").JArr? && Get(source, "chapter_authors").items != []
    && Truthy(Get(source, "publisher")) && Truthy(Get(source, "doi"))
    && IsHttps(r, Get(source, "source_url")) && IsHttps(r, Get(source, "doi_url"))
    && IsHttps(r, Get(source, "metadata_url"))
    && IsSize(Get(source, "source_byte_size")) && IsDigest(Get(source, "source_content_sha256"))
    && IsUtc(r, Get(source, "remote_hash_verified_at_utc"))
  }

  predicate IsDigest(v: Json) {
    v.JStr? && |v.s| == 64 && forall c | c in v.s :: c in "0123456789abcdef"
  }

  lemma DigestIff(v: Json)
    ensures IsSha256(v) <==> IsDigest(v)
  {
    if v.JStr? {
      HexDigests.Sha256Iff(v.s);
    }
  }

  predicate EqualsWhole(v: Json, n: int) {
    PyEq(v, JNum(n as real))
  }

  /** A whole number of at least one; `True` equals one. */
  ghost predicate IsSize(v: Json) {
    exists n | n >= 1 :: EqualsWhole(v, n)
  }

  lemma SizeIff(v: Json)
    ensures IsPositiveInt(v) <==> IsSize(v)
  {
    if IsPositiveInt(v) {
      assert EqualsWhole(v, if v.JNum? then v.n.Floor else 1);
    }
  }

  lemma SourceMayBeReused(source: Doc, r: Recognisers)
    requires AllHold(SourceConditions(source, r))
    ensures MayBeReused(source, r)
  {
    var s := SourceConditions(source, r);
    assert s[9].0 && s[10].0 && s[11].0 && s[12].0 && s[13].0 && s[14].0 && s[16].0 && s[18].0;
  }

  lemma SourceCanBeTraced(source: Doc, r: Recognisers)
    requires AllHold(SourceConditions(source, r))
    ensures CanBeTraced(source, r)
  {
    var s := SourceConditions(source, r);
    assert s[0].0 && s[1].0 && s[2].0 && s[3].0 && s[4].0 && s[5].0 && s[6].0 && s[7].0 && s[8].0 && s[15].0 && s[17].0;
    DigestIff(Get(source, "source_content_sha256"));
    SizeIff(Get(source, "source_byte_size"));
  }

  /** Nothing else is asked of a source. */
  lemma SourceIsSound(source: Doc, r: Recognisers)
    requires MayBeReused(source, r) && CanBeTraced(source, r)
    ensures AllHold(SourceConditions(source, r))
  {
    DigestIff(Get(source, "source_content_sha256"));
    SizeIff(Get(source, "source_byte_size"));
  }

  /** Whatever an eligible fact cites is in the ledger, may be reused under the fact's own license, and can be
      traced: the citation has a locator and an HTTPS address of that source. */
  lemma EligibleCitation(facts: seq<Doc>, review: Doc, ledger: Doc, digests: Digests, r: Recognisers, f: Doc, c: Json)
    requires Acceptable(facts, review, ledger, digests, r) && f in facts && c in Citations(f)
    ensures exists source: Doc ::
              && IsCitedSource(ledger, c, source) && MayBeReused(source, r) && CanBeTraced(source, r)
              && PyEq(Get(source, "license_expression"), Get(f, "license_expression"))
              && Truthy(Get(c.fields, "locator")) && IsHttps(r, Get(c.fields, "source_url"))
              && Get(c.fields, "source_url") in {Get(source, "source_url"), Get(source, "doi_url")}
  {
    var source := CitedSource(facts, ledger, r, f, c);
    SourceMayBeReused(source, r);
    SourceCanBeTraced(source, r);
    CitationMeans(c.fields, Get(f, "license_expression"), source, r);
  }

  lemma CitationMeans(citation: Doc, license: Json, source: Doc, r: Recognisers)
    requires AllHold(CitationConditions(citation, license, source, r))
    ensures PyEq(Get(source, "license_expression"), license)
    ensures Truthy(Get(citation, "locator")) && IsHttps(r, Get(citation, "source_url"))
    ensures Get(citation, "source_url") in {Get(source, "source_url"), Get(source, "doi_url")}
  {
    var k := CitationConditions(citation, license, source, r);
    assert k[0].0 && k[1].0 && k[2].0;
  }

  /** An English statement for the academic module, without personal data or source text, with one of the
      three outcomes. */
  predicate IsStatement(f: Doc) {
    && Get(f, "target_module") == JStr("C3_ACADEMIC") && Get(f, "language") == JStr("en-US")
    && Get(f, "contains_personal_data") == JBool(false) && Get(f, "source_text_reproduced") == JBool(false)
    && Get(f, "curation_method") == JStr("ORIGINAL_PARAPHRASE_FROM_LICENSED_SOURCE")
    && Get(f, "schema_version") == JStr("phase7.academic-golden-fact.v1")
    && Get(f, "dataset_id") == JStr("phase7-academic-human-reviewed-facts.v1")
    && Get(f, "license_expression") in {JStr("CC-BY-3.0"), JStr("CC-BY-4.0")}
    && Get(f, "expected_outcome") in {JStr("SUPPORTED"), JStr("CONTRADICTED"), JStr("INSUFFICIENT_EVIDENCE")}
  }

  lemma FactIsStatement(f: Doc)
    ensures AllHold(FactConditions(f)) <==> IsStatement(f)
  {
    var k := FactConditions(f);
    if AllHold(k) {
      assert k[0].0 && k[1].0 && k[2].0 && k[3].0 && k[4].0 && k[5].0 && k[6].0 && k[7].0 && k[8].0;
    }
  }

  /** An eligible fact is such a statement, with a citation and an identifier of its own. */
  lemma EligibleFact(facts: seq<Doc>, review: Doc, ledger: Doc, digests: Digests, r: Recognisers, i: nat)
    requires Acceptable(facts, review, ledger, digests, r) && i < |facts|
    ensures IsStatement(facts[i]) && IsWritten(facts[i])
    ensures Citations(facts[i]) != [] && Get(facts[i], "citations") == JArr(Citations(facts[i]))
    ensures forall j | 0 <= j < |facts| && j != i :: FactId(facts[j], r) != FactId(facts[i], r)
  {
    EachFactOk(facts, IndexOf(Sources(ledger)), r, i);
    FactIsStatement(facts[i]);
    IdentifiersDiffer(facts, r, i);
    FactIsWritten(facts, r, i);
  }

  predicate Given(record: Doc, field: string) {
    Get(record, field) !in {JNull, JStr(""), JArr([])}
  }

  /** Identifier, claim, topic, difficulty and rationale are given. */
  predicate IsWritten(f: Doc) {
    && Given(f, "fact_id") && Given(f, "claim") && Given(f, "topic")
    && Given(f, "difficulty") && Given(f, "expected_outcome_rationale")
  }

  lemma FactIsWritten(facts: seq<Doc>, r: Recognisers, i: nat)
    requires IdentifiersOk(facts, r) && i < |facts|
    ensures IsWritten(facts[i])
  {
    assert facts[i] in facts;
    var fields := REQUIRED_FACT_FIELDS;
    assert fields[2] in fields && fields[4] in fields && fields[5] in fields;
    assert fields[7] in fields && fields[9] in fields;
  }

  lemma EachFactOk(facts: seq<Doc>, index: map<string, Doc>, r: Recognisers, i: nat)
    requires AllFactsOk(facts, index, r) && i < |facts|
    ensures AllHold(FactConditions(facts[i])) && Citations(facts[i]) != []
  {
    assert FactOk(facts[i], index, r);
  }

  lemma IdentifiersDiffer(facts: seq<Doc>, r: Recognisers, i: nat)
    requires NoDuplicates(FactIds(facts, r)) && i < |facts|
    ensures forall j | 0 <= j < |facts| && j != i :: FactId(facts[j], r) != FactId(facts[i], r)
  {
    var ids := FactIds(facts, r);
    forall j | 0 <= j < |facts| && j != i ensures FactId(facts[j], r) != FactId(facts[i], r) {
      assert if i < j then ids[i] != ids[j] else ids[j] != ids[i];
    }
  }

  /** The review names exactly these contents and numbers. */
  predicate NamesContents(review: Doc, digests: Digests, factCount: nat, counts: Counter<string>) {
    && Get(review, "facts_content_sha256") == JStr(digests.facts)
    && Get(review, "source_ledger_content_sha256") == JStr(digests.ledger)
    && Get(review, "review_policy_content_sha256") == JStr(digests.policy)
    && PyEq(Get(review, "fact_count"), JNum(factCount as real))
    && PyEq(Get(review, "outcome_counts"), JObj(map k | k in counts :: JNum(counts[k] as real)))
  }

  /** No field that a review needs is left out. */
  predicate IsCompleteReview(review: Doc) {
    GivesContents(review) && GivesDecision(review)
  }

  predicate GivesContents(review: Doc) {
    && Given(review, "schema_version") && Given(review, "dataset_id") && Given(review, "facts_content_sha256")
    && Given(review, "source_ledger_content_sha256") && Given(review, "review_policy_content_sha256")
    && Given(review, "fact_count") && Given(review, "outcome_counts")
  }

  predicate GivesDecision(review: Doc) {
    && Given(review, "reviewer_subject_ref") && Given(review, "reviewer_qualification_statement")
    && Given(review, "conflict_of_interest") && Given(review, "conflict_disposition")
    && Given(review, "review_policy_version") && Given(review, "rights_review_decision") && Given(review, "decision")
  }

  lemma GivenIff(record: Doc, field: string)
    ensures Given(record, field) <==> !Blank(record, field)
  {
  }

  /** Every required field is given, by its place in the list. */
  lemma GivenAt(record: Doc, required: seq<string>)
    requires Complete(record, required)
    ensures forall i | 0 <= i < |required| :: Given(record, required[i])
  {
    forall i | 0 <= i < |required| ensures Given(record, required[i]) {
      GivenIff(record, required[i]);
    }
  }

  lemma CompleteReview(review: Doc, required: seq<string>)
    requires required == REQUIRED_REVIEW_FIELDS && forall i | 0 <= i < |required| :: Given(review, required[i])
    ensures GivesContents(review)
  {
    assert required[0] == "schema_version" && required[1] == "dataset_id" && required[2] == "facts_content_sha256";
    assert required[3] == "source_ledger_content_sha256" && required[4] == "review_policy_content_sha256";
    assert required[10] == "fact_count" && required[11] == "outcome_counts";
  }

  lemma CompleteDecision(review: Doc, required: seq<string>)
    requires required == REQUIRED_REVIEW_FIELDS && forall i | 0 <= i < |required| :: Given(review, required[i])
    ensures GivesDecision(review)
  {
    assert required[5] == "reviewer_subject_ref" && required[6] == "reviewer_qualification_statement";
    assert required[7] == "conflict_of_interest" && required[8] == "conflict_disposition";
    assert required[9] == "review_policy_version" && required[12] == "rights_review_decision";
    assert required[13] == "decision";
  }

  /** It discloses its conflict of interest and identifies its reviewer. */
  predicate IsDisclosed(review: Doc) {
    && Get(review, "conflict_of_interest") == JStr("PROJECT_AND_DATASET_OWNER")
    && Truthy(Get(review, "conflict_disposition")) && Truthy(Get(review, "reviewer_qualification_statement"))
    && Get(review, "reviewer_subject_ref").JStr? && "github:" <= Get(review, "reviewer_subject_ref").s
  }

  lemma ReviewMeans(review: Doc, digests: Digests, factCount: nat, counts: Counter<string>)
    requires AllHold(ReviewConditions(review, digests, factCount, counts))
    ensures NamesContents(review, digests, factCount, counts) && IsDisclosed(review) && IsCompleteReview(review)
    ensures Get(review, "schema_version") == JStr("phase7.academic-golden-review.v1")
    ensures Get(review, "dataset_id") == JStr("phase7-academic-human-reviewed-facts.v1")
    ensures Get(review, "review_policy_version") == JStr("phase7.academic-review-policy.v1")
  {
    var k := ReviewConditions(review, digests, factCount, counts);
    assert k[0].0 && k[1].0 && k[2].0 && k[6].0;
    GivenAt(review, REQUIRED_REVIEW_FIELDS);
    CompleteReview(review, REQUIRED_REVIEW_FIELDS);
    CompleteDecision(review, REQUIRED_REVIEW_FIELDS);
    assert k[3].0 && k[4].0 && k[5].0 && k[7].0 && k[8].0 && k[9].0 && k[10].0 && k[11].0 && k[12].0;
  }

  /** An eligible set was accepted by such a review, in its rights too, at a stated time. */
  lemma EligibleReview(facts: seq<Doc>, review: Doc, ledger: Doc, digests: Digests, r: Recognisers)
    requires Acceptable(facts, review, ledger, digests, r)
    ensures NamesContents(review, digests, |facts|, OutcomeCounts(facts)) && IsDisclosed(review)
    ensures IsCompleteReview(review)
    ensures Get(review, "decision") == JStr("ACCEPTED") && Get(review, "rights_review_decision") == JStr("ACCEPTED")
    ensures IsUtc(r, Get(review, "reviewed_at_utc"))
  {
    ReviewMeans(review, digests, |facts|, OutcomeCounts(facts));
    var a := AcceptanceConditions(review, r);
    assert a[0].0 && a[1].0;
  }

  /** Its ledger rules out the four prohibited uses, and no two of its sources share an identifier. */
  lemma EligibleLedger(facts: seq<Doc>, review: Doc, ledger: Doc, digests: Digests, r: Recognisers)
    requires Acceptable(facts, review, ledger, digests, r)
    ensures Get(ledger, "schema_version") == JStr("phase7.academic-source-ledger.v1")
    ensures Sources(ledger) != [] && Get(ledger, "included_sources") == JArr(Sources(ledger))
    ensures Get(ledger, "rights_boundary").JObj? && DistinctSources(Sources(ledger))
    ensures var boundary := Get(ledger, "rights_boundary").fields;
            && Get(boundary, "compilation_text_reused") == JBool(false)
            && Get(boundary, "chapter_figures_reused") == JBool(false)
            && Get(boundary, "chapter_tables_reused") == JBool(false)
            && Get(boundary, "verbatim_source_text_reused") == JBool(false)
  {
    var u := UseConditions(Get(ledger, "rights_boundary").fields);
    assert u[0].0 && u[1].0 && u[2].0 && u[3].0;
  }

  lemma TopicsIff(facts: seq<Doc>, topic: string)
    ensures topic in Topics(facts) <==> topic != "" && exists f | f in facts :: Get(f, "topic") == JStr(topic)
  {
  }

  /** And it is large and varied enough: twenty facts of each outcome and sixteen topics. */
  lemma EligibleNumbers(facts: seq<Doc>, review: Doc, ledger: Doc, digests: Digests, r: Recognisers)
    requires Acceptable(facts, review, ledger, digests, r)
    ensures |facts| >= 60 && |Topics(facts)| >= 16
    ensures |WithOutcome(facts, "SUPPORTED")| >= 20 && |WithOutcome(facts, "CONTRADICTED")| >= 20
    ensures |WithOutcome(facts, "INSUFFICIENT_EVIDENCE")| >= 20
  {
  }
}
