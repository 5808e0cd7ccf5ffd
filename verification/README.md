# Verified models of the CyberControl release tooling

CyberControl's release gates are decided by a handful of Python tools: one compiles data contracts to
TypeScript, one walks the Node dependency graph into an SBOM, others judge license texts, accuracy
records, latency samples, governance documents, license evidence, golden facts and a Docker migration.
This project models their decision logic in Dafny and proves what each decision means.
`dafny verify dfyconfig.toml` checks everything.

| module | models | main results |
|---|---|---|
| `Contracts`, `ContractTypes`, `ContractLimits`, `Literals`, `ContractRegistry`, `SchemaEquality` | `tools/export_contracts.py` | the emitted TypeScript types admit every valid JSON value of every compilable schema, and of every schema exactly the values valid against what the compiler keeps of it; the exact condition for soundness of constants, arrays, records, objects, lists of types and interfaces; the merged export is sound end to end |
| `Spdx`, `SpdxTexts` (with `Text`) | `tools/gate_c_supply_chain.py` | the one-pass recogniser decides the grammar, which is unambiguous; how texts fall into tokens; the normaliser is idempotent, lands in the grammar and keeps expressions |
| `Sbom`, `Purl` (with `Reachability`, `Sorting`, `Distinct`) | `tools/generate_node_sbom.py` | the walk terminates and records exactly the reachable part; one graph gives one document, which the validator accepts; package URLs decode |
| `Percentile`, `Rounding` | `backend/benchmarks/topic4_c2_retrieval.py` | order properties of interpolation, through the sort and the rounding |
| `Accuracy`, `Spans` (with `Counters`) | `tools/acceptance/run-phase7-c3-accuracy.py` | conserved counts; passing recalls decide accuracy and abstention; spans recover their claims |
| `Governance` (with `JsonValues`) | `tools/gate_c_governance.py` | safety along every run of accepted steps; merging and cutting steps |
| `Enrichment`, `DistributionNames`, `JsonStrings` | `tools/complete_python_sbom_license_evidence.py` | what is written and where; confluence, and exactly when a second pass changes nothing |
| `GoldenSet` (with `HexDigests`) | `tools/acceptance/build-phase7-dataset-inventory.py` | acceptance is equivalent to one declarative condition |
| `Migration` | `tools/gate_c_docker_migration.py` | differences partition the inventory; the verdict and its monotonicity |

Findings, each proved as a lemma:

- Python's `==` lets `{"const": true}` and `{"const": 1}` share one TypeScript name
  (`ContractRegistry.BooleanAndNumberCollide`).
- `tools/export_contracts.py` prints `items` for the `prefixItems` positions too, and `additionalProperties`
  for pattern-matched names too (`ContractLimits.PrefixItemsEscape`, `ContractLimits.PatternPropertiesEscape`);
  a schema with `properties` and no matching `type` loses its scalars (`Contracts.SoundIffPropertiesGuarded`),
  and an object constant is printed as an open object type (`ContractLimits.ObjectConstantEscapes`).
- A merged governance step can fail the transition check that both of its parts passed
  (`Governance.MergedStepCanFail`).
- Enrichment rejects its own output when the expression it wrote does not occur in its own JSON text, as
  with any character outside printable ASCII (`Enrichment.SecondPassCanFail`).

Floats are exact reals; `round` is half-even on them. Reading files, subprocesses, hashing and clocks
are parameters or left out.

## Model

| member | source | states |
|---|---|---|
| Contracts.CompileSound | tools/export_contracts.py:46-90 | a value valid under a compilable schema, by a derivation unfolding n references, inhabits the emitted type within the same n |
| Contracts.CompilableIsSound | tools/export_contracts.py:70-90 | soundness over all interpretations of the keywords not compiled, recursion included |
| Contracts.DeclareSound | tools/export_contracts.py:93-106 | the same for the declaration of a definition: an alias, or an interface for a type that admits only objects |
| Contracts.SoundIffPropertiesGuarded | tools/export_contracts.py:82-83 | where the object branch is reached, the type is sound if and only if `properties` stands beside `object`, `array` or a list of these and `null` |
| Contracts.CompilePrecise | tools/export_contracts.py:46-90 | on schemas TypeScript can express, constants and enumerations beside their type and annotations included (no object constants), whatever inhabits the emitted type is valid; `ContractTypes.CutIff` does closed objects |
| Contracts.PreciseIsExact | tools/export_contracts.py:46-106 | there the schema and the type hold of exactly the same values |
| ContractTypes.ObjectTypeIff | tools/export_contracts.py:57-67 | an object type holds of exactly the objects that have every declared required property and whose declared properties are of the types of their own schemas, whatever `additionalProperties` and the assertions say |
| ContractTypes.InterfaceTypeIff | tools/export_contracts.py:93-106 | the same for every interface |
| ContractTypes.CutIff | tools/export_contracts.py:57-106 | a value is of an object type or interface exactly when it is valid once its undeclared fields are cut off, closed objects included |
| ContractTypes.CompileIsKept | tools/export_contracts.py:46-106 | with local references and constants that print exactly, the type of any schema holds of exactly the values valid against what the compiler keeps of it: no assertions, objects open, integers as numbers, undeclared required names dropped |
| ContractTypes.IntegersAreNumbers | tools/export_contracts.py:84-90 | the type of integers admits every number, the schema only whole ones |
| ContractTypes.ReferencePrintsName | tools/export_contracts.py:47-48 | a reference into `$defs` is printed as the name of the definition |
| Literals.HoldsOfItself | tools/export_contracts.py:36-43 | the type printed for a constant holds of it exactly when no Python name and no escape that TypeScript misreads is printed inside |
| Literals.UnionExactIff | tools/export_contracts.py:36-52 | a union of printed constants holds of these values and no other exactly when, besides, no object occurs in any of them at any depth |
| Literals.EqualHolds | tools/export_contracts.py:36-43 | among values Python calls equal, the type printed for a constant holds only of the constant itself |
| ContractLimits.ValuesSoundIff | tools/export_contracts.py:49-52 | `const` or `enum` beside any keywords but `$ref` compiles soundly exactly when each listed value the others allow is of a type printed for the list |
| ContractLimits.PlainValuesSoundIff | tools/export_contracts.py:49-52 | beside `type`, annotations and uncompiled keywords this is a condition on the listed values alone |
| ContractLimits.ConstantSoundIffPrintable | tools/export_contracts.py:49-50 | a constant compiles soundly exactly when it prints, unless the other keywords exclude it |
| ContractLimits.ConstantExactIff | tools/export_contracts.py:49-50 | the compiled type is exact if and only if the constant prints, holds no object and is always valid, or nothing is valid and the type is empty |
| ContractLimits.PlainValuesExactIff | tools/export_contracts.py:49-52 | constants and enumerations beside a type that allows them are exact if and only if each value prints and holds no object |
| ContractLimits.ObjectConstantEscapes | tools/export_contracts.py:43 | `{"const": {"a": 1}}` is printed as a type with further inhabitants |
| ContractLimits.RecordSoundIff | tools/export_contracts.py:59-61 | a record type is as sound as its element; beside `patternProperties` it is sound exactly when the element type excludes nothing |
| ContractLimits.ArraySoundIff | tools/export_contracts.py:80-81 | an array type is sound exactly when, at every position some array reaches, the values admitted there are of the type printed for `items` |
| ContractLimits.StructSoundIff | tools/export_contracts.py:62-67 | an object type is sound exactly when each property's values, in objects that can have it, are of the type printed for it |
| ContractLimits.ListSoundIff | tools/export_contracts.py:75-79 | a guarded list of types is sound exactly when each of its types but null is |
| ContractLimits.InterfaceSoundIff | tools/export_contracts.py:94-106 | an interface is a sound declaration exactly when the type admits only objects |
| ContractLimits.PrefixItemsEscape | tools/export_contracts.py:80-81 | a concrete schema with `prefixItems` whose type is unsound |
| ContractLimits.PatternPropertiesEscape | tools/export_contracts.py:58-61 | a concrete schema with `patternProperties` whose type is unsound |
| ContractRegistry.AddRegistration | tools/export_contracts.py:251-261 | one registration is merged exactly when no name clashes, definitions first, then the root |
| ContractRegistry.CollectDefinitions | tools/export_contracts.py:232-261 | the loop succeeds exactly on accepted registries, and returns their merge |
| ContractRegistry.AcceptedIffConsistent | tools/export_contracts.py:251-261 | the incremental check accepts exactly the registries in which all bindings of a name agree keyword by keyword, subschemas recursively and JSON values up to Python's `==` |
| ContractRegistry.AcceptedIsOne | tools/export_contracts.py:251-261 | so two bindings of a name without booleans are one schema |
| ContractRegistry.MergeKeepsLast | tools/export_contracts.py:251-261 | the merge holds, under each name, the last binding, a root before the `$defs` beside it |
| SchemaEquality.CanonIff | tools/export_contracts.py:253-259 | Python's `!=` between schemas, through one representative, is disagreement in some keyword |
| SchemaEquality.SameSchemaIsEqual | tools/export_contracts.py:253-259 | without booleans Python's equality of schemas is identity |
| JsonValues.PyEqIff | tools/export_contracts.py:253-259 | and between JSON values it compares numbers and booleans by number and all else by shape |
| ContractRegistry.ExportedIffCarried | tools/export_contracts.py:232-272 | with soundly compiled definitions a contract is exported soundly if what is valid under its own `$defs` is valid under the merged ones; with exactly compiled definitions, only then |
| ContractRegistry.ExportedValuesIff | tools/export_contracts.py:251-261 | a contract of constants is exported soundly exactly when each constant allowed is of the type printed for the constants the merge kept, whatever the other definitions are |
| ContractRegistry.ExportedConstantIff | tools/export_contracts.py:251-261 | for a single constant: exactly when the constant kept is the same, not merely equal to Python, and prints |
| ContractRegistry.ExportSound | tools/export_contracts.py:232-272 | so if no two bindings of a name differ while being equal to Python, every contract is exported soundly |
| ContractRegistry.BooleanAndNumberCollide | tools/export_contracts.py:252-255 | a concrete accepted registry with a contract that is not, because `True == 1` |
| ContractRegistry.AmbiguousButSound | tools/export_contracts.py:252-255 | a concrete accepted registry with two differing bindings of a name whose contracts all are |
| Spdx.IsSpdxExpression | tools/gate_c_supply_chain.py:64-85 | the loop accepts a text exactly when the grammar derives its tokens |
| Spdx.ScanIffDerives | tools/gate_c_supply_chain.py:69-85 | the automaton with a depth counter is sound and complete for the grammar |
| Spdx.Unambiguous | tools/gate_c_supply_chain.py:64-85 | every accepted token list has one derivation |
| SpdxTexts.TokensSpell | tools/gate_c_supply_chain.py:66 | the tokens joined are the text without its blanks; each is a parenthesis or free of parentheses |
| SpdxTexts.TokensStep | tools/gate_c_supply_chain.py:66 | a blank is skipped, a parenthesis is a token, and so is a longest stretch of anything else |
| SpdxTexts.ParenthesesAreAccepted | tools/gate_c_supply_chain.py:64-85 | an accepted text in parentheses is accepted |
| SpdxTexts.OperatorsAreAccepted | tools/gate_c_supply_chain.py:64-85 | accepted texts joined by an operator are accepted |
| SpdxTexts.GroupedChoiceIsAccepted | tools/gate_c_supply_chain.py:64-85 | of any three identifiers, a choice in parentheses beside the third is accepted |
| SpdxTexts.OpenExpression | tools/gate_c_supply_chain.py:85 | a dangling operator behind an accepted text is rejected |
| SpdxTexts.UnclosedGroup | tools/gate_c_supply_chain.py:85 | an open parenthesis before an accepted text is rejected |
| Spdx.NormaliseIsExpression | tools/gate_c_supply_chain.py:112-123 | every non-empty result is an expression |
| Spdx.NormaliseIsIdempotent | tools/gate_c_supply_chain.py:112-123 | normalising twice is normalising once |
| Spdx.NormaliseKeepsExpression | tools/gate_c_supply_chain.py:113-119 | an expression that is no alias keeps its tokens |
| Spdx.AliasFacts | tools/gate_c_supply_chain.py:88-99 | alias targets are identifiers and no aliases |
| SpdxTexts.AliasNormalises | tools/gate_c_supply_chain.py:116-117 | a text that collapses to an alias becomes what stands for it |
| SpdxTexts.DescriptiveName | tools/gate_c_supply_chain.py:118-123 | a text that is neither alias nor expression becomes a custom identifier of its slug |
| SpdxTexts.SlugJoinsWords | tools/gate_c_supply_chain.py:122 | in a slug one hyphen stands for any run of other characters |
| SpdxTexts.SlugStrips | tools/gate_c_supply_chain.py:122 | what stands around a word goes, and nothing left is `Unspecified` |
| SpdxTexts.NormaliseIgnoresBlanks | tools/gate_c_supply_chain.py:113-115 | texts with the same words become the same; no words become nothing |
| Purl.PurlRoundTrip | tools/generate_node_sbom.py:45-48 | decoding a package URL gives the name and version back |
| Purl.PurlInjective | tools/generate_node_sbom.py:45-48 | distinct packages never share a reference |
| Purl.OthersAreQuoted | tools/generate_node_sbom.py:45-48 | every other byte becomes a percent sign and two upper-case hexadecimal digits of its value |
| Purl.ScopedPurl | tools/generate_node_sbom.py:45-48 | the package URL of a scoped package: `@` quoted, `/` not, `+` kept in the version |
| Sbom.Walk.Note | tools/generate_node_sbom.py:112-150 | exactly one edge is added and at most one component; a known component keeps everything but its scope, which only rises |
| Sbom.AddsFaithful | tools/generate_node_sbom.py:112-150 | such an addition, when the child is reachable, records nothing that is false of the graph |
| Sbom.Walk.Visit | tools/generate_node_sbom.py:109-157 | on any finite graph the visit ends, records nothing false, registers its child, and leaves every visited object expanded unless its visit is still running |
| Sbom.Walk.VisitItems | tools/generate_node_sbom.py:156-161 | the same for a whole list of children |
| Sbom.FinishedIsExact | tools/generate_node_sbom.py:107-161 | a finished walk holds exactly the reachable markers, references, edges and required scopes |
| Sbom.BuildBom | tools/generate_node_sbom.py:102-200 | the document is the declarative one: sorted listings of what is reachable, required exactly where an edge of group `dependencies` arrives; it validates |
| Sbom.ItemsIff | tools/generate_node_sbom.py:92-99 | the children of an object are the entries of its own three groups |
| Sbom.EntryIsListed | tools/generate_node_sbom.py:92-167 | every entry of every group of the root or a reached object is a component and a dependency of its parent by its package URL, and required if in `dependencies` |
| Sbom.ListedIsEntry | tools/generate_node_sbom.py:92-167 | every dependency listed comes from such an entry |
| Sbom.RequiredIsEntry | tools/generate_node_sbom.py:112-161 | a component is required only because of an entry in some `dependencies` |
| Sbom.ListComponents | tools/generate_node_sbom.py:163 | components strictly sorted by reference, none lost |
| Sbom.ListDependencies | tools/generate_node_sbom.py:164-167 | adjacency lists strictly sorted, with strictly sorted targets |
| Sbom.BomIgnoresOrder | tools/generate_node_sbom.py:92-99 | graphs that differ only in the order and repetition of children have equal documents |
| Sbom.ValidateBomAccepts | tools/generate_node_sbom.py:203-213 | the validator accepts exactly unique components and known edge ends |
| Sbom.BuiltBomIsValid | tools/generate_node_sbom.py:255-256 | every document of every graph is accepted |
| Percentile.PercentileBetween | backend/benchmarks/topic4_c2_retrieval.py:241-247 | the value lies between the two adjacent order statistics |
| Percentile.PercentileRunsStraight | backend/benchmarks/topic4_c2_retrieval.py:238-247 | between two order statistics it runs along the straight line, which determines it |
| Percentile.PercentileMonotoneInFraction | backend/benchmarks/topic4_c2_retrieval.py:238-247 | a larger fraction gives no smaller value |
| Percentile.PercentileMonotoneInSamples | backend/benchmarks/topic4_c2_retrieval.py:241-247 | raising samples never lowers the value, through the sort |
| Percentile.PercentileIgnoresOrder | backend/benchmarks/topic4_c2_retrieval.py:241 | permuted samples give the same value |
| Percentile.PercentileIsMedian | backend/benchmarks/topic4_c2_retrieval.py:372 | at one half it is the median |
| Percentile.PercentileOneIsMaximum | backend/benchmarks/topic4_c2_retrieval.py:375 | at one it is the maximum |
| Percentile.ReportedInOrder | backend/benchmarks/topic4_c2_retrieval.py:372-375 | the rounded p50, p95, p99 and maximum come in order |
| Percentile.ReportedIsNearest | backend/benchmarks/topic4_c2_retrieval.py:372-375 | each statistic reported is its own value to the nearest thousandth |
| Rounding.RoundMonotone | tools/acceptance/run-phase7-c3-accuracy.py:270-271 | half-even rounding to fixed places is monotone |
| Accuracy.Tally | tools/acceptance/run-phase7-c3-accuracy.py:275-283 | the counters hold every cell, row total and answer count, or the unreviewed outcome is named |
| Accuracy.ClassificationMetrics | tools/acceptance/run-phase7-c3-accuracy.py:274-323 | every reported number in terms of counts of records, the sorted confusion matrix included |
| Accuracy.ClassIs | tools/acceptance/run-phase7-c3-accuracy.py:286-300 | of each class, hits are its diagonal cell, precision is hits over answers and recall is hits over expected records |
| Accuracy.UnsafeIdsMembers | tools/acceptance/run-phase7-c3-accuracy.py:302-306 | the unsafe list names exactly the contradicted facts answered as supported |
| Accuracy.CountsConserved | tools/acceptance/run-phase7-c3-accuracy.py:285-321 | tp, fp, tn and fn split the total with none negative; false positives plus unexpected answers equal false negatives equal wrong records; the unsafe list is one cell |
| Accuracy.EvaluateThresholds | tools/acceptance/run-phase7-c3-accuracy.py:330-362 | passed means every check passes; the failed list is the sorted texts of the others |
| Accuracy.FailedByName | tools/acceptance/run-phase7-c3-accuracy.py:330-362 | by literal name: a check fails when its number is unmeasurable or below nine tenths, or not zero |
| Accuracy.FailedClassByName | tools/acceptance/run-phase7-c3-accuracy.py:349-356 | the same for precision and recall of each outcome |
| Accuracy.WeightedMean | tools/acceptance/run-phase7-c3-accuracy.py:311 | accuracy is at least the least recall |
| Accuracy.RecallsDecideAccuracy | tools/acceptance/run-phase7-c3-accuracy.py:336-356 | if the three recall checks pass, so do accuracy and abstention, despite rounding |
| Accuracy.VerdictWithoutAccuracy | tools/acceptance/run-phase7-c3-accuracy.py:336-360 | so those two checks never change the verdict |
| Spans.CandidateAndSpans | tools/acceptance/run-phase7-c3-accuracy.py:377-383 | the joined text, and for each statement the span after all earlier statements and separators |
| Spans.SpanRecoversStatement | tools/acceptance/run-phase7-c3-accuracy.py:380-383 | slicing the text at a span gives its statement |
| Spans.SpansTileText | tools/acceptance/run-phase7-c3-accuracy.py:380-383 | spans start at zero, are one newline apart and end with the text |
| Spans.SpansDisjoint | tools/acceptance/run-phase7-c3-accuracy.py:380-382 | earlier spans end before later ones start |
| Spans.BuildClaims | tools/acceptance/run-phase7-c3-accuracy.py:523-554 | strict zip: one claim per fact with its words, ordinal and span, or an error |
| Spans.ExtractClaims | tools/acceptance/run-phase7-c3-accuracy.py:377-554 | every claim's span cuts its statement out of the candidate text |
| Governance.AssertAppendOnly | tools/gate_c_governance.py:101-107 | returns the appended objects exactly when the old list is a prefix |
| Governance.ValidateNewHistory | tools/gate_c_governance.py:138-147 | accepts exactly contiguous, typed and versioned entries |
| Governance.ValidateNewAttempts | tools/gate_c_governance.py:150-181 | accepts exactly contiguous terminal attempts, each bound to one metadata record |
| Governance.ValidateStateTransitions | tools/gate_c_governance.py:184-206 | accepts exactly explained product and formal changes |
| Governance.ValidateHistory | tools/gate_c_governance.py:209-250 | accepts exactly the accepted steps, and its receipt adds up |
| Governance.AttemptIsBound | tools/gate_c_governance.py:150-181 | every attempt an accepted step adds is the next in number, passes or fails, and has exactly one full formal record of its own run and product |
| Governance.ResultIff | tools/gate_c_governance.py:160-165 | a result passes or fails by its word in any letter case |
| Governance.HistoryEntryIff | tools/gate_c_governance.py:138-147 | a history entry passes when it is an object of one of the six literal types with its number, a change type and the process version |
| Governance.AcceptanceCanHappen | tools/gate_c_governance.py:184-250 | from twelve attempts and an open gate a thirteenth that passes leads to acceptance |
| Governance.ListsOnlyGrow | tools/gate_c_governance.py:101-107 | in every run earlier histories and attempts are prefixes of later ones |
| Governance.SequencesStayContiguous | tools/gate_c_governance.py:138-157 | in every run numbers that start contiguous stay so |
| Governance.MergedStepAppends | tools/gate_c_governance.py:228-234 | two accepted steps made in one pass the append-only and history checks |
| Governance.MergedTransitionsIff | tools/gate_c_governance.py:184-206 | and the transition check exactly when no later entry hides the remediation or the passing attempt |
| Governance.MergedAttemptsIff | tools/gate_c_governance.py:150-181 | and the attempt checks, with the records of both steps, exactly when no record of one step binds an attempt of the other |
| Governance.MergedStepIff | tools/gate_c_governance.py:209-250 | so the merged step is accepted exactly under these two conditions |
| Governance.MergedStepCanFail | tools/gate_c_governance.py:190-196 | two concrete accepted steps, a remediation and an INFRA entry, that are not accepted as one |
| Governance.CutStepAppends | tools/gate_c_governance.py:228-234 | an accepted step cut at any history length passes these checks on both sides |
| Governance.FormalChangesOnce | tools/gate_c_governance.py:198-206 | in every run the formal state changes at most once, to accepted, on a passing appended attempt |
| Governance.ProductIsExplained | tools/gate_c_governance.py:190-196 | the product is the initial one or named by a remediation in the current history |
| Governance.GatesAgree | tools/gate_c_governance.py:372-378 | both status gates open on the same documents |
| Governance.GatesStayShut | tools/gate_c_governance.py:590-595 | after a thirteenth attempt or acceptance both gates reject every later document |
| Governance.NothingFormalBetweenGates | tools/gate_c_governance.py:372-378 | between two documents that open a gate no attempt was added and the state stayed locked |
| Enrichment.CheckIdentities | tools/complete_python_sbom_license_evidence.py:83-85 | the length test decides distinct identities |
| Enrichment.AddAllMeans | tools/complete_python_sbom_license_evidence.py:244-258 | the loop over the additions fails exactly on a conflict with what the component came with, and appends exactly what is missing there |
| Enrichment.EnrichComponentMeans | tools/complete_python_sbom_license_evidence.py:229-259 | when a component can be enriched, and what becomes of it: a license kept or written, the missing statements added, properties sorted, the rest untouched |
| Enrichment.StatementsWritten | tools/complete_python_sbom_license_evidence.py:239-258 | an enriched component states the artifact digest, the license file digest and the schema version, each under its own literal name and with no other value |
| Enrichment.PropertiesAreOrdered | tools/complete_python_sbom_license_evidence.py:259 | its properties are ordered by name, then by value |
| Enrichment.FindIff | tools/complete_python_sbom_license_evidence.py:203-219 | a component is selected exactly when it alone has the name and version and it has the package URL |
| Enrichment.LicenseWritten | tools/complete_python_sbom_license_evidence.py:231-235 | the text of a license written holds the expression as a JSON string that reads back as it |
| JsonStrings.UnescapeEscape | tools/complete_python_sbom_license_evidence.py:231 | reading an escaped JSON string gives the string back |
| DistributionNames.NameIgnoresCase | tools/complete_python_sbom_license_evidence.py:21-22 | normalised names do not depend on ASCII letter case |
| DistributionNames.NameIgnoresBlanks | tools/complete_python_sbom_license_evidence.py:21-22 | nor on surrounding blanks |
| DistributionNames.NameIgnoresSeparators | tools/complete_python_sbom_license_evidence.py:21-22 | nor on which separators, and how many, stand between two parts |
| DistributionNames.NameKeepsHyphen | tools/complete_python_sbom_license_evidence.py:21-22 | lower-case words joined by one hyphen are kept |
| Enrichment.EnrichDocument | tools/complete_python_sbom_license_evidence.py:222-260 | the in-place loop computes the sequential specification |
| Enrichment.EnrichAllIff | tools/complete_python_sbom_license_evidence.py:227-260 | the pass succeeds exactly when each entry can be applied alone; each component is changed by its own entry only, all others are untouched |
| Enrichment.EnrichmentIsConfluent | tools/complete_python_sbom_license_evidence.py:227-260 | any order of uniquely identified entries gives one document, or all fail |
| Enrichment.SecondPassIff | tools/complete_python_sbom_license_evidence.py:230-259 | a second pass changes nothing if every entry that wrote its license finds it in the text written, and fails otherwise |
| Enrichment.SecondPassCanFail | tools/complete_python_sbom_license_evidence.py:230-235 | a concrete document that a first pass enriches and a second pass rejects |
| Enrichment.PlainIsSelfContained | tools/complete_python_sbom_license_evidence.py:231-235 | expressions free of JSON escapes are found |
| Enrichment.NonAsciiIsLost | tools/complete_python_sbom_license_evidence.py:231-235 | expressions with other than printable ASCII are not |
| Enrichment.PropertiesAreFixed | tools/complete_python_sbom_license_evidence.py:239-259 | enriched properties are settled and sorted |
| Enrichment.OrderMattersWithoutUniqueIdentities | tools/complete_python_sbom_license_evidence.py:83-85 | without distinct identities one order succeeds and the other fails |
| GoldenSet.SourceLedgerIndex | tools/acceptance/build-phase7-dataset-inventory.py:334-378 | no issue exactly for a sound ledger; the index maps identifiers to their last source |
| GoldenSet.CitationIssues | tools/acceptance/build-phase7-dataset-inventory.py:381-412 | no issue exactly for a located citation of a known source under its license |
| GoldenSet.Raised | tools/acceptance/build-phase7-dataset-inventory.py:238-240 | the issues raised are exactly those of the conditions that fail |
| GoldenSet.FactRecordAnalysis | tools/acceptance/build-phase7-dataset-inventory.py:415-492 | no issue exactly for a sound fact with sound citations; the sources it uses |
| GoldenSet.AnalyseRecords | tools/acceptance/build-phase7-dataset-inventory.py:519-536 | the running counters and sets are the numbers of facts per outcome, the topics and the cited sources of the fact list |
| GoldenSet.GoldenFactAnalysis | tools/acceptance/build-phase7-dataset-inventory.py:495-566 | no issue exactly for identified, sound, covering facts |
| GoldenSet.TotalMinimumIsImplied | tools/acceptance/build-phase7-dataset-inventory.py:538-547 | twenty facts of each outcome make the sixty-fact minimum redundant |
| GoldenSet.ReviewIssues | tools/acceptance/build-phase7-dataset-inventory.py:569-656 | no issue exactly for a sound review with a known decision |
| GoldenSet.HumanGoldenStatus | tools/acceptance/build-phase7-dataset-inventory.py:658-745 | no error exactly for sound facts, ledger and review with a known decision, and then the state follows the literal decision; eligible exactly when the declarative condition holds |
| GoldenSet.EligibleCitation | tools/acceptance/build-phase7-dataset-inventory.py:334-412 | whatever an eligible fact cites is a ledger source that may be reused under the fact's license and can be traced |
| GoldenSet.EligibleFact | tools/acceptance/build-phase7-dataset-inventory.py:415-566 | an eligible fact is a licensed paraphrase with one of the three outcomes and an identifier of its own |
| GoldenSet.EligibleReview | tools/acceptance/build-phase7-dataset-inventory.py:569-656 | its review names exactly these contents and numbers, is disclosed, and accepts facts and rights |
| GoldenSet.EligibleLedger | tools/acceptance/build-phase7-dataset-inventory.py:334-378 | its ledger rules out the four prohibited uses and has distinct sources |
| GoldenSet.EligibleNumbers | tools/acceptance/build-phase7-dataset-inventory.py:538-552 | it has sixty facts, twenty of each outcome, and sixteen topics |
| GoldenSet.SourceIsSound | tools/acceptance/build-phase7-dataset-inventory.py:254-331 | nothing else is asked of a source |
| GoldenSet.EligibleSetCoversLedger | tools/acceptance/build-phase7-dataset-inventory.py:553-557 | an eligible set cites exactly the sources of its ledger |
| Migration.ContainerDifferences | tools/gate_c_docker_migration.py:105-131 | present, classified and unexplained containers partition the reference list, as multisets and in number; unexplained are, in order, those that no current container accounts for and no cleanup authorized |
| Migration.ImageDifferences | tools/gate_c_docker_migration.py:134-150 | the same partition for images, by identifier |
| Migration.NetworkDifferences | tools/gate_c_docker_migration.py:165-193 | the same for networks: unexplained when the last network of the name, if any, has another driver and no authorized identifier is a prefix either way |
| Migration.ThreeParts | tools/gate_c_docker_migration.py:91-96 | an entry is cut at its first two bars; the last part keeps any others |
| Migration.ByNameKeepsLast | tools/gate_c_docker_migration.py:109-171 | the dictionaries by name hold the last element of each name |
| Migration.VolumesDiffer | tools/gate_c_docker_migration.py:153-162 | sorted listings that split the missing volumes; distinct names add up |
| Migration.AuthorizingMoreIsMonotone | tools/gate_c_docker_migration.py:117-191 | a larger cleanup receipt adds no unexplained container, volume or network and keeps a validated migration validated |
| Migration.EmptyIdentifierAuthorizesAll | tools/gate_c_docker_migration.py:98-102 | prefixes match both ways, so one empty authorized identifier leaves no network unexplained |
| Migration.Validate | tools/gate_c_docker_migration.py:264-301 | validated exactly when formal volumes and environment pass and no entry of any kind is unexplained |

## Left out

- Contracts.CompilableIsSound: assumes `items` without `prefixItems` and record types without `patternProperties`; `ContractLimits` states the exact condition for these, for one type and for lists of types. Soundness is over every meaning of the keywords that are not compiled, so a pattern is allowed to match any name.
- ContractRegistry.ExportSound: gives a sufficient condition; the exact ones are `ExportedIffCarried` and `ExportedValuesIff`, for definitions that compile exactly and for contracts of constants.
- Percentile.PercentileMonotoneInFraction: fractions in [0, 1] only, as all callers pass; outside, the code indexes out of range or from the end.
- Sbom.BomIgnoresOrder: leaves out component data taken from the first visited object (licenses, external references, the group property), which do depend on the order.
- Governance.MergedStepIff: takes the metadata of the merged step to be the records of both steps; a changed file touched by both would be read once.
- TypeScript is modelled as syntax trees: quoting, spacing, comments and the order of fields in the emitted text are left out, and so are the Go definitions.
- Boolean subschemas in `items`, `properties` or `anyOf`, on which `ts_type` raises `TypeError`.
- Which characters `str.isprintable` rejects: an arbitrary set, as it depends on Python's Unicode version.
- `format` counts as an assertion and may narrow; Draft 2020-12 treats it as an annotation by default.
- Schema references other than `#/$defs/NAME` without escaped characters.
- Object types are read strictly (JSON objects only); TypeScript also assigns some other values to them.
- The package version read from a local `package.json`: a node carries the version `package_version` would return. Python's recursion limit is left out.
- UTF-8 encoding: package names and versions are byte sequences.
- Serial numbers, fingerprints, metadata and format constants of SBOM documents.
- Upper- and lower-casing beyond ASCII in attempt results and distribution names.
- JSON numbers do not distinguish 1 from 1.0, so a byte size of 1.0 counts as an integer.
- Cases in which Python raises `TypeError` for an unhashable value count as the failing check they interrupt.
- URL and timestamp syntax in the golden set, and `str` of values that are no strings, are arbitrary functions.
- Which documents supply formal attempt metadata (`_walk_objects`, `_formal_metadata_candidates`): the metadata records are an input of each step.
- The remaining conditions of `build_execution_context` and `_validate_d1_documents` (worktree, capacity, image locks, migration report, audit index).
- Evidence that `components` of a Python SBOM is no array; downloads, wheels and lock binding in the license evidence tool.
- Inventory values that are no strings, and the receipt and environment checks that precede the migration verdict.
- Gate tooling with little depth: image locks, metadata and commit validators; the database migrations, the backend services and the frontend.
