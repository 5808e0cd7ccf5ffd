/** Append-only governance of acceptance status documents in tools/gate_c_governance.py: the check of
    one step, and what it guarantees along every run of accepted steps. Comparisons are Python's `==`,
    written `PyEq`; strings are compared exactly. */
module Governance {
  import opened Wrappers
  import opened JsonValues
  import opened Distinct

  type Status = map<string, Json>

  const PROCESS_VERSION := JStr("Gate-C-12-v2.0")
  const PRODUCT_SOURCE_SHA := JStr("a57d0ce57427804ede3f3c620fda2a93b3a300ff")
  const FORMAL_STATE := JStr("PHASE7_GATE_C_FAILED_GATE_D_LOCKED")
  const ACCEPTED_STATE := JStr("PHASE7_GATE_C_MAINLINE_ACCEPTED_GATE_D_READY")
  const REMEDIATION := JStr("REMEDIATION")
  const BASELINE_TYPES :=
    {JStr("INFRA"), JStr("STATUS"), JStr("DIAGNOSTIC"), REMEDIATION, JStr("EVIDENCE"), JStr("RELEASE")}

  datatype Error =
    | NotArrays | NotAppendOnly | NotObjects | BadSequence | BadType | BadChangeType | BadProcessVersion | BadResult
    | UnboundMetadata | UnexplainedProduct | UnboundProduct | UnexplainedFormalState | NotPassing | Malformed

  // ---------------------------------------------------------------------------------------------
  // Reading documents

  /** A field of an entry; anything that is no object reads as `None`. */
  function Field(entry: Json, key: string): Json {
    if entry.JObj? then Get(entry.fields, key) else JNull
  }

  function Items(status: Status, key: string): seq<Json> {
    if Get(status, key).JArr? then Get(status, key).items else []
  }

  function History(status: Status): seq<Json> {
    Items(status, "baseline_history")
  }

  function Attempts(status: Status): seq<Json> {
    Items(status, "gate_c_attempts")
  }

  predicate HasArrays(status: Status) {
    Get(status, "baseline_history").JArr? && Get(status, "gate_c_attempts").JArr?
  }

  /** `status.get("baseline", {}).get("product_source_sha")`; None when `baseline` is no object. */
  function Product(status: Status): Option<Json> {
    if "baseline" !in status then Some(JNull)
    else if status["baseline"].JObj? then Some(Get(status["baseline"].fields, "product_source_sha"))
    else None
  }

  function Formal(status: Status): Json {
    Get(status, "formal_release_state")
  }

  function Upper(s: string): string {
    seq(|s|, i requires 0 <= i < |s| => if 'a' <= s[i] <= 'z' then (s[i] as int - 32) as char else s[i])
  }

  /** `str(entry.get("result", "")).upper() in {"PASS", "PASSED"}` */
  predicate IsPass(entry: Json) {
    var result := Field(entry, "result");
    result.JStr? && (Upper(result.s) == "PASS" || Upper(result.s) == "PASSED")
  }

  predicate IsFail(entry: Json) {
    var result := Field(entry, "result");
    result.JStr? && (Upper(result.s) == "FAIL" || Upper(result.s) == "FAILED")
  }

  // ---------------------------------------------------------------------------------------------
  // The step check

  /** `_assert_append_only`, when it returns. */
  predicate AppendOnly(before: seq<Json>, after: seq<Json>) {
    && |before| <= |after|
    && PyEqAll(after[..|before|], before)
    && forall i | |before| <= i < |after| :: after[i].JObj?
  }

  /** The checks on the history entry with the given sequence number. */
  predicate HistoryEntryOk(entry: Json, number: nat) {
    && entry.JObj?
    && PyEq(Field(entry, "sequence"), JNum(number as real))
    && Field(entry, "type") in BASELINE_TYPES
    && Field(entry, "change_type").JStr? && Field(entry, "change_type").s != ""
    && Field(entry, "process_version") == PROCESS_VERSION
  }

  predicate HistoryOk(count: nat, entries: seq<Json>) {
    forall i | 0 <= i < |entries| :: HistoryEntryOk(entries[i], count + i + 1)
  }

  /** Full execution metadata bound to the attempt. */
  predicate Binds(item: Json, entry: Json) {
    && Field(item, "mode") == JStr("Full")
    && Field(item, "classification") == JStr("FORMAL_GATE_C_ATTEMPT")
    && Field(item, "process_version") == PROCESS_VERSION
    && Field(item, "formal_gate_attempt") == JBool(true)
    && PyEq(Field(item, "run_id"), Field(entry, "run_id"))
    && PyEq(Field(item, "product_source_sha"), Field(entry, "product_source_sha"))
  }

  function Matching(metadata: seq<Json>, entry: Json): nat {
    if metadata == [] then 0
    else Matching(metadata[..|metadata| - 1], entry) + if Binds(metadata[|metadata| - 1], entry) then 1 else 0
  }

  predicate AttemptEntryOk(entry: Json, number: nat, metadata: seq<Json>) {
    && PyEq(Field(entry, "sequence"), JNum(number as real))
    && Field(entry, "process_version") == PROCESS_VERSION
    && (IsPass(entry) || IsFail(entry))
    && Matching(metadata, entry) == 1
  }

  predicate AttemptsOk(count: nat, entries: seq<Json>, metadata: seq<Json>) {
    forall i | 0 <= i < |entries| :: AttemptEntryOk(entries[i], count + i + 1, metadata)
  }

  /** The last entry is a remediation naming the product. */
  predicate Explains(entries: seq<Json>, product: Json) {
    entries != [] && Remedies(entries[|entries| - 1], product)
  }

  predicate Remedies(entry: Json, product: Json) {
    Field(entry, "type") == REMEDIATION && PyEq(Field(entry, "product_source_sha"), product)
  }

  predicate ProductOk(before: Json, after: Json, newHistory: seq<Json>) {
    PyEq(before, after) || Explains(newHistory, after)
  }

  predicate FormalOk(before: Json, after: Json, newAttempts: seq<Json>) {
    PyEq(before, after) || (after == ACCEPTED_STATE && newAttempts != [] && IsPass(newAttempts[|newAttempts| - 1]))
  }

  /** `_validate_state_transitions`, when it returns. */
  predicate TransitionsOk(before: Status, after: Status, newHistory: seq<Json>, newAttempts: seq<Json>) {
    && Product(before).Some? && Product(after).Some?
    && ProductOk(Product(before).value, Product(after).value, newHistory)
    && FormalOk(Formal(before), Formal(after), newAttempts)
  }

  function NewHistory(before: Status, after: Status): seq<Json>
    requires |History(before)| <= |History(after)|
  {
    History(after)[|History(before)|..]
  }

  function NewAttempts(before: Status, after: Status): seq<Json>
    requires |Attempts(before)| <= |Attempts(after)|
  {
    Attempts(after)[|Attempts(before)|..]
  }

  /** One step passes `validate_history` with the metadata found in its changed files. */
  predicate StepAccepted(before: Status, after: Status, metadata: seq<Json>) {
    && HasArrays(before) && HasArrays(after)
    && AppendOnly(History(before), History(after))
    && AppendOnly(Attempts(before), Attempts(after))
    && HistoryOk(|History(before)|, NewHistory(before, after))
    && AttemptsOk(|Attempts(before)|, NewAttempts(before, after), metadata)
    && TransitionsOk(before, after, NewHistory(before, after), NewAttempts(before, after))
  }

  method AssertAppendOnly(before: seq<Json>, after: seq<Json>) returns (r: Result<seq<Json>, Error>)
    ensures r.Success? <==> AppendOnly(before, after)
    ensures r.Success? ==> r.value == after[|before|..]
  {
    if |after| < |before| || !PyEqAll(after[..|before|], before) {
      return Failure(NotAppendOnly);
    }
    var appended := after[|before|..];
    if exists i | 0 <= i < |appended| :: !appended[i].JObj? {
      return Failure(NotObjects);
    }
    assert forall i | |before| <= i < |after| :: after[i] == appended[i - |before|];
    return Success(appended);
  }

  method ValidateNewHistory(count: nat, entries: seq<Json>) returns (r: Result<(), Error>)
    requires forall i | 0 <= i < |entries| :: entries[i].JObj?
    ensures r.Success? <==> HistoryOk(count, entries)
  {
    var offset := count + 1;
    for i := 0 to |entries|
      invariant offset == count + i + 1
      invariant forall j | 0 <= j < i :: HistoryEntryOk(entries[j], count + j + 1)
    {
      var entry := entries[i];
      if !PyEq(Field(entry, "sequence"), JNum(offset as real)) { return Failure(BadSequence); }
      if Field(entry, "type") !in BASELINE_TYPES { return Failure(BadType); }
      if !Field(entry, "change_type").JStr? || Field(entry, "change_type").s == "" { return Failure(BadChangeType); }
      if Field(entry, "process_version") != PROCESS_VERSION { return Failure(BadProcessVersion); }
      offset := offset + 1;
    }
    return Success(());
  }

  method ValidateNewAttempts(count: nat, entries: seq<Json>, metadata: seq<Json>) returns (r: Result<(), Error>)
    ensures r.Success? <==> AttemptsOk(count, entries, metadata)
  {
    var offset := count + 1;
    for i := 0 to |entries|
      invariant offset == count + i + 1
      invariant forall j | 0 <= j < i :: AttemptEntryOk(entries[j], count + j + 1, metadata)
    {
      var entry := entries[i];
      if !PyEq(Field(entry, "sequence"), JNum(offset as real)) { return Failure(BadSequence); }
      if Field(entry, "process_version") != PROCESS_VERSION { return Failure(BadProcessVersion); }
      if !IsPass(entry) && !IsFail(entry) { return Failure(BadResult); }
      if Matching(metadata, entry) != 1 { return Failure(UnboundMetadata); }
      offset := offset + 1;
    }
    return Success(());
  }

  method ValidateStateTransitions(before: Status, after: Status, newHistory: seq<Json>, newAttempts: seq<Json>)
    returns (r: Result<(), Error>)
    ensures r.Success? <==> TransitionsOk(before, after, newHistory, newAttempts)
  {
    if Product(before).None? || Product(after).None? { return Failure(Malformed); }
    var afterProduct := Product(after).value;
    if !PyEq(Product(before).value, afterProduct) {
      if newHistory == [] || Field(newHistory[|newHistory| - 1], "type") != REMEDIATION {
        return Failure(UnexplainedProduct);
      }
      if !PyEq(Field(newHistory[|newHistory| - 1], "product_source_sha"), afterProduct) {
        return Failure(UnboundProduct);
      }
    }
    if !PyEq(Formal(before), Formal(after)) {
      if Formal(after) != ACCEPTED_STATE || newAttempts == [] { return Failure(UnexplainedFormalState); }
      if !IsPass(newAttempts[|newAttempts| - 1]) { return Failure(NotPassing); }
    }
    return Success(());
  }

  datatype Receipt = Receipt(historyBefore: nat, historyAppended: nat, attemptsBefore: nat, attemptsAppended: nat)

  /** `validate_history`, on the two documents and the metadata of the changed files. */
  method ValidateHistory(before: Status, after: Status, metadata: seq<Json>) returns (r: Result<Receipt, Error>)
    ensures r.Success? <==> StepAccepted(before, after, metadata)
    ensures r.Success? ==>
              && r.value.historyBefore + r.value.historyAppended == |History(after)|
              && r.value.historyBefore == |History(before)|
              && r.value.attemptsBefore + r.value.attemptsAppended == |Attempts(after)|
              && r.value.attemptsBefore == |Attempts(before)|
  {
    if !HasArrays(before) || !HasArrays(after) { return Failure(NotArrays); }
    var newHistory := AssertAppendOnly(History(before), History(after));
    if newHistory.Failure? { return Failure(newHistory.error); }
    var newAttempts := AssertAppendOnly(Attempts(before), Attempts(after));
    if newAttempts.Failure? { return Failure(newAttempts.error); }
    var checked := ValidateNewHistory(|History(before)|, newHistory.value);
    if checked.Failure? { return Failure(checked.error); }
    checked := ValidateNewAttempts(|Attempts(before)|, newAttempts.value, metadata);
    if checked.Failure? { return Failure(checked.error); }
    checked := ValidateStateTransitions(before, after, newHistory.value, newAttempts.value);
    if checked.Failure? { return Failure(checked.error); }
    return Success(Receipt(|History(before)|, |newHistory.value|, |Attempts(before)|, |newAttempts.value|));
  }

  // ---------------------------------------------------------------------------------------------
  // Lists up to Python's equality

  /** `a` is a prefix of `b`, entry by entry. */
  predicate PrefixOf(a: seq<Json>, b: seq<Json>) {
    |a| <= |b| && forall i | 0 <= i < |a| :: PyEq(a[i], b[i])
  }

  lemma AppendOnlyIsPrefix(a: seq<Json>, b: seq<Json>)
    requires AppendOnly(a, b)
    ensures PrefixOf(a, b)
  {
    forall i | 0 <= i < |a| ensures PyEq(a[i], b[i]) {
      assert b[..|a|][i] == b[i];
    }
  }

  lemma PrefixTransitive(a: seq<Json>, b: seq<Json>, c: seq<Json>)
    requires PrefixOf(a, b) && PrefixOf(b, c)
    ensures PrefixOf(a, c)
  {
  }

  lemma PyEqField(a: Json, b: Json, key: string)
    requires PyEq(a, b)
    ensures PyEq(Field(a, key), Field(b, key))
  {
    if a.JObj? {
      PyEqFields(a, b, key);
    }
  }

  /** Only a string equals a string. */
  lemma PyEqString(a: Json, b: Json)
    requires PyEq(a, b) && a.JStr?
    ensures a == b
  {
  }

  lemma HistoryEntryOkPyEq(a: Json, b: Json, number: nat)
    requires PyEq(a, b) && HistoryEntryOk(a, number)
    ensures HistoryEntryOk(b, number)
  {
    PyEqField(a, b, "sequence");
    PyEqField(a, b, "type");
    PyEqField(a, b, "change_type");
    PyEqField(a, b, "process_version");
    assert forall t | t in BASELINE_TYPES :: t.JStr?;
  }

  // ---------------------------------------------------------------------------------------------
  // Runs

  /** Consecutive documents, each step accepted with its own metadata. */
  ghost predicate IsRun(states: seq<Status>, metadata: seq<seq<Json>>) {
    && |states| == |metadata| + 1
    && forall i | 0 <= i < |metadata| :: StepAccepted(states[i], states[i + 1], metadata[i])
  }

  /** Earlier histories and attempt lists stay prefixes of later ones. */
  lemma {:induction false} ListsOnlyGrow(states: seq<Status>, metadata: seq<seq<Json>>, i: nat, j: nat)
    requires IsRun(states, metadata) && i <= j < |states|
    ensures PrefixOf(History(states[i]), History(states[j])) && PrefixOf(Attempts(states[i]), Attempts(states[j]))
    decreases j - i
  {
    if i < j {
      ListsOnlyGrow(states, metadata, i, j - 1);
      assert StepAccepted(states[j - 1], states[j], metadata[j - 1]);
      AppendOnlyIsPrefix(History(states[j - 1]), History(states[j]));
      AppendOnlyIsPrefix(Attempts(states[j - 1]), Attempts(states[j]));
      PrefixTransitive(History(states[i]), History(states[j - 1]), History(states[j]));
      PrefixTransitive(Attempts(states[i]), Attempts(states[j - 1]), Attempts(states[j]));
    }
  }

  /** Entry `k` carries sequence number `k + 1`. */
  predicate Contiguous(entries: seq<Json>) {
    forall k | 0 <= k < |entries| :: PyEq(Field(entries[k], "sequence"), JNum((k + 1) as real))
  }

  lemma ContiguousStep(before: seq<Json>, after: seq<Json>)
    requires AppendOnly(before, after) && Contiguous(before)
    requires forall k | |before| <= k < |after| :: PyEq(Field(after[k], "sequence"), JNum((k + 1) as real))
    ensures Contiguous(after)
  {
    AppendOnlyIsPrefix(before, after);
    forall k | 0 <= k < |before| ensures PyEq(Field(after[k], "sequence"), JNum((k + 1) as real)) {
      PyEqField(before[k], after[k], "sequence");
    }
  }

  lemma StepNumbers(before: Status, after: Status, metadata: seq<Json>)
    requires StepAccepted(before, after, metadata)
    ensures forall k | |History(before)| <= k < |History(after)| :: HistoryEntryOk(History(after)[k], k + 1)
    ensures forall k | |Attempts(before)| <= k < |Attempts(after)| ::
            AttemptEntryOk(Attempts(after)[k], k + 1, metadata)
  {
    forall k | |History(before)| <= k < |History(after)| ensures HistoryEntryOk(History(after)[k], k + 1) {
      assert History(after)[k] == NewHistory(before, after)[k - |History(before)|];
    }
    forall k | |Attempts(before)| <= k < |Attempts(after)| ensures AttemptEntryOk(Attempts(after)[k], k + 1, metadata) {
      assert Attempts(after)[k] == NewAttempts(before, after)[k - |Attempts(before)|];
    }
  }

  /** Sequences that start contiguous stay contiguous. */
  lemma {:induction false} SequencesStayContiguous(states: seq<Status>, metadata: seq<seq<Json>>, j: nat)
    requires IsRun(states, metadata) && j < |states|
    requires Contiguous(History(states[0])) && Contiguous(Attempts(states[0]))
    ensures Contiguous(History(states[j])) && Contiguous(Attempts(states[j]))
  {
    if j > 0 {
      SequencesStayContiguous(states, metadata, j - 1);
      StepNumbers(states[j - 1], states[j], metadata[j - 1]);
      ContiguousStep(History(states[j - 1]), History(states[j]));
      ContiguousStep(Attempts(states[j - 1]), Attempts(states[j]));
    }
  }

  // ---------------------------------------------------------------------------------------------
  // Merging and cutting steps

  lemma AppendOnlyTransitive(a: seq<Json>, b: seq<Json>, c: seq<Json>)
    requires AppendOnly(a, b) && AppendOnly(b, c)
    ensures AppendOnly(a, c)
  {
    AppendOnlyIsPrefix(a, b);
    AppendOnlyIsPrefix(b, c);
    PrefixTransitive(a, b, c);
    forall i | 0 <= i < |a| ensures PyEq(c[..|a|][i], a[i]) {
      assert PyEq(a[i], c[i]);
    }
    forall i | |a| <= i < |b| ensures c[i].JObj? {
      assert PyEq(b[i], c[i]);
      PyEqFields(b[i], c[i], "");
    }
  }

  /** Two accepted steps made in one still pass the append-only and history-entry checks. */
  lemma MergedStepAppends(a: Status, b: Status, c: Status, first: seq<Json>, second: seq<Json>)
    requires StepAccepted(a, b, first) && StepAccepted(b, c, second)
    ensures AppendOnly(History(a), History(c)) && AppendOnly(Attempts(a), Attempts(c))
    ensures HistoryOk(|History(a)|, NewHistory(a, c))
  {
    AppendOnlyTransitive(History(a), History(b), History(c));
    AppendOnlyTransitive(Attempts(a), Attempts(b), Attempts(c));
    StepNumbers(a, b, first);
    StepNumbers(b, c, second);
    AppendOnlyIsPrefix(History(b), History(c));
    forall i | 0 <= i < |NewHistory(a, c)|
      ensures HistoryEntryOk(NewHistory(a, c)[i], |History(a)| + i + 1)
    {
      var k := |History(a)| + i;
      if k < |History(b)| {
        HistoryEntryOkPyEq(History(b)[k], History(c)[k], k + 1);
      }
    }
  }

  /** An accepted step cut at any history length between passes the same checks on both parts. */
  lemma CutStepAppends(a: Status, b: Status, metadata: seq<Json>, cut: nat)
    requires StepAccepted(a, b, metadata) && |History(a)| <= cut <= |History(b)|
    ensures var middle := History(b)[..cut];
            && AppendOnly(History(a), middle) && HistoryOk(|History(a)|, middle[|History(a)|..])
            && AppendOnly(middle, History(b)) && HistoryOk(cut, History(b)[cut..])
  {
    StepNumbers(a, b, metadata);
    var middle := History(b)[..cut];
    assert middle[..|History(a)|] == History(b)[..|History(a)|];
    forall i | 0 <= i < |middle| - |History(a)|
      ensures HistoryEntryOk(middle[|History(a)|..][i], |History(a)| + i + 1)
    {
      assert middle[|History(a)|..][i] == History(b)[|History(a)| + i];
    }
    forall i | 0 <= i < |History(b)| - cut ensures HistoryEntryOk(History(b)[cut..][i], cut + i + 1) {
      assert History(b)[cut..][i] == History(b)[cut + i];
    }
  }

  /** The merged step also passes the transition check exactly when no later entry hides the remediation
      or the passing attempt that explained the first step. */
  lemma MergedTransitionsIff(a: Status, b: Status, c: Status, first: seq<Json>, second: seq<Json>)
    requires StepAccepted(a, b, first) && StepAccepted(b, c, second)
    ensures |History(a)| <= |History(c)| && |Attempts(a)| <= |Attempts(c)|
    ensures TransitionsOk(a, c, NewHistory(a, c), NewAttempts(a, c)) <==>
            && (|| PyEq(Product(a).value, Product(c).value)
                || NewHistory(b, c) == []
                || Explains(NewHistory(b, c), Product(c).value))
            && (|| PyEq(Formal(a), Formal(c))
                || NewAttempts(b, c) == []
                || IsPass(NewAttempts(b, c)[|NewAttempts(b, c)| - 1]))
  {
    AppendOnlyTransitive(History(a), History(b), History(c));
    AppendOnlyTransitive(Attempts(a), Attempts(b), Attempts(c));
    AppendOnlyIsPrefix(History(b), History(c));
    AppendOnlyIsPrefix(Attempts(b), Attempts(c));
    MergedProductIff(History(a), History(b), History(c), Product(a).value, Product(b).value, Product(c).value);
    MergedFormalIff(Attempts(a), Attempts(b), Attempts(c), Formal(a), Formal(b), Formal(c));
  }

  lemma {:induction false} MatchingBoth(first: seq<Json>, second: seq<Json>, entry: Json)
    ensures Matching(first + second, entry) == Matching(first, entry) + Matching(second, entry)
  {
    if second == [] {
      assert first + second == first;
    } else {
      var front := second[..|second| - 1];
      MatchingBoth(first, front, entry);
      assert (first + second)[..|first + second| - 1] == first + front;
    }
  }

  lemma {:induction false} MatchingPyEq(metadata: seq<Json>, a: Json, b: Json)
    requires PyEq(a, b)
    ensures Matching(metadata, a) == Matching(metadata, b)
  {
    if metadata != [] {
      MatchingPyEq(metadata[..|metadata| - 1], a, b);
      PyEqField(a, b, "run_id");
      PyEqField(a, b, "product_source_sha");
    }
  }

  lemma AttemptEntryOkPyEq(a: Json, b: Json, number: nat, metadata: seq<Json>)
    requires PyEq(a, b)
    ensures AttemptEntryOk(a, number, metadata) <==> AttemptEntryOk(b, number, metadata)
  {
    PyEqField(a, b, "sequence");
    PyEqField(a, b, "process_version");
    PyEqField(a, b, "result");
    MatchingPyEq(metadata, a, b);
  }

  /** No record of `metadata` binds an entry. */
  predicate BindsNone(metadata: seq<Json>, entries: seq<Json>) {
    forall i | 0 <= i < |entries| :: Matching(metadata, entries[i]) == 0
  }

  /** One entry, accepted in one of the steps with that step's own records. */
  lemma MergedAttemptIff(entry: Json, merged: Json, number: nat, first: seq<Json>, second: seq<Json>, own: seq<Json>)
    requires PyEq(entry, merged) && (own == first || own == second) && AttemptEntryOk(entry, number, own)
    ensures AttemptEntryOk(merged, number, first + second) <==>
            Matching(first, entry) + Matching(second, entry) == 1
  {
    AttemptEntryOkPyEq(entry, merged, number, first + second);
    MatchingBoth(first, second, entry);
  }

  /** Attempts accepted with one step's records pass with both exactly when the other step's bind none. */
  lemma MergedPartIff(
      entries: seq<Json>, merged: seq<Json>, count: nat,
      first: seq<Json>, second: seq<Json>, own: seq<Json>, other: seq<Json>)
    requires PyEqAll(entries, merged) && AttemptsOk(count, entries, own)
    requires (own == first && other == second) || (own == second && other == first)
    ensures AttemptsOk(count, merged, first + second) <==> BindsNone(other, entries)
  {
    forall i | 0 <= i < |entries|
      ensures AttemptEntryOk(merged[i], count + i + 1, first + second) <==> Matching(other, entries[i]) == 0
    {
      MergedAttemptIff(entries[i], merged[i], count + i + 1, first, second, own);
    }
  }

  lemma AttemptsConcat(count: nat, early: seq<Json>, late: seq<Json>, metadata: seq<Json>)
    ensures AttemptsOk(count, early + late, metadata) <==>
            AttemptsOk(count, early, metadata) && AttemptsOk(count + |early|, late, metadata)
  {
    var all := early + late;
    if AttemptsOk(count, all, metadata) {
      forall i | 0 <= i < |early| ensures AttemptEntryOk(early[i], count + i + 1, metadata) {
        assert all[i] == early[i];
      }
      forall i | 0 <= i < |late| ensures AttemptEntryOk(late[i], count + |early| + i + 1, metadata) {
        assert all[|early| + i] == late[i];
      }
    }
  }

  /** With the records of both steps, the merged attempts pass exactly when no record of one step binds an
      attempt of the other again. */
  lemma MergedAttemptsIff(a: Status, b: Status, c: Status, first: seq<Json>, second: seq<Json>)
    requires StepAccepted(a, b, first) && StepAccepted(b, c, second)
    ensures |Attempts(a)| <= |Attempts(c)|
    ensures AttemptsOk(|Attempts(a)|, NewAttempts(a, c), first + second) <==>
            BindsNone(second, NewAttempts(a, b)) && BindsNone(first, NewAttempts(b, c))
  {
    AppendOnlyIsPrefix(Attempts(b), Attempts(c));
    var early, late := Attempts(c)[|Attempts(a)|..|Attempts(b)|], NewAttempts(b, c);
    assert NewAttempts(a, c) == early + late;
    AttemptsConcat(|Attempts(a)|, early, late, first + second);
    MergedPartIff(NewAttempts(a, b), early, |Attempts(a)|, first, second, first, second);
    MergedPartIff(late, late, |Attempts(b)|, first, second, second, first);
  }

  /** Two accepted steps made in one are accepted exactly when no record of one step binds an attempt of
      the other, and no later entry hides what explained the first step. */
  lemma MergedStepIff(a: Status, b: Status, c: Status, first: seq<Json>, second: seq<Json>)
    requires StepAccepted(a, b, first) && StepAccepted(b, c, second)
    ensures StepAccepted(a, c, first + second) <==>
            && BindsNone(second, NewAttempts(a, b)) && BindsNone(first, NewAttempts(b, c))
            && (|| PyEq(Product(a).value, Product(c).value)
                || NewHistory(b, c) == []
                || Explains(NewHistory(b, c), Product(c).value))
            && (|| PyEq(Formal(a), Formal(c))
                || NewAttempts(b, c) == []
                || IsPass(NewAttempts(b, c)[|NewAttempts(b, c)| - 1]))
  {
    MergedStepAppends(a, b, c, first, second);
    MergedAttemptsIff(a, b, c, first, second);
    MergedTransitionsIff(a, b, c, first, second);
  }

  function HistoryEntry(number: nat, kind: Json, product: string): Json {
    JObj(map["sequence" := JNum(number as real), "type" := kind, "change_type" := JStr("change"),
             "process_version" := PROCESS_VERSION, "product_source_sha" := JStr(product)])
  }

  function StatusWith(history: seq<Json>, product: string): Status {
    map["baseline_history" := JArr(history), "gate_c_attempts" := JArr([]),
        "baseline" := JObj(map["product_source_sha" := JStr(product)])]
  }

  lemma HistoryEntryPasses(number: nat, kind: Json, product: string)
    requires kind in BASELINE_TYPES
    ensures HistoryEntryOk(HistoryEntry(number, kind, product), number)
    ensures Remedies(HistoryEntry(number, kind, product), JStr(product)) <==> kind == REMEDIATION
  {
    var entry := HistoryEntry(number, kind, product);
    assert Field(entry, "change_type") == JStr("change") && |Field(entry, "change_type").s| == 6;
  }

  lemma StatusReads(history: seq<Json>, product: string)
    ensures var status := StatusWith(history, product);
            && HasArrays(status) && History(status) == history && Attempts(status) == []
            && Product(status) == Some(JStr(product)) && Formal(status) == JNull
  {
  }

  lemma EntryAppendAccepted(history: seq<Json>, entry: Json, before: string, after: string)
    requires HistoryEntryOk(entry, |history| + 1)
    requires before == after || Remedies(entry, JStr(after))
    ensures StepAccepted(StatusWith(history, before), StatusWith(history + [entry], after), [])
  {
    StatusReads(history, before);
    StatusReads(history + [entry], after);
    assert (history + [entry])[..|history|] == history && (history + [entry])[|history|..] == [entry];
  }

  /** Two accepted steps that are not accepted as one: a remediation moves the product, then an INFRA entry
      is appended, so the last new entry of the merged step is no remediation. */
  lemma MergedStepCanFail()
    ensures exists a, b, c ::
              && StepAccepted(a, b, []) && StepAccepted(b, c, [])
              && !TransitionsOk(a, c, NewHistory(a, c), NewAttempts(a, c))
  {
    var infra := JStr("INFRA");
    var remedy, later := HistoryEntry(1, REMEDIATION, "q"), HistoryEntry(2, infra, "q");
    HistoryEntryPasses(1, REMEDIATION, "q");
    HistoryEntryPasses(2, infra, "q");
    var a, b, c := StatusWith([], "p"), StatusWith([remedy], "q"), StatusWith([remedy] + [later], "q");
    assert [] + [remedy] == [remedy];
    EntryAppendAccepted([], remedy, "p", "q");
    EntryAppendAccepted([remedy], later, "q", "q");
    MergedTransitionsIff(a, b, c, [], []);
    StatusReads([], "p");
    StatusReads([remedy], "q");
    StatusReads([remedy] + [later], "q");
    assert NewHistory(b, c) == [later];
    assert JStr("p").s[0] != JStr("q").s[0];
    assert infra.s[0] != REMEDIATION.s[0];
  }

  /** What is appended ends as the whole list does. */
  lemma LastAppended(entries: seq<Json>, from: nat)
    requires from < |entries|
    ensures entries[from..] != [] && entries[from..][|entries[from..]| - 1] == entries[|entries| - 1]
  {
  }

  lemma MergedProductIff(a: seq<Json>, b: seq<Json>, c: seq<Json>, p: Json, q: Json, r: Json)
    requires |a| <= |b| && PrefixOf(b, c)
    requires ProductOk(p, q, b[|a|..]) && ProductOk(q, r, c[|b|..])
    ensures ProductOk(p, r, c[|a|..]) <==> PyEq(p, r) || c[|b|..] == [] || Explains(c[|b|..], r)
  {
    if |c| > |b| {
      LastAppended(c, |b|);
      LastAppended(c, |a|);
    } else {
      assert c[|b|..] == [];
      MergedProductKept(a, b, c, p, q, r);
    }
  }

  lemma MergedProductKept(a: seq<Json>, b: seq<Json>, c: seq<Json>, p: Json, q: Json, r: Json)
    requires |a| <= |b| == |c| && PrefixOf(b, c)
    requires ProductOk(p, q, b[|a|..]) && PyEq(q, r)
    ensures ProductOk(p, r, c[|a|..])
  {
    if |b| > |a| {
      LastAppended(b, |a|);
      LastAppended(c, |a|);
      RemediationPyEq(b[|b| - 1], c[|c| - 1], q, r);
    }
  }

  lemma MergedFormalIff(a: seq<Json>, b: seq<Json>, c: seq<Json>, p: Json, q: Json, r: Json)
    requires |a| <= |b| && PrefixOf(b, c)
    requires FormalOk(p, q, b[|a|..]) && FormalOk(q, r, c[|b|..])
    ensures FormalOk(p, r, c[|a|..]) <==> PyEq(p, r) || c[|b|..] == [] || IsPass(c[|b|..][|c| - |b| - 1])
  {
    if |c| > |b| {
      LastAppended(c, |b|);
      LastAppended(c, |a|);
    } else {
      assert c[|b|..] == [] && PyEq(q, r);
      if |b| > |a| {
        LastAppended(b, |a|);
        LastAppended(c, |a|);
        PassPyEq(b[|b| - 1], c[|c| - 1]);
      }
    }
  }

  lemma RemediationPyEq(a: Json, b: Json, p: Json, q: Json)
    requires PyEq(a, b) && PyEq(p, q)
    ensures Remedies(a, p) <==> Remedies(b, q)
  {
    PyEqField(a, b, "type");
    PyEqField(a, b, "product_source_sha");
  }

  lemma PassPyEq(a: Json, b: Json)
    requires PyEq(a, b)
    ensures IsPass(a) <==> IsPass(b)
  {
    PyEqField(a, b, "result");
  }

  // ---------------------------------------------------------------------------------------------
  // The formal state and the product along a run

  lemma {:induction false} AcceptedStays(states: seq<Status>, metadata: seq<seq<Json>>, i: nat, j: nat)
    requires IsRun(states, metadata) && i <= j < |states|
    requires Formal(states[i]) == ACCEPTED_STATE
    ensures Formal(states[j]) == ACCEPTED_STATE
    decreases j - i
  {
    if i < j {
      AcceptedStays(states, metadata, i, j - 1);
      assert StepAccepted(states[j - 1], states[j], metadata[j - 1]);
      if PyEq(Formal(states[j - 1]), Formal(states[j])) {
        PyEqString(Formal(states[j - 1]), Formal(states[j]));
      }
    }
  }

  /** The formal state changes at step `t`. */
  predicate Changes(states: seq<Status>, t: nat)
    requires t + 1 < |states|
  {
    !PyEq(Formal(states[t]), Formal(states[t + 1]))
  }

  /** It changes only to accepted, on an appended attempt that passed, and only once in a run. */
  lemma FormalChangesOnce(states: seq<Status>, metadata: seq<seq<Json>>, t: nat)
    requires IsRun(states, metadata) && t < |metadata| && Changes(states, t)
    ensures Formal(states[t + 1]) == ACCEPTED_STATE
    ensures |Attempts(states[t])| < |Attempts(states[t + 1])|
            && IsPass(Attempts(states[t + 1])[|Attempts(states[t + 1])| - 1])
    ensures forall u | 0 <= u < |metadata| && u != t :: !Changes(states, u)
  {
    assert StepAccepted(states[t], states[t + 1], metadata[t]);
    var added := NewAttempts(states[t], states[t + 1]);
    assert added[|added| - 1] == Attempts(states[t + 1])[|Attempts(states[t + 1])| - 1];
    forall u | 0 <= u < |metadata| && u != t ensures !Changes(states, u) {
      if u > t {
        AcceptedStays(states, metadata, t + 1, u);
        AcceptedStays(states, metadata, t + 1, u + 1);
      } else if Changes(states, u) {
        assert StepAccepted(states[u], states[u + 1], metadata[u]);
        AcceptedStays(states, metadata, u + 1, t);
      }
    }
  }

  ghost predicate NamedByRemediation(history: seq<Json>, product: Json) {
    exists i | 0 <= i < |history| :: Remedies(history[i], product)
  }

  lemma NamedInLonger(a: seq<Json>, b: seq<Json>, p: Json, q: Json)
    requires PrefixOf(a, b) && PyEq(p, q) && NamedByRemediation(a, p)
    ensures NamedByRemediation(b, q)
  {
    var i :| 0 <= i < |a| && Remedies(a[i], p);
    RemediationPyEq(a[i], b[i], p, q);
  }

  /** The product is the initial one, or one that a remediation entry in the current history names. */
  lemma {:induction false} ProductIsExplained(states: seq<Status>, metadata: seq<seq<Json>>, j: nat)
    requires IsRun(states, metadata) && 0 < j < |states|
    ensures Product(states[0]).Some? && Product(states[j]).Some?
    ensures || PyEq(Product(states[j]).value, Product(states[0]).value)
            || NamedByRemediation(History(states[j]), Product(states[j]).value)
  {
    var before, after := states[j - 1], states[j];
    assert StepAccepted(states[0], states[1], metadata[0]);
    assert StepAccepted(before, after, metadata[j - 1]);
    AppendOnlyIsPrefix(History(before), History(after));
    if j > 1 {
      ProductIsExplained(states, metadata, j - 1);
    }
    if PyEq(Product(before).value, Product(after).value) {
      if j > 1 && NamedByRemediation(History(before), Product(before).value) {
        NamedInLonger(History(before), History(after), Product(before).value, Product(after).value);
      }
    } else {
      var added := NewHistory(before, after);
      assert added[|added| - 1] == History(after)[|History(after)| - 1];
    }
  }

  // ---------------------------------------------------------------------------------------------
  // The status gates

  datatype GateError = ProductNotFrozen | FormalStateNotLocked | AttemptsNotTwelve | MalformedStatus

  /** `len(status.get("gate_c_attempts", []))`; None when the value has no length. */
  function AttemptCount(status: Status): Option<nat> {
    if "gate_c_attempts" !in status then Some(0)
    else match status["gate_c_attempts"]
      case JArr(xs) => Some(|xs|)
      case JObj(m) => Some(|m|)
      case JStr(s) => Some(|s|)
      case _ => None
  }

  /** The status checks of `build_execution_context`, in order. */
  function ExecutionGate(status: Status): Result<(), GateError> {
    if Product(status).None? then Failure(MalformedStatus)
    else if Product(status).value != PRODUCT_SOURCE_SHA then Failure(ProductNotFrozen)
    else if Formal(status) != FORMAL_STATE then Failure(FormalStateNotLocked)
    else if AttemptCount(status).None? then Failure(MalformedStatus)
    else if AttemptCount(status).value != 12 then Failure(AttemptsNotTwelve)
    else Success(())
  }

  /** The status checks of `_validate_d1_documents`, in order. */
  function ReadinessGate(status: Status): Result<(), GateError> {
    if Formal(status) != FORMAL_STATE then Failure(FormalStateNotLocked)
    else if AttemptCount(status).None? then Failure(MalformedStatus)
    else if AttemptCount(status).value != 12 then Failure(AttemptsNotTwelve)
    else if Product(status).None? then Failure(MalformedStatus)
    else if Product(status).value != PRODUCT_SOURCE_SHA then Failure(ProductNotFrozen)
    else Success(())
  }

  predicate Open(status: Status) {
    ExecutionGate(status).Success? || ReadinessGate(status).Success?
  }

  /** Both gates accept the same documents: frozen product, locked formal state, twelve attempts. */
  lemma GatesAgree(status: Status)
    ensures ExecutionGate(status).Success? <==> ReadinessGate(status).Success?
    ensures Open(status) <==>
            && Product(status) == Some(PRODUCT_SOURCE_SHA) && Formal(status) == FORMAL_STATE
            && AttemptCount(status) == Some(12)
    ensures Open(status) ==> "gate_c_attempts" in status
  {
  }

  lemma StatesDiffer()
    ensures FORMAL_STATE != ACCEPTED_STATE
  {
    assert FORMAL_STATE.s[14] == 'F' && ACCEPTED_STATE.s[14] == 'M';
  }

  /** Once there are more than twelve attempts, or the state is accepted, both gates stay shut. */
  lemma GatesStayShut(states: seq<Status>, metadata: seq<seq<Json>>, i: nat, j: nat)
    requires IsRun(states, metadata) && i <= j < |states|
    requires |Attempts(states[i])| > 12 || Formal(states[i]) == ACCEPTED_STATE
    ensures !Open(states[j])
  {
    ListsOnlyGrow(states, metadata, i, j);
    if Formal(states[i]) == ACCEPTED_STATE {
      AcceptedStays(states, metadata, i, j);
      StatesDiffer();
    }
  }

  /** Between two documents that open a gate nothing formal happened: every document on the way has the
      locked state and the same twelve attempts. */
  lemma NothingFormalBetweenGates(states: seq<Status>, metadata: seq<seq<Json>>, i: nat, t: nat, j: nat)
    requires IsRun(states, metadata) && i <= t <= j < |states| && i < j
    requires Open(states[i]) && Open(states[j])
    ensures Formal(states[t]) == FORMAL_STATE && PyEqAll(Attempts(states[i]), Attempts(states[t]))
            && |Attempts(states[t])| == 12
  {
    ListsOnlyGrow(states, metadata, i, t);
    ListsOnlyGrow(states, metadata, t, j);
    assert StepAccepted(states[i], states[i + 1], metadata[i]);
    assert StepAccepted(states[j - 1], states[j], metadata[j - 1]);
    LockedUntil(states, metadata, i, t, j);
  }

  lemma {:induction false} LockedUntil(states: seq<Status>, metadata: seq<seq<Json>>, i: nat, t: nat, j: nat)
    requires IsRun(states, metadata) && i <= t <= j < |states|
    requires Formal(states[i]) == FORMAL_STATE && Formal(states[j]) == FORMAL_STATE
    ensures Formal(states[t]) == FORMAL_STATE
    decreases t - i
  {
    if i < t {
      LockedUntil(states, metadata, i, t - 1, j);
      assert StepAccepted(states[t - 1], states[t], metadata[t - 1]);
      StatesDiffer();
      if Formal(states[t]) == ACCEPTED_STATE {
        AcceptedStays(states, metadata, t, j);
      } else {
        PyEqString(Formal(states[t - 1]), Formal(states[t]));
      }
    }
  }

  // ---------------------------------------------------------------------------------------------
  // What an accepted attempt is

  predicate SameLetter(a: char, upper: char) {
    a == upper || a as int == upper as int + 32
  }

  /** The text is the upper-case word in any case. */
  predicate Spells(s: string, upper: string) {
    |s| == |upper| && forall i | 0 <= i < |s| :: SameLetter(s[i], upper[i])
  }

  predicate IsUpperWord(s: string) {
    forall i | 0 <= i < |s| :: 'A' <= s[i] <= 'Z'
  }

  lemma UpperIff(s: string, word: string)
    requires IsUpperWord(word)
    ensures Upper(s) == word <==> Spells(s, word)
  {
    if Spells(s, word) {
      forall i | 0 <= i < |s| ensures Upper(s)[i] == word[i] {
        assert SameLetter(s[i], word[i]);
      }
    }
    if Upper(s) == word {
      forall i | 0 <= i < |s| ensures SameLetter(s[i], word[i]) {
        assert Upper(s)[i] == word[i];
      }
    }
  }

  /** An attempt passes, or fails, when its result spells the word in any case. */
  lemma ResultIff(entry: Json, result: string)
    requires Field(entry, "result") == JStr(result)
    ensures IsPass(entry) <==> Spells(result, "PASS") || Spells(result, "PASSED")
    ensures IsFail(entry) <==> Spells(result, "FAIL") || Spells(result, "FAILED")
  {
    UpperIff(result, "PASS");
    UpperIff(result, "PASSED");
    UpperIff(result, "FAIL");
    UpperIff(result, "FAILED");
  }

  /** A history entry is of one of the six types, with a change type and under the current process. */
  lemma HistoryEntryIff(entry: Json, number: nat)
    ensures HistoryEntryOk(entry, number) <==>
            && entry.JObj? && PyEq(Field(entry, "sequence"), JNum(number as real))
            && Field(entry, "process_version") == JStr("Gate-C-12-v2.0")
            && (exists kind | kind in ["INFRA", "STATUS", "DIAGNOSTIC", "REMEDIATION", "EVIDENCE", "RELEASE"] ::
                  Field(entry, "type") == JStr(kind))
            && (exists change: string | change != "" :: Field(entry, "change_type") == JStr(change))
  {
  }

  /** A baseline that appears needs a remediation naming its product, unless it names none; documents without
      baselines need nothing. */
  lemma FirstBaseline(before: Status, after: Status, newHistory: seq<Json>, newAttempts: seq<Json>)
    requires "baseline" !in before && Formal(before) == Formal(after)
    ensures "baseline" !in after ==> TransitionsOk(before, after, newHistory, newAttempts)
    ensures "baseline" in after && after["baseline"].JObj? ==>
              var product := Get(after["baseline"].fields, "product_source_sha");
              TransitionsOk(before, after, newHistory, newAttempts) <==>
                product == JNull || Explains(newHistory, product)
  {
  }

  /** A record of a full formal attempt, of the run and the product. */
  predicate IsFullRecord(item: Json, run: Json, product: Json) {
    && Field(item, "mode") == JStr("Full") && Field(item, "classification") == JStr("FORMAL_GATE_C_ATTEMPT")
    && Field(item, "process_version") == JStr("Gate-C-12-v2.0") && Field(item, "formal_gate_attempt") == JBool(true)
    && PyEq(Field(item, "run_id"), run) && PyEq(Field(item, "product_source_sha"), product)
  }

  /** What makes a record bind an attempt. */
  function RecordOf(entry: Json): Json -> bool {
    item => IsFullRecord(item, Field(entry, "run_id"), Field(entry, "product_source_sha"))
  }

  lemma MatchingStep(front: seq<Json>, last: Json, entry: Json)
    ensures Matching(front + [last], entry) ==
            Matching(front, entry)
            + if IsFullRecord(last, Field(entry, "run_id"), Field(entry, "product_source_sha")) then 1 else 0
  {
    assert (front + [last])[..|front + [last]| - 1] == front;
  }

  lemma {:induction false} MatchingCounts(metadata: seq<Json>, entry: Json)
    ensures Matching(metadata, entry) == 0 <==> Never(metadata, RecordOf(entry))
    ensures Matching(metadata, entry) == 1 <==> Once(metadata, RecordOf(entry))
  {
    if metadata != [] {
      var front, last := metadata[..|metadata| - 1], metadata[|metadata| - 1];
      assert metadata == front + [last];
      MatchingCounts(front, entry);
      MatchingStep(front, last, entry);
      OnceStep(front, last, RecordOf(entry));
    }
  }

  /** Every attempt that an accepted step adds is the next in number, has a result, and has exactly one full
      formal record of its own run and product. */
  lemma AttemptIsBound(before: Status, after: Status, metadata: seq<Json>, k: nat)
    requires StepAccepted(before, after, metadata) && |Attempts(before)| <= k < |Attempts(after)|
    ensures var entry := Attempts(after)[k];
            && PyEq(Field(entry, "sequence"), JNum((k + 1) as real)) && (IsPass(entry) || IsFail(entry))
            && Field(entry, "process_version") == JStr("Gate-C-12-v2.0")
            && Once(metadata, RecordOf(entry))
  {
    StepNumbers(before, after, metadata);
    MatchingCounts(metadata, Attempts(after)[k]);
  }

  function FormalStatus(attempts: seq<Json>, state: Json): Status {
    map["baseline_history" := JArr([]), "gate_c_attempts" := JArr(attempts), "formal_release_state" := state,
        "baseline" := JObj(map["product_source_sha" := PRODUCT_SOURCE_SHA])]
  }

  lemma FormalStatusReads(attempts: seq<Json>, state: Json)
    ensures var status := FormalStatus(attempts, state);
            && HasArrays(status) && History(status) == [] && Attempts(status) == attempts && Formal(status) == state
            && Product(status) == Some(PRODUCT_SOURCE_SHA) && AttemptCount(status) == Some(|attempts|)
  {
  }

  function PassingAttempt(run: string): Json {
    JObj(map["sequence" := JNum(13.0), "process_version" := JStr("Gate-C-12-v2.0"), "result" := JStr("Passed"),
             "run_id" := JStr(run), "product_source_sha" := PRODUCT_SOURCE_SHA])
  }

  function FullRecord(run: string): Json {
    JObj(map["mode" := JStr("Full"), "classification" := JStr("FORMAL_GATE_C_ATTEMPT"),
             "process_version" := JStr("Gate-C-12-v2.0"), "formal_gate_attempt" := JBool(true),
             "run_id" := JStr(run), "product_source_sha" := PRODUCT_SOURCE_SHA])
  }

  lemma RecordBinds(run: string)
    ensures Field(PassingAttempt(run), "run_id") == JStr(run)
    ensures Field(PassingAttempt(run), "product_source_sha") == PRODUCT_SOURCE_SHA
    ensures IsFullRecord(FullRecord(run), JStr(run), PRODUCT_SOURCE_SHA)
  {
  }

  lemma OneMatches(item: Json, entry: Json)
    requires IsFullRecord(item, Field(entry, "run_id"), Field(entry, "product_source_sha"))
    ensures Matching([item], entry) == 1
  {
    MatchingStep([], item, entry);
    assert [] + [item] == [item];
  }

  lemma AttemptPasses(run: string)
    ensures IsPass(PassingAttempt(run))
    ensures Field(PassingAttempt(run), "sequence") == JNum(13.0)
    ensures Field(PassingAttempt(run), "process_version") == PROCESS_VERSION
  {
    ResultIff(PassingAttempt(run), "Passed");
  }

  lemma PassingAttemptOk(run: string)
    ensures IsPass(PassingAttempt(run)) && AttemptEntryOk(PassingAttempt(run), 13, [FullRecord(run)])
  {
    AttemptPasses(run);
    RecordBinds(run);
    OneMatches(FullRecord(run), PassingAttempt(run));
  }

  /** The way to acceptance is open: from twelve attempts and an open gate, a thirteenth that passes. */
  lemma AcceptanceCanHappen(attempts: seq<Json>, run: string)
    requires |attempts| == 12
    ensures var before := FormalStatus(attempts, FORMAL_STATE);
            var after := FormalStatus(attempts + [PassingAttempt(run)], ACCEPTED_STATE);
            Open(before) && StepAccepted(before, after, [FullRecord(run)]) && !Open(after)
  {
    var more := attempts + [PassingAttempt(run)];
    FormalStatusReads(attempts, FORMAL_STATE);
    FormalStatusReads(more, ACCEPTED_STATE);
    PassingAttemptOk(run);
    StatesDiffer();
    assert more[..12] == attempts && more[12..] == [PassingAttempt(run)];
  }
}
