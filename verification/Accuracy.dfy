/** The classification metrics and the threshold verdict of tools/acceptance/run-phase7-c3-accuracy.py. */
module Accuracy {
  import opened Wrappers
  import opened Counters
  import opened Sorting
  import opened Rounding

  const REVIEWED := {"CONTRADICTED", "INSUFFICIENT_EVIDENCE", "SUPPORTED"}

  type OtherText = text: string | text !in REVIEWED witness ""

  /** An outcome text: one of the three reviewed outcomes, or any other text. */
  datatype Label = Contradicted | Insufficient | Supported | Other(text: OtherText)

  function Name(outcome: Label): string {
    match outcome
    case Contradicted => "CONTRADICTED"
    case Insufficient => "INSUFFICIENT_EVIDENCE"
    case Supported => "SUPPORTED"
    case Other(text) => text
  }

  /** Every text is the name of exactly one outcome. */
  function LabelOf(text: string): (outcome: Label)
    ensures Name(outcome) == text
  {
    if text == "CONTRADICTED" then Contradicted
    else if text == "INSUFFICIENT_EVIDENCE" then Insufficient
    else if text == "SUPPORTED" then Supported
    else Other(text)
  }

  lemma LabelOfName(outcome: Label)
    ensures LabelOf(Name(outcome)) == outcome
  {
    assert |"CONTRADICTED"| == 12 && |"INSUFFICIENT_EVIDENCE"| == 21 && |"SUPPORTED"| == 9;
  }

  datatype Record = Record(factId: string, expected: Label, actual: Label)

  const EXPECTED_OUTCOMES: seq<Label> := [Contradicted, Insufficient, Supported]

  predicate IsOutcome(outcome: Label) {
    !outcome.Other?
  }

  // ---------------------------------------------------------------------------------------------
  // Counting records

  function One(b: bool): nat {
    if b then 1 else 0
  }

  /** Records expecting `e` and answering `a`. */
  function Cell(records: seq<Record>, e: Label, a: Label): nat {
    if records == [] then 0 else
      var r := records[|records| - 1];
      Cell(records[..|records| - 1], e, a) + One(r.expected == e && r.actual == a)
  }

  function Expecting(records: seq<Record>, e: Label): nat {
    if records == [] then 0
    else Expecting(records[..|records| - 1], e) + One(records[|records| - 1].expected == e)
  }

  function Answering(records: seq<Record>, a: Label): nat {
    if records == [] then 0
    else Answering(records[..|records| - 1], a) + One(records[|records| - 1].actual == a)
  }

  /** Records whose answer is none of the three outcomes. */
  function Unexpected(records: seq<Record>): nat {
    if records == [] then 0
    else Unexpected(records[..|records| - 1]) + One(!IsOutcome(records[|records| - 1].actual))
  }

  predicate AllReviewed(records: seq<Record>) {
    forall r | r in records :: IsOutcome(r.expected)
  }

  // ---------------------------------------------------------------------------------------------
  // Metrics

  datatype Ratio = NotMeasurable | Measured(value: real)

  const MILLION := 1000000.0

  /** `_safe_ratio` */
  function SafeRatio(numerator: int, denominator: int): Ratio {
    if denominator == 0 then NotMeasurable else Measured(Round(numerator as real / denominator as real, MILLION))
  }

  datatype ClassMetrics = ClassMetrics(tp: int, fp: int, tn: int, fn: int, precision: Ratio, recall: Ratio)

  /** One entry of a row of the confusion matrix. */
  datatype Answers = Answers(name: string, count: nat)

  function AnswerNames(row: seq<Answers>): (names: seq<string>)
    ensures |names| == |row| && forall i | 0 <= i < |row| :: names[i] == row[i].name
  {
    seq(|row|, i requires 0 <= i < |row| => row[i].name)
  }

  /** The row of `e`: the answers given, sorted by name, each with its number of records. */
  ghost predicate IsRow(records: seq<Record>, e: Label, row: seq<Answers>) {
    && StrictlySorted(AnswerNames(row))
    && (forall a: Label :: Name(a) in AnswerNames(row) <==> Cell(records, e, a) > 0)
    && (forall entry | entry in row :: entry.count == Cell(records, e, LabelOf(entry.name)))
  }

  datatype Metrics = Metrics(
    total: nat, correct: nat, accuracy: Ratio, confusion: map<Label, seq<Answers>>, perClass: map<Label, ClassMetrics>,
    abstention: Ratio, unsafeIds: seq<string>, unexpected: seq<string>)

  function ClassOf(tp: int, answering: int, expecting: int, total: int): ClassMetrics {
    var fp, fn := answering - tp, expecting - tp;
    ClassMetrics(tp, fp, total - tp - fp - fn, fn, SafeRatio(tp, tp + fp), SafeRatio(tp, tp + fn))
  }

  function UnsafeIds(records: seq<Record>): seq<string> {
    if records == [] then [] else
      var r := records[|records| - 1];
      var unsafe := r.expected == Contradicted && r.actual == Supported;
      UnsafeIds(records[..|records| - 1]) + if unsafe then [r.factId] else []
  }

  function Correct(records: seq<Record>): nat {
    Cell(records, Contradicted, Contradicted) + Cell(records, Insufficient, Insufficient)
    + Cell(records, Supported, Supported)
  }

  /** The metrics of one class, from its counts. */
  ghost predicate IsClassOf(records: seq<Record>, e: Label, c: ClassMetrics) {
    c == ClassOf(Cell(records, e, e), Answering(records, e), Expecting(records, e), |records|)
  }

  /** The metrics of a record list, in terms of the counts above. */
  ghost predicate IsMetricsOf(records: seq<Record>, m: Metrics) {
    && m.total == |records| && m.correct == Correct(records)
    && m.accuracy == SafeRatio(Correct(records), |records|)
    && m.confusion.Keys == {Contradicted, Insufficient, Supported}
    && (forall e | e in m.confusion :: IsRow(records, e, m.confusion[e]))
    && m.perClass.Keys == {Contradicted, Insufficient, Supported}
    && (forall e | e in m.perClass :: IsClassOf(records, e, m.perClass[e]))
    && m.abstention == SafeRatio(Cell(records, Insufficient, Insufficient), Expecting(records, Insufficient))
    && m.unsafeIds == UnsafeIds(records)
    && IsUnexpectedList(records, m.unexpected)
  }

  /** The sorted answers outside the three outcomes. */
  ghost predicate IsUnexpectedList(records: seq<Record>, list: seq<string>) {
    && StrictlySorted(list)
    && forall text :: text in list <==> exists r | r in records :: !IsOutcome(r.actual) && Name(r.actual) == text
  }

  /** One row of the confusion matrix after some records. */
  ghost predicate RowTallied(records: seq<Record>, e: Label, row: Counter<Label>) {
    && (forall a :: Count(row, a) == Cell(records, e, a))
    && (forall a | a in row :: row[a] > 0)
    && Total(row) == Expecting(records, e)
  }

  /** The answer counts after some records. */
  ghost predicate AnswersTallied(records: seq<Record>, actual: Counter<Label>) {
    && (forall a :: Count(actual, a) == Answering(records, a))
    && (forall a :: a in actual <==> exists r | r in records :: r.actual == a)
  }

  ghost predicate Tallied(records: seq<Record>, confusion: map<Label, Counter<Label>>, actual: Counter<Label>) {
    && confusion.Keys == {Contradicted, Insufficient, Supported}
    && (forall e | e in confusion :: RowTallied(records, e, confusion[e]))
    && AnswersTallied(records, actual)
  }

  lemma RowOne(records: seq<Record>, r: Record, e: Label, row: Counter<Label>)
    requires RowTallied(records, e, row)
    ensures RowTallied(records + [r], e, if r.expected == e then Bump(row, r.actual) else row)
  {
    var after := records + [r];
    assert after[..|after| - 1] == records;
    TotalBump(row, r.actual);
    forall a ensures Cell(after, e, a) == Cell(records, e, a) + One(r.expected == e && r.actual == a) {
    }
  }

  lemma AnswersOne(records: seq<Record>, r: Record, actual: Counter<Label>)
    requires AnswersTallied(records, actual)
    ensures AnswersTallied(records + [r], Bump(actual, r.actual))
  {
    var after := records + [r];
    assert after[..|after| - 1] == records;
    forall a ensures Answering(after, a) == Answering(records, a) + One(r.actual == a) {
    }
    assert r in after && forall s :: s in after <==> s in records || s == r;
  }

  lemma TallyOne(records: seq<Record>, r: Record, confusion: map<Label, Counter<Label>>, actual: Counter<Label>)
    requires Tallied(records, confusion, actual) && r.expected in confusion
    ensures var confusion' := confusion[r.expected := Bump(confusion[r.expected], r.actual)];
            Tallied(records + [r], confusion', Bump(actual, r.actual))
  {
    var after, confusion' := records + [r], confusion[r.expected := Bump(confusion[r.expected], r.actual)];
    AnswersOne(records, r, actual);
    forall e | e in confusion' ensures RowTallied(after, e, confusion'[e]) {
      RowOne(records, r, e, confusion[e]);
    }
  }

  /** The counting loop of `_classification_metrics`. */
  method Tally(records: seq<Record>) returns (r: Result<(map<Label, Counter<Label>>, Counter<Label>), Label>)
    ensures r.Success? <==> AllReviewed(records)
    ensures r.Success? ==> Tallied(records, r.value.0, r.value.1)
    ensures r.Failure? ==> !IsOutcome(r.error) && exists record | record in records :: record.expected == r.error
  {
    var confusion: map<Label, Counter<Label>> := map[Contradicted := map[], Insufficient := map[], Supported := map[]];
    var actual: Counter<Label> := map[];
    for i := 0 to |records|
      invariant Tallied(records[..i], confusion, actual)
      invariant AllReviewed(records[..i])
    {
      var record := records[i];
      if record.expected !in confusion {
        return Failure(record.expected);
      }
      assert records[..i + 1] == records[..i] + [record];
      TallyOne(records[..i], record, confusion, actual);
      confusion := confusion[record.expected := Bump(confusion[record.expected], record.actual)];
      actual := Bump(actual, record.actual);
    }
    assert records[..|records|] == records;
    return Success((confusion, actual));
  }

  /** `_classification_metrics` */
  method ClassificationMetrics(records: seq<Record>) returns (r: Result<Metrics, Label>)
    ensures r.Success? <==> AllReviewed(records)
    ensures r.Success? ==> IsMetricsOf(records, r.value)
    ensures r.Failure? ==> !IsOutcome(r.error) && exists record | record in records :: record.expected == r.error
  {
    var tally := Tally(records);
    if tally.Failure? {
      return Failure(tally.error);
    }
    var (confusion, actual) := tally.value;
    var correct := Count(confusion[Contradicted], Contradicted) + Count(confusion[Insufficient], Insufficient)
      + Count(confusion[Supported], Supported);
    var perClass := PerClass(records, confusion, actual);
    var matrix := ConfusionMatrix(records, confusion, actual);
    var insufficientTotal := SumValues(confusion[Insufficient]);
    var unexpected := UnexpectedAnswers(records, confusion, actual);
    r := Success(Metrics(|records|, correct, SafeRatio(correct, |records|), matrix, perClass,
                         SafeRatio(Count(confusion[Insufficient], Insufficient), insufficientTotal),
                         UnsafeIds(records), unexpected));
  }

  /** `dict(sorted(values.items()))` for one expected outcome. */
  method SortedRow(records: seq<Record>, e: Label, values: Counter<Label>) returns (row: seq<Answers>)
    requires RowTallied(records, e, values)
    ensures IsRow(records, e, row)
  {
    var names := SortSet(set a | a in values :: Name(a));
    row := [];
    for i := 0 to |names|
      invariant |row| == i && forall j | 0 <= j < i :: row[j] == Answers(names[j], Cell(records, e, LabelOf(names[j])))
    {
      row := row + [Answers(names[i], Count(values, LabelOf(names[i])))];
    }
    assert AnswerNames(row) == names;
    forall a: Label ensures Name(a) in names <==> Cell(records, e, a) > 0 {
      assert Count(values, a) == Cell(records, e, a);
      if Name(a) in names {
        var b :| b in values && Name(b) == Name(a);
        LabelOfName(a);
        LabelOfName(b);
      }
    }
  }

  /** The `confusion_matrix` field. */
  method ConfusionMatrix(records: seq<Record>, confusion: map<Label, Counter<Label>>, actual: Counter<Label>)
    returns (matrix: map<Label, seq<Answers>>)
    requires Tallied(records, confusion, actual)
    ensures matrix.Keys == {Contradicted, Insufficient, Supported}
    ensures forall e | e in matrix :: IsRow(records, e, matrix[e])
  {
    var contradicted := SortedRow(records, Contradicted, confusion[Contradicted]);
    var insufficient := SortedRow(records, Insufficient, confusion[Insufficient]);
    var supported := SortedRow(records, Supported, confusion[Supported]);
    matrix := map[Contradicted := contradicted, Insufficient := insufficient, Supported := supported];
  }

  /** `sorted(set(actual_counts) - set(EXPECTED_OUTCOMES))` */
  method UnexpectedAnswers(records: seq<Record>, confusion: map<Label, Counter<Label>>, actual: Counter<Label>)
    returns (list: seq<string>)
    requires Tallied(records, confusion, actual)
    ensures IsUnexpectedList(records, list)
  {
    list := SortSet(set a | a in actual && a !in EXPECTED_OUTCOMES :: Name(a));
    forall text ensures text in list <==> exists r | r in records :: !IsOutcome(r.actual) && Name(r.actual) == text {
      if text in list {
        var a :| a in actual && a !in EXPECTED_OUTCOMES && Name(a) == text;
      }
    }
  }

  method OneClass(records: seq<Record>, e: Label, row: Counter<Label>, actual: Counter<Label>) returns (c: ClassMetrics)
    requires RowTallied(records, e, row) && AnswersTallied(records, actual)
    ensures IsClassOf(records, e, c) && c.tp == Cell(records, e, e)
  {
    var expecting := SumValues(row);
    c := ClassOf(Count(row, e), Count(actual, e), expecting, |records|);
  }

  /** The loop over the three outcomes. */
  method PerClass(records: seq<Record>, confusion: map<Label, Counter<Label>>, actual: Counter<Label>)
    returns (perClass: map<Label, ClassMetrics>)
    requires Tallied(records, confusion, actual)
    ensures perClass.Keys == {Contradicted, Insufficient, Supported}
    ensures forall e | e in perClass :: IsClassOf(records, e, perClass[e])
  {
    perClass := map[];
    for i := 0 to 3
      invariant perClass.Keys == set j | 0 <= j < i :: EXPECTED_OUTCOMES[j]
      invariant forall e | e in perClass :: IsClassOf(records, e, perClass[e])
    {
      var e := EXPECTED_OUTCOMES[i];
      var c := OneClass(records, e, confusion[e], actual);
      perClass := perClass[e := c];
    }
    assert perClass.Keys == {EXPECTED_OUTCOMES[0], EXPECTED_OUTCOMES[1], EXPECTED_OUTCOMES[2]};
  }

  // ---------------------------------------------------------------------------------------------
  // The counts are conserved

  lemma {:induction false} CellBounds(records: seq<Record>, e: Label)
    ensures Cell(records, e, e) <= Expecting(records, e) && Cell(records, e, e) <= Answering(records, e)
    ensures Expecting(records, e) + Answering(records, e) - Cell(records, e, e) <= |records|
  {
    if records != [] {
      CellBounds(records[..|records| - 1], e);
    }
  }

  /** Every reviewed record expects one outcome, and answers one outcome or something unexpected. */
  lemma {:induction false} RowsAndColumns(records: seq<Record>)
    requires AllReviewed(records)
    ensures Expecting(records, Contradicted) + Expecting(records, Insufficient) + Expecting(records, Supported)
            == |records|
    ensures Answering(records, Contradicted) + Answering(records, Insufficient) + Answering(records, Supported)
            + Unexpected(records) == |records|
  {
    if records != [] {
      RowsAndColumns(records[..|records| - 1]);
      assert records[|records| - 1] in records;
    }
  }

  lemma {:induction false} UnsafeIdsCount(records: seq<Record>)
    ensures |UnsafeIds(records)| == Cell(records, Contradicted, Supported)
  {
    if records != [] {
      UnsafeIdsCount(records[..|records| - 1]);
    }
  }

  function FalsePositives(m: Metrics): int
    requires m.perClass.Keys == {Contradicted, Insufficient, Supported}
  {
    m.perClass[Contradicted].fp + m.perClass[Insufficient].fp + m.perClass[Supported].fp
  }

  function FalseNegatives(m: Metrics): int
    requires m.perClass.Keys == {Contradicted, Insufficient, Supported}
  {
    m.perClass[Contradicted].fn + m.perClass[Insufficient].fn + m.perClass[Supported].fn
  }

  /** Each class splits all records into four; every wrong record is one false negative, and one false
      positive unless its answer is unexpected; the unsafe list is one cell of the matrix. */
  lemma CountsConserved(records: seq<Record>, m: Metrics)
    requires AllReviewed(records) && IsMetricsOf(records, m)
    ensures forall e | e in m.perClass :: var c := m.perClass[e];
              c.tp + c.fp + c.tn + c.fn == m.total && c.tp >= 0 && c.fp >= 0 && c.tn >= 0 && c.fn >= 0
    ensures FalsePositives(m) + Unexpected(records) == FalseNegatives(m) == m.total - m.correct
    ensures |m.unsafeIds| == Cell(records, Contradicted, Supported)
  {
    forall e | e in m.perClass
      ensures var c := m.perClass[e];
              c.tp + c.fp + c.tn + c.fn == m.total && c.tp >= 0 && c.fp >= 0 && c.tn >= 0 && c.fn >= 0
    {
      CellBounds(records, e);
    }
    RowsAndColumns(records);
    UnsafeIdsCount(records);
  }

  // ---------------------------------------------------------------------------------------------
  // The verdict

  const THRESHOLD := 0.90

  datatype Check =
    | OverallAccuracy | AbstentionAccuracy | UnsafeFalseNegatives | MissingResults | NondeterministicResults
    | Precision(outcome: Label) | Recall(outcome: Label)

  function Text(check: Check): string {
    match check
    case OverallAccuracy => "overall_accuracy"
    case AbstentionAccuracy => "abstention_accuracy"
    case UnsafeFalseNegatives => "critical_unsafe_false_negatives"
    case MissingResults => "missing_results"
    case NondeterministicResults => "nondeterministic_results"
    case Precision(outcome) => Name(outcome) + ".precision"
    case Recall(outcome) => Name(outcome) + ".recall"
  }

  /** `_numeric_at_least`: an unmeasurable ratio never passes. */
  predicate AtLeast(ratio: Ratio, threshold: real) {
    ratio.Measured? && ratio.value >= threshold
  }

  datatype Verdict = Verdict(checks: map<Check, bool>, passed: bool, failed: seq<string>)

  /** The position of an outcome in `EXPECTED_OUTCOMES`, and 3 for any other. */
  function Position(outcome: Label): nat {
    match outcome
    case Contradicted => 0
    case Insufficient => 1
    case Supported => 2
    case Other(_) => 3
  }

  /** How many turns of the loop over the outcomes it takes for a check to appear. */
  function Turn(check: Check): nat {
    if check.Precision? || check.Recall? then Position(check.outcome) + 1 else 0
  }

  predicate IsCheck(check: Check) {
    check.Precision? || check.Recall? ==> IsOutcome(check.outcome)
  }

  predicate Passes(check: Check, m: Metrics, missing: nat, nondeterministic: nat) {
    match check
    case OverallAccuracy => AtLeast(m.accuracy, THRESHOLD)
    case AbstentionAccuracy => AtLeast(m.abstention, THRESHOLD)
    case UnsafeFalseNegatives => |m.unsafeIds| == 0
    case MissingResults => missing == 0
    case NondeterministicResults => nondeterministic == 0
    case Precision(outcome) => outcome in m.perClass && AtLeast(m.perClass[outcome].precision, THRESHOLD)
    case Recall(outcome) => outcome in m.perClass && AtLeast(m.perClass[outcome].recall, THRESHOLD)
  }

  lemma TurnStep(i: nat)
    requires i < 3
    ensures forall check :: Turn(check) <= i + 1 <==>
              Turn(check) <= i || check == Precision(EXPECTED_OUTCOMES[i]) || check == Recall(EXPECTED_OUTCOMES[i])
  {
  }

  ghost predicate AllRecorded(checks: map<Check, bool>, m: Metrics, missing: nat, nondeterministic: nat) {
    forall check | check in checks :: checks[check] == Passes(check, m, missing, nondeterministic)
  }

  /** One turn of the loop over the outcomes. */
  method ClassChecks(before: map<Check, bool>, i: nat, m: Metrics, ghost missing: nat, ghost nondeterministic: nat)
    returns (checks: map<Check, bool>)
    requires i < 3 && m.perClass.Keys == {Contradicted, Insufficient, Supported}
    requires AllRecorded(before, m, missing, nondeterministic)
    requires forall check :: check in before <==> Turn(check) <= i
    ensures AllRecorded(checks, m, missing, nondeterministic)
    ensures forall check :: check in checks <==> Turn(check) <= i + 1
  {
    var outcome := EXPECTED_OUTCOMES[i];
    var metrics := m.perClass[outcome];
    checks := before[Precision(outcome) := AtLeast(metrics.precision, THRESHOLD)];
    checks := checks[Recall(outcome) := AtLeast(metrics.recall, THRESHOLD)];
    TurnStep(i);
  }

  /** The dictionary `checks`. */
  method FillChecks(m: Metrics, missing: nat, nondeterministic: nat) returns (checks: map<Check, bool>)
    requires m.perClass.Keys == {Contradicted, Insufficient, Supported}
    ensures forall check :: check in checks <==> IsCheck(check)
    ensures AllRecorded(checks, m, missing, nondeterministic)
  {
    checks := map[
      OverallAccuracy := AtLeast(m.accuracy, THRESHOLD),
      AbstentionAccuracy := AtLeast(m.abstention, THRESHOLD),
      UnsafeFalseNegatives := |m.unsafeIds| == 0,
      MissingResults := missing == 0,
      NondeterministicResults := nondeterministic == 0];
    for i := 0 to 3
      invariant forall check :: check in checks <==> Turn(check) <= i
      invariant AllRecorded(checks, m, missing, nondeterministic)
    {
      checks := ClassChecks(checks, i, m, missing, nondeterministic);
    }
  }

  ghost predicate IsVerdict(v: Verdict, m: Metrics, missing: nat, nondeterministic: nat) {
    && (v.passed <==> forall check | IsCheck(check) :: Passes(check, m, missing, nondeterministic))
    && (forall check | IsCheck(check) ::
          check in v.checks && v.checks[check] == Passes(check, m, missing, nondeterministic))
    && StrictlySorted(v.failed)
    && (forall text :: text in v.failed <==>
          exists check | IsCheck(check) :: !Passes(check, m, missing, nondeterministic) && text == Text(check))
  }

  /** `_evaluate_thresholds` */
  method EvaluateThresholds(m: Metrics, missing: nat, nondeterministic: nat) returns (v: Verdict)
    requires m.perClass.Keys == {Contradicted, Insufficient, Supported}
    ensures IsVerdict(v, m, missing, nondeterministic)
  {
    var checks := FillChecks(m, missing, nondeterministic);
    var failed := SortSet(set check | check in checks && !checks[check] :: Text(check));
    v := Verdict(checks, forall check | check in checks :: checks[check], failed);
  }

  // ---------------------------------------------------------------------------------------------
  // Passing recalls imply the overall accuracy and the abstention accuracy

  lemma QuotientAtLeast(c: real, n: real, ratio: real)
    requires n > 0.0 && c / n >= ratio
    ensures c >= ratio * n
  {
    TimesMonotone(ratio, c / n, n);
  }

  lemma QuotientOf(c: real, n: real, ratio: real)
    requires n > 0.0 && c >= ratio * n
    ensures c / n >= ratio
  {
    OverMonotone(ratio * n, c, n);
    assert ratio * n / n == ratio;
  }

  /** A weighted mean is no less than the least of its parts. */
  lemma WeightedMean(c1: real, n1: real, c2: real, n2: real, c3: real, n3: real, ratio: real)
    requires n1 > 0.0 && n2 > 0.0 && n3 > 0.0
    requires c1 / n1 >= ratio && c2 / n2 >= ratio && c3 / n3 >= ratio
    ensures (c1 + c2 + c3) / (n1 + n2 + n3) >= ratio
  {
    QuotientAtLeast(c1, n1, ratio);
    QuotientAtLeast(c2, n2, ratio);
    QuotientAtLeast(c3, n3, ratio);
    assert ratio * (n1 + n2 + n3) == ratio * n1 + ratio * n2 + ratio * n3;
    QuotientOf(c1 + c2 + c3, n1 + n2 + n3, ratio);
  }

  lemma RatioPassesFrom(low: real, high: real)
    requires low <= high && Round(low, MILLION) >= THRESHOLD
    ensures Round(high, MILLION) >= THRESHOLD
  {
    RoundMonotone(low, high, MILLION);
  }

  lemma LeastOfThree(a: real, b: real, c: real) returns (least: real)
    ensures least <= a && least <= b && least <= c && (least == a || least == b || least == c)
  {
    least := if a <= b && a <= c then a else if b <= c then b else c;
  }

  lemma RecallsImplyMean(c1: nat, n1: nat, c2: nat, n2: nat, c3: nat, n3: nat)
    requires AtLeast(SafeRatio(c1, n1), THRESHOLD) && AtLeast(SafeRatio(c2, n2), THRESHOLD)
            && AtLeast(SafeRatio(c3, n3), THRESHOLD)
    ensures AtLeast(SafeRatio(c1 + c2 + c3, n1 + n2 + n3), THRESHOLD)
  {
    var least := LeastOfThree(c1 as real / n1 as real, c2 as real / n2 as real, c3 as real / n3 as real);
    WeightedMean(c1 as real, n1 as real, c2 as real, n2 as real, c3 as real, n3 as real, least);
    assert (c1 + c2 + c3) as real == c1 as real + c2 as real + c3 as real;
    assert (n1 + n2 + n3) as real == n1 as real + n2 as real + n3 as real;
    RatioPassesFrom(least, (c1 + c2 + c3) as real / (n1 + n2 + n3) as real);
  }

  lemma RecallIs(records: seq<Record>, m: Metrics, e: Label)
    requires IsMetricsOf(records, m) && IsOutcome(e)
    ensures e in m.perClass && m.perClass[e].recall == SafeRatio(Cell(records, e, e), Expecting(records, e))
  {
    assert e in m.perClass;
  }

  /** Despite the rounding to six places, passing recalls leave these two checks nothing to reject. */
  lemma RecallsDecideAccuracy(records: seq<Record>, m: Metrics, missing: nat, nondeterministic: nat)
    requires AllReviewed(records) && IsMetricsOf(records, m)
    requires forall e | e in m.perClass :: Passes(Recall(e), m, missing, nondeterministic)
    ensures Passes(OverallAccuracy, m, missing, nondeterministic)
            && Passes(AbstentionAccuracy, m, missing, nondeterministic)
  {
    RecallIs(records, m, Contradicted);
    RecallIs(records, m, Insufficient);
    RecallIs(records, m, Supported);
    assert Passes(Recall(Contradicted), m, missing, nondeterministic);
    assert Passes(Recall(Insufficient), m, missing, nondeterministic);
    assert Passes(Recall(Supported), m, missing, nondeterministic);
    RowsAndColumns(records);
    RecallsImplyMean(Cell(records, Contradicted, Contradicted), Expecting(records, Contradicted),
                     Cell(records, Insufficient, Insufficient), Expecting(records, Insufficient),
                     Cell(records, Supported, Supported), Expecting(records, Supported));
  }

  /** So the verdict is decided by the precisions, the recalls and the three zero counts: the other two
      checks never change it. */
  lemma VerdictWithoutAccuracy(records: seq<Record>, m: Metrics, missing: nat, nondeterministic: nat)
    requires AllReviewed(records) && IsMetricsOf(records, m)
    ensures (forall check | IsCheck(check) :: Passes(check, m, missing, nondeterministic)) <==>
            (forall check | IsCheck(check) && check != OverallAccuracy && check != AbstentionAccuracy ::
               Passes(check, m, missing, nondeterministic))
  {
    if forall check | IsCheck(check) && check != OverallAccuracy && check != AbstentionAccuracy ::
         Passes(check, m, missing, nondeterministic)
    {
      forall e | e in m.perClass ensures Passes(Recall(e), m, missing, nondeterministic) {
        assert IsCheck(Recall(e));
      }
      RecallsDecideAccuracy(records, m, missing, nondeterministic);
    }
  }

  // ---------------------------------------------------------------------------------------------
  // The numbers and the names reported

  /** A ratio is reported to the nearest millionth, or not at all. */
  lemma SafeRatioNearest(numerator: int, denominator: int)
    ensures denominator == 0 ==> SafeRatio(numerator, denominator) == NotMeasurable
    ensures denominator != 0 ==>
              var exact, ratio := numerator as real / denominator as real, SafeRatio(numerator, denominator);
              ratio.Measured? && Distance(exact * 1000000.0, ratio.value * 1000000.0) <= 0.5
  {
    if denominator != 0 {
      RoundNearest(numerator as real / denominator as real, MILLION);
    }
  }

  /** The counts of a class, its precision over the records that answer it, its recall over those expecting it. */
  lemma ClassIs(records: seq<Record>, m: Metrics, e: Label)
    requires IsMetricsOf(records, m) && IsOutcome(e)
    ensures e in m.perClass
    ensures var c, hits := m.perClass[e], Cell(records, e, e);
            && c.tp == hits && c.fp == Answering(records, e) - hits && c.fn == Expecting(records, e) - hits
            && c.precision == SafeRatio(hits, Answering(records, e))
            && c.recall == SafeRatio(hits, Expecting(records, e))
  {
    assert e in m.perClass && IsClassOf(records, e, m.perClass[e]);
  }

  /** The unsafe list names the contradicted facts that were answered as supported. */
  lemma {:induction false} UnsafeIdsMembers(records: seq<Record>, id: string)
    ensures id in UnsafeIds(records) <==>
            exists r | r in records :: r.expected == Contradicted && r.actual == Supported && r.factId == id
  {
    if records != [] {
      var front, last := records[..|records| - 1], records[|records| - 1];
      assert records == front + [last];
      UnsafeIdsMembers(front, id);
    }
  }

  /** Different checks have different names. */
  lemma NamesDiffer(c: Check, d: Check)
    requires IsCheck(c) && IsCheck(d) && Text(c) == Text(d)
    ensures c == d
  {
    NameStart(c);
    NameStart(d);
  }

  /** Where the name of a check starts and how long it is. */
  lemma NameStart(c: Check)
    requires IsCheck(c)
    ensures Text(c) != ""
    ensures match c
            case OverallAccuracy => Text(c)[0] == 'o'
            case AbstentionAccuracy => Text(c)[0] == 'a'
            case UnsafeFalseNegatives => Text(c)[0] == 'c'
            case MissingResults => Text(c)[0] == 'm'
            case NondeterministicResults => Text(c)[0] == 'n'
            case Precision(o) => Text(c)[0] == Name(o)[0] && |Text(c)| == |Name(o)| + 10
            case Recall(o) => Text(c)[0] == Name(o)[0] && |Text(c)| == |Name(o)| + 7
    ensures c.Precision? || c.Recall? ==>
              var o := c.outcome;
              && (o == Contradicted ==> Name(o)[0] == 'C' && |Name(o)| == 12)
              && (o == Insufficient ==> Name(o)[0] == 'I' && |Name(o)| == 21)
              && (o == Supported ==> Name(o)[0] == 'S' && |Name(o)| == 9)
  {
  }

  lemma FailedIff(v: Verdict, m: Metrics, missing: nat, nondeterministic: nat, check: Check)
    requires IsVerdict(v, m, missing, nondeterministic) && IsCheck(check)
    ensures Text(check) in v.failed <==> !Passes(check, m, missing, nondeterministic)
  {
    if Text(check) in v.failed {
      var other :| IsCheck(other) && !Passes(other, m, missing, nondeterministic) && Text(check) == Text(other);
      NamesDiffer(check, other);
    }
  }

  /** The failed list by name: which number falls short of nine tenths, or is not zero. */
  lemma FailedByName(v: Verdict, m: Metrics, missing: nat, nondeterministic: nat)
    requires IsVerdict(v, m, missing, nondeterministic)
    ensures "overall_accuracy" in v.failed <==> m.accuracy.NotMeasurable? || m.accuracy.value < 0.90
    ensures "abstention_accuracy" in v.failed <==> m.abstention.NotMeasurable? || m.abstention.value < 0.90
    ensures "critical_unsafe_false_negatives" in v.failed <==> m.unsafeIds != []
    ensures "missing_results" in v.failed <==> missing != 0
    ensures "nondeterministic_results" in v.failed <==> nondeterministic != 0
  {
    FailedIff(v, m, missing, nondeterministic, OverallAccuracy);
    FailedIff(v, m, missing, nondeterministic, AbstentionAccuracy);
    FailedIff(v, m, missing, nondeterministic, UnsafeFalseNegatives);
    FailedIff(v, m, missing, nondeterministic, MissingResults);
    FailedIff(v, m, missing, nondeterministic, NondeterministicResults);
  }

  lemma OutcomeNames()
    ensures Name(Contradicted) == "CONTRADICTED" && Name(Supported) == "SUPPORTED"
    ensures Name(Insufficient) == "INSUFFICIENT_EVIDENCE"
  {
  }

  /** Each class by the name of its outcome. */
  lemma FailedClassByName(v: Verdict, m: Metrics, missing: nat, nondeterministic: nat, e: Label)
    requires IsVerdict(v, m, missing, nondeterministic) && IsOutcome(e) && e in m.perClass
    ensures var ratio := m.perClass[e].precision;
            Name(e) + ".precision" in v.failed <==> ratio.NotMeasurable? || ratio.value < 0.90
    ensures var ratio := m.perClass[e].recall;
            Name(e) + ".recall" in v.failed <==> ratio.NotMeasurable? || ratio.value < 0.90
  {
    FailedIff(v, m, missing, nondeterministic, Precision(e));
    FailedIff(v, m, missing, nondeterministic, Recall(e));
  }
}
