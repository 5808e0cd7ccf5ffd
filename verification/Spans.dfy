/** Source spans of golden claims in tools/acceptance/run-phase7-c3-accuracy.py. */
module Spans {
  import opened Wrappers
  import opened Text

  datatype Fact = Fact(factId: string, claim: string)

  datatype Claim = Claim(factId: string, statement: string, normalized: string, ordinal: nat, start: nat, end: nat)

  type Span = (nat, nat)

  function Statements(facts: seq<Fact>): (r: seq<string>)
    ensures |r| == |facts| && forall i | 0 <= i < |r| :: r[i] == facts[i].claim
  {
    seq(|facts|, i requires 0 <= i < |facts| => facts[i].claim)
  }

  /** The combined length of the statements, each followed by one separator. */
  function Extent(statements: seq<string>): nat {
    if statements == [] then 0 else Extent(statements[..|statements| - 1]) + |statements[|statements| - 1]| + 1
  }

  /** Each span starts after the earlier statements and their separators. */
  ghost predicate SpansOf(statements: seq<string>, offsets: seq<Span>) {
    && |offsets| == |statements|
    && forall i | 0 <= i < |offsets| ::
        offsets[i] == (Extent(statements[..i]), Extent(statements[..i]) + |statements[i]|)
  }

  lemma SpansStep(statements: seq<string>, i: nat, offsets: seq<Span>, start: nat, end: nat)
    requires i < |statements| && SpansOf(statements[..i], offsets)
    requires start == Extent(statements[..i]) && end == start + |statements[i]|
    ensures SpansOf(statements[..i + 1], offsets + [(start, end)])
    ensures Extent(statements[..i + 1]) == end + 1
  {
    var more := statements[..i + 1];
    assert more[..i] == statements[..i];
    forall j | 0 <= j < i ensures more[..j] == statements[..i][..j] && more[j] == statements[..i][j] {
    }
  }

  /** The offsets loop of `_candidate_and_spans`. */
  method Offsets(statements: seq<string>) returns (offsets: seq<Span>)
    ensures SpansOf(statements, offsets)
  {
    offsets := [];
    var cursor := 0;
    for i := 0 to |statements|
      invariant cursor == Extent(statements[..i])
      invariant SpansOf(statements[..i], offsets)
    {
      var end := cursor + |statements[i]|;
      SpansStep(statements, i, offsets, cursor, end);
      offsets := offsets + [(cursor, end)];
      cursor := end + 1;
    }
    assert statements[..|statements|] == statements;
  }

  /** `_candidate_and_spans`: the text, and the offsets into it. */
  method CandidateAndSpans(facts: seq<Fact>) returns (text: string, offsets: seq<Span>)
    ensures text == Join('\n', Statements(facts))
    ensures SpansOf(Statements(facts), offsets)
  {
    var statements := Statements(facts);
    offsets := Offsets(statements);
    text := Join('\n', statements);
  }

  lemma {:induction false} JoinAppend(separator: char, front: seq<string>, last: string)
    requires front != []
    ensures Join(separator, front + [last]) == Join(separator, front) + [separator] + last
  {
    assert (front + [last])[1..] == front[1..] + [last];
    if |front| > 1 {
      JoinAppend(separator, front[1..], last);
    }
  }

  lemma {:induction false} JoinLength(statements: seq<string>)
    requires statements != []
    ensures |Join('\n', statements)| == Extent(statements) - 1
  {
    var front, last := statements[..|statements| - 1], statements[|statements| - 1];
    assert statements == front + [last];
    if front != [] {
      JoinAppend('\n', front, last);
      JoinLength(front);
    }
  }

  lemma SliceOfPrefix(a: string, b: string, from: nat, to: nat)
    requires from <= to <= |a|
    ensures (a + b)[from..to] == a[from..to]
  {
  }

  /** Statement `i` stands in the join at its extent. */
  lemma {:induction false} JoinPrefix(statements: seq<string>, i: nat)
    requires i < |statements|
    ensures var text, start := Join('\n', statements), Extent(statements[..i]);
            start + |statements[i]| <= |text| && text[start..start + |statements[i]|] == statements[i]
  {
    var front, last := statements[..|statements| - 1], statements[|statements| - 1];
    var start := Extent(statements[..i]);
    assert statements == front + [last];
    if front == [] {
      assert statements[..i] == [];
    } else {
      JoinAppend('\n', front, last);
      JoinLength(front);
      if i < |front| {
        JoinPrefix(front, i);
        assert statements[..i] == front[..i];
        SliceOfPrefix(Join('\n', front), "\n" + last, start, start + |statements[i]|);
        assert Join('\n', statements) == Join('\n', front) + ("\n" + last);
      } else {
        assert statements[..i] == front;
        assert start == |Join('\n', front) + "\n"|;
        assert Join('\n', statements)[start..] == last;
      }
    }
  }

  /** Slicing the joined text at a span gives the statement back. */
  lemma SpanRecoversStatement(statements: seq<string>, offsets: seq<Span>, i: nat)
    requires SpansOf(statements, offsets) && i < |statements|
    ensures var text := Join('\n', statements);
            offsets[i].0 <= offsets[i].1 <= |text| && text[offsets[i].0..offsets[i].1] == statements[i]
  {
    JoinPrefix(statements, i);
  }

  /** Consecutive spans are separated by exactly one newline, from the start of the text to its end. */
  lemma SpansTileText(statements: seq<string>, offsets: seq<Span>, i: nat)
    requires SpansOf(statements, offsets) && i < |statements|
    ensures var text := Join('\n', statements);
            && (i == 0 ==> offsets[i].0 == 0)
            && (i + 1 < |statements| ==>
                  offsets[i + 1].0 == offsets[i].1 + 1 && offsets[i].1 < |text| && text[offsets[i].1] == '\n')
            && (i + 1 == |statements| ==> offsets[i].1 == |text|)
  {
    ExtentStep(statements, i);
    if i + 1 < |statements| {
      SeparatorAt(statements, i);
    } else {
      JoinLength(statements);
      assert statements[..i + 1] == statements;
    }
  }

  lemma ExtentStep(statements: seq<string>, i: nat)
    requires i < |statements|
    ensures Extent(statements[..i + 1]) == Extent(statements[..i]) + |statements[i]| + 1
  {
    assert statements[..i + 1][..i] == statements[..i];
  }

  lemma {:induction false} SeparatorAt(statements: seq<string>, i: nat)
    requires i + 1 < |statements|
    ensures Extent(statements[..i + 1]) - 1 < |Join('\n', statements)|
    ensures Join('\n', statements)[Extent(statements[..i + 1]) - 1] == '\n'
  {
    var front, last := statements[..|statements| - 1], statements[|statements| - 1];
    assert statements == front + [last];
    JoinAppend('\n', front, last);
    JoinLength(front);
    if i + 1 < |front| {
      SeparatorAt(front, i);
      assert statements[..i + 1] == front[..i + 1];
    } else {
      assert statements[..i + 1] == front;
    }
  }

  lemma {:induction false} ExtentMonotone(statements: seq<string>, i: nat, j: nat)
    requires i < j <= |statements|
    ensures Extent(statements[..i]) + |statements[i]| < Extent(statements[..j])
    decreases j
  {
    assert statements[..j][..j - 1] == statements[..j - 1];
    if i < j - 1 {
      ExtentMonotone(statements, i, j - 1);
    }
  }

  /** Spans come in order and never overlap. */
  lemma SpansDisjoint(statements: seq<string>, offsets: seq<Span>, i: nat, j: nat)
    requires SpansOf(statements, offsets) && i < j < |statements|
    ensures offsets[i].1 < offsets[j].0
  {
    ExtentMonotone(statements, i, j);
  }

  datatype ClaimError = LengthMismatch

  /** `_build_claims`: facts and offsets are zipped strictly. */
  method BuildClaims(facts: seq<Fact>, offsets: seq<Span>) returns (r: Result<seq<Claim>, ClaimError>)
    ensures r.Success? <==> |facts| == |offsets|
    ensures r.Success? ==> |r.value| == |facts| && forall i | 0 <= i < |facts| ::
              var words := Join(' ', Split(facts[i].claim));
              r.value[i] == Claim(facts[i].factId, facts[i].claim, words, i, offsets[i].0, offsets[i].1)
  {
    var claims: seq<Claim> := [];
    var ordinal := 0;
    while ordinal < |facts| && ordinal < |offsets|
      invariant ordinal <= |facts| && ordinal <= |offsets| && |claims| == ordinal
      invariant forall i | 0 <= i < ordinal ::
                  var words := Join(' ', Split(facts[i].claim));
                  claims[i] == Claim(facts[i].factId, facts[i].claim, words, i, offsets[i].0, offsets[i].1)
    {
      var statement := facts[ordinal].claim;
      var normalized := Join(' ', Split(statement));
      var (start, end) := offsets[ordinal];
      claims := claims + [Claim(facts[ordinal].factId, statement, normalized, ordinal, start, end)];
      ordinal := ordinal + 1;
    }
    if |facts| != |offsets| {
      return Failure(LengthMismatch);
    }
    return Success(claims);
  }

  /** Both steps together: every claim finds its statement, and its normalized words, in the candidate. */
  method ExtractClaims(facts: seq<Fact>) returns (text: string, claims: seq<Claim>)
    ensures |claims| == |facts|
    ensures forall i | 0 <= i < |claims| ::
              && claims[i].start <= claims[i].end <= |text|
              && text[claims[i].start..claims[i].end] == claims[i].statement == facts[i].claim
              && Split(claims[i].normalized) == Split(claims[i].statement)
  {
    var offsets;
    text, offsets := CandidateAndSpans(facts);
    var built := BuildClaims(facts, offsets);
    claims := built.value;
    forall i | 0 <= i < |claims|
      ensures claims[i].start <= claims[i].end <= |text|
      ensures text[claims[i].start..claims[i].end] == claims[i].statement
      ensures Split(claims[i].normalized) == Split(claims[i].statement)
    {
      SpanRecoversStatement(Statements(facts), offsets, i);
      SplitJoin(Split(claims[i].statement));
    }
  }
}
