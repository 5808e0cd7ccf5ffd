/** Latency statistics of backend/benchmarks/topic4_c2_retrieval.py over exact real samples. */
module Percentile {
  import opened Wrappers
  import opened Sorting
  import opened Rounding

  predicate RealLeq(a: real, b: real) {
    a <= b
  }

  lemma RealOrder()
    ensures TotalPreorder(RealLeq) && Antisymmetric(RealLeq)
  {
  }

  function Ordered(values: seq<real>): (r: seq<real>)
    ensures |r| == |values|
  {
    Sort(RealLeq, values)
  }

  function Ceiling(x: real): int {
    if x.Floor as real == x then x.Floor else x.Floor + 1
  }

  /** The piecewise linear interpolation of an ordered sample at a rank. */
  function Interpolate(ordered: seq<real>, rank: real): real
    requires 0.0 <= rank <= (|ordered| - 1) as real
  {
    var lower, upper := rank.Floor, Ceiling(rank);
    if lower == upper then ordered[lower]
    else ordered[lower] + (ordered[upper] - ordered[lower]) * (rank - lower as real)
  }

  function Rank(count: nat, fraction: real): (rank: real)
    requires count > 0 && 0.0 <= fraction <= 1.0
    ensures 0.0 <= rank <= (count - 1) as real
  {
    var last := (count - 1) as real;
    ProductNonNegative(last, fraction);
    ProductNonNegative(last, 1.0 - fraction);
    last * fraction
  }

  lemma RankMonotone(count: nat, low: real, high: real)
    requires count > 0 && 0.0 <= low <= high <= 1.0
    ensures Rank(count, low) <= Rank(count, high)
  {
    var last := (count - 1) as real;
    ProductNonNegative(last, high - low);
    assert last * (high - low) == last * high - last * low;
  }

  datatype PercentileError = NoSamples

  /** `_percentile`, at the fractions its callers pass. */
  function Percentile(values: seq<real>, fraction: real): Result<real, PercentileError>
    requires 0.0 <= fraction <= 1.0
  {
    if values == [] then Failure(NoSamples) else Success(At(values, fraction))
  }

  function At(values: seq<real>, fraction: real): real
    requires values != [] && 0.0 <= fraction <= 1.0
  {
    Interpolate(Ordered(values), Rank(|values|, fraction))
  }

  // ---------------------------------------------------------------------------------------------
  // Interpolation

  predicate Increasing(s: seq<real>) {
    forall i, j | 0 <= i < j < |s| :: s[i] <= s[j]
  }

  lemma OrderedIncreasing(values: seq<real>)
    ensures Increasing(Ordered(values)) && multiset(Ordered(values)) == multiset(values)
  {
    RealOrder();
    SortSorted(RealLeq, values);
  }

  /** Between two values, a weight in [0, 1] stays between, and a larger weight gives no less. */
  lemma Blend(a: real, b: real, u: real, v: real)
    requires a <= b && 0.0 <= u <= v <= 1.0
    ensures a <= a + (b - a) * u <= a + (b - a) * v <= b
  {
    ProductNonNegative(b - a, u);
    TimesMonotone(u, v, b - a);
    TimesMonotone(v, 1.0, b - a);
  }

  /** The value lies between the two adjacent order statistics. */
  lemma InterpolateBetween(ordered: seq<real>, rank: real)
    requires Increasing(ordered) && 0.0 <= rank <= (|ordered| - 1) as real
    ensures ordered[rank.Floor] <= Interpolate(ordered, rank) <= ordered[Ceiling(rank)]
  {
    var lower, upper := rank.Floor, Ceiling(rank);
    if lower != upper {
      Blend(ordered[lower], ordered[upper], rank - lower as real, 1.0);
    }
  }

  lemma InterpolateMonotoneInRank(ordered: seq<real>, low: real, high: real)
    requires Increasing(ordered) && 0.0 <= low <= high <= (|ordered| - 1) as real
    ensures Interpolate(ordered, low) <= Interpolate(ordered, high)
  {
    assert low.Floor <= high.Floor;
    if low.Floor == high.Floor {
      if Ceiling(high) != high.Floor {
        var floor := low.Floor;
        Blend(ordered[floor], ordered[floor + 1], low - floor as real, high - floor as real);
        assert Interpolate(ordered, low) ==
               ordered[floor] + (ordered[floor + 1] - ordered[floor]) * (low - floor as real);
      }
    } else {
      InterpolateBetween(ordered, low);
      InterpolateBetween(ordered, high);
      assert Ceiling(low) <= high.Floor;
    }
  }

  predicate Below(s: seq<real>, t: seq<real>) {
    |s| == |t| && forall i | 0 <= i < |s| :: s[i] <= t[i]
  }

  lemma InterpolateMonotoneInSample(s: seq<real>, t: seq<real>, rank: real)
    requires Below(s, t) && 0.0 <= rank <= (|s| - 1) as real
    ensures Interpolate(s, rank) <= Interpolate(t, rank)
  {
    var lower, upper := rank.Floor, Ceiling(rank);
    if lower != upper {
      var w := rank - lower as real;
      ProductNonNegative(t[lower] - s[lower], 1.0 - w);
      ProductNonNegative(t[upper] - s[upper], w);
      assert Interpolate(t, rank) - Interpolate(s, rank) ==
          (t[lower] - s[lower]) * (1.0 - w) + (t[upper] - s[upper]) * w;
    }
  }

  // ---------------------------------------------------------------------------------------------
  // Raising samples raises every order statistic

  lemma {:induction false} InsertBelow(x: real, y: real, s: seq<real>, t: seq<real>)
    requires x <= y && Below(s, t) && Increasing(s) && Increasing(t)
    ensures Below(Insert(RealLeq, x, s), Insert(RealLeq, y, t))
    decreases |s|
  {
    if s == [] {
    } else if x <= s[0] {
      InsertHeads(x, y, s, t);
    } else if y <= t[0] {
      LowerInsert(x, y, s, t);
    } else {
      InsertBelow(x, y, s[1..], t[1..]);
    }
  }

  lemma BelowCons(x: real, y: real, s: seq<real>, t: seq<real>)
    requires x <= y && Below(s, t)
    ensures Below([x] + s, [y] + t)
  {
  }

  /** When `x` goes first, each later element is compared with one at least as large. */
  lemma {:induction false} InsertHeads(x: real, y: real, s: seq<real>, t: seq<real>)
    requires x <= y && Below(s, t) && Increasing(s) && Increasing(t)
    requires s == [] || x <= s[0]
    ensures Below([x] + s, Insert(RealLeq, y, t))
    decreases |s|
  {
    if t != [] && !(y <= t[0]) {
      InsertHeads(s[0], y, s[1..], t[1..]);
      assert [s[0]] + s[1..] == s;
      BelowCons(x, t[0], s, Insert(RealLeq, y, t[1..]));
    } else {
      BelowCons(x, y, s, t);
    }
  }

  /** When `y` goes first, everything inserted below it is below. */
  lemma {:induction false} LowerInsert(x: real, y: real, s: seq<real>, t: seq<real>)
    requires x <= y && Below(s, t) && Increasing(s) && Increasing(t)
    requires t == [] || y <= t[0]
    ensures Below(Insert(RealLeq, x, s), [y] + t)
    decreases |s|
  {
    if s != [] && !(x <= s[0]) {
      LowerInsert(x, t[0], s[1..], t[1..]);
      assert [t[0]] + t[1..] == t;
      BelowCons(s[0], y, Insert(RealLeq, x, s[1..]), t);
    } else {
      BelowCons(x, y, s, t);
    }
  }

  lemma {:induction false} OrderedBelow(s: seq<real>, t: seq<real>)
    requires Below(s, t)
    ensures Below(Ordered(s), Ordered(t))
  {
    if s != [] {
      OrderedBelow(s[1..], t[1..]);
      OrderedIncreasing(s[1..]);
      OrderedIncreasing(t[1..]);
      InsertBelow(s[0], t[0], Ordered(s[1..]), Ordered(t[1..]));
    }
  }

  // ---------------------------------------------------------------------------------------------
  // The percentile

  /** Between the two order statistics adjacent to the rank. */
  lemma PercentileBetween(values: seq<real>, fraction: real)
    requires values != [] && 0.0 <= fraction <= 1.0
    ensures var rank := Rank(|values|, fraction);
            Ordered(values)[rank.Floor] <= At(values, fraction) <= Ordered(values)[Ceiling(rank)]
  {
    OrderedIncreasing(values);
    InterpolateBetween(Ordered(values), Rank(|values|, fraction));
  }

  lemma PercentileMonotoneInFraction(values: seq<real>, low: real, high: real)
    requires values != [] && 0.0 <= low <= high <= 1.0
    ensures At(values, low) <= At(values, high)
  {
    OrderedIncreasing(values);
    RankMonotone(|values|, low, high);
    InterpolateMonotoneInRank(Ordered(values), Rank(|values|, low), Rank(|values|, high));
  }

  /** Raising any samples never lowers a percentile. */
  lemma PercentileMonotoneInSamples(s: seq<real>, t: seq<real>, fraction: real)
    requires s != [] && Below(s, t) && 0.0 <= fraction <= 1.0
    ensures At(s, fraction) <= At(t, fraction)
  {
    OrderedBelow(s, t);
    InterpolateMonotoneInSample(Ordered(s), Ordered(t), Rank(|s|, fraction));
  }

  lemma PercentileIgnoresOrder(s: seq<real>, t: seq<real>, fraction: real)
    requires s != [] && multiset(s) == multiset(t) && 0.0 <= fraction <= 1.0
    ensures t != [] && At(s, fraction) == At(t, fraction)
  {
    RealOrder();
    SortIgnoresOrder(RealLeq, s, t);
    assert |s| == |multiset(s)| == |t|;
  }

  /** `statistics.median` */
  function Median(values: seq<real>): real
    requires values != []
  {
    var half := |values| / 2;
    if |values| % 2 == 1 then Ordered(values)[half] else (Ordered(values)[half - 1] + Ordered(values)[half]) / 2.0
  }

  lemma MiddleRank(count: nat)
    requires count > 0
    ensures var half := count / 2;
            if count % 2 == 1 then Rank(count, 0.5) == half as real
            else Rank(count, 0.5) == (half - 1) as real + 0.5
  {
    var half := count / 2;
    if count % 2 == 1 {
      assert count - 1 == 2 * half;
    } else {
      assert count - 1 == 2 * (half - 1) + 1;
    }
  }

  lemma InterpolateHalfway(ordered: seq<real>, k: nat)
    requires k + 1 < |ordered|
    ensures Interpolate(ordered, k as real + 0.5) == (ordered[k] + ordered[k + 1]) / 2.0
  {
    var rank := k as real + 0.5;
    assert rank.Floor == k && Ceiling(rank) == k + 1 && rank - k as real == 0.5;
  }

  lemma InterpolateAt(ordered: seq<real>, k: nat)
    requires k < |ordered|
    ensures Interpolate(ordered, k as real) == ordered[k]
  {
    assert (k as real).Floor == k;
  }

  lemma PercentileIsMedian(values: seq<real>)
    requires values != []
    ensures At(values, 0.5) == Median(values)
  {
    var half := |values| / 2;
    MiddleRank(|values|);
    if |values| % 2 == 1 {
      InterpolateAt(Ordered(values), half);
    } else {
      InterpolateHalfway(Ordered(values), half - 1);
    }
  }

  /** `max` */
  function Maximum(values: seq<real>): real
    requires values != []
  {
    if |values| == 1 then values[0]
    else
      var rest := Maximum(values[1..]);
      if values[0] >= rest then values[0] else rest
  }

  lemma {:induction false} MaximumBounds(values: seq<real>)
    requires values != []
    ensures Maximum(values) in values && forall v | v in values :: v <= Maximum(values)
  {
    if |values| > 1 {
      MaximumBounds(values[1..]);
      assert values == [values[0]] + values[1..];
    }
  }

  lemma LastIsBound(ordered: seq<real>, values: seq<real>, bound: real)
    requires ordered != [] && Increasing(ordered) && forall v :: v in ordered <==> v in values
    requires bound in values && forall v | v in values :: v <= bound
    ensures ordered[|ordered| - 1] == bound
  {
    assert ordered[|ordered| - 1] in values && bound in ordered;
    var i :| 0 <= i < |ordered| && ordered[i] == bound;
  }

  lemma PercentileOneIsMaximum(values: seq<real>)
    requires values != []
    ensures At(values, 1.0) == Maximum(values)
  {
    OrderedIncreasing(values);
    MaximumBounds(values);
    SortMembers(RealLeq, values);
    assert Rank(|values|, 1.0) == (|values| - 1) as real;
    InterpolateAt(Ordered(values), |values| - 1);
    LastIsBound(Ordered(values), values, Maximum(values));
  }

  // ---------------------------------------------------------------------------------------------
  // The reported statistics

  datatype Report = Report(p50: real, p95: real, p99: real, maximum: real)

  /** The retrieval statistics of `run`, rounded to three places. */
  function Reported(samples: seq<real>): Report
    requires samples != []
  {
    Report(Round(Median(samples), 1000.0), Round(At(samples, 0.95), 1000.0),
           Round(At(samples, 0.99), 1000.0), Round(Maximum(samples), 1000.0))
  }

  lemma ReportedInOrder(samples: seq<real>)
    requires samples != []
    ensures var r := Reported(samples); r.p50 <= r.p95 <= r.p99 <= r.maximum
  {
    PercentileIsMedian(samples);
    PercentileOneIsMaximum(samples);
    PercentileMonotoneInFraction(samples, 0.5, 0.95);
    PercentileMonotoneInFraction(samples, 0.95, 0.99);
    PercentileMonotoneInFraction(samples, 0.99, 1.0);
    RoundMonotone(At(samples, 0.5), At(samples, 0.95), 1000.0);
    RoundMonotone(At(samples, 0.95), At(samples, 0.99), 1000.0);
    RoundMonotone(At(samples, 0.99), At(samples, 1.0), 1000.0);
  }

  // ---------------------------------------------------------------------------------------------
  // Which interpolation it is

  /** Where `n - 1` times the fraction is `k + t`, the value lies on the straight line from order statistic
      `k` to the next one, at `t`. This determines the percentile at every fraction. */
  lemma PercentileRunsStraight(values: seq<real>, fraction: real, k: nat, t: real)
    requires k + 1 < |values| && 0.0 <= fraction <= 1.0 && 0.0 <= t <= 1.0
    requires (|values| - 1) as real * fraction == k as real + t
    ensures At(values, fraction) == (1.0 - t) * Ordered(values)[k] + t * Ordered(values)[k + 1]
  {
    InterpolateStraight(Ordered(values), k, t);
  }

  lemma OneSample(value: real, fraction: real)
    requires 0.0 <= fraction <= 1.0
    ensures At([value], fraction) == value
  {
    assert Ordered([value]) == [value];
    InterpolateAt([value], 0);
  }

  lemma InterpolateStraight(ordered: seq<real>, k: nat, t: real)
    requires k + 1 < |ordered| && 0.0 <= t <= 1.0
    ensures Interpolate(ordered, k as real + t) == (1.0 - t) * ordered[k] + t * ordered[k + 1]
  {
    var rank := k as real + t;
    if t == 0.0 {
      InterpolateAt(ordered, k);
    } else if t == 1.0 {
      InterpolateAt(ordered, k + 1);
    } else {
      assert rank.Floor == k && Ceiling(rank) == k + 1 && rank - k as real == t;
      assert (ordered[k + 1] - ordered[k]) * t == t * ordered[k + 1] - t * ordered[k];
    }
  }

  predicate IsNearest(x: real, rounded: real) {
    Distance(x * 1000.0, rounded * 1000.0) <= 0.5
  }

  lemma NearestThousandth(x: real)
    ensures IsNearest(x, Round(x, 1000.0))
  {
    RoundNearest(x, 1000.0);
  }

  /** Each statistic reported is its percentile, median or maximum to the nearest thousandth. */
  lemma ReportedIsNearest(samples: seq<real>)
    requires samples != []
    ensures var r := Reported(samples);
            && IsNearest(Median(samples), r.p50) && IsNearest(At(samples, 0.95), r.p95)
            && IsNearest(At(samples, 0.99), r.p99) && IsNearest(Maximum(samples), r.maximum)
  {
    NearestThousandth(Median(samples));
    NearestThousandth(At(samples, 0.95));
    NearestThousandth(At(samples, 0.99));
    NearestThousandth(Maximum(samples));
  }
}
