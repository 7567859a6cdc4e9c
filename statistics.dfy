/** `compute_statistics` (analyzer.py:123-155): count, mean, extremes and
    population standard deviation of one group's values.  Floats are exact
    reals; `math.sqrt` is the parameter `sqrt`, and the facts about the
    standard deviation require of it only what `IsSqrt` states. */
module Statistics {
  import opened Wrappers

  /** The statistics record of analyzer.py:128-134 and 149-155. */
  datatype Stats = Stats(average: real, min: real, max: real, count: nat, stdDev: real)

  const ZeroStats := Stats(0.0, 0.0, 0.0, 0, 0.0)

  /** The comprehension of analyzer.py:125: the values that are not `None`, in order. */
  function Present(values: seq<Option<real>>): (r: seq<real>)
    ensures |r| <= |values|
  {
    if values == [] then []
    else
      (match values[0] case Some(x) => [x] case None => []) + Present(values[1..])
  }

  /** The valid values are exactly the values of the non-`None` entries. */
  lemma {:induction false} PresentMembers(values: seq<Option<real>>)
    ensures forall x :: x in Present(values) <==> Some(x) in values
  {
    if values != [] {
      PresentMembers(values[1..]);
      assert values == [values[0]] + values[1..];
    }
  }

  lemma PresentCons(v: Option<real>, rest: seq<Option<real>>)
    ensures Present([v] + rest) == (match v case Some(x) => [x] case None => []) + Present(rest)
  {
    assert ([v] + rest)[0] == v && ([v] + rest)[1..] == rest;
  }

  /** A list of floats as Python passes it: every element present. */
  function Lift(xs: seq<real>): (r: seq<Option<real>>)
    ensures |r| == |xs| && forall i :: 0 <= i < |xs| ==> r[i] == Some(xs[i])
  {
    seq(|xs|, i requires 0 <= i < |xs| => Some(xs[i]))
  }

  /** Dropping `None` from a list that holds none changes nothing. */
  lemma {:induction false} PresentOfLift(xs: seq<real>)
    ensures Present(Lift(xs)) == xs
  {
    if xs != [] {
      assert Lift(xs)[1..] == Lift(xs[1..]);
      PresentOfLift(xs[1..]);
    }
  }

  function Sum(xs: seq<real>): real
  {
    if xs == [] then 0.0 else xs[0] + Sum(xs[1..])
  }

  /** `min(xs)` */
  function Min(xs: seq<real>): (m: real)
    requires xs != []
    ensures m in xs && forall i :: 0 <= i < |xs| ==> m <= xs[i]
  {
    if |xs| == 1 then xs[0]
    else
      var rest := Min(xs[1..]);
      if rest < xs[0] then rest else xs[0]
  }

  /** `max(xs)` */
  function Max(xs: seq<real>): (m: real)
    requires xs != []
    ensures m in xs && forall i :: 0 <= i < |xs| ==> xs[i] <= m
  {
    if |xs| == 1 then xs[0]
    else
      var rest := Max(xs[1..]);
      if rest > xs[0] then rest else xs[0]
  }

  /** The sum of `(x - m) ** 2` over `xs`. */
  function SquaredDeviations(xs: seq<real>, m: real): real
  {
    if xs == [] then 0.0 else (xs[0] - m) * (xs[0] - m) + SquaredDeviations(xs[1..], m)
  }

  function Mean(xs: seq<real>): real
    requires xs != []
  {
    Sum(xs) / |xs| as real
  }

  /** Population variance: the divisor is the count, not count - 1. */
  function Variance(xs: seq<real>): real
    requires xs != []
  {
    SquaredDeviations(xs, Mean(xs)) / |xs| as real
  }

  /** What the model requires of `math.sqrt`: it is never negative on the
      non-negative reals, and the root of zero is zero. */
  ghost predicate IsSqrt(sqrt: real -> real)
  {
    sqrt(0.0) == 0.0 && forall x :: 0.0 <= x ==> 0.0 <= sqrt(x)
  }

  function ComputeStatistics(values: seq<Option<real>>, sqrt: real -> real): (r: Stats)
    ensures r.count <= |values|
    ensures r.count == 0 <==> forall i :: 0 <= i < |values| ==> values[i].None?
  {
    var valid := Present(values);
    assert valid == [] <==> forall i :: 0 <= i < |values| ==> values[i].None? by {
      PresentMembers(values);
      assert forall x :: x in valid <==> Some(x) in values;
      if valid != [] {
        assert valid[0] in valid;
        var j :| 0 <= j < |values| && values[j] == Some(valid[0]);
        assert values[j].Some?;
      }
      if exists i :: 0 <= i < |values| && values[i].Some? {
        var i :| 0 <= i < |values| && values[i].Some?;
        assert values[i] in values && values[i] == Some(values[i].value);
        assert values[i].value in valid;
      }
    }
    if |valid| == 0 then ZeroStats
    else
      var count := |valid|;
      var average := Sum(valid) / count as real;
      var stdDev := if count == 1 then 0.0 else sqrt(SquaredDeviations(valid, average) / count as real);
      Stats(average, Min(valid), Max(valid), count, stdDev)
  }

  lemma Square(d: real)
    ensures d * d >= 0.0
  {
    if d < 0.0 {
      var e := -d;
      assert d * d == e * e;
    }
  }

  lemma QuotientBounds(total: real, n: real, lo: real, hi: real)
    requires n > 0.0 && n * lo <= total <= n * hi
    ensures lo <= total / n <= hi
  {
  }

  lemma QuotientTimesDivisor(total: real, n: real)
    requires n > 0.0
    ensures total / n * n == total
  {
  }

  lemma {:induction false} SumBounds(xs: seq<real>, lo: real, hi: real)
    requires forall i :: 0 <= i < |xs| ==> lo <= xs[i] <= hi
    ensures |xs| as real * lo <= Sum(xs) <= |xs| as real * hi
  {
    if xs != [] {
      SumBounds(xs[1..], lo, hi);
    }
  }

  lemma {:induction false} SquaredDeviationsNonNegative(xs: seq<real>, m: real)
    ensures SquaredDeviations(xs, m) >= 0.0
  {
    if xs != [] {
      SquaredDeviationsNonNegative(xs[1..], m);
      Square(xs[0] - m);
    }
  }

  /** An empty list, or one holding only `None`, gives the all-zero record. */
  lemma EmptyStatistics(values: seq<Option<real>>, sqrt: real -> real)
    requires forall i :: 0 <= i < |values| ==> values[i].None?
    ensures ComputeStatistics(values, sqrt) == Stats(0.0, 0.0, 0.0, 0, 0.0)
  {
  }

  /** The record for present values, field by field. */
  lemma StatisticsOfPresent(values: seq<Option<real>>, sqrt: real -> real)
    requires Present(values) != []
    ensures var xs := Present(values);
            ComputeStatistics(values, sqrt)
            == Stats(Mean(xs), Min(xs), Max(xs), |xs|, if |xs| == 1 then 0.0 else sqrt(Variance(xs)))
  {
  }

  /** For a non-empty list, `r` the record computed from it and `xs` its
      present values: the count of present values, the least and the greatest
      of them, and a mean between the two that times the count is the sum. */
  lemma StatisticsBounds(values: seq<Option<real>>, sqrt: real -> real, xs: seq<real>, r: Stats)
    requires xs == Present(values) && xs != []
    requires r == ComputeStatistics(values, sqrt)
    ensures r.count == |xs|
    ensures r.min in xs && r.max in xs
    ensures forall i :: 0 <= i < |xs| ==> r.min <= xs[i] <= r.max
    ensures r.min <= r.average <= r.max
    ensures r.average * r.count as real == Sum(xs)
  {
    StatisticsOfPresent(values, sqrt);
    AverageWithinExtremes(r, xs);
    AverageTimesCount(r, xs);
  }

  lemma AverageWithinExtremes(r: Stats, xs: seq<real>)
    requires xs != [] && r.average == Mean(xs) && r.min == Min(xs) && r.max == Max(xs)
    ensures r.min <= r.average <= r.max
  {
    MeanBetweenExtremes(xs);
  }

  lemma AverageTimesCount(r: Stats, xs: seq<real>)
    requires xs != [] && r.average == Mean(xs) && r.count == |xs|
    ensures r.average * r.count as real == Sum(xs)
  {
    MeanTimesCount(xs);
  }

  lemma MeanBetweenExtremes(xs: seq<real>)
    requires xs != []
    ensures Min(xs) <= Mean(xs) <= Max(xs)
  {
    MeanBounds(xs, Min(xs), Max(xs));
  }

  /** Values between two bounds have a mean between them. */
  lemma MeanBounds(xs: seq<real>, lo: real, hi: real)
    requires xs != [] && forall i :: 0 <= i < |xs| ==> lo <= xs[i] <= hi
    ensures lo <= Mean(xs) <= hi
  {
    var total, n := Sum(xs), |xs| as real;
    SumBounds(xs, lo, hi);
    QuotientBounds(total, n, lo, hi);
  }

  /** The population variance is never negative. */
  lemma VarianceNonNegative(xs: seq<real>)
    requires xs != []
    ensures Variance(xs) >= 0.0
  {
    SquaredDeviationsNonNegative(xs, Mean(xs));
    NonNegativeQuotient(SquaredDeviations(xs, Mean(xs)), |xs| as real);
  }

  /** For a non-empty list, `r` the record computed from it and `xs` its
      present values: the standard deviation is the square root of the
      population variance (for one value the explicit 0.0 agrees with it),
      and so never negative. */
  lemma StdDevIsRootOfVariance(values: seq<Option<real>>, sqrt: real -> real, xs: seq<real>, r: Stats)
    requires IsSqrt(sqrt)
    requires xs == Present(values) && xs != []
    requires r == ComputeStatistics(values, sqrt)
    ensures r.stdDev == sqrt(Variance(xs))
    ensures r.stdDev >= 0.0
  {
    StdDevOfPresent(values, sqrt, xs, r);
    VarianceNonNegative(xs);
    if |xs| == 1 {
      assert xs == [xs[0]];
      SingletonVariance(xs[0]);
    }
  }

  lemma StdDevOfPresent(values: seq<Option<real>>, sqrt: real -> real, xs: seq<real>, r: Stats)
    requires xs == Present(values) && xs != []
    requires r == ComputeStatistics(values, sqrt)
    ensures r.stdDev == if |xs| == 1 then 0.0 else sqrt(Variance(xs))
  {
    StatisticsOfPresent(values, sqrt);
  }

  lemma NonNegativeQuotient(x: real, n: real)
    requires x >= 0.0 && n > 0.0
    ensures x / n >= 0.0
  {
  }

  lemma SingletonMean(xs: seq<real>)
    requires |xs| == 1
    ensures Sum(xs) == xs[0] && Mean(xs) == xs[0]
  {
    assert xs[1..] == [];
  }

  /** The deviations of a single value from itself sum to zero. */
  lemma SingletonVariance(x: real)
    ensures Variance([x]) == 0.0
  {
    SingletonMean([x]);
    assert [x][1..] == [];
    var d := x - Mean([x]);
    assert d == 0.0;
    assert d * d == 0.0 * 0.0;
    assert SquaredDeviations([x], Mean([x])) == d * d + SquaredDeviations([], Mean([x]));
  }

  lemma MeanTimesCount(xs: seq<real>)
    requires xs != []
    ensures Mean(xs) * |xs| as real == Sum(xs)
  {
    QuotientTimesDivisor(Sum(xs), |xs| as real);
  }

  /** One value: it is the mean, the minimum and the maximum, and the
      standard deviation is exactly 0.0 without consulting `sqrt`. */
  lemma SingletonStatistics(x: real, sqrt: real -> real)
    ensures ComputeStatistics([Some(x)], sqrt) == Stats(x, x, x, 1, 0.0)
  {
    var values := [Some(x)];
    assert values[1..] == [];
    var xs := Present(values);
    assert xs == [x];
    StatisticsOfPresent(values, sqrt);
    SingletonMean(xs);
    assert Min(xs) == x && Max(xs) == x;
  }

  lemma FourValuesFacts()
    ensures var xs := [1.0, 2.0, 3.0, 4.0];
            Sum(xs) == 10.0 && Min(xs) == 1.0 && Max(xs) == 4.0 && SquaredDeviations(xs, 2.5) == 5.0
  {
    var xs, t1, t2, t3 := [1.0, 2.0, 3.0, 4.0], [2.0, 3.0, 4.0], [3.0, 4.0], [4.0];
    assert xs[1..] == t1 && t1[1..] == t2 && t2[1..] == t3 && t3[1..] == [];
    assert Sum(t3) == 4.0 && Min(t3) == 4.0 && Max(t3) == 4.0 && SquaredDeviations(t3, 2.5) == 2.25;
    assert Sum(t2) == 7.0 && Min(t2) == 3.0 && Max(t2) == 4.0 && SquaredDeviations(t2, 2.5) == 2.5;
    assert Sum(t1) == 9.0 && Min(t1) == 2.0 && Max(t1) == 4.0 && SquaredDeviations(t1, 2.5) == 2.75;
  }

  /** [1, 2, 3, 4]: mean 2.5 and population variance 5/4. */
  lemma FourValuesExample(sqrt: real -> real)
    ensures ComputeStatistics(Lift([1.0, 2.0, 3.0, 4.0]), sqrt) == Stats(2.5, 1.0, 4.0, 4, sqrt(1.25))
  {
    var xs := [1.0, 2.0, 3.0, 4.0];
    PresentOfLift(xs);
    FourValuesFacts();
    StatisticsOfPresent(Lift(xs), sqrt);
    assert Mean(xs) == 2.5;
    assert Variance(xs) == 1.25;
  }

  lemma ThreeValuesFacts()
    ensures var xs := [10.0, 20.0, 30.0];
            Sum(xs) == 60.0 && Min(xs) == 10.0 && Max(xs) == 30.0 && SquaredDeviations(xs, 20.0) == 200.0
  {
    var xs, t1, t2 := [10.0, 20.0, 30.0], [20.0, 30.0], [30.0];
    assert xs[1..] == t1 && t1[1..] == t2 && t2[1..] == [];
    assert Sum(t2) == 30.0 && Min(t2) == 30.0 && Max(t2) == 30.0 && SquaredDeviations(t2, 20.0) == 100.0;
    assert Sum(t1) == 50.0 && Min(t1) == 20.0 && Max(t1) == 30.0 && SquaredDeviations(t1, 20.0) == 100.0;
  }

  /** [10, 20, 30]: mean 20 and population variance 200/3. */
  lemma ThreeValuesExample(sqrt: real -> real)
    ensures ComputeStatistics(Lift([10.0, 20.0, 30.0]), sqrt) == Stats(20.0, 10.0, 30.0, 3, sqrt(200.0 / 3.0))
  {
    var xs := [10.0, 20.0, 30.0];
    PresentOfLift(xs);
    ThreeValuesFacts();
    StatisticsOfPresent(Lift(xs), sqrt);
    assert Mean(xs) == 20.0;
    assert Variance(xs) == 200.0 / 3.0;
  }

  lemma TwoValuesFacts()
    ensures var xs := [50.0, 55.0];
            Sum(xs) == 105.0 && Min(xs) == 50.0 && Max(xs) == 55.0 && SquaredDeviations(xs, 52.5) == 12.5
  {
    var xs := [50.0, 55.0];
    assert xs[1..] == [55.0];
  }

  /** [50, 55]: mean 52.5 and population variance 6.25. */
  lemma TwoValuesExample(sqrt: real -> real)
    ensures ComputeStatistics(Lift([50.0, 55.0]), sqrt) == Stats(52.5, 50.0, 55.0, 2, sqrt(6.25))
  {
    var xs := [50.0, 55.0];
    PresentOfLift(xs);
    TwoValuesFacts();
    StatisticsOfPresent(Lift(xs), sqrt);
    assert Mean(xs) == 52.5;
    assert Variance(xs) == 6.25;
  }
}
