/** Interval statistics of a timestamp list: mean, population variance, and what bounds them. */
module IntervalStatistics {

  function Intervals(times: seq<real>): seq<real> {
    if times == [] then [] else seq(|times| - 1, i requires 0 <= i < |times| - 1 => times[i + 1] - times[i])
  }

  function Sum(values: seq<real>): real {
    if values == [] then 0.0 else Sum(values[..|values| - 1]) + values[|values| - 1]
  }

  function Square(x: real): real { x * x }

  /** The length of `n` steps. */
  function Steps(n: int, step: real): real { n as real * step }

  /** Sum of squared deviations from `centre`. */
  function Deviation(values: seq<real>, centre: real): real {
    if values == [] then 0.0
    else Deviation(values[..|values| - 1], centre) + Square(values[|values| - 1] - centre)
  }

  function Mean(values: seq<real>): real
    requires values != []
  {
    Sum(values) / |values| as real
  }

  function Variance(values: seq<real>): real
    requires values != []
  {
    Deviation(values, Mean(values)) / |values| as real
  }

  /** The mean interval, read off the first and the last timestamp. */
  function Pace(times: seq<real>): real
    requires |times| >= 2
  {
    (times[|times| - 1] - times[0]) / (|times| - 1) as real
  }

  ghost predicate AllWithin(values: seq<real>, low: real, high: real) {
    forall i :: 0 <= i < |values| ==> low <= values[i] <= high
  }

  /** Sums of intervals telescope. */
  lemma {:induction false} Telescope(times: seq<real>)
    requires times != []
    ensures Sum(Intervals(times)) == times[|times| - 1] - times[0]
  {
    if |times| > 1 {
      var n := |times|;
      Telescope(times[..n - 1]);
      assert Intervals(times)[..n - 2] == Intervals(times[..n - 1]);
    }
  }

  /** The mean interval only depends on the first and the last timestamp. */
  lemma MeanTelescopes(times: seq<real>)
    requires |times| >= 2
    ensures Mean(Intervals(times)) == Pace(times)
  {
    Telescope(times);
  }

  lemma {:induction false} SumWithin(values: seq<real>, low: real, high: real)
    requires AllWithin(values, low, high)
    ensures |values| as real * low <= Sum(values) <= |values| as real * high
  {
    if values != [] {
      var front := values[..|values| - 1];
      SumWithin(front, low, high);
      assert |values| as real * low == |front| as real * low + low;
      assert |values| as real * high == |front| as real * high + high;
    }
  }

  lemma MeanWithin(values: seq<real>, low: real, high: real)
    requires values != [] && AllWithin(values, low, high)
    ensures low <= Mean(values) <= high
  {
    SumWithin(values, low, high);
    QuotientAtLeast(Sum(values), |values| as real, low);
    QuotientAtMost(Sum(values), |values| as real, high);
  }

  lemma StrictProduct(n: real, x: real, y: real)
    requires n > 0.0 && x < y
    ensures n * x < n * y
  {
  }

  lemma QuotientAtLeast(total: real, n: real, low: real)
    requires n > 0.0 && n * low <= total
    ensures low <= total / n
  {
    var q := total / n;
    assert n * q == total;
    if q < low {
      StrictProduct(n, q, low);
    }
  }

  lemma QuotientAtMost(total: real, n: real, high: real)
    requires n > 0.0 && total <= n * high
    ensures total / n <= high
  {
    var q := total / n;
    assert n * q == total;
    if high < q {
      StrictProduct(n, high, q);
    }
  }

  /** What moving the centre by `d` adds to the deviation of `n` values whose excess over the centre is `excess`. */
  function Moved(n: int, d: real, excess: real): real {
    2.0 * (d * excess) + n as real * Square(d)
  }

  lemma MovedNext(n: int, d: real, excess: real, v: real)
    ensures Moved(n + 1, d, excess + v) == Moved(n, d, excess) + Square(v + d) - Square(v)
  {
    assert d * (excess + v) == d * excess + d * v;
    assert (n + 1) as real * Square(d) == n as real * Square(d) + Square(d);
    assert Square(v + d) == Square(v) + 2.0 * (d * v) + Square(d);
  }

  /** Moving the centre of the deviation from `c` to `c - d`. */
  lemma {:induction false} DeviationShift(values: seq<real>, c: real, d: real)
    ensures Deviation(values, c - d) == Deviation(values, c) + Moved(|values|, d, Sum(values) - Steps(|values|, c))
  {
    if values != [] {
      hide Square, Steps, Moved;
      var front, v := values[..|values| - 1], values[|values| - 1];
      DeviationShift(front, c, d);
      MovedNext(|front|, d, Sum(front) - Steps(|front|, c), v - c);
      StepsNext(|front|, c);
      assert v - (c - d) == v - c + d;
    }
  }

  lemma StepsNext(n: int, step: real)
    ensures Steps(n + 1, step) == Steps(n, step) + step
  {
  }

  lemma MeanTimesCount(values: seq<real>)
    requires values != []
    ensures Steps(|values|, Mean(values)) == Sum(values)
  {
  }

  lemma MovedFromMean(n: int, d: real, excess: real)
    requires n >= 0 && excess == 0.0
    ensures Moved(n, d, excess) >= 0.0
  {
    NonNegativeProduct(n as real, d);
    assert d * excess == 0.0;
  }

  /** The mean minimises the deviation. */
  lemma MeanMinimises(values: seq<real>, m: real)
    requires values != []
    ensures Deviation(values, Mean(values)) <= Deviation(values, m)
  {
    hide Steps, Moved, Mean;
    var c := Mean(values);
    DeviationShift(values, c, c - m);
    MeanTimesCount(values);
    MovedFromMean(|values|, c - m, Sum(values) - Steps(|values|, c));
    assert c - (c - m) == m;
  }

  function Squares(values: seq<real>): seq<real> {
    seq(|values|, i requires 0 <= i < |values| => values[i] * values[i])
  }

  lemma SquaresFront(values: seq<real>)
    requires values != []
    ensures |Squares(values)| == |values| && Squares(values)[..|values| - 1] == Squares(values[..|values| - 1])
    ensures Squares(values)[|values| - 1] == Square(values[|values| - 1])
  {
    var left, right := Squares(values)[..|values| - 1], Squares(values[..|values| - 1]);
    assert |left| == |right| && forall i :: 0 <= i < |left| ==> left[i] == right[i];
  }

  lemma {:induction false} DeviationFromZero(values: seq<real>)
    ensures Deviation(values, 0.0) == Sum(Squares(values))
  {
    if values != [] {
      var front, v := values[..|values| - 1], values[|values| - 1];
      DeviationFromZero(front);
      SquaresFront(values);
      assert v - 0.0 == v;
    }
  }

  lemma MovedToZero(n: nat, mean: real, sum: real)
    requires n > 0 && sum == Steps(n, mean)
    ensures Moved(n, -mean, sum) == -Steps(n, Square(mean))
  {
    assert -mean * sum == -(n as real * (mean * mean));
  }

  lemma DividedDifference(x: real, y: real, n: int)
    requires n > 0
    ensures (x - Steps(n, y)) / n as real == x / n as real - y
  {
    var q := x / n as real;
    assert (q - y) * n as real == x - n as real * y;
  }

  lemma VarianceQuotient(values: seq<real>)
    requires values != []
    ensures Variance(values) == Deviation(values, Mean(values)) / |values| as real
    ensures |Squares(values)| == |values| && Mean(Squares(values)) == Sum(Squares(values)) / |values| as real
  {
    hide Deviation, Sum;
  }

  /** The population variance is the mean of the squares less the square of the mean. */
  lemma VarianceMeanSquares(values: seq<real>)
    requires values != []
    ensures Squares(values) != []
    ensures Variance(values) == Mean(Squares(values)) - Square(Mean(values))
  {
    hide Deviation, Mean, Variance, Moved, Sum, Squares, Square, Steps;
    var n, m := |values|, Mean(values);
    VarianceQuotient(values);
    MeanTimesCount(values);
    DeviationFromZero(values);
    MovedToZero(n, m, Sum(values));
    DeviationAtMean(values, m);
    DividedDifference(Sum(Squares(values)), Square(m), n);
  }

  lemma DeviationAtMean(values: seq<real>, m: real)
    ensures Deviation(values, m) == Deviation(values, 0.0) + Moved(|values|, -m, Sum(values))
  {
    DeviationShift(values, 0.0, -m);
    assert Steps(|values|, 0.0) == 0.0;
    hide Deviation, Moved, Sum, Steps;
    assert 0.0 - (-m) == m;
  }

  lemma NonNegativeProduct(n: real, x: real)
    requires n >= 0.0
    ensures Square(x) >= 0.0 && n * Square(x) >= 0.0
  {
  }

  lemma SquareMonotone(x: real, bound: real)
    requires -bound <= x <= bound
    ensures 0.0 <= Square(x) <= Square(bound)
  {
    assert Square(bound) - Square(x) == (bound - x) * (bound + x);
  }

  lemma {:induction false} DeviationWithin(values: seq<real>, m: real, radius: real)
    requires AllWithin(values, m - radius, m + radius)
    ensures 0.0 <= Deviation(values, m) <= |values| as real * Square(radius)
  {
    if values != [] {
      var front, v := values[..|values| - 1], values[|values| - 1];
      DeviationWithin(front, m, radius);
      SquareMonotone(v - m, radius);
      assert |values| as real * Square(radius) == |front| as real * Square(radius) + Square(radius);
    }
  }

  /** Popoviciu: the population variance is at most the square of half the spread. */
  lemma VarianceBound(values: seq<real>, low: real, high: real)
    requires values != [] && AllWithin(values, low, high)
    ensures Variance(values) <= Square((high - low) / 2.0)
  {
    var m, radius := (low + high) / 2.0, (high - low) / 2.0;
    DeviationWithin(values, m, radius);
    MeanMinimises(values, m);
    QuotientAtMost(Deviation(values, Mean(values)), |values| as real, Square(radius));
  }

  function Shifted(times: seq<real>, offset: real): seq<real> {
    seq(|times|, i requires 0 <= i < |times| => times[i] + offset)
  }

  function Scaled(values: seq<real>, factor: real): seq<real> {
    seq(|values|, i requires 0 <= i < |values| => values[i] * factor)
  }

  lemma ShiftedIntervals(times: seq<real>, offset: real)
    ensures Intervals(Shifted(times, offset)) == Intervals(times)
  {
  }

  lemma ScaledIntervals(times: seq<real>, factor: real)
    ensures Intervals(Scaled(times, factor)) == Scaled(Intervals(times), factor)
  {
    var left, right := Intervals(Scaled(times, factor)), Scaled(Intervals(times), factor);
    assert |left| == |right|;
    forall i | 0 <= i < |left|
      ensures left[i] == right[i]
    {
      assert times[i + 1] * factor - times[i] * factor == (times[i + 1] - times[i]) * factor;
    }
  }

  lemma ScaledFront(values: seq<real>, factor: real)
    requires values != []
    ensures |Scaled(values, factor)| == |values|
    ensures Scaled(values, factor)[..|values| - 1] == Scaled(values[..|values| - 1], factor)
    ensures Scaled(values, factor)[|values| - 1] == values[|values| - 1] * factor
  {
    var left, right := Scaled(values, factor)[..|values| - 1], Scaled(values[..|values| - 1], factor);
    forall i | 0 <= i < |left|
      ensures left[i] == right[i]
    {
    }
  }

  lemma {:induction false} ScaledSum(values: seq<real>, factor: real)
    ensures Sum(Scaled(values, factor)) == Sum(values) * factor
  {
    if values != [] {
      var front := values[..|values| - 1];
      ScaledSum(front, factor);
      ScaledFront(values, factor);
    }
  }

  lemma DeviationStep(values: seq<real>, centre: real)
    requires values != []
    ensures Deviation(values, centre)
         == Deviation(values[..|values| - 1], centre) + Square(values[|values| - 1] - centre)
  {
  }

  lemma ScaledDifference(v: real, m: real, factor: real)
    ensures Square(v * factor - m * factor) == Square(v - m) * Square(factor)
  {
    Distribute(v, -m, factor);
    SquareProduct(v - m, factor);
  }

  lemma NoDeviation(factor: real, m: real, centre: real)
    ensures Deviation(Scaled([], factor), centre) == Deviation([], m) * Square(factor)
  {
  }

  lemma {:induction false} ScaledDeviation(values: seq<real>, factor: real, m: real, centre: real)
    requires centre == m * factor
    ensures Deviation(Scaled(values, factor), centre) == Deviation(values, m) * Square(factor)
  {
    hide Deviation, Square, Scaled;
    if values == [] {
      NoDeviation(factor, m, centre);
    } else {
      var front, v := values[..|values| - 1], values[|values| - 1];
      ScaledDeviation(front, factor, m, centre);
      ScaledFront(values, factor);
      DeviationStep(Scaled(values, factor), centre);
      DeviationStep(values, m);
      ScaledDifference(v, m, factor);
      var scaled := Scaled(values, factor);
      assert scaled[|scaled| - 1] - centre == v * factor - m * factor;
      Distribute(Deviation(front, m), Square(v - m), Square(factor));
    }
  }

  lemma SquareProduct(x: real, y: real)
    ensures Square(x * y) == Square(x) * Square(y)
  {
  }

  lemma Distribute(x: real, y: real, z: real)
    ensures (x + y) * z == x * z + y * z
  {
  }

  lemma DivideScaled(scaled: real, x: real, y: real, n: real)
    requires n > 0.0 && scaled == x * y
    ensures scaled / n == (x / n) * y
  {
    var q := x / n;
    assert q * n == x;
    assert (q * y) * n == x * y;
  }

  /** Scaling all values scales the mean linearly and the variance quadratically. */
  lemma ScaledMean(values: seq<real>, factor: real)
    requires values != []
    ensures |Scaled(values, factor)| == |values|
    ensures Mean(Scaled(values, factor)) == Mean(values) * factor
  {
    ScaledSum(values, factor);
    DivideScaled(Sum(Scaled(values, factor)), Sum(values), factor, |values| as real);
  }

  lemma ScaledVariance(values: seq<real>, factor: real)
    requires values != []
    ensures |Scaled(values, factor)| == |values|
    ensures Variance(Scaled(values, factor)) == Variance(values) * Square(factor)
  {
    hide Deviation, Square, Scaled, Sum;
    var scaled, m := Scaled(values, factor), Mean(values);
    ScaledMean(values, factor);
    ScaledDeviation(values, factor, m, Mean(scaled));
    DivideScaled(Deviation(scaled, Mean(scaled)), Deviation(values, m), Square(factor), |values| as real);
  }
}
