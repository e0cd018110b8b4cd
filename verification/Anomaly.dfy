/** Daily-count anomaly detection (internal/alert/anomaly.go): mean and population standard
    deviation of the baseline, then a two-sigma rule. Counts are reals; the square root is a
    parameter that satisfies its defining equation. */
module Anomaly {
  import opened Options
  import opened Sums

  const DEVIATION_FACTOR := 2.0

  datatype Event = Event(current: real, mean: real, stdDev: real, threshold: real)

  function Mul(a: real, b: real): real {
    a * b
  }

  function Sq(x: real): real {
    Mul(x, x)
  }

  /** The sum of squared distances from `m`. */
  function Spread(vals: seq<real>, m: real): real {
    if vals == [] then 0.0
    else
      Spread(vals[..|vals| - 1], m) + Sq(vals[|vals| - 1] - m)
  }

  function Mean(vals: seq<real>): real {
    if vals == [] then 0.0 else Sum(vals) / |vals| as real
  }

  function Variance(vals: seq<real>): real {
    if vals == [] then 0.0 else Spread(vals, Mean(vals)) / |vals| as real
  }

  ghost predicate IsSqrt(sqrt: real -> real) {
    forall v: real :: v >= 0.0 ==> sqrt(v) >= 0.0 && Sq(sqrt(v)) == v
  }

  method MeanLoop(vals: seq<real>) returns (mean: real)
    requires vals != []
    ensures mean == Mean(vals)
  {
    var sum := 0.0;
    for i := 0 to |vals|
      invariant sum == Sum(vals[..i])
    {
      assert vals[..i + 1][..i] == vals[..i];
      sum := sum + vals[i];
    }
    assert vals[..|vals|] == vals;
    mean := sum / |vals| as real;
  }

  method SpreadLoop(vals: seq<real>, mean: real) returns (variance: real)
    ensures variance == Spread(vals, mean)
  {
    variance := 0.0;
    for i := 0 to |vals|
      invariant variance == Spread(vals[..i], mean)
    {
      assert vals[..i + 1][..i] == vals[..i];
      var d := vals[i] - mean;
      variance := variance + Sq(d);
    }
    assert vals[..|vals|] == vals;
  }

  method MeanStdDev(vals: seq<real>, sqrt: real -> real) returns (mean: real, stddev: real)
    requires IsSqrt(sqrt)
    ensures mean == Mean(vals) && stddev == sqrt(Variance(vals))
    ensures stddev >= 0.0 && Sq(stddev) == Variance(vals)
  {
    VarianceNonNegative(vals);
    if |vals| == 0 {
      SquareNonNegative(sqrt(0.0));
      return 0.0, 0.0;
    }
    mean := MeanLoop(vals);
    var variance := SpreadLoop(vals, mean);
    variance := variance / |vals| as real;
    stddev := sqrt(variance);
  }

  /** The verdict on one project's daily counts, oldest first; the last one is today. */
  function Verdict(counts: seq<real>, sqrt: real -> real): Option<Event> {
    if |counts| < 2 then None
    else
      var baseline, current := counts[..|counts| - 1], counts[|counts| - 1];
      Judge(current, Mean(baseline), sqrt(Variance(baseline)))
  }

  function Judge(current: real, mean: real, stddev: real): Option<Event> {
    var threshold := mean + DEVIATION_FACTOR * stddev;
    if stddev == 0.0 && (mean == 0.0 || current <= mean || current < mean * 2.0) then None
    else if stddev != 0.0 && current <= threshold then None
    else Some(Event(current, mean, stddev, threshold))
  }

  method EvaluateProject(counts: seq<real>, sqrt: real -> real) returns (event: Option<Event>)
    requires IsSqrt(sqrt)
    ensures event == Verdict(counts, sqrt)
  {
    if |counts| < 2 {
      return None;
    }
    var baseline, current := counts[..|counts| - 1], counts[|counts| - 1];
    var mean, stddev := MeanStdDev(baseline, sqrt);
    var threshold := mean + DEVIATION_FACTOR * stddev;
    if stddev == 0.0 {
      if mean == 0.0 || current <= mean {
        return None;
      }
      if current < mean * 2.0 {
        return None;
      }
    } else if current <= threshold {
      return None;
    }
    event := Some(Event(current, mean, stddev, threshold));
  }

  // ----- arithmetic

  lemma MulPositive(a: real, b: real)
    ensures a > 0.0 && b > 0.0 ==> Mul(a, b) > 0.0
    ensures a >= 0.0 && b >= 0.0 ==> Mul(a, b) >= 0.0
  {
  }

  lemma SquareNonNegative(x: real)
    ensures Sq(x) >= 0.0
    ensures x != 0.0 ==> Sq(x) > 0.0
  {
    MulPositive(x, x);
    MulPositive(-x, -x);
    assert Mul(x, x) == Mul(-x, -x);
  }

  lemma SquareLess(a: real, b: real)
    requires 0.0 <= a < b
    ensures Sq(a) < Sq(b)
  {
    MulPositive(b - a, b + a);
    assert b * b - a * a == (b - a) * (b + a);
  }

  lemma DivMul(x: real, n: nat)
    requires n > 0
    ensures Mul(n as real, x / n as real) == x
  {
  }

  // ----- spreads

  lemma {:induction false} SpreadNonNegative(vals: seq<real>, m: real)
    ensures Spread(vals, m) >= 0.0
  {
    if vals != [] {
      SpreadNonNegative(vals[..|vals| - 1], m);
      SquareNonNegative(vals[|vals| - 1] - m);
    }
  }

  lemma VarianceNonNegative(vals: seq<real>)
    ensures Variance(vals) >= 0.0
  {
    SpreadNonNegative(vals, Mean(vals));
    if vals != [] {
      DivNonNegative(Spread(vals, Mean(vals)), |vals|);
    }
  }

  lemma DivNonNegative(x: real, n: nat)
    requires x >= 0.0 && n > 0
    ensures x / n as real >= 0.0
  {
  }

  /** The signed distances from `m`, which cancel out about the mean. */
  function Drift(vals: seq<real>, m: real): real {
    if vals == [] then 0.0 else Drift(vals[..|vals| - 1], m) + (vals[|vals| - 1] - m)
  }

  lemma {:induction false} DriftIs(vals: seq<real>, m: real)
    ensures Drift(vals, m) == Sum(vals) - Mul(|vals| as real, m)
  {
    if vals != [] {
      DriftIs(vals[..|vals| - 1], m);
      CountStep(|vals| - 1, m);
    }
  }

  lemma NoDriftAboutMean(vals: seq<real>)
    ensures Drift(vals, Mean(vals)) == 0.0
  {
    if vals != [] {
      DriftIs(vals, Mean(vals));
      DivMul(Sum(vals), |vals|);
    }
  }

  /** Moving the centre by `t` adds a drift term and n t^2 to the spread. */
  lemma {:induction false} SpreadShift(vals: seq<real>, m: real, t: real)
    ensures Spread(vals, m - t) == Spread(vals, m) + 2.0 * Mul(t, Drift(vals, m)) + Mul(|vals| as real, Sq(t))
  {
    if vals != [] {
      var init, x := vals[..|vals| - 1], vals[|vals| - 1];
      SpreadShift(init, m, t);
      MulStep(t, Drift(init, m), x - m);
      CountStep(|init|, Sq(t));
      SquareOfSum(x - m, t, x - (m - t));
    }
  }

  lemma MulStep(t: real, d: real, x: real)
    ensures Mul(t, d + x) == Mul(t, d) + Mul(t, x)
  {
  }

  lemma SquareOfSum(x: real, t: real, y: real)
    requires y == x + t
    ensures Sq(y) == Sq(x) + 2.0 * Mul(t, x) + Sq(t)
  {
  }

  lemma CountStep(n: nat, w: real)
    ensures Mul((n + 1) as real, w) == Mul(n as real, w) + w
  {
  }

  /** Days above a level. */
  function Above(vals: seq<real>, level: real): nat {
    if vals == [] then 0
    else Above(vals[..|vals| - 1], level) + if vals[|vals| - 1] > level then 1 else 0
  }

  /** Each day above c + g contributes more than g^2 to the spread about `c`. */
  lemma {:induction false} SpreadCountsAbove(vals: seq<real>, c: real, g: real)
    requires g >= 0.0
    ensures Mul(Above(vals, c + g) as real, Sq(g)) <= Spread(vals, c)
    ensures Above(vals, c + g) > 0 ==> Mul(Above(vals, c + g) as real, Sq(g)) < Spread(vals, c)
  {
    if vals != [] {
      var init, d := vals[..|vals| - 1], vals[|vals| - 1] - c;
      SpreadCountsAbove(init, c, g);
      SquareNonNegative(d);
      if d > g {
        SquareLess(g, d);
        CountStep(Above(init, c + g), Sq(g));
      }
    }
  }

  lemma SpreadBelowMean(vals: seq<real>, s: real)
    requires vals != [] && Sq(s) == Variance(vals)
    ensures Spread(vals, Mean(vals) - 0.5 * s) == Mul(|vals| as real, Sq(s)) + Mul(|vals| as real, Sq(0.5 * s))
  {
    SpreadShift(vals, Mean(vals), 0.5 * s);
    NoDriftAboutMean(vals);
    assert Mul(0.5 * s, 0.0) == 0.0;
    DivMul(Spread(vals, Mean(vals)), |vals|);
  }

  /** Fewer than one baseline day in five lies strictly above mean + 2 sigma. */
  lemma FewDaysAboveThreshold(baseline: seq<real>, stddev: real)
    requires baseline != []
    requires stddev >= 0.0 && Sq(stddev) == Variance(baseline)
    ensures 5 * Above(baseline, Mean(baseline) + DEVIATION_FACTOR * stddev) < |baseline|
  {
    var m, s := Mean(baseline), stddev;
    var k := Above(baseline, m + 2.0 * s);
    if k > 0 {
      assert m - 0.5 * s + 2.5 * s == m + 2.0 * s;
      SpreadCountsAbove(baseline, m - 0.5 * s, 2.5 * s);
      SpreadBelowMean(baseline, s);
      CantelliStep(k as real, |baseline| as real, s);
    }
  }

  /** k (5s/2)^2 < n s^2 + n (s/2)^2 leaves k < n/5. */
  lemma CantelliStep(k: real, n: real, s: real)
    requires Mul(k, Sq(2.5 * s)) < Mul(n, Sq(s)) + Mul(n, Sq(0.5 * s))
    ensures 5.0 * k < n
  {
    SquareNonNegative(s);
    assert Sq(2.5 * s) == 6.25 * Sq(s) && Sq(0.5 * s) == 0.25 * Sq(s);
    var q := Sq(s);
    assert Mul(k, 6.25 * q) == 6.25 * Mul(k, q) && Mul(n, 0.25 * q) == 0.25 * Mul(n, q);
    assert Mul(5.0 * k - n, q) == 5.0 * Mul(k, q) - Mul(n, q);
    MulPositive(5.0 * k - n, q);
  }

  // ----- flat baselines

  predicate Flat(vals: seq<real>) {
    forall i, j :: 0 <= i < |vals| && 0 <= j < |vals| ==> vals[i] == vals[j]
  }

  lemma {:induction false} SpreadZero(vals: seq<real>, m: real)
    ensures Spread(vals, m) == 0.0 <==> forall i :: 0 <= i < |vals| ==> vals[i] == m
  {
    if vals != [] {
      var init, d := vals[..|vals| - 1], vals[|vals| - 1] - m;
      SpreadZero(init, m);
      SpreadNonNegative(init, m);
      SquareNonNegative(d);
      assert (forall i :: 0 <= i < |vals| ==> vals[i] == m) <==>
             (forall i :: 0 <= i < |init| ==> init[i] == m) && vals[|vals| - 1] == m;
    }
  }

  lemma {:induction false} SumOfFlat(vals: seq<real>, v: real)
    requires forall i :: 0 <= i < |vals| ==> vals[i] == v
    ensures Sum(vals) == Mul(|vals| as real, v)
  {
    if vals != [] {
      SumOfFlat(vals[..|vals| - 1], v);
      CountStep(|vals| - 1, v);
    }
  }

  lemma MeanOfFlat(vals: seq<real>)
    requires vals != [] && Flat(vals)
    ensures Mean(vals) == vals[0]
  {
    SumOfFlat(vals, vals[0]);
    CancelCount(|vals|, vals[0]);
  }

  lemma CancelCount(n: nat, v: real)
    requires n > 0
    ensures Mul(n as real, v) / n as real == v
  {
  }

  /** The standard deviation is zero exactly when every baseline day is the same. */
  lemma ZeroDeviationIff(vals: seq<real>, stddev: real)
    requires vals != [] && Sq(stddev) == Variance(vals)
    ensures stddev == 0.0 <==> Flat(vals)
  {
    DivMul(Spread(vals, Mean(vals)), |vals|);
    SpreadZero(vals, Mean(vals));
    SquareNonNegative(stddev);
    if Flat(vals) {
      MeanOfFlat(vals);
    }
  }

  /** When today is flagged: on a flat non-zero baseline, when it is above it and at
      least twice it; on any other baseline, when it is above mean + 2 sigma. */
  lemma FlaggedIff(counts: seq<real>, sqrt: real -> real)
    requires IsSqrt(sqrt) && |counts| >= 2
    ensures var baseline, current := counts[..|counts| - 1], counts[|counts| - 1];
            Verdict(counts, sqrt).Some? <==>
            if Flat(baseline) then baseline[0] != 0.0 && current > baseline[0] && current >= 2.0 * baseline[0]
            else current > Mean(baseline) + 2.0 * sqrt(Variance(baseline))
    ensures var baseline := counts[..|counts| - 1];
            var stdDev := sqrt(Variance(baseline));
            Verdict(counts, sqrt).Some? ==>
              Verdict(counts, sqrt).value ==
              Event(counts[|counts| - 1], Mean(baseline), stdDev, Mean(baseline) + 2.0 * stdDev)
  {
    var baseline := counts[..|counts| - 1];
    VarianceNonNegative(baseline);
    ZeroDeviationIff(baseline, sqrt(Variance(baseline)));
    if Flat(baseline) {
      MeanOfFlat(baseline);
    }
  }

  // ----- the bound of one in five is the best possible

  function Quiet(n: nat): seq<real> {
    if n == 0 then [] else Quiet(n - 1) + [0.0]
  }

  function Days(zeros: nat, ones: nat): seq<real> {
    if ones == 0 then Quiet(zeros) else Days(zeros, ones - 1) + [1.0]
  }

  lemma SnocSums(vals: seq<real>, x: real, m: real, level: real)
    ensures Sum(vals + [x]) == Sum(vals) + x
    ensures Spread(vals + [x], m) == Spread(vals, m) + Sq(x - m)
    ensures Above(vals + [x], level) == Above(vals, level) + if x > level then 1 else 0
  {
    assert (vals + [x])[..|vals|] == vals;
  }

  lemma SqNegated(m: real)
    ensures Sq(0.0 - m) == Sq(m)
  {
  }

  lemma {:induction false} QuietSums(n: nat, m: real, level: real)
    requires 0.0 <= level
    ensures |Quiet(n)| == n && Sum(Quiet(n)) == 0.0 && Above(Quiet(n), level) == 0
    ensures Spread(Quiet(n), m) == Mul(n as real, Sq(m))
  {
    if n > 0 {
      QuietSums(n - 1, m, level);
      SnocSums(Quiet(n - 1), 0.0, m, level);
      SqNegated(m);
      CountStep(n - 1, Sq(m));
    }
  }

  lemma {:induction false} DaysSums(zeros: nat, ones: nat, m: real, level: real)
    requires 0.0 <= level < 1.0
    ensures |Days(zeros, ones)| == zeros + ones
    ensures Sum(Days(zeros, ones)) == ones as real && Above(Days(zeros, ones), level) == ones
    ensures Spread(Days(zeros, ones), m) == Mul(zeros as real, Sq(m)) + Mul(ones as real, Sq(1.0 - m))
  {
    if ones == 0 {
      QuietSums(zeros, m, level);
    } else {
      DaysSums(zeros, ones - 1, m, level);
      SnocSums(Days(zeros, ones - 1), 1.0, m, level);
      CountStep(ones - 1, Sq(1.0 - m));
    }
  }

  /** With p = k/n, k days at 1 and n - k at 0 vary by p(1 - p). */
  lemma DaysVariance(zeros: nat, ones: nat)
    requires ones > 0
    ensures var vals := Days(zeros, ones);
            var p := ones as real / (zeros + ones) as real;
            |vals| == zeros + ones && Mean(vals) == p && Variance(vals) == Mul(p, 1.0 - p)
  {
    var n := zeros + ones;
    var p := ones as real / n as real;
    DaysSums(zeros, ones, p, 0.0);
    DivMul(ones as real, n);
    TwoPointVariance(zeros as real, ones as real, n as real, p);
    DivUnique(Spread(Days(zeros, ones), p), n, Mul(p, 1.0 - p));
  }

  lemma TwoPointVariance(z: real, k: real, n: real, p: real)
    requires n == z + k && Mul(n, p) == k
    ensures Mul(z, Sq(p)) + Mul(k, Sq(1.0 - p)) == Mul(n, Mul(p, 1.0 - p))
  {
    assert Sq(1.0 - p) == 1.0 - 2.0 * p + Sq(p);
    assert Mul(k, 1.0 - 2.0 * p + Sq(p)) == k - 2.0 * Mul(k, p) + Mul(k, Sq(p));
    assert Mul(z, Sq(p)) + Mul(k, Sq(p)) == Mul(n, Sq(p));
    assert Mul(n, Sq(p)) == Mul(Mul(n, p), p);
    assert Mul(n, Mul(p, 1.0 - p)) == Mul(n, p) - Mul(n, Sq(p));
  }

  lemma DivUnique(x: real, n: nat, q: real)
    requires n > 0 && x == Mul(n as real, q)
    ensures x / n as real == q
  {
  }

  lemma BelowOne(p: real, s: real)
    requires 0.0 <= p && 5.0 * p < 1.0 && s >= 0.0 && Sq(s) == Mul(p, 1.0 - p)
    ensures p + 2.0 * s < 1.0
  {
    var u, v := 2.0 * s - (1.0 - p), 2.0 * s + (1.0 - p);
    MulPositive(u, v);
    assert Mul(u, v) == 4.0 * Sq(s) - Sq(1.0 - p);
    MulPositive(1.0 - 5.0 * p, 1.0 - p);
    assert 4.0 * Mul(p, 1.0 - p) - Sq(1.0 - p) == -Mul(1.0 - 5.0 * p, 1.0 - p);
  }

  /** For every k there are 5k + 1 days of which k lie above mean + 2 sigma. */
  lemma BoundIsAttained(k: nat, stddev: real)
    requires k > 0
    requires stddev >= 0.0 && Sq(stddev) == Variance(Days(4 * k + 1, k))
    ensures var vals := Days(4 * k + 1, k);
            |vals| == 5 * k + 1 && Above(vals, Mean(vals) + DEVIATION_FACTOR * stddev) == k
  {
    var vals := Days(4 * k + 1, k);
    var p := k as real / (5 * k + 1) as real;
    DaysVariance(4 * k + 1, k);
    BelowFifth(k);
    BelowOne(p, stddev);
    DaysSums(4 * k + 1, k, p, p + 2.0 * stddev);
  }

  lemma BelowFifth(k: nat)
    ensures var p := k as real / (5 * k + 1) as real; 0.0 <= p && 5.0 * p < 1.0
  {
    DivMul(k as real, 5 * k + 1);
    DivNonNegative(k as real, 5 * k + 1);
    FifthBound(k as real / (5 * k + 1) as real, k);
  }

  lemma FifthBound(p: real, k: nat)
    requires Mul((5 * k + 1) as real, p) == k as real
    ensures 5.0 * p < 1.0
  {
    MulPositive((5 * k + 1) as real, 5.0 * p - 1.0);
    assert Mul((5 * k + 1) as real, 5.0 * p - 1.0) == 5.0 * Mul((5 * k + 1) as real, p) - (5 * k + 1) as real;
  }
}
