/** Exponentially weighted baselines of provider metrics, over exact reals. */
module Drift {
  import opened Bytes

  const ALPHA := 0.05
  const Z_THRESHOLD := 3.0
  const MIN_SAMPLES := 10
  const DAMPING := 0.1
  const CLUSTER := 2

  datatype Update = Update(mean: real, variance: real, samples: nat, anomaly: bool)

  // |delta / sqrt(variance)| >= threshold, without the square root
  predicate Outlier(mean: real, variance: real, newCount: nat, x: real, threshold: real) {
    && newCount >= MIN_SAMPLES && variance > 0.0
    && (threshold <= 0.0 || (x - mean) * (x - mean) >= threshold * threshold * variance)
  }

  function Rate(alpha: real, anomaly: bool): real {
    if anomaly then alpha * DAMPING else alpha
  }

  function MeanAfter(mean: real, x: real, rate: real): real {
    mean + rate * (x - mean)
  }

  function VarianceAfter(mean: real, variance: real, x: real, rate: real): real {
    var delta := x - mean;
    (1.0 - rate) * (variance + rate * delta * delta)
  }

  function UpdateEwma(mean: real, variance: real, samples: nat, x: real, alpha: real, threshold: real): Update {
    if samples == 0 then Update(x, 0.0, 1, false)
    else
      var anomaly := Outlier(mean, variance, samples + 1, x, threshold);
      var rate := Rate(alpha, anomaly);
      Update(MeanAfter(mean, x, rate), VarianceAfter(mean, variance, x, rate), samples + 1, anomaly)
  }

  // A stored row: the baseline and the number of anomalies in a row.
  datatype Row = Row(mean: real, variance: real, samples: nat, streak: nat)

  datatype Tuning = Tuning(alpha: real, threshold: real)

  const DEFAULTS := Tuning(ALPHA, Z_THRESHOLD)

  function Fed(row: Option<Row>, x: real, tuning: Tuning): Row {
    match row
    case None =>
      var u := UpdateEwma(0.0, 0.0, 0, x, tuning.alpha, tuning.threshold);
      Row(u.mean, u.variance, u.samples, 0)
    case Some(r) =>
      var u := UpdateEwma(r.mean, r.variance, r.samples, x, tuning.alpha, tuning.threshold);
      Row(u.mean, u.variance, u.samples, if u.anomaly then r.streak + 1 else 0)
  }

  // The row after a whole history.
  function Baseline(xs: seq<real>, tuning: Tuning): (r: Row)
    requires xs != []
    ensures r.samples == |xs|
  {
    if |xs| == 1 then Fed(None, xs[0], tuning) else Fed(Some(Baseline(xs[..|xs| - 1], tuning)), xs[|xs| - 1], tuning)
  }

  // ----- the stored numbers are a weighted mean and variance -----

  // The sum of w * f(x) over a weighted history.
  function Dot(ws: seq<real>, xs: seq<real>, f: real -> real): real
    requires |ws| == |xs|
  {
    if ws == [] then 0.0 else Dot(ws[..|ws| - 1], xs[..|ws| - 1], f) + ws[|ws| - 1] * f(xs[|ws| - 1])
  }

  const UNIT := (x: real) => 1.0
  const VALUE := (x: real) => x
  const SQUARE := (x: real) => x * x

  function Deviation(center: real): real -> real {
    (x: real) => (x - center) * (x - center)
  }

  // Weights, none negative and 1 in all, with the weighted mean and variance of a history.
  predicate Weighs(ws: seq<real>, xs: seq<real>, mean: real, variance: real) {
    && |ws| == |xs|
    && (forall i :: 0 <= i < |ws| ==> ws[i] >= 0.0)
    && Dot(ws, xs, UNIT) == 1.0
    && Dot(ws, xs, VALUE) == mean
    && Dot(ws, xs, Deviation(mean)) == variance
  }

  function Scaled(k: real, ws: seq<real>): (r: seq<real>)
    ensures |r| == |ws|
  {
    if ws == [] then [] else Scaled(k, ws[..|ws| - 1]) + [k * ws[|ws| - 1]]
  }

  // How much the latest observation counted when it arrived.
  function RateOf(xs: seq<real>, tuning: Tuning): real
    requires |xs| >= 2
  {
    var r, x := Baseline(xs[..|xs| - 1], tuning), xs[|xs| - 1];
    Rate(tuning.alpha, Outlier(r.mean, r.variance, r.samples + 1, x, tuning.threshold))
  }

  function Weights(xs: seq<real>, tuning: Tuning): (ws: seq<real>)
    requires xs != []
    ensures |ws| == |xs|
  {
    if |xs| == 1 then [1.0]
    else
      var rate := RateOf(xs, tuning);
      Scaled(1.0 - rate, Weights(xs[..|xs| - 1], tuning)) + [rate]
  }

  lemma ScaleTerm(k: real, w: real, y: real, rest: real)
    ensures k * rest + (k * w) * y == k * (rest + w * y)
  {
  }

  lemma DotLast(ws: seq<real>, xs: seq<real>, f: real -> real)
    requires |ws| == |xs| > 0
    ensures var n := |ws| - 1; Dot(ws, xs, f) == Dot(ws[..n], xs[..n], f) + ws[n] * f(xs[n])
  {
  }

  lemma ScaledLast(k: real, ws: seq<real>)
    requires ws != []
    ensures var n := |ws| - 1; Scaled(k, ws)[..n] == Scaled(k, ws[..n]) && Scaled(k, ws)[n] == k * ws[n]
  {
  }

  lemma {:induction false} DotScaled(k: real, ws: seq<real>, xs: seq<real>, f: real -> real)
    requires |ws| == |xs|
    ensures Dot(Scaled(k, ws), xs, f) == k * Dot(ws, xs, f)
  {
    if ws != [] {
      hide *;
      var n := |ws| - 1;
      ScaledLast(k, ws);
      DotLast(Scaled(k, ws), xs, f);
      DotLast(ws, xs, f);
      DotScaled(k, ws[..n], xs[..n], f);
      ScaleTerm(k, ws[n], f(xs[n]), Dot(ws[..n], xs[..n], f));
    }
  }

  lemma DotAppend(ws: seq<real>, xs: seq<real>, w: real, x: real, f: real -> real)
    requires |ws| == |xs|
    ensures Dot(ws + [w], xs + [x], f) == Dot(ws, xs, f) + w * f(x)
  {
    assert (ws + [w])[..|ws|] == ws && (xs + [x])[..|ws|] == xs;
  }

  lemma LinearTerm(w: real, p: real, y: real, q: real, z: real, r: real, a: real, b: real)
    ensures (p * a + q * b + r) + w * (p * y + q * z) == p * (a + w * y) + q * (b + w * z) + r
  {
  }

  lemma {:induction false} DotLinear(ws: seq<real>, xs: seq<real>, p: real, f: real -> real, q: real, g: real -> real,
                                     h: real -> real)
    requires |ws| == |xs|
    requires forall x :: h(x) == p * f(x) + q * g(x)
    ensures Dot(ws, xs, h) == p * Dot(ws, xs, f) + q * Dot(ws, xs, g)
  {
    if ws != [] {
      hide *;
      var n := |ws| - 1;
      DotLast(ws, xs, f);
      DotLast(ws, xs, g);
      DotLast(ws, xs, h);
      DotLinear(ws[..n], xs[..n], p, f, q, g, h);
      LinearTerm(ws[n], p, f(xs[n]), q, g(xs[n]), 0.0, Dot(ws[..n], xs[..n], f), Dot(ws[..n], xs[..n], g));
    }
  }

  lemma OrderTerm(w: real, y: real, z: real)
    requires w >= 0.0 && y <= z
    ensures w * y <= w * z
  {
  }

  lemma {:induction false} DotMonotone(ws: seq<real>, xs: seq<real>, f: real -> real, g: real -> real)
    requires |ws| == |xs| && forall i :: 0 <= i < |ws| ==> ws[i] >= 0.0 && f(xs[i]) <= g(xs[i])
    ensures Dot(ws, xs, f) <= Dot(ws, xs, g)
  {
    if ws != [] {
      hide *;
      var n := |ws| - 1;
      DotLast(ws, xs, f);
      DotLast(ws, xs, g);
      DotMonotone(ws[..n], xs[..n], f, g);
      OrderTerm(ws[n], f(xs[n]), g(xs[n]));
    }
  }

  lemma ExpandSquare(x: real, c: real)
    ensures (x - c) * (x - c) == x * x - 2.0 * c * x + c * c
  {
  }

  function Linear(c: real): real -> real {
    (x: real) => -2.0 * c * x + c * c
  }

  lemma DeviationAt(x: real, c: real)
    ensures Deviation(c)(x) == 1.0 * SQUARE(x) + 1.0 * Linear(c)(x)
    ensures Linear(c)(x) == -2.0 * c * VALUE(x) + c * c * UNIT(x)
  {
    ExpandSquare(x, c);
  }

  lemma CombineMoments(second: real, first: real, unit: real, c: real)
    ensures 1.0 * second + 1.0 * (-2.0 * c * first + c * c * unit) == second - 2.0 * c * first + c * c * unit
  {
  }

  // The variance about any centre, by the first two moments.
  lemma DeviationByMoments(ws: seq<real>, xs: seq<real>, c: real)
    requires |ws| == |xs|
    ensures Dot(ws, xs, Deviation(c))
         == Dot(ws, xs, SQUARE) - 2.0 * c * Dot(ws, xs, VALUE) + c * c * Dot(ws, xs, UNIT)
  {
    hide *;
    forall x
      ensures Deviation(c)(x) == 1.0 * SQUARE(x) + 1.0 * Linear(c)(x)
      ensures Linear(c)(x) == -2.0 * c * VALUE(x) + c * c * UNIT(x)
    {
      DeviationAt(x, c);
    }
    DotLinear(ws, xs, 1.0, SQUARE, 1.0, Linear(c), Deviation(c));
    DotLinear(ws, xs, -2.0 * c, VALUE, c * c, UNIT, Linear(c));
    CombineMoments(Dot(ws, xs, SQUARE), Dot(ws, xs, VALUE), Dot(ws, xs, UNIT), c);
  }

  // One step of the recurrence, on moments.
  lemma StepIdentity(m: real, v: real, second: real, x: real, d: real, n: real, rate: real)
    requires x == m + d && n == m + rate * d && v == second - m * m
    ensures n == (1.0 - rate) * m + rate * x
    ensures ((1.0 - rate) * second + rate * (x * x)) - n * n == (1.0 - rate) * (v + rate * d * d)
  {
    var e, md, mm, re := d * d, m * d, m * m, rate * (d * d);
    assert n * n == mm + 2.0 * (rate * md) + rate * re by {
      SquareOfSum(m, rate * d);
      Regroup(m, rate, d);
    }
    assert x * x == mm + 2.0 * md + e by {
      SquareOfSum(m, d);
    }
    assert rate * (x * x) == rate * mm + 2.0 * (rate * md) + re by {
      Distribute(rate, mm, 2.0 * md, e);
      Regroup(m, rate, d);
    }
    assert (1.0 - rate) * second == (v + mm) - (rate * v + rate * mm) by {
      OneMinus(rate, second);
      Distribute(rate, v, mm, 0.0);
    }
    assert (1.0 - rate) * (v + rate * d * d) == (v + re) - (rate * v + rate * re) by {
      Regroup(m, rate, d);
      OneMinus(rate, v + re);
      Distribute(rate, v, re, 0.0);
    }
    assert (1.0 - rate) * m + rate * x == m + rate * d by {
      OneMinus(rate, m);
      Distribute(rate, m, d, 0.0);
    }
  }

  lemma SquareOfSum(a: real, b: real)
    ensures (a + b) * (a + b) == a * a + 2.0 * (a * b) + b * b
  {
  }

  lemma Regroup(m: real, r: real, d: real)
    ensures m * (r * d) == r * (m * d)
    ensures (r * d) * (r * d) == r * (r * (d * d))
    ensures r * d * d == r * (d * d)
    ensures r * (2.0 * (m * d)) == 2.0 * (r * (m * d))
  {
  }

  lemma OneMinus(r: real, y: real)
    ensures (1.0 - r) * y == y - r * y
  {
  }

  lemma Distribute(r: real, a: real, b: real, c: real)
    ensures r * (a + b + c) == r * a + r * b + r * c
  {
  }

  predicate Sane(tuning: Tuning) {
    0.0 <= tuning.alpha <= 1.0
  }

  lemma OneObservation(x: real)
    ensures Weighs([1.0], [x], x, 0.0)
  {
    assert [] + [1.0] == [1.0] && [] + [x] == [x];
    DotAppend([], [], 1.0, x, UNIT);
    DotAppend([], [], 1.0, x, VALUE);
    DotAppend([], [], 1.0, x, Deviation(x));
  }

  lemma {:induction false} ScaledNonNegative(k: real, ws: seq<real>)
    requires k >= 0.0 && forall i :: 0 <= i < |ws| ==> ws[i] >= 0.0
    ensures forall i :: 0 <= i < |ws| ==> Scaled(k, ws)[i] >= 0.0
  {
    if ws != [] {
      ScaledNonNegative(k, ws[..|ws| - 1]);
      OrderTerm(k, 0.0, ws[|ws| - 1]);
    }
  }

  // The first three moments after a step.
  lemma MomentsAfterStep(ws: seq<real>, xs: seq<real>, x: real, keep: real, rate: real, f: real -> real)
    requires |ws| == |xs|
    ensures Dot(Scaled(keep, ws) + [rate], xs + [x], f) == keep * Dot(ws, xs, f) + rate * f(x)
  {
    hide *;
    DotScaled(keep, ws, xs, f);
    DotAppend(Scaled(keep, ws), xs, rate, x, f);
  }

  lemma Centred(deviation: real, second: real, first: real, unit: real, m: real)
    requires deviation == second - 2.0 * m * first + m * m * unit && first == m && unit == 1.0
    ensures deviation == second - m * m
  {
  }

  // The variance about the weighted mean, when the weights sum to 1.
  lemma CentredVariance(ws: seq<real>, xs: seq<real>, m: real)
    requires |ws| == |xs| && Dot(ws, xs, UNIT) == 1.0 && Dot(ws, xs, VALUE) == m
    ensures Dot(ws, xs, Deviation(m)) == Dot(ws, xs, SQUARE) - m * m
  {
    hide *;
    DeviationByMoments(ws, xs, m);
    Centred(Dot(ws, xs, Deviation(m)), Dot(ws, xs, SQUARE), Dot(ws, xs, VALUE), Dot(ws, xs, UNIT), m);
  }

  lemma MixedStep(ws: seq<real>, xs: seq<real>, m: real, v: real, x: real, rate: real)
    requires Weighs(ws, xs, m, v) && 0.0 <= rate <= 1.0
    ensures Weighs(Scaled(1.0 - rate, ws) + [rate], xs + [x], MeanAfter(m, x, rate), VarianceAfter(m, v, x, rate))
  {
    hide Dot, Deviation, Scaled;
    var after, n := Scaled(1.0 - rate, ws) + [rate], m + rate * (x - m);
    ScaledNonNegative(1.0 - rate, ws);
    MomentsAfterStep(ws, xs, x, 1.0 - rate, rate, UNIT);
    MomentsAfterStep(ws, xs, x, 1.0 - rate, rate, VALUE);
    MomentsAfterStep(ws, xs, x, 1.0 - rate, rate, SQUARE);
    CentredVariance(ws, xs, m);
    StepIdentity(m, v, Dot(ws, xs, SQUARE), x, x - m, n, rate);
    CentredVariance(after, xs + [x], n);
  }

  lemma UnfoldOne(xs: seq<real>, tuning: Tuning)
    requires |xs| == 1
    ensures Weights(xs, tuning) == [1.0] && Baseline(xs, tuning).mean == xs[0] && Baseline(xs, tuning).variance == 0.0
  {
  }

  lemma UnfoldMore(xs: seq<real>, tuning: Tuning)
    requires |xs| >= 2 && Sane(tuning)
    ensures var front, x, rate := xs[..|xs| - 1], xs[|xs| - 1], RateOf(xs, tuning);
            && Weights(xs, tuning) == Scaled(1.0 - rate, Weights(front, tuning)) + [rate]
            && Baseline(xs, tuning).mean == MeanAfter(Baseline(front, tuning).mean, x, rate)
            && Baseline(xs, tuning).variance
              == VarianceAfter(Baseline(front, tuning).mean, Baseline(front, tuning).variance, x, rate)
            && 0.0 <= rate <= 1.0
  {
    hide Outlier, Scaled, MeanAfter, VarianceAfter;
  }

  /** For every history, and every mix of normal and damped steps, there are weights, none negative
      and 1 in all, under which the stored mean and variance are exactly the weighted mean and
      variance of the observations. */
  lemma {:induction false} BaselineIsWeighted(xs: seq<real>, tuning: Tuning)
    requires xs != [] && Sane(tuning)
    ensures Weighs(Weights(xs, tuning), xs, Baseline(xs, tuning).mean, Baseline(xs, tuning).variance)
  {
    hide *;
    if |xs| == 1 {
      UnfoldOne(xs, tuning);
      OneObservation(xs[0]);
      assert xs == [xs[0]];
    } else {
      var front, x := xs[..|xs| - 1], xs[|xs| - 1];
      UnfoldMore(xs, tuning);
      BaselineIsWeighted(front, tuning);
      MixedStep(Weights(front, tuning), front, Baseline(front, tuning).mean, Baseline(front, tuning).variance, x,
                RateOf(xs, tuning));
      assert xs == front + [x];
    }
  }

  // ----- bounds -----

  function Within(lo: real, hi: real): real -> real {
    (x: real) => (x - lo) * (hi - x)
  }

  function Chord(lo: real, hi: real): real -> real {
    (x: real) => (lo + hi) * x + (-(lo * hi)) * 1.0
  }

  lemma WithinAt(x: real, lo: real, hi: real)
    ensures Within(lo, hi)(x) == -1.0 * SQUARE(x) + 1.0 * Chord(lo, hi)(x)
    ensures Chord(lo, hi)(x) == (lo + hi) * VALUE(x) + (-(lo * hi)) * UNIT(x)
  {
  }

  lemma CombineWithin(second: real, first: real, unit: real, sum: real, product: real)
    ensures -1.0 * second + 1.0 * (sum * first + (-product) * unit) == -second + sum * first - product * unit
  {
  }

  lemma WithinByMoments(ws: seq<real>, xs: seq<real>, lo: real, hi: real)
    requires |ws| == |xs|
    ensures Dot(ws, xs, Within(lo, hi))
         == -Dot(ws, xs, SQUARE) + (lo + hi) * Dot(ws, xs, VALUE) - lo * hi * Dot(ws, xs, UNIT)
  {
    hide *;
    forall x
      ensures Within(lo, hi)(x) == -1.0 * SQUARE(x) + 1.0 * Chord(lo, hi)(x)
      ensures Chord(lo, hi)(x) == (lo + hi) * VALUE(x) + (-(lo * hi)) * UNIT(x)
    {
      WithinAt(x, lo, hi);
    }
    DotLinear(ws, xs, -1.0, SQUARE, 1.0, Chord(lo, hi), Within(lo, hi));
    DotLinear(ws, xs, lo + hi, VALUE, -(lo * hi), UNIT, Chord(lo, hi));
    CombineWithin(Dot(ws, xs, SQUARE), Dot(ws, xs, VALUE), Dot(ws, xs, UNIT), lo + hi, lo * hi);
  }

  lemma QuarterOfSquare(m: real, second: real, unit: real, lo: real, hi: real)
    requires unit == 1.0 && 0.0 <= -second + (lo + hi) * m - lo * hi * unit
    ensures 4.0 * (second - m * m) <= (hi - lo) * (hi - lo)
  {
    var y := hi + lo - 2.0 * m;
    assert y * y >= 0.0;
    assert y * y == (hi - lo) * (hi - lo) + 4.0 * (m * m - (lo + hi) * m + lo * hi) by {
      ExpandSquare(hi + lo, 2.0 * m);
      assert (hi + lo) * (hi + lo) == (hi - lo) * (hi - lo) + 4.0 * (lo * hi);
    }
  }

  lemma ProductInRange(x: real, lo: real, hi: real)
    requires lo <= x <= hi
    ensures 0.0 <= (x - lo) * (hi - x)
  {
  }

  /** The mean stays within the range of the observations and the variance within a quarter of the
      range squared. */
  lemma BaselineBounds(xs: seq<real>, tuning: Tuning, lo: real, hi: real)
    requires xs != [] && Sane(tuning) && forall i :: 0 <= i < |xs| ==> lo <= xs[i] <= hi
    ensures lo <= Baseline(xs, tuning).mean <= hi
    ensures 0.0 <= 4.0 * Baseline(xs, tuning).variance <= (hi - lo) * (hi - lo)
  {
    BaselineIsWeighted(xs, tuning);
    var ws, m := Weights(xs, tuning), Baseline(xs, tuning).mean;
    WeightedBounds(ws, xs, m, Baseline(xs, tuning).variance, lo, hi);
  }

  lemma Constant(ws: seq<real>, xs: seq<real>, c: real, f: real -> real)
    requires |ws| == |xs| && Dot(ws, xs, UNIT) == 1.0 && forall x :: f(x) == c
    ensures Dot(ws, xs, f) == c
  {
    DotLinear(ws, xs, c, UNIT, 0.0, UNIT, f);
  }

  lemma PointBounds(x: real, m: real, lo: real, hi: real)
    requires lo <= x <= hi
    ensures 0.0 <= Deviation(m)(x) && 0.0 <= Within(lo, hi)(x)
  {
    ProductInRange(x, lo, hi);
    SquareNonNegative(x - m);
  }

  lemma WeightedBounds(ws: seq<real>, xs: seq<real>, m: real, v: real, lo: real, hi: real)
    requires Weighs(ws, xs, m, v) && forall i :: 0 <= i < |xs| ==> lo <= xs[i] <= hi
    ensures lo <= m <= hi && 0.0 <= 4.0 * v <= (hi - lo) * (hi - lo)
  {
    MeanBounds(ws, xs, lo, hi);
    assert Dot(ws, xs, UNIT) == 1.0 && Dot(ws, xs, VALUE) == m && Dot(ws, xs, Deviation(m)) == v;
    SpreadBounds(ws, xs, m, lo, hi);
  }

  lemma SpreadBounds(ws: seq<real>, xs: seq<real>, m: real, lo: real, hi: real)
    requires |ws| == |xs| && Dot(ws, xs, UNIT) == 1.0 && Dot(ws, xs, VALUE) == m
    requires forall i :: 0 <= i < |xs| ==> ws[i] >= 0.0 && lo <= xs[i] <= hi
    ensures 0.0 <= 4.0 * Dot(ws, xs, Deviation(m)) <= (hi - lo) * (hi - lo)
  {
    hide *;
    var zero := (x: real) => 0.0;
    Constant(ws, xs, 0.0, zero);
    forall i | 0 <= i < |xs| ensures 0.0 <= Deviation(m)(xs[i]) && 0.0 <= Within(lo, hi)(xs[i]) {
      PointBounds(xs[i], m, lo, hi);
    }
    DotMonotone(ws, xs, zero, Deviation(m));
    DotMonotone(ws, xs, zero, Within(lo, hi));
    WithinByMoments(ws, xs, lo, hi);
    CentredVariance(ws, xs, m);
    QuarterOfSquare(m, Dot(ws, xs, SQUARE), Dot(ws, xs, UNIT), lo, hi);
  }

  lemma SquareNonNegative(x: real)
    ensures 0.0 <= x * x
  {
  }

  lemma MeanBounds(ws: seq<real>, xs: seq<real>, lo: real, hi: real)
    requires |ws| == |xs| && Dot(ws, xs, UNIT) == 1.0
    requires forall i :: 0 <= i < |xs| ==> ws[i] >= 0.0 && lo <= xs[i] <= hi
    ensures lo <= Dot(ws, xs, VALUE) <= hi
  {
    var bottom, top := (x: real) => lo, (x: real) => hi;
    Constant(ws, xs, lo, bottom);
    Constant(ws, xs, hi, top);
    DotMonotone(ws, xs, bottom, VALUE);
    DotMonotone(ws, xs, VALUE, top);
  }
}
