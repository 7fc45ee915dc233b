/** The stored baselines, the alerts raised from them, and how long a constant outlier keeps
    counting as one. */
module DriftEngine {
  import opened Bytes
  import opened Drift

  const ALERT_COOLDOWN := 25

  // The alerts after an observation: a second anomaly in a row opens one unless one is open, and a
  // normal observation closes one older than the cooldown.
  function Alerts(open: map<string, int>, key: string, streak: nat, now: int): map<string, int> {
    if streak >= CLUSTER && key !in open then open[key := now]
    else if streak == 0 && key in open && open[key] < now - ALERT_COOLDOWN then open - {key}
    else open
  }

  ghost predicate Histories(rows: map<string, Row>, seen: map<string, seq<real>>) {
    && rows.Keys == seen.Keys
    && forall key :: key in rows ==> seen[key] != [] && rows[key] == Baseline(seen[key], DEFAULTS)
  }

  ghost predicate ClustersOpen(rows: map<string, Row>, open: map<string, int>) {
    open.Keys <= rows.Keys && forall key :: key in rows && rows[key].streak >= CLUSTER ==> key in open
  }

  class Engine {
    var rows: map<string, Row>
    // When each open alert started.
    var open: map<string, int>
    // The observations of each metric so far.
    ghost var seen: map<string, seq<real>>

    /** Each row is the baseline of its metric's whole history, and a metric on a run of anomalies
        has an open alert for as long as the run lasts. */
    ghost predicate Valid()
      reads this
    {
      Histories(rows, seen) && ClustersOpen(rows, open)
    }

    constructor ()
      ensures Valid() && seen == map[]
    {
      rows, open, seen := map[], map[], map[];
    }

    method Observe(key: string, x: real, now: int) returns (anomaly: bool)
      requires Valid()
      modifies this
      ensures Valid()
      ensures seen == old(seen)[key := (if key in old(seen) then old(seen)[key] else []) + [x]]
      ensures anomaly <==> rows[key].streak > 0
      ensures open == Alerts(old(open), key, rows[key].streak, now)
    {
      hide UpdateEwma, Histories, ClustersOpen;
      NextHistory(rows, seen, key, x);
      NextAlerts(rows, open, key, Fed(if key in rows then Some(rows[key]) else None, x, DEFAULTS), now);
      seen := seen[key := (if key in seen then seen[key] else []) + [x]];
      if key !in rows {
        var first := UpdateEwma(0.0, 0.0, 0, x, ALPHA, Z_THRESHOLD);
        rows := rows[key := Row(first.mean, first.variance, first.samples, 0)];
        return false;
      }
      var row := rows[key];
      var update := UpdateEwma(row.mean, row.variance, row.samples, x, ALPHA, Z_THRESHOLD);
      var streak := if update.anomaly then row.streak + 1 else 0;
      rows := rows[key := Row(update.mean, update.variance, update.samples, streak)];
      anomaly := update.anomaly;
      if streak >= CLUSTER && key !in open {
        open := open[key := now];
      }
      if !anomaly && key in open && open[key] < now - ALERT_COOLDOWN {
        open := open - {key};
      }
    }
  }

  lemma NextHistory(rows: map<string, Row>, seen: map<string, seq<real>>, key: string, x: real)
    requires Histories(rows, seen)
    ensures key in rows <==> key in seen
    ensures Histories(rows[key := Fed(if key in rows then Some(rows[key]) else None, x, DEFAULTS)],
                      seen[key := (if key in seen then seen[key] else []) + [x]])
  {
    hide Fed;
    var before := if key in seen then seen[key] else [];
    assert (before + [x])[..|before|] == before;
  }

  lemma NextAlerts(rows: map<string, Row>, open: map<string, int>, key: string, row: Row, now: int)
    requires ClustersOpen(rows, open)
    ensures ClustersOpen(rows[key := row], Alerts(open, key, row.streak, now))
    ensures key !in rows ==> key !in open
  {
  }

  // ----- a constant outlier -----

  // The row after k more observations of the same value.
  function Repeated(r: Row, x: real, k: nat, tuning: Tuning): Row {
    if k == 0 then r else Fed(Some(Repeated(r, x, k - 1, tuning)), x, tuning)
  }

  function Pow(q: real, k: nat): real {
    if k == 0 then 1.0 else q * Pow(q, k - 1)
  }

  // How much of the distance to a constant outlier is left after k damped steps.
  function Left(k: nat, tuning: Tuning): real {
    Pow(1.0 - tuning.alpha * DAMPING, k)
  }

  // Whether a value at distance d from the mean is still an outlier after k damped steps.
  predicate StillOut(d: real, variance: real, k: nat, tuning: Tuning) {
    var t := tuning.threshold * tuning.threshold;
    ((1.0 + t) * Left(k, tuning) - t) * (d * d) >= t * variance
  }

  predicate Warm(r: Row, tuning: Tuning) {
    r.samples >= MIN_SAMPLES - 1 && r.variance > 0.0 && 0.0 <= tuning.alpha <= 1.0 && tuning.threshold > 0.0
  }

  lemma {:induction false} LeftShrinks(k: nat, tuning: Tuning)
    requires 0.0 <= tuning.alpha <= 1.0
    ensures 0.0 < Left(k, tuning) <= 1.0
    ensures Left(k + 1, tuning) == (1.0 - tuning.alpha * DAMPING) * Left(k, tuning) <= Left(k, tuning)
  {
    var q := 1.0 - tuning.alpha * DAMPING;
    if k > 0 {
      LeftShrinks(k - 1, tuning);
    }
    assert 0.0 < q <= 1.0;
    Product(q, Pow(q, k));
  }

  lemma Product(q: real, p: real)
    requires 0.0 < q <= 1.0 && 0.0 < p
    ensures 0.0 < q * p <= p
  {
  }

  // Mean and variance while every repetition is an anomaly.
  ghost predicate Damped(r: Row, x: real, k: nat, tuning: Tuning, s: Row) {
    var left, d := Left(k, tuning), x - r.mean;
    && x - s.mean == left * d
    && s.variance == left * (r.variance + (1.0 - left) * (d * d))
    && s.samples == r.samples + k
  }

  lemma DampedVariance(mean: real, variance: real, x: real, rate: real, left: real, v: real, d: real)
    requires x - mean == left * d && variance == left * (v + (1.0 - left) * (d * d))
    ensures VarianceAfter(mean, variance, x, rate)
         == ((1.0 - rate) * left) * (v + (1.0 - (1.0 - rate) * left) * (d * d))
  {
    DampedStep(left, 1.0 - rate, rate, v, d * d);
    assert rate * (left * d) * (left * d) == rate * (left * (left * (d * d)));
  }

  lemma DampedStep(left: real, q: real, rate: real, v: real, e: real)
    requires rate == 1.0 - q
    ensures q * (left * (v + (1.0 - left) * e) + rate * (left * (left * e))) == (q * left) * (v + (1.0 - q * left) * e)
  {
    var u := left * (left * e);
    assert left * (v + (1.0 - left) * e) == left * v + left * e - u;
    assert rate * u == u - q * u;
    assert (q * left) * (v + (1.0 - q * left) * e) == q * (left * v + left * e - q * u);
  }

  lemma DampedMean(mean: real, x: real, rate: real, left: real, d: real)
    requires x - mean == left * d
    ensures x - MeanAfter(mean, x, rate) == ((1.0 - rate) * left) * d
  {
    Associate(1.0 - rate, left, d);
    assert x - MeanAfter(mean, x, rate) == (1.0 - rate) * (x - mean);
  }

  lemma Associate(a: real, b: real, c: real)
    ensures a * (b * c) == (a * b) * c
  {
  }

  // The test on the stored row is the test on the original distance.
  lemma OutlierTest(left: real, v: real, d: real, t: real)
    requires 0.0 < left
    ensures (left * d) * (left * d) >= t * (left * (v + (1.0 - left) * (d * d)))
       <==> ((1.0 + t) * left - t) * (d * d) >= t * v
  {
    var e := d * d;
    var gap := ((1.0 + t) * left - t) * e - t * v;
    assert (left * d) * (left * d) - t * (left * (v + (1.0 - left) * e)) == left * gap by {
      assert (left * d) * (left * d) == left * (left * e);
      assert t * (left * (v + (1.0 - left) * e)) == left * (t * v + t * e - t * (left * e));
      assert ((1.0 + t) * left - t) * e == left * e + t * (left * e) - t * e;
    }
    SignOfProduct(left, gap);
  }

  lemma SignOfProduct(p: real, g: real)
    requires 0.0 < p
    ensures p * g >= 0.0 <==> g >= 0.0
  {
  }

  lemma DampedVariancePositive(r: Row, x: real, k: nat, tuning: Tuning, s: Row)
    requires Warm(r, tuning) && Damped(r, x, k, tuning, s)
    ensures s.variance > 0.0
  {
    LeftShrinks(k, tuning);
    var left, d := Left(k, tuning), x - r.mean;
    Positive(left, r.variance, d);
  }

  lemma Positive(left: real, v: real, d: real)
    requires 0.0 < left <= 1.0 && v > 0.0
    ensures left * (v + (1.0 - left) * (d * d)) > 0.0
  {
    assert d * d >= 0.0;
    assert (1.0 - left) * (d * d) >= 0.0;
  }

  lemma DampedIsOutlier(r: Row, x: real, k: nat, tuning: Tuning, s: Row)
    requires Warm(r, tuning) && Damped(r, x, k, tuning, s)
    ensures Outlier(s.mean, s.variance, s.samples + 1, x, tuning.threshold) <==>
      StillOut(x - r.mean, r.variance, k, tuning)
  {
    hide Left;
    DampedVariancePositive(r, x, k, tuning, s);
    LeftShrinks(k, tuning);
    DampedTest(s.mean, s.variance, x, Left(k, tuning), r.variance, x - r.mean, tuning.threshold * tuning.threshold);
  }

  lemma DampedTest(mean: real, variance: real, x: real, left: real, v: real, d: real, t: real)
    requires 0.0 < left && x - mean == left * d && variance == left * (v + (1.0 - left) * (d * d))
    ensures (x - mean) * (x - mean) >= t * variance <==> ((1.0 + t) * left - t) * (d * d) >= t * v
  {
    OutlierTest(left, v, d, t);
  }

  lemma DampedNext(r: Row, x: real, k: nat, tuning: Tuning, s: Row)
    requires Warm(r, tuning) && Damped(r, x, k, tuning, s)
    requires Outlier(s.mean, s.variance, s.samples + 1, x, tuning.threshold)
    ensures Damped(r, x, k + 1, tuning, Fed(Some(s), x, tuning))
  {
    hide Left, Outlier, MeanAfter, VarianceAfter;
    var left, d, rate := Left(k, tuning), x - r.mean, tuning.alpha * DAMPING;
    LeftShrinks(k, tuning);
    DampedMean(s.mean, x, rate, left, d);
    DampedVariance(s.mean, s.variance, x, rate, left, r.variance, d);
  }

  lemma StillOutEarlier(d: real, variance: real, k: nat, tuning: Tuning)
    requires 0.0 <= tuning.alpha <= 1.0 && StillOut(d, variance, k + 1, tuning)
    ensures StillOut(d, variance, k, tuning)
  {
    hide Left;
    LeftShrinks(k, tuning);
    var t := tuning.threshold * tuning.threshold;
    Larger(Left(k + 1, tuning), Left(k, tuning), t, d * d);
  }

  lemma Larger(a: real, b: real, t: real, e: real)
    requires a <= b && t >= 0.0 && e >= 0.0
    ensures ((1.0 + t) * a - t) * e <= ((1.0 + t) * b - t) * e
  {
    assert (1.0 + t) * a <= (1.0 + t) * b;
  }

  /** Exactly how long a constant outlier keeps counting as one: k observations of x in a row are
      all anomalies if and only if x is still out after the first k - 1 damped steps. */
  lemma {:induction false} ConstantOutlier(r: Row, x: real, k: nat, tuning: Tuning)
    requires Warm(r, tuning)
    ensures Repeated(r, x, k, tuning).streak <= r.streak + k
    ensures Repeated(r, x, k, tuning).streak == r.streak + k <==>
      k == 0 || StillOut(x - r.mean, r.variance, k - 1, tuning)
    ensures Repeated(r, x, k, tuning).streak == r.streak + k ==> Damped(r, x, k, tuning, Repeated(r, x, k, tuning))
  {
    if k == 0 {
      assert Left(0, tuning) == 1.0;
    } else {
      ConstantOutlier(r, x, k - 1, tuning);
      hide Left, StillOut, Damped, Outlier, MeanAfter, VarianceAfter, Warm;
      var s := Repeated(r, x, k - 1, tuning);
      if s.streak == r.streak + (k - 1) {
        DampedIsOutlier(r, x, k - 1, tuning, s);
        assert s.samples > 0 by {
          DampedCounts(r, x, k - 1, tuning, s);
        }
        if Outlier(s.mean, s.variance, s.samples + 1, x, tuning.threshold) {
          DampedNext(r, x, k - 1, tuning, s);
        }
      } else if StillOut(x - r.mean, r.variance, k - 1, tuning) {
        WarmTuning(r, tuning);
        StillOutEarlier(x - r.mean, r.variance, k - 2, tuning);
      }
    }
  }

  lemma WarmTuning(r: Row, tuning: Tuning)
    requires Warm(r, tuning)
    ensures 0.0 <= tuning.alpha <= 1.0
  {
  }

  lemma DampedCounts(r: Row, x: real, k: nat, tuning: Tuning, s: Row)
    requires Warm(r, tuning) && Damped(r, x, k, tuning, s)
    ensures s.samples > 0
  {
  }

  /** With the shipped settings three anomalies in a row do happen: for every warm baseline, a
      constant value gives three exactly when its distance squared times 0.90025 is at least nine
      times the variance. */
  lemma ThreeInARow(r: Row, x: real)
    requires Warm(r, DEFAULTS)
    ensures Repeated(r, x, 3, DEFAULTS).streak == r.streak + 3
       <==> 0.90025 * ((x - r.mean) * (x - r.mean)) >= 9.0 * r.variance
  {
    ConstantOutlier(r, x, 3, DEFAULTS);
    assert Left(2, DEFAULTS) == 0.990025 by {
      var q := 1.0 - ALPHA * DAMPING;
      assert q == 0.995 && Pow(q, 1) == q * Pow(q, 0) == 0.995;
      assert Pow(q, 2) == q * Pow(q, 1) == 0.995 * 0.995;
    }
  }

  lemma PowSquares(q: real, k: nat)
    ensures Pow(q, 2 * k) == Pow(q, k) * Pow(q, k)
  {
    if k > 0 {
      PowSquares(q, k - 1);
      var p := Pow(q, k - 1);
      assert Pow(q, 2 * k) == q * (q * Pow(q, 2 * (k - 1)));
      assert q * (q * (p * p)) == (q * p) * (q * p);
    }
  }

  lemma ShippedPowers()
    ensures Left(21, DEFAULTS) >= 0.90005 && Left(22, DEFAULTS) <= 0.9
  {
    var q := 1.0 - ALPHA * DAMPING;
    assert q == 0.995 && Pow(q, 1) == q * Pow(q, 0) == 0.995;
    assert Pow(q, 2) == q * Pow(q, 1) == 0.990025;
    assert Pow(q, 3) == q * Pow(q, 2) && Pow(q, 4) == q * Pow(q, 3) && Pow(q, 5) == q * Pow(q, 4);
    PowSquares(q, 5);
    PowSquares(q, 10);
    assert Pow(q, 21) == q * Pow(q, 20) && Pow(q, 22) == q * Pow(q, 21);
  }

  /** A constant value never counts as an anomaly more than 22 times in a row, however far it is. */
  lemma NeverTwentyThree(r: Row, x: real)
    requires Warm(r, DEFAULTS)
    ensures Repeated(r, x, 23, DEFAULTS).streak < r.streak + 23
  {
    hide Left, Repeated;
    var d := x - r.mean;
    ConstantOutlier(r, x, 23, DEFAULTS);
    ShippedPowers();
    SquareNonNegative(d);
    NegativeTimes(10.0 * Left(22, DEFAULTS) - 9.0, d * d);
  }

  lemma NegativeTimes(a: real, e: real)
    requires a <= 0.0 && e >= 0.0
    ensures a * e <= 0.0
  {
  }

  /** ... and 22 times does happen, from every warm row. */
  lemma TwentyTwoHappen(r: Row) returns (x: real)
    requires Warm(r, DEFAULTS)
    ensures Repeated(r, x, 22, DEFAULTS).streak == r.streak + 22
  {
    hide Left, Repeated;
    x := r.mean + 1000.0 * (1.0 + r.variance);
    ConstantOutlier(r, x, 22, DEFAULTS);
    ShippedPowers();
    FarEnough(Left(21, DEFAULTS), r.variance, x - r.mean);
  }

  lemma FarEnough(left: real, v: real, d: real)
    requires left >= 0.90005 && v > 0.0 && d == 1000.0 * (1.0 + v)
    ensures ((1.0 + 9.0) * left - 9.0) * (d * d) >= 9.0 * v
  {
    var e := d * d;
    assert e == 1000000.0 * ((1.0 + v) * (1.0 + v));
    assert (1.0 + v) * (1.0 + v) >= v by {
      assert v * v >= 0.0;
      assert (1.0 + v) * (1.0 + v) == 1.0 + 2.0 * v + v * v;
    }
    var gap := (1.0 + 9.0) * left - 9.0;
    assert gap >= 0.0005 && e >= 0.0;
    assert gap * e >= 0.0005 * e;
  }

  // ----- values that grow -----

  function AfterAll(r: Row, xs: seq<real>, tuning: Tuning): Row {
    if xs == [] then r else Fed(Some(AfterAll(r, xs[..|xs| - 1], tuning)), xs[|xs| - 1], tuning)
  }

  // Observations that each stay ahead of the baseline.
  function Chasing(r: Row, k: nat, tuning: Tuning): (xs: seq<real>)
    ensures |xs| == k
  {
    if k == 0 then []
    else
      var front := Chasing(r, k - 1, tuning);
      var s := AfterAll(r, front, tuning);
      front + [s.mean + tuning.threshold * (1.0 + s.variance)]
  }

  lemma AheadIsOutlier(v: real, t: real, d: real)
    requires v > 0.0 && t > 0.0 && d == t * (1.0 + v)
    ensures d * d >= t * t * v
  {
    var u, tt := 1.0 + v, t * t;
    assert u * u == 1.0 + 2.0 * v + v * v && v * v >= 0.0;
    assert d * d == tt * (u * u);
    OrderTerm(tt, v, u * u);
  }

  lemma VarianceStaysPositive(mean: real, v: real, x: real, rate: real)
    requires v > 0.0 && 0.0 <= rate < 1.0
    ensures VarianceAfter(mean, v, x, rate) > 0.0
  {
    var e := (x - mean) * (x - mean);
    SquareNonNegative(x - mean);
    OrderTerm(rate, 0.0, e);
    assert VarianceAfter(mean, v, x, rate) == (1.0 - rate) * (v + rate * e);
    Product(1.0 - rate, v + rate * e);
  }

  lemma WarmStep(s: Row, x: real, tuning: Tuning)
    requires Warm(s, tuning) && x == s.mean + tuning.threshold * (1.0 + s.variance)
    ensures Warm(Fed(Some(s), x, tuning), tuning) && Fed(Some(s), x, tuning).streak == s.streak + 1
  {
    hide MeanAfter, VarianceAfter;
    AheadIsOutlier(s.variance, tuning.threshold, x - s.mean);
    assert Outlier(s.mean, s.variance, s.samples + 1, x, tuning.threshold);
    VarianceStaysPositive(s.mean, s.variance, x, tuning.alpha * DAMPING);
  }

  /** There is no limit in general: from every warm row, for every k, there are k observations that
      all count as anomalies. */
  lemma {:induction false} StreaksAreUnbounded(r: Row, k: nat, tuning: Tuning)
    requires Warm(r, tuning)
    ensures Warm(AfterAll(r, Chasing(r, k, tuning), tuning), tuning)
    ensures AfterAll(r, Chasing(r, k, tuning), tuning).streak == r.streak + k
  {
    hide Warm, Fed;
    if k > 0 {
      var front, xs := Chasing(r, k - 1, tuning), Chasing(r, k, tuning);
      StreaksAreUnbounded(r, k - 1, tuning);
      assert xs[..|xs| - 1] == front;
      WarmStep(AfterAll(r, front, tuning), xs[|xs| - 1], tuning);
    }
  }

  // ----- what the descriptions say instead -----

  // An anomaly by the module's description, |z| > 3.
  predicate StrictOutlier(mean: real, variance: real, newCount: nat, x: real) {
    newCount >= MIN_SAMPLES && variance > 0.0 && (x - mean) * (x - mean) > Z_THRESHOLD * Z_THRESHOLD * variance
  }

  /** The code's test and the description differ exactly on a scored value three deviations away. */
  lemma ReadingsDifferIff(mean: real, variance: real, newCount: nat, x: real)
    ensures Outlier(mean, variance, newCount, x, Z_THRESHOLD) != StrictOutlier(mean, variance, newCount, x)
       <==> newCount >= MIN_SAMPLES && variance > 0.0 && (x - mean) * (x - mean) == 9.0 * variance
  {
  }

  // An observation closes an open alert exactly when it is normal and the alert older than the cooldown.
  lemma ClosesIff(open: map<string, int>, key: string, streak: nat, now: int)
    requires key in open
    ensures key !in Alerts(open, key, streak, now) <==> streak == 0 && now > open[key] + 25
    ensures key in Alerts(open, key, streak, now) ==> Alerts(open, key, streak, now)[key] == open[key]
  {
  }

  // The alerts after normal observations at the given times.
  function AfterNormal(open: map<string, int>, key: string, times: seq<int>): map<string, int> {
    if times == [] then open else Alerts(AfterNormal(open, key, times[..|times| - 1]), key, 0, times[|times| - 1])
  }

  /** The number of normal observations plays no part: any number of them within the cooldown leave
      an alert open, and a single one past it closes it. */
  lemma {:induction false} ResolutionIsByAge(open: map<string, int>, key: string, times: seq<int>)
    requires key in open
    ensures key in AfterNormal(open, key, times) <==> forall t :: t in times ==> t <= open[key] + 25
    ensures key in AfterNormal(open, key, times) ==> AfterNormal(open, key, times)[key] == open[key]
  {
    if times != [] {
      var front, t := times[..|times| - 1], times[|times| - 1];
      assert times == front + [t];
      assert forall u :: u in times <==> u in front || u == t;
      assert t in times;
      ResolutionIsByAge(open, key, front);
      hide Alerts;
      var before := AfterNormal(open, key, front);
      assert AfterNormal(open, key, times) == Alerts(before, key, 0, t);
      if key in before {
        ClosesIff(before, key, 0, t);
        assert key in AfterNormal(open, key, times) <==> t <= open[key] + ALERT_COOLDOWN;
      } else {
        NoneReopens(before, key, t);
      }
    }
  }

  lemma NoneReopens(open: map<string, int>, key: string, now: int)
    requires key !in open
    ensures key !in Alerts(open, key, 0, now)
  {
  }

  /** An alert is opened by the second anomaly in a row, and by no single one; other alerts are untouched. */
  lemma OpensIff(open: map<string, int>, key: string, streak: nat, now: int)
    requires key !in open
    ensures key in Alerts(open, key, streak, now) <==> streak >= 2
    ensures key in Alerts(open, key, streak, now) ==> Alerts(open, key, streak, now)[key] == now
    ensures forall other :: other != key ==>
      (other in Alerts(open, key, streak, now) <==> other in open)
      && (other in open ==> Alerts(open, key, streak, now)[other] == open[other])
  {
  }

  /** The first nine observations of a metric never count as anomalies, whatever they are. */
  lemma {:induction false} ColdNeverFlags(xs: seq<real>, tuning: Tuning)
    requires 0 < |xs| < 10
    ensures Baseline(xs, tuning).streak == 0
  {
    if |xs| > 1 {
      ColdNeverFlags(xs[..|xs| - 1], tuning);
    }
  }

  // No observation after the first counts as an anomaly.
  ghost predicate Quiet(xs: seq<real>, tuning: Tuning) {
    forall n :: 0 < n <= |xs| ==> Baseline(xs[..n], tuning).streak == 0
  }

  lemma {:induction false} QuietRates(xs: seq<real>)
    requires |xs| > 1 && Quiet(xs, DEFAULTS)
    ensures Quiet(xs[..|xs| - 1], DEFAULTS) && RateOf(xs, DEFAULTS) == 0.05
  {
    var front := xs[..|xs| - 1];
    forall n | 0 < n <= |front| ensures Baseline(front[..n], DEFAULTS).streak == 0 {
      assert front[..n] == xs[..n];
    }
    assert xs[..|xs|] == xs;
    hide Quiet;
  }

  lemma {:induction false} ScaledAt(k: real, ws: seq<real>, i: nat)
    requires i < |ws|
    ensures Scaled(k, ws)[i] == k * ws[i]
  {
    if i < |ws| - 1 {
      ScaledAt(k, ws[..|ws| - 1], i);
    }
  }

  /** Without anomalies the baseline weighs an observation by a twentieth, and by a twentieth less for each
      one after it; the first takes what is left. */
  lemma {:induction false} QuietWeights(xs: seq<real>, i: nat)
    requires xs != [] && i < |xs| && Quiet(xs, DEFAULTS)
    ensures Weights(xs, DEFAULTS)[i] == (if i == 0 then 1.0 else 0.05) * Pow(0.95, |xs| - 1 - i)
    decreases |xs|
  {
    if |xs| > 1 {
      QuietRates(xs);
      hide Quiet, RateOf;
      var front := xs[..|xs| - 1];
      if i < |front| {
        QuietWeights(front, i);
        ScaledAt(0.95, Weights(front, DEFAULTS), i);
        var w, p := if i == 0 then 1.0 else 0.05, Pow(0.95, |front| - 1 - i);
        assert 0.95 * (w * p) == w * (0.95 * p);
      }
    }
  }

  /** From the tenth observation on, and not before, one counts as an anomaly exactly when it lies three
      standard deviations or more from the mean of those before it. */
  lemma FlagsIff(r: Row, x: real)
    ensures
      var flags := r.samples >= 9 && r.variance > 0.0 && (x - r.mean) * (x - r.mean) >= 9.0 * r.variance;
      Fed(Some(r), x, DEFAULTS).streak == if flags then r.streak + 1 else 0
  {
    hide MeanAfter, VarianceAfter;
  }
}
