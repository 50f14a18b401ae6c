/** Comparing two rates: the two-proportion test on the squared, unrounded statistic, over the reals. */
module RateComparison {
  import opened JsonValues
  import opened Reals

  /** `k` events in `n` trials. */
  datatype Window = Window(n: nat, k: nat)
  {
    predicate Valid() {
      k <= n
    }
  }

  datatype Options = Options(minN: real, minDelta: real, zThreshold: real)

  const DEFAULTS := Options(50.0, 0.02, 3.0)

  /** The sign of z is the sign of `delta`. */
  datatype Comparison = Comparison(delta: Option<real>, zSquared: Option<real>, drift: bool)

  /** p (1 - p) (1 / n1 + 1 / n2), the square of the standard error. */
  function Variance(p: real, n1: real, n2: real): real
    requires n1 > 0.0 && n2 > 0.0
  {
    Times(Times(p, 1.0 - p), Rate(1.0, n1) + Rate(1.0, n2))
  }

  function Pooled(k1: real, n1: real, k2: real, n2: real): real
    requires n1 > 0.0 && n2 > 0.0
  {
    Rate(k1 + k2, n1 + n2)
  }

  function Statistic(delta: real, variance: real): Option<real> {
    if variance > 0.0 then Some(Rate(Square(delta), variance)) else None
  }

  /** |z| is at least the threshold. */
  predicate Reaches(zSquared: real, threshold: real) {
    threshold <= 0.0 || zSquared >= Square(threshold)
  }

  function Compare(recent: Window, baseline: Window, opts: Options): Comparison {
    if recent.n == 0 || baseline.n == 0 then Comparison(None, None, false)
    else
      var k1, n1, k2, n2 := recent.k as real, recent.n as real, baseline.k as real, baseline.n as real;
      var delta := Rate(k1, n1) - Rate(k2, n2);
      var z := Statistic(delta, Variance(Pooled(k1, n1, k2, n2), n1, n2));
      Comparison(Some(delta), z,
        z.Some? && n1 >= opts.minN && n2 >= opts.minN && Reaches(z.value, opts.zThreshold)
          && Abs(delta) >= opts.minDelta)
  }

  /* ---------------------------------------------------------------- the bound */

  /** With `l` the trials without the event: the difference of two rates as counts. */
  function Gap(k1: real, l1: real, k2: real, l2: real): real {
    Times(k1, l2) - Times(k2, l1)
  }

  function Scale(k1: real, l1: real, k2: real, l2: real): real {
    Times(Times(k1 + l1, k2 + l2), Times(k1 + k2, l1 + l2))
  }

  /** (k1 l2 - k2 l1)^2 <= (k1 + l1) (k2 + l2) (k1 + k2) (l1 + l2). */
  lemma GapIsBounded(k1: real, l1: real, k2: real, l2: real)
    requires k1 >= 0.0 && l1 >= 0.0 && k2 >= 0.0 && l2 >= 0.0
    ensures Square(Gap(k1, l1, k2, l2)) <= Scale(k1, l1, k2, l2)
  {
    var a, b := Times(k1, l2), Times(k2, l1);
    Expand(k1, l1, k2, l2);
    Expand(k1, k2, l1, l2);
    TimesComm(l1, k2);
    TimesSign(k1, l2);
    TimesSign(k2, l1);
    TimesSign(k1, k2);
    TimesSign(l1, l2);
    TimesSign(k1, l1);
    TimesSign(k2, l2);
    var u, v := Times(k1 + l1, k2 + l2), Times(k1 + k2, l1 + l2);
    assert a + b <= u && a + b <= v;
    TimesGrows(a + b, u, a + b);
    TimesGrows(a + b, v, u);
    SquareOfDifference(a, b);
    TimesSign(a, b);
  }

  /** The counts that a comparison of nonempty windows works on. */
  predicate Counts(k1: real, n1: real, k2: real, n2: real) {
    0.0 <= k1 <= n1 && 0.0 <= k2 <= n2 && n1 > 0.0 && n2 > 0.0
  }

  lemma RateOver(k: real, n: real, m: real)
    requires n > 0.0
    ensures Times(Rate(k, n), Times(n, m)) == Times(k, m)
  {
    RateTimes(k, n);
    TimesAssoc(Rate(k, n), n, m);
  }

  lemma DeltaCleared(k1: real, n1: real, k2: real, n2: real)
    requires Counts(k1, n1, k2, n2)
    ensures Times(Rate(k1, n1) - Rate(k2, n2), Times(n1, n2)) == Gap(k1, n1 - k1, k2, n2 - k2)
  {
    var r, b, q := Rate(k1, n1), Rate(k2, n2), Times(n1, n2);
    RateOver(k1, n1, n2);
    RateOver(k2, n2, n1);
    TimesComm(n1, n2);
    TimesAdds(r - b, b, q);
    TimesAdds(n2 - k2, k2, k1);
    TimesAdds(n1 - k1, k1, k2);
    TimesComm(k1, k2);
  }

  lemma InversesAdd(n1: real, n2: real)
    requires n1 > 0.0 && n2 > 0.0
    ensures Times(Rate(1.0, n1) + Rate(1.0, n2), Times(n1, n2)) == n1 + n2
  {
    RateOver(1.0, n1, n2);
    RateOver(1.0, n2, n1);
    TimesComm(n1, n2);
    TimesAdds(Rate(1.0, n1), Rate(1.0, n2), Times(n1, n2));
  }

  /** The variance times N n1 n2 is the product of all events and all trials without one. */
  lemma VarianceCleared(k1: real, n1: real, k2: real, n2: real)
    requires Counts(k1, n1, k2, n2)
    ensures Times(Variance(Pooled(k1, n1, k2, n2), n1, n2), Times(n1 + n2, Times(n1, n2)))
      == Times(k1 + k2, n1 - k1 + (n2 - k2))
  {
    var n, p, i := n1 + n2, Pooled(k1, n1, k2, n2), Rate(1.0, n1) + Rate(1.0, n2);
    var pp := Times(p, 1.0 - p);
    InversesAdd(n1, n2);
    TimesComm(n, Times(n1, n2));
    Exchange(pp, i, n, Times(n1, n2));
    assert Times(Times(pp, i), Times(n, Times(n1, n2))) == Times(Times(pp, n), n);
    TimesAssoc(pp, n, n);
    Exchange(p, 1.0 - p, n, n);
    RateTimes(k1 + k2, n);
    TimesAdds(p, 1.0 - p, n);
    Unit(n);
  }

  lemma Sizes(n1: real, n2: real)
    requires n1 > 0.0 && n2 > 0.0
    ensures Times(n1, n2) > 0.0 && Times(n1 + n2, Times(n1, n2)) > 0.0
  {
    TimesPositive(n1, n2);
    TimesPositive(n1 + n2, Times(n1, n2));
  }

  lemma VarianceSign(k1: real, n1: real, k2: real, n2: real)
    requires Counts(k1, n1, k2, n2)
    ensures (Variance(Pooled(k1, n1, k2, n2), n1, n2) > 0.0) <==> (k1 + k2 > 0.0 && k1 + k2 < n1 + n2)
  {
    VarianceCleared(k1, n1, k2, n2);
    Sizes(n1, n2);
    SignOfFactor(Variance(Pooled(k1, n1, k2, n2), n1, n2), Times(n1 + n2, Times(n1, n2)));
    ProductPositive(k1 + k2, n1 - k1 + (n2 - k2));
  }

  /** z^2 K L n1 n2 = (k1 l2 - k2 l1)^2 N. */
  lemma StatisticCleared(k1: real, n1: real, k2: real, n2: real, z: real)
    requires Counts(k1, n1, k2, n2)
    requires Statistic(Rate(k1, n1) - Rate(k2, n2), Variance(Pooled(k1, n1, k2, n2), n1, n2)) == Some(z)
    ensures var l1, l2 := n1 - k1, n2 - k2;
      Times(z, Scale(k1, l1, k2, l2)) == Times(Square(Gap(k1, l1, k2, l2)), n1 + n2)
  {
    var l1, l2, q, n := n1 - k1, n2 - k2, Times(n1, n2), n1 + n2;
    var d, v := Rate(k1, n1) - Rate(k2, n2), Variance(Pooled(k1, n1, k2, n2), n1, n2);
    var kl := Times(k1 + k2, l1 + l2);
    RateTimes(Square(d), v);
    DeltaCleared(k1, n1, k2, n2);
    VarianceCleared(k1, n1, k2, n2);
    assert Times(v, Times(n, q)) == kl;
    Cleared(z, v, d, q, n, kl, Gap(k1, l1, k2, l2));
    TimesComm(q, kl);
  }

  lemma Cleared(z: real, v: real, d: real, q: real, n: real, kl: real, g: real)
    requires Times(z, v) == Square(d) && Times(d, q) == g && Times(v, Times(n, q)) == kl
    ensures Times(z, Times(kl, q)) == Times(Square(g), n)
  {
    TimesAssoc(v, Times(n, q), q);
    TimesAssoc(z, v, Times(Times(n, q), q));
    TimesAssoc(n, q, q);
    TimesComm(n, Times(q, q));
    TimesAssoc(Square(d), Times(q, q), n);
    Exchange(d, d, q, q);
  }

  /** The outcome of a comparison, in terms of the counts alone. */
  lemma OutcomeInCounts(recent: Window, baseline: Window, opts: Options)
    requires recent.Valid() && baseline.Valid() && recent.n > 0 && baseline.n > 0
    ensures var c := Compare(recent, baseline, opts);
      var k1, n1, k2, n2 := recent.k as real, recent.n as real, baseline.k as real, baseline.n as real;
      && c.delta.Some? && Times(c.delta.value, Times(n1, n2)) == Gap(k1, n1 - k1, k2, n2 - k2)
      && (c.zSquared.Some? ==>
            Times(c.zSquared.value, Scale(k1, n1 - k1, k2, n2 - k2))
            == Times(Square(Gap(k1, n1 - k1, k2, n2 - k2)), n1 + n2))
  {
    var k1, n1, k2, n2 := recent.k as real, recent.n as real, baseline.k as real, baseline.n as real;
    DeltaCleared(k1, n1, k2, n2);
    var z := Compare(recent, baseline, opts).zSquared;
    if z.Some? { StatisticCleared(k1, n1, k2, n2, z.value); }
  }

  /** What makes a drift: enough trials, trials with and without the event, |z| and the difference large enough. */
  predicate Drifts(k1: real, l1: real, k2: real, l2: real, opts: Options) {
    && k1 + l1 >= opts.minN && k2 + l2 >= opts.minN
    && k1 + k2 > 0.0 && l1 + l2 > 0.0
    && Significant(k1, l1, k2, l2, opts.zThreshold)
    && Large(k1, l1, k2, l2, opts.minDelta)
  }

  predicate Significant(k1: real, l1: real, k2: real, l2: real, threshold: real) {
    threshold <= 0.0
    || Times(Square(Gap(k1, l1, k2, l2)), k1 + l1 + (k2 + l2)) >= Times(Square(threshold), Scale(k1, l1, k2, l2))
  }

  predicate Large(k1: real, l1: real, k2: real, l2: real, least: real) {
    Abs(Gap(k1, l1, k2, l2)) >= Times(least, Times(k1 + l1, k2 + l2))
  }

  lemma DriftIff(recent: Window, baseline: Window, opts: Options)
    requires recent.Valid() && baseline.Valid()
    ensures Compare(recent, baseline, opts).drift
      <==> recent.n > 0 && baseline.n > 0
           && Drifts(recent.k as real, (recent.n - recent.k) as real,
                     baseline.k as real, (baseline.n - baseline.k) as real, opts)
  {
    if recent.n > 0 && baseline.n > 0 {
      var k1, n1, k2, n2 := recent.k as real, recent.n as real, baseline.k as real, baseline.n as real;
      var c, l1, l2 := Compare(recent, baseline, opts), n1 - k1, n2 - k2;
      NoStatisticIff(recent, baseline, opts);
      OutcomeInCounts(recent, baseline, opts);
      Sizes(n1, n2);
      DeltaReaches(c.delta.value, Times(n1, n2), opts.minDelta);
      if c.zSquared.Some? {
        ScalePositive(k1, l1, k2, l2);
        AtLeastScaled(c.zSquared.value, Square(opts.zThreshold), Scale(k1, l1, k2, l2));
      }
    }
  }

  lemma AtLeastScaled(a: real, b: real, m: real)
    requires m > 0.0
    ensures a >= b <==> Times(a, m) >= Times(b, m)
  {
    SignOfFactor(b - a, m);
    TimesAdds(b - a, a, m);
  }

  lemma DeltaReaches(d: real, m: real, least: real)
    requires m > 0.0
    ensures Abs(d) >= least <==> Abs(Times(d, m)) >= Times(least, m)
  {
    AtLeastScaled(Abs(d), least, m);
    SignOfFactor(d, m);
    SignOfFactor(-d, m);
    TimesAdds(-d, d, m);
    Zero(m);
  }

  function Distance(a: int, b: int): nat {
    if a < b then b - a else a - b
  }

  /**
   * The verdict with the default options on whole numbers of trials with and without the event: 50 trials on each side,
   * |z| at least 3 and a difference of at least 1/50.
   */
  predicate DefaultDrifts(k1: nat, l1: nat, k2: nat, l2: nat) {
    && k1 + l1 >= 50 && k2 + l2 >= 50
    && k1 + k2 > 0 && l1 + l2 > 0
    && DefaultSignificant(k1, l1, k2, l2)
    && DefaultLarge(k1, l1, k2, l2)
  }

  predicate DefaultSignificant(k1: nat, l1: nat, k2: nat, l2: nat) {
    Enough(WholeGap(k1, l1, k2, l2), k1 + l1 + (k2 + l2), WholeScale(k1, l1, k2, l2))
  }

  predicate DefaultLarge(k1: nat, l1: nat, k2: nat, l2: nat) {
    50 * WholeGap(k1, l1, k2, l2) >= (k1 + l1) * (k2 + l2)
  }

  function WholeGap(k1: nat, l1: nat, k2: nat, l2: nat): nat {
    Distance(k1 * l2, k2 * l1)
  }

  function WholeScale(k1: nat, l1: nat, k2: nat, l2: nat): nat {
    (k1 + l1) * (k2 + l2) * ((k1 + k2) * (l1 + l2))
  }

  predicate Enough(gap: nat, trials: nat, scale: nat) {
    gap * gap * trials >= 9 * scale
  }

  lemma DefaultDriftIff(recent: Window, baseline: Window)
    requires recent.Valid() && baseline.Valid()
    ensures Compare(recent, baseline, DEFAULTS).drift
      <==> DefaultDrifts(recent.k, recent.n - recent.k, baseline.k, baseline.n - baseline.k)
  {
    DriftIff(recent, baseline, DEFAULTS);
    SignificantInWholes(recent.k, recent.n - recent.k, baseline.k, baseline.n - baseline.k);
    LargeInWholes(recent.k, recent.n - recent.k, baseline.k, baseline.n - baseline.k);
  }

  lemma SignificantInWholes(k1: nat, l1: nat, k2: nat, l2: nat)
    ensures Significant(k1 as real, l1 as real, k2 as real, l2 as real, 3.0) <==> DefaultSignificant(k1, l1, k2, l2)
  {
    GapInWholes(k1, l1, k2, l2);
    ScaleInWholes(k1, l1, k2, l2);
    var n := k1 as real + l1 as real + (k2 as real + l2 as real);
    StatisticInWholes(Gap(k1 as real, l1 as real, k2 as real, l2 as real),
                      Scale(k1 as real, l1 as real, k2 as real, l2 as real), n,
                      WholeGap(k1, l1, k2, l2), k1 + l1 + (k2 + l2), WholeScale(k1, l1, k2, l2));
  }

  lemma LargeInWholes(k1: nat, l1: nat, k2: nat, l2: nat)
    ensures Large(k1 as real, l1 as real, k2 as real, l2 as real, 0.02) <==> DefaultLarge(k1, l1, k2, l2)
  {
    GapInWholes(k1, l1, k2, l2);
    AsTimes(k1 + l1, k2 + l2);
    DeltaInWholes(Gap(k1 as real, l1 as real, k2 as real, l2 as real), WholeGap(k1, l1, k2, l2),
                  (k1 + l1) * (k2 + l2));
  }

  lemma GapInWholes(k1: nat, l1: nat, k2: nat, l2: nat)
    ensures Abs(Gap(k1 as real, l1 as real, k2 as real, l2 as real)) == WholeGap(k1, l1, k2, l2) as real
  {
    AsTimes(k1, l2);
    AsTimes(k2, l1);
  }

  lemma ScaleInWholes(k1: nat, l1: nat, k2: nat, l2: nat)
    ensures Scale(k1 as real, l1 as real, k2 as real, l2 as real)
      == WholeScale(k1, l1, k2, l2) as real
  {
    AsTimes(k1 + l1, k2 + l2);
    AsTimes(k1 + k2, l1 + l2);
    AsTimes((k1 + l1) * (k2 + l2), (k1 + k2) * (l1 + l2));
  }

  lemma StatisticInWholes(g: real, s: real, n: real, gap: nat, trials: nat, scale: nat)
    requires Abs(g) == gap as real && s == scale as real && n == trials as real
    ensures Times(Square(g), n) >= Times(Square(3.0), s) <==> Enough(gap, trials, scale)
  {
    Negated(g);
    AsTimes(gap, gap);
    AsTimes(gap * gap, trials);
    AsTimes(9, scale);
    Nine();
  }

  lemma DeltaInWholes(g: real, gap: nat, q: nat)
    requires Abs(g) == gap as real
    ensures Abs(g) >= Times(0.02, q as real) <==> 50 * gap >= q
  {
    InReals(q as real);
  }

  lemma Nine()
    ensures Square(3.0) == 9.0
  {
  }

  lemma InReals(q: real)
    ensures Times(0.02, q) == q / 50.0
  {
  }

  /** However the counts are, z^2 is at most the number of all trials. */
  lemma StatisticIsBounded(recent: Window, baseline: Window, opts: Options)
    requires recent.Valid() && baseline.Valid()
    ensures var c := Compare(recent, baseline, opts);
      c.zSquared.Some? ==> 0.0 <= c.zSquared.value <= (recent.n + baseline.n) as real
  {
    var c := Compare(recent, baseline, opts);
    if c.zSquared.Some? {
      var k1, n1, k2, n2 := recent.k as real, recent.n as real, baseline.k as real, baseline.n as real;
      Bounded(k1, n1, k2, n2, c.zSquared.value);
    }
  }

  lemma Bounded(k1: real, n1: real, k2: real, n2: real, z: real)
    requires Counts(k1, n1, k2, n2)
    requires Statistic(Rate(k1, n1) - Rate(k2, n2), Variance(Pooled(k1, n1, k2, n2), n1, n2)) == Some(z)
    ensures 0.0 <= z <= n1 + n2
  {
    var l1, l2, n := n1 - k1, n2 - k2, n1 + n2;
    var s, g := Scale(k1, l1, k2, l2), Square(Gap(k1, l1, k2, l2));
    StatisticCleared(k1, n1, k2, n2, z);
    GapIsBounded(k1, l1, k2, l2);
    VarianceSign(k1, n1, k2, n2);
    ScalePositive(k1, l1, k2, l2);
    TimesGrows(g, s, n);
    TimesComm(s, n);
    SquareSign(Gap(k1, l1, k2, l2));
    TimesSign(g, n);
    if z > n {
      SignOfFactor(z - n, s);
      TimesAdds(z - n, n, s);
    } else if z < 0.0 {
      SignOfFactor(-z, s);
      TimesAdds(-z, z, s);
      Zero(s);
    }
  }

  lemma ScalePositive(k1: real, l1: real, k2: real, l2: real)
    requires k1 + l1 > 0.0 && k2 + l2 > 0.0 && k1 + k2 > 0.0 && l1 + l2 > 0.0
    ensures Scale(k1, l1, k2, l2) > 0.0
  {
    TimesPositive(k1 + l1, k2 + l2);
    TimesPositive(k1 + k2, l1 + l2);
    TimesPositive(Times(k1 + l1, k2 + l2), Times(k1 + k2, l1 + l2));
  }

  /** There is no statistic without data or when no trial, or every trial, had the event; then the rates are equal. */
  lemma NoStatisticIff(recent: Window, baseline: Window, opts: Options)
    requires recent.Valid() && baseline.Valid()
    ensures var c := Compare(recent, baseline, opts);
      && (c.zSquared.None? <==>
            recent.n == 0 || baseline.n == 0 || recent.k + baseline.k == 0
            || recent.k + baseline.k == recent.n + baseline.n)
      && (c.delta.None? <==> recent.n == 0 || baseline.n == 0)
      && (c.zSquared.None? && c.delta.Some? ==> c.delta.value == 0.0)
  {
    if recent.n > 0 && baseline.n > 0 {
      var k1, n1, k2, n2 := recent.k as real, recent.n as real, baseline.k as real, baseline.n as real;
      VarianceSign(k1, n1, k2, n2);
      if recent.k + baseline.k == 0 {
        RateOfNone(n1);
        RateOfNone(n2);
      } else if recent.k + baseline.k == recent.n + baseline.n {
        RateOfAll(n1);
        RateOfAll(n2);
      }
    }
  }

  lemma RateOfNone(n: real)
    requires n > 0.0
    ensures Rate(0.0, n) == 0.0
  {
  }

  lemma RateOfAll(n: real)
    requires n > 0.0
    ensures Rate(n, n) == 1.0
  {
  }

  /* ---------------------------------------------------------------- symmetries */

  function Opposite(d: Option<real>): Option<real> {
    if d.Some? then Some(-d.value) else None
  }

  /** Exchanging the windows turns the difference round and changes neither z^2 nor the verdict. */
  lemma SwapNegates(recent: Window, baseline: Window, opts: Options)
    ensures var c, s := Compare(recent, baseline, opts), Compare(baseline, recent, opts);
      s.delta == Opposite(c.delta) && s.zSquared == c.zSquared && s.drift == c.drift
  {
    if recent.n > 0 && baseline.n > 0 {
      var k1, n1, k2, n2 := recent.k as real, recent.n as real, baseline.k as real, baseline.n as real;
      assert k1 + k2 == k2 + k1 && n1 + n2 == n2 + n1;
      assert Pooled(k1, n1, k2, n2) == Pooled(k2, n2, k1, n1);
      assert Variance(Pooled(k1, n1, k2, n2), n1, n2) == Variance(Pooled(k2, n2, k1, n1), n2, n1);
      Negated(Rate(k1, n1) - Rate(k2, n2));
      assert Rate(k2, n2) - Rate(k1, n1) == -(Rate(k1, n1) - Rate(k2, n2));
    }
  }

  function Complement(w: Window): Window
    requires w.Valid()
  {
    Window(w.n, w.n - w.k)
  }

  lemma RateOfRest(k: real, n: real)
    requires n > 0.0
    ensures Rate(n - k, n) == 1.0 - Rate(k, n)
  {
    RateTimes(k, n);
    TimesAdds(1.0 - Rate(k, n), Rate(k, n), n);
    Unit(n);
    RateUnique(1.0 - Rate(k, n), n - k, n);
  }

  /** Counting the trials without the event turns the difference round and changes neither z^2 nor the verdict. */
  lemma ComplementNegates(recent: Window, baseline: Window, opts: Options)
    requires recent.Valid() && baseline.Valid()
    ensures var c, s := Compare(recent, baseline, opts), Compare(Complement(recent), Complement(baseline), opts);
      s.delta == Opposite(c.delta) && s.zSquared == c.zSquared && s.drift == c.drift
  {
    if recent.n > 0 && baseline.n > 0 {
      var k1, n1, k2, n2 := recent.k as real, recent.n as real, baseline.k as real, baseline.n as real;
      RateOfRest(k1, n1);
      RateOfRest(k2, n2);
      RateOfRest(k1 + k2, n1 + n2);
      assert (n1 - k1) + (n2 - k2) == n1 + n2 - (k1 + k2);
      var p := Pooled(k1, n1, k2, n2);
      assert Pooled(n1 - k1, n1, n2 - k2, n2) == 1.0 - p;
      assert 1.0 - (1.0 - p) == p;
      TimesComm(p, 1.0 - p);
      assert Variance(1.0 - p, n1, n2) == Variance(p, n1, n2);
      var d := Rate(k1, n1) - Rate(k2, n2);
      assert Rate(n1 - k1, n1) - Rate(n2 - k2, n2) == -d;
      Negated(d);
    }
  }

  /* ---------------------------------------------------------------- more of the same data */

  function Multiple(w: Window, m: nat): Window {
    Window(m * w.n, m * w.k)
  }

  lemma RateOfMultiple(k: real, n: real, m: real)
    requires n > 0.0 && m > 0.0
    ensures Times(m, n) > 0.0 && Rate(Times(m, k), Times(m, n)) == Rate(k, n)
  {
    TimesPositive(m, n);
    RateTimes(k, n);
    TimesComm(Rate(k, n), n);
    TimesAssoc(m, n, Rate(k, n));
    TimesComm(Times(m, n), Rate(k, n));
    RateUnique(Rate(k, n), Times(m, k), Times(m, n));
  }

  lemma InverseOfMultiple(n: real, m: real)
    requires n > 0.0 && m > 0.0
    ensures Times(m, n) > 0.0 && Times(Rate(1.0, Times(m, n)), m) == Rate(1.0, n)
  {
    TimesPositive(m, n);
    RateTimes(1.0, Times(m, n));
    TimesAssoc(Rate(1.0, Times(m, n)), m, n);
    RateUnique(Times(Rate(1.0, Times(m, n)), m), 1.0, n);
  }

  lemma VarianceOfMultiple(p: real, n1: real, n2: real, m: real)
    requires n1 > 0.0 && n2 > 0.0 && m > 0.0
    ensures Times(m, n1) > 0.0 && Times(m, n2) > 0.0
    ensures Times(Variance(p, Times(m, n1), Times(m, n2)), m) == Variance(p, n1, n2)
  {
    InverseOfMultiple(n1, m);
    InverseOfMultiple(n2, m);
    var i1, i2 := Rate(1.0, Times(m, n1)), Rate(1.0, Times(m, n2));
    TimesAdds(i1, i2, m);
    TimesAssoc(Times(p, 1.0 - p), i1 + i2, m);
  }

  lemma StatisticOfMultiple(d: real, v: real, w: real, m: real)
    requires m > 0.0 && Times(w, m) == v
    ensures (w > 0.0) <==> (v > 0.0)
    ensures v > 0.0 ==> Rate(Square(d), w) == Times(m, Rate(Square(d), v))
  {
    SignOfFactor(w, m);
    if v > 0.0 {
      var z := Rate(Square(d), v);
      RateTimes(Square(d), v);
      TimesComm(w, m);
      TimesAssoc(z, m, w);
      TimesComm(z, m);
      RateUnique(Times(m, z), Square(d), w);
    }
  }

  lemma AsTimes(a: nat, b: nat)
    ensures (a * b) as real == Times(a as real, b as real)
  {
  }

  /** The same rates on `m` times as many trials: z^2 is `m` times as large, and a drift stays one. */
  lemma MoreOfTheSame(recent: Window, baseline: Window, opts: Options, m: nat)
    requires m > 0
    ensures var c, s := Compare(recent, baseline, opts), Compare(Multiple(recent, m), Multiple(baseline, m), opts);
      && s.delta == c.delta
      && s.zSquared == (if c.zSquared.Some? then Some(Times(m as real, c.zSquared.value)) else None)
      && (c.drift ==> s.drift)
  {
    if recent.n > 0 && baseline.n > 0 {
      var k1, n1, k2, n2 := recent.k as real, recent.n as real, baseline.k as real, baseline.n as real;
      var f := m as real;
      AsTimes(m, recent.n);
      AsTimes(m, recent.k);
      AsTimes(m, baseline.n);
      AsTimes(m, baseline.k);
      RateOfMultiple(k1, n1, f);
      RateOfMultiple(k2, n2, f);
      TimesAdds(k1, k2, f);
      TimesAdds(n1, n2, f);
      RateOfMultiple(k1 + k2, n1 + n2, f);
      var p := Pooled(k1, n1, k2, n2);
      assert Pooled(Times(f, k1), Times(f, n1), Times(f, k2), Times(f, n2)) == p;
      VarianceOfMultiple(p, n1, n2, f);
      StatisticOfMultiple(Rate(k1, n1) - Rate(k2, n2), Variance(p, n1, n2),
                          Variance(p, Times(f, n1), Times(f, n2)), f);
      MultipleIsMore(n1, f);
      MultipleIsMore(n2, f);
      var c := Compare(recent, baseline, opts);
      if c.zSquared.Some? { MultipleIsMore(c.zSquared.value, f); }
    }
  }

  lemma MultipleIsMore(a: real, f: real)
    requires f >= 1.0
    ensures a >= 0.0 ==> Times(f, a) >= a
  {
    if a >= 0.0 {
      TimesGrows(1.0, f, a);
      Unit(a);
    }
  }
}
