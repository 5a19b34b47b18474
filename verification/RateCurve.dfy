/** The kinked borrow-rate curve and the range it stays in. */
module RateCurve {
  import opened Arithmetic
  import opened Numeric
  import opened ReserveModel

  lemma SlopeMonotone(run: nat, further: nat, rise: int, width: int)
    requires run <= further
    ensures 0 <= Slope(run, rise, width) <= Slope(further, rise, width)
  {
    if 0 < rise && 0 < width {
      Mono(run, further, rise);
      DivMono(run * rise, further * rise, width);
    }
  }

  /** Along its own width a slope climbs no more than its rise. */
  lemma SlopeWithinRise(run: nat, rise: nat, width: nat)
    requires run <= width
    ensures Slope(run, rise, width) <= rise
  {
    if 0 < rise && 0 < width {
      Mono(run, width, rise);
      Floor(run * rise, width);
      Cancel(run * rise / width, rise, width);
    }
  }

  lemma CurveMonotone(c: ReserveConfig, u: u16, v: u16)
    requires c.Validated() && u <= v
    ensures c.Curve(u) <= c.Curve(v)
  {
    var low, high := c.optimalBorrowRate - c.minBorrowRate, c.maxBorrowRate - c.optimalBorrowRate;
    var kink := c.optimalUtilization;
    if v <= kink {
      SlopeMonotone(u, v, low, kink);
    } else if u <= kink {
      SlopeWithinRise(u, low, kink);
      SlopeMonotone(0, v - kink, high, BPS_SCALER - kink);
    } else {
      SlopeMonotone(u - kink, v - kink, high, BPS_SCALER - kink);
    }
  }

  lemma CurveInRange(c: ReserveConfig, u: u16)
    requires c.Validated() && u <= MAX_UTILIZATION_BPS
    ensures c.minBorrowRate <= c.Curve(u) <= c.maxBorrowRate && c.BorrowRate(u) == c.Curve(u)
  {
    var kink := c.optimalUtilization;
    if u <= kink {
      SlopeWithinRise(u, c.optimalBorrowRate - c.minBorrowRate, kink);
    } else {
      SlopeWithinRise(u - kink, c.maxBorrowRate - c.optimalBorrowRate, BPS_SCALER - kink);
    }
  }

  /** Above its first point a slope is the straight line through its two ends, rounded down. */
  lemma SlopeIsLine(run: nat, rise: nat, width: nat)
    requires 0 < width
    ensures Slope(run, rise, width) * width <= run * rise < (Slope(run, rise, width) + 1) * width
    ensures Slope(0, rise, width) == 0 && Slope(width, rise, width) == rise
  {
    if 0 < rise {
      Mono(0, rise, run);
      Floor(run * rise, width);
      WholeShare(width, rise);
    }
  }

  /** The curve runs straight from the minimum at no utilization to the optimal rate at the kink, and from there
   *  straight to the maximum at full utilization and on beyond it, rounded down to whole basis points; a kink at full
   *  utilization is followed by nothing.
   */
  lemma CurveIsKinked(c: ReserveConfig, u: u16)
    requires c.Validated()
    ensures c.Curve(0) == c.minBorrowRate
    ensures 0 < c.optimalUtilization ==> c.Curve(c.optimalUtilization) == c.optimalBorrowRate
    ensures c.optimalUtilization < 10_000 ==> c.Curve(10_000) == c.maxBorrowRate
    ensures c.optimalUtilization == 10_000 < u ==> c.Curve(u) == c.optimalBorrowRate
    ensures var kink, climb := c.optimalUtilization, c.Curve(u) - c.minBorrowRate;
      0 < kink && u <= kink ==>
        climb * kink <= u * (c.optimalBorrowRate - c.minBorrowRate) < (climb + 1) * kink
    ensures var kink, climb := c.optimalUtilization, c.Curve(u) - c.optimalBorrowRate;
      kink < 10_000 && kink < u ==>
        climb * (10_000 - kink) <= (u - kink) * (c.maxBorrowRate - c.optimalBorrowRate) < (climb + 1) * (10_000 - kink)
  {
    hide Slope;
    var kink, low, high := c.optimalUtilization, c.optimalBorrowRate - c.minBorrowRate,
      c.maxBorrowRate - c.optimalBorrowRate;
    if 0 < kink {
      SlopeIsLine(u, low, kink);
    } else {
      NoSlope(0, low);
    }
    if kink < 10_000 {
      SlopeIsLine(if kink < u then u - kink else 0, high, 10_000 - kink);
    } else if kink < u {
      NoSlope(u - kink, high);
    }
  }

  lemma NoSlope(run: nat, rise: int)
    ensures Slope(run, rise, 0) == 0
  {
  }

  /** A validated curve whose kink is one basis point below full utilization. */
  const STEEP := ReserveConfig(0, 0, 0, 0, 1, 9_999, 0, 0, 0, 0, 1, 0)

  lemma SteepLeavesRange(u: u16)
    requires MAX_UTILIZATION_BPS < u
    ensures STEEP.Validated() && STEEP.maxBorrowRate < STEEP.BorrowRate(u)
  {
    assert STEEP.Curve(u) == u - 9_999;
  }

  ghost predicate AllCurvesInRangeAt(u: u16) {
    forall c: ReserveConfig :: c.Validated() ==> c.minBorrowRate <= c.BorrowRate(u) <= c.maxBorrowRate
  }

  /** Up to full utilization, and only up to there, validation alone keeps the rate between its bounds. */
  lemma RangeIff(u: u16)
    ensures AllCurvesInRangeAt(u) <==> u <= MAX_UTILIZATION_BPS
  {
    if u <= MAX_UTILIZATION_BPS {
      forall c: ReserveConfig | c.Validated() ensures c.minBorrowRate <= c.BorrowRate(u) <= c.maxBorrowRate {
        CurveInRange(c, u);
      }
    } else {
      SteepLeavesRange(u);
    }
  }

  lemma UtilizationIs(r: ReserveData)
    requires ReserveInv(r) && r.UtilizationRate().Ok?
    ensures r.UtilizationRate().value == if r.Supply() == 0 then 0 else r.borrowed * PERCENT_SCALER / r.Supply()
  {
  }

  lemma AtMostIff(n: nat, d: int, k: nat)
    requires 0 < d
    ensures n * PERCENT_SCALER / d <= k <==> 100 * n < (k + 1) * d
  {
    var u := n * PERCENT_SCALER / d;
    Floor(n * PERCENT_SCALER, d);
    if u <= k {
      Mono(u + 1, k + 1, d);
    } else {
      Mono(k + 1, u, d);
    }
  }

  /** The utilization a reserve reports is at most full exactly while its debt is below 101% of the
   *  depositors' claim. */
  lemma UtilizationFullIff(r: ReserveData)
    requires ReserveInv(r) && r.UtilizationRate().Ok?
    ensures r.UtilizationRate().value <= 100 <==> r.Supply() == 0 || 100 * r.borrowed < 101 * r.Supply()
    ensures r.fees <= r.available ==> r.UtilizationRate().value <= 100
  {
    hide ReserveData.UtilizationRate;
    UtilizationIs(r);
    if 0 < r.Supply() {
      AtMostIff(r.borrowed, r.Supply(), 100);
    }
  }

  // ---- The rate that is charged ---------------------------------------------------------------

  /** The utilization in basis points that the curve is read at: cast to 16 bits. */
  function ReadUtilization(r: ReserveData): u16
    requires r.UtilizationRate().Ok?
  {
    r.UtilizationRate().value * 100 % U16_MODULUS
  }

  /** The cast keeps the utilization exactly below 656%: exactly while debt is below 656% of the depositors' claim. */
  lemma ReadIsTrueIff(r: ReserveData)
    requires ReserveInv(r) && r.UtilizationRate().Ok?
    ensures ReadUtilization(r) == 100 * r.UtilizationRate().value
      <==> r.Supply() == 0 || 100 * r.borrowed < 656 * r.Supply()
  {
    hide ReserveData.UtilizationRate;
    UtilizationIs(r);
    if 0 < r.Supply() {
      AtMostIff(r.borrowed, r.Supply(), 655);
    }
  }

  lemma ChargedIs(r: ReserveData, c: ReserveConfig)
    requires r.CurrentBorrowRate().Ok?
    ensures r.UtilizationRate().Ok? && r.(config := c).CurrentBorrowRate() == Ok(c.BorrowRate(ReadUtilization(r)))
  {
    hide ReserveConfig.BorrowRate;
    assert r.(config := c).UtilizationRate() == r.UtilizationRate();
  }

  /** What the reserve would charge under another configuration. */
  function Charged(r: ReserveData, c: ReserveConfig): u16
    requires r.CurrentBorrowRate().Ok?
  {
    ChargedIs(r, c);
    r.(config := c).CurrentBorrowRate().value
  }

  /** Whatever the configuration, the charged rate is between its bounds if and only if the utilization, reduced to 16
   *  bits, is at most full.
   */
  lemma ChargedRateInRangeIff(r: ReserveData)
    requires r.CurrentBorrowRate().Ok?
    ensures r.UtilizationRate().Ok?
    ensures (forall c: ReserveConfig :: c.Validated() ==> c.minBorrowRate <= Charged(r, c) <= c.maxBorrowRate)
       <==> 100 * r.UtilizationRate().value % U16_MODULUS <= MAX_UTILIZATION_BPS
  {
    hide ReserveConfig.BorrowRate, ReserveData.CurrentBorrowRate, ReserveData.UtilizationRate;
    ChargedIs(r, r.config);
    var u := ReadUtilization(r);
    forall c: ReserveConfig ensures Charged(r, c) == c.BorrowRate(u) {
      ChargedIs(r, c);
    }
    RangeIff(u);
    assert AllCurvesInRangeAt(u)
      <==> forall c: ReserveConfig :: c.Validated() ==> c.minBorrowRate <= Charged(r, c) <= c.maxBorrowRate;
  }

  /** A validated curve that charges the utilization itself. */
  const IDENTITY := ReserveConfig(0, 0, 0, 5_000, 10_000, 5_000, 0, 0, 0, 0, 1, 0)

  lemma IdentityCharges(u: u16)
    ensures IDENTITY.Validated() && IDENTITY.BorrowRate(u) == u
  {
    assert IDENTITY.Curve(u) == u;
  }

  /** A validated curve with its kink one basis point below full utilization that wraps between `a` and anything
   *  larger that is more than full.
   */
  function Wrapping(a: u16): ReserveConfig {
    var x: u16 := if a <= MAX_UTILIZATION_BPS then 65_534 else 75_534 - a;
    ReserveConfig(0, 0, x, x, x + 1, 9_999, 0, 0, 0, 0, 1, 0)
  }

  lemma WrappingFalls(a: u16, b: u16)
    requires a < b && MAX_UTILIZATION_BPS < b
    ensures Wrapping(a).Validated() && Wrapping(a).BorrowRate(b) < Wrapping(a).BorrowRate(a)
  {
    var c := Wrapping(a);
    assert c.Curve(b) == c.minBorrowRate + (b - 9_999);
    assert 9_999 < a ==> c.Curve(a) == c.minBorrowRate + (a - 9_999);
    assert a <= 9_999 ==> c.Curve(a) == c.minBorrowRate;
  }

  ghost predicate NoCurveFalls(a: u16, b: u16) {
    forall c: ReserveConfig :: c.Validated() ==> c.BorrowRate(a) <= c.BorrowRate(b)
  }

  lemma NoCurveFallsIff(a: u16, b: u16)
    ensures NoCurveFalls(a, b) <==> a == b || a < b <= MAX_UTILIZATION_BPS
  {
    hide ReserveConfig.BorrowRate;
    if a < b <= MAX_UTILIZATION_BPS {
      forall c: ReserveConfig | c.Validated() ensures c.BorrowRate(a) <= c.BorrowRate(b) {
        CurveMonotone(c, a, b);
        CurveInRange(c, a);
        CurveInRange(c, b);
      }
    } else if a > b {
      IdentityCharges(a);
      IdentityCharges(b);
    } else if a < b {
      WrappingFalls(a, b);
    }
  }

  /** Whatever the configuration, `q` is charged at least as much as `r` if and only if both are read at the same
   *  utilization, or `q` at a higher one that is at most full. So more debt on an equal claim lowers the charged rate
   *  for some configuration as soon as the larger utilization is read as the smaller or is read beyond full. */
  lemma ChargedRateMonotoneIff(r: ReserveData, q: ReserveData)
    requires r.CurrentBorrowRate().Ok? && q.CurrentBorrowRate().Ok?
    ensures r.UtilizationRate().Ok? && q.UtilizationRate().Ok?
    ensures (forall c: ReserveConfig :: c.Validated() ==> Charged(r, c) <= Charged(q, c))
       <==> ReadUtilization(r) == ReadUtilization(q) || ReadUtilization(r) < ReadUtilization(q) <= MAX_UTILIZATION_BPS
  {
    hide ReserveConfig.BorrowRate, ReserveData.CurrentBorrowRate, ReserveData.UtilizationRate;
    ChargedIs(r, r.config);
    ChargedIs(q, q.config);
    var a, b := ReadUtilization(r), ReadUtilization(q);
    forall c: ReserveConfig ensures Charged(r, c) == c.BorrowRate(a) && Charged(q, c) == c.BorrowRate(b) {
      ChargedIs(r, c);
      ChargedIs(q, c);
    }
    NoCurveFallsIff(a, b);
    assert NoCurveFalls(a, b) <==> forall c: ReserveConfig :: c.Validated() ==> Charged(r, c) <= Charged(q, c);
  }

  /** As long as the protocol's fees are covered by idle liquidity the charged rate is between its bounds, and
   *  is the curve's value at the reported utilization.
   */
  lemma ChargedRateInRange(r: ReserveData)
    requires ReserveInv(r) && r.fees <= r.available && r.CurrentBorrowRate().Ok?
    ensures r.config.minBorrowRate <= r.CurrentBorrowRate().value <= r.config.maxBorrowRate
    ensures 100 * r.UtilizationRate().value <= MAX_UTILIZATION_BPS
    ensures r.CurrentBorrowRate().value == r.config.Curve(100 * r.UtilizationRate().value)
  {
    hide ReserveConfig.Curve, ReserveData.UtilizationRate, ReserveConfig.BorrowRate;
    UtilizationFullIff(r);
    CurveInRange(r.config, 100 * r.UtilizationRate().value);
  }

  /** With equal claims on the pool, more debt never means a lower charged rate. */
  lemma ChargedRateMonotone(r: ReserveData, q: ReserveData)
    requires ReserveInv(r) && ReserveInv(q) && r.config == q.config
    requires r.Supply() == q.Supply() && r.borrowed <= q.borrowed
    requires r.fees <= r.available && q.fees <= q.available
    requires r.CurrentBorrowRate().Ok? && q.CurrentBorrowRate().Ok?
    ensures r.CurrentBorrowRate().value <= q.CurrentBorrowRate().value
  {
    hide ReserveData.UtilizationRate, ReserveConfig.Curve, ReserveConfig.BorrowRate;
    ChargedRateInRange(r);
    ChargedRateInRange(q);
    UtilizationIs(r);
    UtilizationIs(q);
    if 0 < r.Supply() {
      DivMono(r.borrowed * PERCENT_SCALER, q.borrowed * PERCENT_SCALER, r.Supply());
    }
    CurveMonotone(r.config, 100 * r.UtilizationRate().value, 100 * q.UtilizationRate().value);
  }
}
