/** Properties of a single reserve. */
module ReserveProperties {
  import opened Arithmetic
  import opened Numeric
  import opened ReserveModel

  // ---- Interest -------------------------------------------------------------------------------

  lemma FloorsCross(rate: nat, a: nat, b: nat, scale: int)
    requires 0 < scale
    ensures a * (rate * b / scale) <= b * (rate * a / scale) + b
  {
    Floor(rate * a, scale);
    Floor(rate * b, scale);
    RatioTransitive(rate * b / scale, b, rate, scale, rate * a / scale + 1, a);
  }

  /** Debt and index grow by the same rate with separate floors; neither outgrows the other by more than a unit. */
  lemma GrowthBalance(rate: nat, debt: nat, index: nat, scale: int)
    requires 0 < scale
    ensures debt * (index + rate * index / scale) <= index * (debt + rate * debt / scale) + index
    ensures (debt + rate * debt / scale) * index <= debt * (index + rate * index / scale + 1)
  {
    FloorsCross(rate, debt, index, scale);
    FloorsCross(rate, index, debt, scale);
  }

  /** What an accrual from `r` to `s` may do, without saying at what rate. */
  predicate Accrued(r: ReserveData, s: ReserveData) {
    && s == r.(borrowed := s.borrowed, fees := s.fees, index := s.index, lastUpdateSlot := s.lastUpdateSlot)
    && r.borrowed <= s.borrowed && r.fees <= s.fees && r.index <= s.index
    && (r.index == s.index ==> r.borrowed == s.borrowed)
    && (s.fees - r.fees) * BPS_SCALER <= (s.borrowed - r.borrowed) * r.config.protocolFee
    && r.borrowed * s.index <= r.index * s.borrowed + r.index
    && s.borrowed * r.index <= r.borrowed * (s.index + 1)
  }

  lemma AccruedInterestEffect(r: ReserveData, bps: u64, slots: u64, feeBps: u64)
    requires r.AccruedInterest(bps, slots, feeBps).Ok?
    requires RATE_SCALE <= r.index && feeBps == r.config.protocolFee
    ensures Accrued(r, r.AccruedInterest(bps, slots, feeBps).value)
    ensures r.index < r.AccruedInterest(bps, slots, feeBps).value.index
  {
    var s := r.AccruedInterest(bps, slots, feeBps).value;
    var rate := PeriodRate(bps, slots).value;
    PositiveRate(bps, slots);
    GrowthBalance(rate, r.borrowed, r.index, RATE_SCALE);
    Mono(1, rate, r.index);
    Greatest(1, rate * r.index, RATE_SCALE);
    var debt := rate * r.borrowed / RATE_SCALE;
    Floor(rate * r.borrowed, RATE_SCALE);
    Floor(debt * feeBps, BPS_SCALER);
    assert s.index == r.index + rate * r.index / RATE_SCALE;
    assert s.borrowed == r.borrowed + debt;
    assert s.fees == r.fees + debt * feeBps / BPS_SCALER;
  }

  /** The period rate of a positive rate over elapsed slots is never rounded to zero. */
  lemma PositiveRate(bps: u64, slots: u64)
    requires 0 < bps && 0 < slots && PeriodRate(bps, slots).Ok?
    ensures 1 <= PeriodRate(bps, slots).value
  {
    Mono(1, bps, slots);
    var n := bps * slots * RATE_SCALE;
    Mono(1, bps * slots, RATE_SCALE);
    Greatest(BPS_SCALER, n, SLOTS_PER_YEAR);
    Greatest(1, n / SLOTS_PER_YEAR, BPS_SCALER);
  }

  lemma AccrueEffect(r: ReserveData, slot: u64)
    requires ReserveInv(r) && r.Accrue(slot).Ok?
    ensures Accrued(r, r.Accrue(slot).value) && ReserveInv(r.Accrue(slot).value)
    ensures r.Accrue(slot).value.lastUpdateSlot == if slot <= r.lastUpdateSlot then r.lastUpdateSlot else slot
  {
    hide DebtBounded, ReserveData.CurrentBorrowRate, ReserveData.AccruedInterest;
    var s := r.Accrue(slot).value;
    if r.lastUpdateSlot < slot {
      var bps := r.CurrentBorrowRate().value;
      if bps > 0 {
        var charged := r.AccruedInterest(bps, slot - r.lastUpdateSlot, r.config.protocolFee).value;
        AccruedInterestEffect(r, bps, slot - r.lastUpdateSlot, r.config.protocolFee);
      }
    }
    AccruedKeepsSupply(r, s);
    AccrueKeepsBound(r, slot);
  }

  /** A positive charge is at least one part in RATE_SCALE of the debt, and at most CHARGE_CEILING. */
  lemma ChargeBounds(r: ReserveData, bps: u64, slots: u64, feeBps: u64)
    requires r.AccruedInterest(bps, slots, feeBps).Ok?
    ensures var charge := r.AccruedInterest(bps, slots, feeBps).value.borrowed - r.borrowed;
      r.borrowed / RATE_SCALE <= charge <= CHARGE_CEILING
  {
    var rate := PeriodRate(bps, slots).value;
    PositiveRate(bps, slots);
    Mono(1, rate, r.borrowed);
    DivMono(r.borrowed, rate * r.borrowed, RATE_SCALE);
    DivMono(rate * r.borrowed, U128_MAX, RATE_SCALE);
  }

  /** Utilization is computed, and so is bounded, whenever there is a claim on the pool. */
  lemma AccruesBelowCeiling(r: ReserveData)
    requires ReserveInv(r) && r.CurrentBorrowRate().Ok?
    ensures 0 < r.Supply() ==> r.borrowed <= DEBT_CEILING
    ensures r.Supply() == 0 ==> r.borrowed <= DEBT_CEILING + CHARGE_CEILING && r.ctokens == 0
  {
  }

  lemma AccrueKeepsBound(r: ReserveData, slot: u64)
    requires ReserveInv(r) && r.Accrue(slot).Ok? && Accrued(r, r.Accrue(slot).value)
    ensures DebtBounded(r.Accrue(slot).value)
  {
    hide ReserveData.AccruedInterest, ReserveData.CurrentBorrowRate;
    var s := r.Accrue(slot).value;
    if r.lastUpdateSlot < slot && r.CurrentBorrowRate().value > 0 {
      AccruesBelowCeiling(r);
      ChargeBounds(r, r.CurrentBorrowRate().value, slot - r.lastUpdateSlot, r.config.protocolFee);
      if DEBT_CEILING + CHARGE_CEILING < s.borrowed {
        Mono(r.config.protocolFee, MAX_PROTOCOL_FEE_BPS, s.borrowed - r.borrowed);
      }
    }
  }

  /** A second accrual in the same slot changes nothing. */
  lemma AccrueTwice(r: ReserveData, slot: u64)
    requires r.Accrue(slot).Ok?
    ensures r.Accrue(slot).value.Accrue(slot) == r.Accrue(slot)
  {
  }

  lemma AccruedKeepsSupply(r: ReserveData, s: ReserveData)
    requires ReserveInv(r) && Accrued(r, s)
    ensures s.ctokens <= r.Supply() <= s.Supply()
  {
    Mono(r.config.protocolFee, BPS_SCALER, s.borrowed - r.borrowed);
  }

  const YEAR_BPS: int := SLOTS_PER_YEAR * BPS_SCALER

  /** `growth` is `amount` times `bps` basis points a year for `slots` slots, short by less than one unit and one
   *  part in RATE_SCALE.
   */
  predicate ProRata(growth: int, amount: nat, bps: nat, slots: nat) {
    && growth * YEAR_BPS <= bps * slots * amount
    && bps * slots * amount * RATE_SCALE < ((growth + 1) * RATE_SCALE + amount) * YEAR_BPS
  }

  lemma GrowthIsProRata(bps: nat, slots: nat, amount: nat, rate: nat)
    requires rate == bps * slots * RATE_SCALE / SLOTS_PER_YEAR / BPS_SCALER
    ensures ProRata(rate * amount / RATE_SCALE, amount, bps, slots)
  {
    var base, growth := bps * slots, rate * amount / RATE_SCALE;
    Mono(0, slots, bps);
    var scaled := base * RATE_SCALE;
    Floor(scaled, SLOTS_PER_YEAR);
    Floor(scaled / SLOTS_PER_YEAR, BPS_SCALER);
    Mono(0, rate, amount);
    Floor(rate * amount, RATE_SCALE);
    Mono(rate * YEAR_BPS, base * RATE_SCALE, amount);
    Mono(base * RATE_SCALE, (rate + 1) * YEAR_BPS, amount);
    ProRataProducts(rate, amount, base);
  }

  lemma ProRataProducts(rate: int, amount: int, base: int)
    ensures (rate * YEAR_BPS) * amount == (rate * amount) * YEAR_BPS
    ensures ((rate + 1) * YEAR_BPS) * amount == (rate * amount + amount) * YEAR_BPS
    ensures (base * RATE_SCALE) * amount == (base * amount) * RATE_SCALE
  {
  }

  /** An accrual charges the current rate for exactly the elapsed time on the debt and on the index, and sets aside
   *  the configured part of the interest, each rounded down.
   */
  lemma AccrualIsProRata(r: ReserveData, slot: u64)
    requires r.lastUpdateSlot < slot && r.Accrue(slot).Ok?
    ensures r.CurrentBorrowRate().Ok?
    ensures var s, bps, slots := r.Accrue(slot).value, r.CurrentBorrowRate().value, slot - r.lastUpdateSlot;
      var interest, fee := s.borrowed - r.borrowed, s.fees - r.fees;
      && ProRata(interest, r.borrowed, bps, slots)
      && ProRata(s.index - r.index, r.index, bps, slots)
      && fee * BPS_SCALER <= interest * r.config.protocolFee < (fee + 1) * BPS_SCALER
  {
    hide ReserveData.CurrentBorrowRate, ProRata;
    var bps, slots := r.CurrentBorrowRate().value, slot - r.lastUpdateSlot;
    if bps > 0 {
      var rate := PeriodRate(bps, slots).value;
      GrowthIsProRata(bps, slots, r.borrowed, rate);
      GrowthIsProRata(bps, slots, r.index, rate);
      Floor(rate * r.borrowed / RATE_SCALE * r.config.protocolFee, BPS_SCALER);
    } else {
      NoRate(r.borrowed, slots);
      NoRate(r.index, slots);
    }
  }

  lemma NoRate(amount: nat, slots: nat)
    ensures ProRata(0, amount, 0, slots)
  {
  }

  // ---- Pool operations ------------------------------------------------------------------------

  /** The tokens behind each cToken have not become fewer from `r` to `s`. */
  predicate RateKept(r: ReserveData, s: ReserveData) {
    RatioLe(r.Supply(), r.ctokens, s.Supply(), s.ctokens)
  }

  /** The total supply never fails, and the 1:1 rate of an empty pool is used exactly while no cToken is out. */
  lemma ExchangeRateUsed(r: ReserveData)
    requires ReserveInv(r)
    ensures r.TotalSupply() == Ok(r.Supply())
    ensures r.CollateralExchangeRate() == if 0 < r.ctokens then ExchangeRate(r.ctokens, r.Supply())
      else ExchangeRate(1, 1)
  {
  }

  /** A redemption never pays more than the pro-rata share. */
  lemma RedeemPays(r: ReserveData, amount: u64)
    requires ReserveInv(r) && r.RedeemCollateral(amount).Ok?
    ensures RatioLe(r.RedeemCollateral(amount).value.1, amount, r.Supply(), r.ctokens)
  {
    var rate := r.CollateralExchangeRate();
    var liquidity := r.RedeemCollateral(amount).value.1;
    ExchangeRateUsed(r);
    Share(amount, rate.totalLiquidity, rate.collateralSupply);
    if rate == ExchangeRate(1, 1) {
      Mono(r.ctokens, r.Supply(), amount);
    }
    Mono(liquidity, amount * rate.totalLiquidity / rate.collateralSupply, r.ctokens);
  }

  lemma RedeemEffect(r: ReserveData, amount: u64)
    requires ReserveInv(r) && r.RedeemCollateral(amount).Ok?
    ensures var s := r.RedeemCollateral(amount).value.0;
      var liquidity := r.RedeemCollateral(amount).value.1;
      && s == r.(available := r.available - liquidity, ctokens := r.ctokens - amount)
      && ReserveInv(s) && RateKept(r, s)
  {
    RedeemPays(r, amount);
    Redemption(r.Supply(), r.ctokens, r.RedeemCollateral(amount).value.1, amount);
  }

  /** At a rate of at least one token per cToken nothing is lost to the cast. */
  lemma MintedShare(rate: ExchangeRate, amount: u64)
    requires rate.collateralSupply <= rate.totalLiquidity && 0 < rate.totalLiquidity
    requires rate.LiquidityToCollateral(amount).Ok?
    ensures var minted := rate.LiquidityToCollateral(amount).value;
      && minted == amount * rate.collateralSupply / rate.totalLiquidity && minted <= amount
      && RatioLe(minted, amount, rate.collateralSupply, rate.totalLiquidity)
      && rate.collateralSupply * amount < (minted + 1) * rate.totalLiquidity
  {
    Share(amount, rate.collateralSupply, rate.totalLiquidity);
  }

  /** A deposit never mints more than the pro-rata number of cTokens, nor more than one per token. */
  lemma DepositMints(r: ReserveData, amount: u64)
    requires ReserveInv(r) && r.DepositLiquidity(amount).Ok?
    ensures var minted := r.DepositLiquidity(amount).value.1;
      && minted <= amount
      && (r.ctokens == 0 ==> minted == amount)
      && (r.ctokens > 0 ==>
            RatioLe(minted, amount, r.ctokens, r.Supply()) && r.ctokens * amount < (minted + 1) * r.Supply())
  {
    hide ReserveData.CollateralExchangeRate, ReserveData.TotalSupply, ExchangeRate.LiquidityToCollateral;
    ExchangeRateUsed(r);
    MintedShare(r.CollateralExchangeRate(), amount);
  }

  lemma DepositEffect(r: ReserveData, amount: u64)
    requires ReserveInv(r) && r.DepositLiquidity(amount).Ok?
    ensures var s := r.DepositLiquidity(amount).value.0;
      var minted := r.DepositLiquidity(amount).value.1;
      && s == r.(available := r.available + amount, ctokens := r.ctokens + minted)
      && ReserveInv(s) && (r.ctokens > 0 ==> RateKept(r, s))
  {
    DepositMints(r, amount);
    if r.ctokens > 0 {
      Dilution(r.Supply(), r.ctokens, amount, r.DepositLiquidity(amount).value.1);
    }
  }
}
