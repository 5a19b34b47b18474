/** When interest can be booked at all. */
module Accruals {
  import opened Arithmetic
  import opened Numeric
  import opened ReserveModel

  /** Utilization in whole percent, without machine widths. */
  function Percent(r: ReserveData): nat
    requires ReserveInv(r)
  {
    if r.Supply() == 0 then 0
    else
      Floor(r.borrowed * PERCENT_SCALER, r.Supply());
      r.borrowed * PERCENT_SCALER / r.Supply()
  }

  /** Interest per unit over `slots` slots at the current rate. */
  function RateOver(r: ReserveData, slots: nat): nat
    requires ReserveInv(r)
  {
    var bps := r.config.BorrowRate(Percent(r) * 100 % U16_MODULUS);
    Mono(0, bps, slots);
    bps * slots * RATE_SCALE / SLOTS_PER_YEAR / BPS_SCALER
  }

  /** The utilization, the interest on the debt and the growth of the index all fit 128 bits. */
  predicate Accruable(r: ReserveData, slot: u64)
    requires ReserveInv(r)
  {
    slot <= r.lastUpdateSlot
    || (&& (r.Supply() == 0 || (r.borrowed * PERCENT_SCALER <= U128_MAX && Percent(r) * 100 <= U128_MAX))
        && var rate := RateOver(r, slot - r.lastUpdateSlot);
           rate * r.borrowed <= U128_MAX && rate * r.index <= U128_MAX
             && r.index + rate * r.index / RATE_SCALE <= U128_MAX)
  }

  lemma RateIs(r: ReserveData)
    requires ReserveInv(r)
    ensures r.CurrentBorrowRate().Ok?
       <==> r.Supply() == 0 || (r.borrowed * PERCENT_SCALER <= U128_MAX && Percent(r) * 100 <= U128_MAX)
    ensures r.CurrentBorrowRate().Ok? ==>
      r.CurrentBorrowRate().value == r.config.BorrowRate(Percent(r) * 100 % U16_MODULUS)
  {
    hide ReserveConfig.BorrowRate;
  }

  /** A 16-bit rate over 64-bit slots never overflows. */
  lemma PeriodFits(bps: u16, slots: u64)
    ensures PeriodRate(bps, slots) == Ok(bps * slots * RATE_SCALE / SLOTS_PER_YEAR / BPS_SCALER)
  {
    Mono(bps, 0xFFFF, slots);
    Mono(0, bps, slots);
  }

  lemma ChargeFits(debt: nat, fee: nat)
    requires debt <= CHARGE_CEILING && fee <= MAX_PROTOCOL_FEE_BPS
    ensures 0 <= debt * fee <= U128_MAX && debt * fee / BPS_SCALER <= CHARGE_CEILING
  {
    Mono(fee, BPS_SCALER, debt);
    Mono(0, fee, debt);
    Mono(debt, CHARGE_CEILING, BPS_SCALER);
    DivMono(debt * fee, CHARGE_CEILING * BPS_SCALER, BPS_SCALER);
  }

  lemma InterestIff(r: ReserveData, bps: u16, slots: u64)
    requires ReserveInv(r) && 0 < slots && 0 < bps
    ensures r.AccruedInterest(bps, slots, r.config.protocolFee).Ok? <==>
      var rate := bps * slots * RATE_SCALE / SLOTS_PER_YEAR / BPS_SCALER;
      rate * r.borrowed <= U128_MAX && rate * r.index <= U128_MAX && r.index + rate * r.index / RATE_SCALE <= U128_MAX
  {
    hide PeriodRate;
    PeriodFits(bps, slots);
    var rate: u128 := PeriodRate(bps, slots).value;
    Mono(0, rate, r.borrowed);
    Mono(0, rate, r.index);
    if rate * r.borrowed <= U128_MAX {
      DivMono(rate * r.borrowed, U128_MAX, RATE_SCALE);
      Floor(rate * r.borrowed, RATE_SCALE);
      ChargeFits(rate * r.borrowed / RATE_SCALE, r.config.protocolFee);
    }
  }

  /** Interest is booked exactly when utilization, interest and index growth fit 128 bits; debt, fees and the protocol's
   *  share then fit by themselves.
   */
  lemma AccrueAcceptedIff(r: ReserveData, slot: u64)
    requires ReserveInv(r)
    ensures r.Accrue(slot).Ok? <==> Accruable(r, slot)
  {
    hide ReserveData.CurrentBorrowRate, ReserveData.AccruedInterest, Percent;
    RateIs(r);
    if r.lastUpdateSlot < slot && r.CurrentBorrowRate().Ok? {
      var bps, slots := r.CurrentBorrowRate().value, slot - r.lastUpdateSlot;
      if 0 < bps {
        InterestIff(r, bps, slots);
      } else {
        NothingCharged(r, slots);
      }
    }
  }

  lemma NothingCharged(r: ReserveData, slots: nat)
    requires ReserveInv(r) && r.config.BorrowRate(Percent(r) * 100 % U16_MODULUS) == 0
    ensures RateOver(r, slots) == 0
  {
    hide ReserveConfig.BorrowRate, Percent;
  }

  lemma RateGrows(r: ReserveData, slots: nat, more: nat)
    requires ReserveInv(r) && slots <= more
    ensures RateOver(r, slots) <= RateOver(r, more)
  {
    hide ReserveConfig.BorrowRate, Percent;
    var bps := r.config.BorrowRate(Percent(r) * 100 % U16_MODULUS);
    Mono(slots, more, bps);
    DivMono(bps * slots * RATE_SCALE, bps * more * RATE_SCALE, SLOTS_PER_YEAR);
    DivMono(bps * slots * RATE_SCALE / SLOTS_PER_YEAR, bps * more * RATE_SCALE / SLOTS_PER_YEAR, BPS_SCALER);
  }

  /** What cannot be booked now cannot be booked later. */
  lemma StallPersists(r: ReserveData, slot: u64, later: u64)
    requires ReserveInv(r) && slot <= later && !Accruable(r, slot)
    ensures !Accruable(r, later)
  {
    hide RateOver, Percent;
    var rate, more := RateOver(r, slot - r.lastUpdateSlot), RateOver(r, later - r.lastUpdateSlot);
    RateGrows(r, slot - r.lastUpdateSlot, later - r.lastUpdateSlot);
    Mono(rate, more, r.borrowed);
    Mono(rate, more, r.index);
    DivMono(rate * r.index, more * r.index, RATE_SCALE);
  }
}
