/** The reserve as a value: what each method of `Reserve` computes. */
module ReserveModel {
  import Arithmetic
  import opened Numeric

  datatype ReserveConfig = ReserveConfig(
    depositLimit: u64,
    borrowLimit: u64,
    minBorrowRate: u16,
    optimalBorrowRate: u16,
    maxBorrowRate: u16,
    optimalUtilization: u16,
    liquidationBonus: u16,
    protocolFee: u16,
    status: u8,
    loanToValue: u8,
    liquidationThreshold: u8,
    pythOracle: nat)
  {
    predicate IsActive() {
      status == 0
    }

    predicate Validated() {
      && loanToValue < liquidationThreshold <= MAX_LIQUIDATION_THRESHOLD_PCT
      && minBorrowRate <= optimalBorrowRate <= maxBorrowRate
      && optimalUtilization <= MAX_UTILIZATION_BPS
      && protocolFee <= MAX_PROTOCOL_FEE_BPS
    }

    /** The kinked curve before the final cast; 64-bit products of 16-bit values cannot overflow. */
    function Curve(utilization: u16): nat {
      if utilization <= optimalUtilization then
        minBorrowRate + Slope(utilization, optimalBorrowRate - minBorrowRate, optimalUtilization)
      else
        optimalBorrowRate
        + Slope(utilization - optimalUtilization, maxBorrowRate - optimalBorrowRate, BPS_SCALER - optimalUtilization)
    }

    function BorrowRate(utilization: u16): u16 {
      Curve(utilization) % U16_MODULUS
    }
  }

  /** One segment of the curve: `run * rise / width`, with both factors saturating at zero. */
  function Slope(run: nat, rise: int, width: int): nat {
    if rise <= 0 || width <= 0 then 0
    else
      Arithmetic.Mono(0, rise, run);
      Arithmetic.Floor(run * rise, width);
      run * rise / width
  }

  datatype ExchangeRate = ExchangeRate(collateralSupply: u128, totalLiquidity: u128) {
    function CollateralToLiquidity(amount: u64): Result<u64> {
      var result :- MulDiv(amount, totalLiquidity, collateralSupply);
      Ok(result % U64_MODULUS)
    }

    function LiquidityToCollateral(amount: u64): Result<u64> {
      var result :- MulDiv(amount, collateralSupply, totalLiquidity);
      Ok(result % U64_MODULUS)
    }
  }

  /** Interest per unit of debt over `slots` slots, scaled by RATE_SCALE. */
  function PeriodRate(bps: u64, slots: u64): Result<u128> {
    var a :- Mul128(bps, slots);
    var b :- Mul128(a, RATE_SCALE);
    var c :- Div128(b, SLOTS_PER_YEAR);
    Div128(c, BPS_SCALER)
  }

  /** `borrowed` counts raw tokens; `index` is the cumulative borrow rate scaled by RATE_SCALE. */
  datatype ReserveData = ReserveData(
    available: u64,
    borrowed: u128,
    index: u128,
    fees: u128,
    price: u128,
    ctokens: u64,
    lastUpdateSlot: u64,
    config: ReserveConfig,
    priceTime: i64)
  {
    /** The depositors' claim as an unbounded integer. */
    function Supply(): int {
      available + borrowed - fees
    }

    function TotalSupply(): Result<u128> {
      var sum :- Add128(available, borrowed);
      Sub(sum, fees)
    }

    function UtilizationRate(): Result<u128> {
      var total := TotalSupply().GetOr(0);
      if total == 0 then Ok(0)
      else if borrowed * PERCENT_SCALER > U128_MAX then Err(Panic)
      else Div128(borrowed * PERCENT_SCALER, total)
    }

    function CurrentBorrowRate(): Result<u16> {
      var utilization :- UtilizationRate();
      if utilization * 100 > U128_MAX then Err(Panic)
      else Ok(config.BorrowRate(utilization * 100 % U16_MODULUS))
    }

    function ExchangeRateFor(totalLiquidity: u128): ExchangeRate {
      if ctokens == 0 || totalLiquidity == 0 then ExchangeRate(1, 1)
      else ExchangeRate(ctokens, totalLiquidity)
    }

    function CollateralExchangeRate(): ExchangeRate {
      ExchangeRateFor(TotalSupply().GetOr(0))
    }

    function DepositLiquidity(amount: u64): Result<(ReserveData, u64)> {
      var total :- TotalSupply();
      var _ :- Require(total + amount <= config.depositLimit, DepositLimitExceeded);
      var minted :- CollateralExchangeRate().LiquidityToCollateral(amount);
      var newAvailable :- Add64(available, amount);
      var newCtokens :- Add64(ctokens, minted);
      Ok((this.(available := newAvailable, ctokens := newCtokens), minted))
    }

    function RedeemCollateral(amount: u64): Result<(ReserveData, u64)> {
      var liquidity :- CollateralExchangeRate().CollateralToLiquidity(amount);
      var _ :- Require(amount <= ctokens, InsufficientCollateral);
      var _ :- Require(liquidity <= available, InsufficientLiquidity);
      Ok((this.(available := available - liquidity, ctokens := ctokens - amount), liquidity))
    }

    function Borrow(amount: u64): Result<ReserveData> {
      var _ :- Require(borrowed < config.borrowLimit, BorrowLimitExceeded);
      var _ :- Require(amount <= available, InsufficientLiquidity);
      var newBorrowed :- Add128(borrowed, amount);
      Ok(this.(available := available - amount, borrowed := newBorrowed))
    }

    function Repay(amount: u64): Result<ReserveData> {
      var newBorrowed :- Sub(borrowed, amount);
      var newAvailable :- Add64(available, amount);
      Ok(this.(available := newAvailable, borrowed := newBorrowed))
    }

    function AccruedInterest(bps: u64, slots: u64, feeBps: u64): Result<ReserveData> {
      var _ :- Require(slots > 0, ZeroSlotsElapsed);
      var _ :- Require(bps > 0, BorrowRateZeroFound);
      var rate :- PeriodRate(bps, slots);
      var debt :- MulDiv(rate, borrowed, RATE_SCALE);
      var newBorrowed :- Add128(borrowed, debt);
      var fee :- MulDiv(debt, feeBps, BPS_SCALER);
      var newFees :- Add128(fees, fee);
      var growth :- MulDiv(rate, index, RATE_SCALE);
      var newIndex :- Add128(index, growth);
      Ok(this.(borrowed := newBorrowed, fees := newFees, index := newIndex))
    }

    function Accrue(slot: u64): Result<ReserveData> {
      if slot <= lastUpdateSlot then Ok(this)
      else
        var bps :- CurrentBorrowRate();
        var charged :- if bps > 0
          then AccruedInterest(bps, slot - lastUpdateSlot, config.protocolFee)
          else Ok(this);
        Ok(charged.(lastUpdateSlot := slot))
    }
  }

  /** Debt beyond this aborts the utilization rate, and with it every accrual. */
  const DEBT_CEILING: int := U128_MAX / PERCENT_SCALER

  /** No accrual can charge more than this, since the product it divides fits 128 bits. */
  const CHARGE_CEILING: int := U128_MAX / RATE_SCALE

  /** Debt stays far below 128 bits: past the first bound nothing accrues any more, because a pool that got there had
   *  no depositors, and takes none while its claim exceeds every deposit limit.
   */
  predicate DebtBounded(r: ReserveData) {
    && r.borrowed <= DEBT_CEILING + 2 * CHARGE_CEILING
    && (r.borrowed > DEBT_CEILING + CHARGE_CEILING ==> r.ctokens == 0 && r.Supply() > U64_MAX)
  }

  /** What every reserve reached by the program satisfies. */
  predicate ReserveInv(r: ReserveData) {
    && r.config.Validated()
    && RATE_SCALE <= r.index
    && r.ctokens <= r.Supply()
    && DebtBounded(r)
  }

  /** A reserve as `add_reserve` creates it. */
  function NewReserve(slot: u64, config: ReserveConfig): ReserveData {
    ReserveData(0, 0, RATE_SCALE, 0, 0, 0, slot, config, 0)
  }
}
