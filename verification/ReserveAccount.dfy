/** The reserve account as the program updates it: in place, method by method. */
module ReserveAccount {
  import opened Numeric
  import opened ReserveModel
  import opened ObligationModel

  /** A method's outcome against the value it should leave behind; after an error the runtime restores the account. */
  ghost predicate Matches(r: Result<()>, expected: Result<ReserveData>, after: ReserveData) {
    match r
    case Ok(_) => expected == Ok(after)
    case Err(e) => expected == Err(e)
  }

  /** The same for a method that also yields an amount. */
  ghost predicate Yields(r: Result<u64>, expected: Result<(ReserveData, u64)>, after: ReserveData) {
    match r
    case Ok(x) => expected == Ok((after, x))
    case Err(e) => expected == Err(e)
  }

  /** What a zeroed account holds. */
  const BLANK := ReserveConfig(0, 0, 0, 0, 0, 0, 0, 0, 0, 0, 0, 0)

  class Reserve {
    const key: Pubkey
    var availableAmount: u64
    var borrowedAmount: u128
    var cumulativeBorrowRate: u128
    var accumulatedProtocolFees: u128
    var marketPrice: u128
    var mintTotalSupply: u64
    var lastUpdateSlot: u64
    var priceLastUpdated: i64
    var config: ReserveConfig

    function Data(): ReserveData
      reads this
    {
      ReserveData(availableAmount, borrowedAmount, cumulativeBorrowRate, accumulatedProtocolFees, marketPrice,
                  mintTotalSupply, lastUpdateSlot, config, priceLastUpdated)
    }

    /** A reserve before it is configured; no configuration of zeros passes validation. */
    constructor (key: Pubkey, slot: u64)
      ensures this.key == key && lastUpdateSlot == slot && config == BLANK && !config.Validated()
      ensures cumulativeBorrowRate == RATE_SCALE && marketPrice == priceLastUpdated == 0
      ensures availableAmount == borrowedAmount == accumulatedProtocolFees == mintTotalSupply == 0
      ensures Data() == NewReserve(slot, BLANK)
    {
      this.key := key;
      availableAmount, borrowedAmount, cumulativeBorrowRate := 0, 0, RATE_SCALE;
      accumulatedProtocolFees, marketPrice, mintTotalSupply := 0, 0, 0;
      lastUpdateSlot, config, priceLastUpdated := slot, BLANK, 0;
    }

    /** The configuration is written before it is validated. */
    method Configure(params: ReserveConfig) returns (r: Result<()>)
      modifies this`config
      ensures config == params
      ensures r.Ok? <==>
        && params.loanToValue < params.liquidationThreshold <= 100
        && params.minBorrowRate <= params.optimalBorrowRate <= params.maxBorrowRate
        && params.optimalUtilization <= 10_000 && params.protocolFee <= 1_000
      ensures r.Err? ==> r == Err(InvalidConfig)
    {
      config := params;
      var _ :- Require(config.loanToValue < config.liquidationThreshold, InvalidConfig);
      var _ :- Require(config.liquidationThreshold <= MAX_LIQUIDATION_THRESHOLD_PCT, InvalidConfig);
      var _ :- Require(config.minBorrowRate <= config.optimalBorrowRate
        && config.optimalBorrowRate <= config.maxBorrowRate,
                       InvalidConfig);
      var _ :- Require(config.optimalUtilization <= MAX_UTILIZATION_BPS, InvalidConfig);
      var _ :- Require(config.protocolFee <= MAX_PROTOCOL_FEE_BPS, InvalidConfig);
      return Ok(());
    }

    // ---- Liquidity and collateral bookkeeping -------------------------------------------------

    method AddLiquidity(amount: u64) returns (r: Result<()>)
      modifies this`availableAmount
      ensures r == if old(availableAmount) + amount <= U64_MAX then Ok(()) else Err(MathOverflow)
      ensures availableAmount == old(availableAmount) + if r.Ok? then amount else 0
    {
      availableAmount :- Add64(availableAmount, amount);
      return Ok(());
    }

    method TakeLiquidity(amount: u64) returns (r: Result<()>)
      modifies this`availableAmount
      ensures r == if amount <= old(availableAmount) then Ok(()) else Err(InsufficientLiquidity)
      ensures availableAmount == old(availableAmount) - if r.Ok? then amount else 0
    {
      var _ :- Require(availableAmount >= amount, InsufficientLiquidity);
      availableAmount := availableAmount - amount;
      return Ok(());
    }

    method Mint(amount: u64) returns (r: Result<()>)
      modifies this`mintTotalSupply
      ensures r == if old(mintTotalSupply) + amount <= U64_MAX then Ok(()) else Err(MathOverflow)
      ensures mintTotalSupply == old(mintTotalSupply) + if r.Ok? then amount else 0
    {
      mintTotalSupply :- Add64(mintTotalSupply, amount);
      return Ok(());
    }

    method Burn(amount: u64) returns (r: Result<()>)
      modifies this`mintTotalSupply
      ensures r == if amount <= old(mintTotalSupply) then Ok(()) else Err(InsufficientCollateral)
      ensures mintTotalSupply == old(mintTotalSupply) - if r.Ok? then amount else 0
    {
      var _ :- Require(mintTotalSupply >= amount, InsufficientCollateral);
      mintTotalSupply := mintTotalSupply - amount;
      return Ok(());
    }

    // ---- Operations ---------------------------------------------------------------------------

    method DepositLiquidity(amount: u64) returns (r: Result<u64>)
      modifies this
      ensures Yields(r, old(Data()).DepositLiquidity(amount), Data())
    {
      var total :- Data().TotalSupply();
      var _ :- Require(total + amount <= config.depositLimit, DepositLimitExceeded);
      var collateralAmount :- Data().CollateralExchangeRate().LiquidityToCollateral(amount);
      var _ :- AddLiquidity(amount);
      var _ :- Mint(collateralAmount);
      return Ok(collateralAmount);
    }

    /** The burn comes before the test of the idle liquidity, so a refused redemption has already burned. */
    method RedeemCollateral(amount: u64) returns (r: Result<u64>)
      modifies this
      ensures Yields(r, old(Data()).RedeemCollateral(amount), Data())
      ensures r == Err(InsufficientLiquidity) ==>
        amount <= old(mintTotalSupply) && Data() == old(Data()).(ctokens := old(mintTotalSupply) - amount)
    {
      var liquidityAmount :- Data().CollateralExchangeRate().CollateralToLiquidity(amount);
      var _ :- Burn(amount);
      var _ :- TakeLiquidity(liquidityAmount);
      return Ok(liquidityAmount);
    }

    /** Below a 64-bit limit the addition cannot leave 128 bits. */
    method Borrow(amount: u64) returns (r: Result<()>)
      modifies this
      ensures Matches(r, old(Data()).Borrow(amount), Data())
    {
      var _ :- Require(borrowedAmount < config.borrowLimit, BorrowLimitExceeded);
      var _ :- TakeLiquidity(amount);
      borrowedAmount := borrowedAmount + amount;
      return Ok(());
    }

    /** The debt is lowered before the idle liquidity can overflow. */
    method Repay(amount: u64) returns (r: Result<()>)
      modifies this
      ensures Matches(r, old(Data()).Repay(amount), Data())
    {
      borrowedAmount :- Sub(borrowedAmount, amount);
      var _ :- AddLiquidity(amount);
      return Ok(());
    }

    method BookInterest(borrowRate: u64, slotsElapsed: u64, protocolFee: u64) returns (r: Result<()>)
      modifies this
      ensures Matches(r, old(Data()).AccruedInterest(borrowRate, slotsElapsed, protocolFee), Data())
    {
      var _ :- Require(slotsElapsed > 0, ZeroSlotsElapsed);
      var _ :- Require(borrowRate > 0, BorrowRateZeroFound);
      var rate :- PeriodRate(borrowRate, slotsElapsed);
      var debt :- MulDiv(rate, borrowedAmount, RATE_SCALE);
      borrowedAmount :- Add128(borrowedAmount, debt);
      var fee :- MulDiv(debt, protocolFee, BPS_SCALER);
      accumulatedProtocolFees :- Add128(accumulatedProtocolFees, fee);
      var growth :- MulDiv(rate, cumulativeBorrowRate, RATE_SCALE);
      cumulativeBorrowRate :- Add128(cumulativeBorrowRate, growth);
      return Ok(());
    }

    method AccrueInterest(currentSlot: u64) returns (r: Result<()>)
      modifies this
      ensures Matches(r, old(Data()).Accrue(currentSlot), Data())
    {
      var slotsElapsed := if lastUpdateSlot <= currentSlot then currentSlot - lastUpdateSlot else 0;
      if slotsElapsed == 0 {
        return Ok(());
      }
      var borrowRate :- Data().CurrentBorrowRate();
      if borrowRate > 0 {
        var _ :- BookInterest(borrowRate, slotsElapsed, config.protocolFee);
      }
      lastUpdateSlot := currentSlot;
      return Ok(());
    }
  }
}
