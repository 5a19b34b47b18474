/** What each instruction handler computes on the reserves and the obligation it is given.
 *
 *  Token movements are left to the caller: a handler's function yields the amounts to move.
 */
module InstructionModel {
  import opened Numeric
  import opened ReserveModel
  import opened ObligationModel
  import opened PriceOracle
  import Arithmetic

  function Deposit(r: ReserveData, amount: u64, slot: u64): Result<(ReserveData, u64)> {
    var _ :- Require(amount > 0, InvalidAmount);
    var _ :- Require(r.config.IsActive(), InvalidConfig);
    var accrued :- r.Accrue(slot);
    accrued.DepositLiquidity(amount)
  }

  function Withdraw(r: ReserveData, amount: u64, slot: u64): Result<(ReserveData, u64)> {
    var _ :- Require(amount > 0, InvalidAmount);
    var _ :- Require(r.config.IsActive(), InvalidConfig);
    var accrued :- r.Accrue(slot);
    accrued.RedeemCollateral(amount)
  }

  function DepositCollateral(r: ReserveData, o: ObligationData, key: Pubkey, amount: u64): Result<ObligationData> {
    var _ :- Require(amount > 0, InvalidAmount);
    var _ :- Require(r.config.IsActive(), InvalidConfig);
    o.Deposit(key, amount)
  }

  function WithdrawCollateral(o: ObligationData, key: Pubkey, amount: u64, slot: u64): Result<ObligationData> {
    var _ :- Require(amount > 0, InvalidAmount);
    var _ :- Require(slot == o.lastUpdateSlot, ObligationStale);
    var i :- Find(DepositKeys(o.deposits), key, DepositNotFound);
    var before := o.deposits[i].amount;
    var _ :- Require(amount <= before, InsufficientCollateral);
    var newValue :- MulDiv(o.deposits[i].value, before - amount, if before > 1 then before else 1);
    var revalued := o.(deposits := o.deposits[i := o.deposits[i].(value := newValue)]);
    var left :- revalued.Withdraw(key, amount);
    var factor :- left.HealthFactor();
    var _ :- Require(factor.None? || factor.value >= RATE_SCALE, UnhealthyObligation);
    Ok(left)
  }

  /** Debt of `key`, if there is any, brought up to `index`. */
  function CatchUp(o: ObligationData, key: Pubkey, index: u128): Result<ObligationData> {
    match Position(BorrowKeys(o.borrows), key)
    case None => Ok(o)
    case Some(i) => o.AccrueInterest(i, index)
  }

  /** The inline check of `borrow`: cached collateral covers cached debt plus the new debt. Yields both totals. */
  function CheckBorrow(o: ObligationData, amount: u64, price: u128): Result<(u128, u128)> {
    var deposited :- Slice(DepositValues(o.deposits), o.depositsCount);
    var collateral :- CheckedSum(deposited);
    var borrowed :- Slice(BorrowValues(o.borrows), o.borrowsCount);
    var existing :- CheckedSum(borrowed);
    var added :- Mul128(amount, price);
    var total :- Add128(existing, added);
    var _ :- Require(collateral >= total, UnhealthyObligation);
    Ok((collateral, total))
  }

  function Borrow(r: ReserveData, o: ObligationData, key: Pubkey, amount: u64, slot: u64)
    : Result<(ReserveData, ObligationData)>
  {
    var _ :- Require(amount > 0, InvalidAmount);
    var _ :- Require(r.config.IsActive(), InvalidConfig);
    var _ :- Require(r.price > 0, PriceNotValid);
    var accrued :- r.Accrue(slot);
    var lent :- accrued.Borrow(amount);
    var _ :- Require(slot == o.lastUpdateSlot, ObligationStale);
    var current :- CatchUp(o, key, lent.index);
    var indebted :- current.Borrow(key, amount, lent.index);
    var _ :- CheckBorrow(indebted, amount, lent.price);
    Ok((lent, indebted))
  }

  function Repay(r: ReserveData, o: ObligationData, key: Pubkey, amount: u64, slot: u64)
    : Result<(ReserveData, ObligationData)>
  {
    var _ :- Require(amount > 0, InvalidAmount);
    var _ :- Require(r.config.IsActive(), InvalidConfig);
    var accrued :- r.Accrue(slot);
    var repaid :- accrued.Repay(amount);
    var i :- Find(BorrowKeys(o.borrows), key, BorrowNotFound);
    var current :- o.AccrueInterest(i, accrued.index);
    var left :- current.Repay(key, amount);
    Ok((repaid, left))
  }

  // ---- Refresh --------------------------------------------------------------------------------

  type Reserves = map<Pubkey, ReserveData>

  /** One turn of the loop over borrow slots. */
  function PriceBorrow(b: BorrowSlot, reserves: Reserves): Result<BorrowSlot> {
    if !b.IsActive() then Ok(b)
    else if b.reserve !in reserves then Err(BorrowNotFound)
    else
      var r := reserves[b.reserve];
      var _ :- r.TotalSupply();
      if r.price == 0 then Ok(b)
      else
        var current :- b.Accrue(r.index);
        Arithmetic.DivLe(current.debt, RATE_SCALE);
        var value :- Mul128(current.debt / RATE_SCALE, r.price);
        Ok(current.(value := value))
  }

  /** The value of `amount` cTokens, cut by the liquidation threshold. */
  function DepositValue(amount: u64, r: ReserveData): Result<u128> {
    var total :- r.TotalSupply();
    var underlying :- if r.ctokens == 0 then Ok(0) else MulDiv(amount, total, r.ctokens);
    var value :- Mul128(underlying, r.price);
    MulDiv(value, r.config.liquidationThreshold, 100)
  }

  /** One turn of the loop over deposit slots. */
  function PriceDeposit(d: DepositSlot, reserves: Reserves): Result<DepositSlot> {
    if !d.IsActive() then Ok(d)
    else if d.reserve !in reserves then Err(DepositNotFound)
    else
      var r := reserves[d.reserve];
      var _ :- r.TotalSupply();
      if r.price == 0 then Ok(d)
      else
        var value :- DepositValue(d.amount, r);
        Ok(d.(value := value))
  }

  function PriceBorrows(slots: BorrowTable, reserves: Reserves, from: nat, count: nat): Result<BorrowTable>
    decreases count - from
  {
    if from >= count then Ok(slots)
    else if from >= MAX_SLOTS then Err(Panic)
    else
      var slot :- PriceBorrow(slots[from], reserves);
      PriceBorrows(slots[from := slot], reserves, from + 1, count)
  }

  function PriceDeposits(slots: DepositTable, reserves: Reserves, from: nat, count: nat): Result<DepositTable>
    decreases count - from
  {
    if from >= count then Ok(slots)
    else if from >= MAX_SLOTS then Err(Panic)
    else
      var slot :- PriceDeposit(slots[from], reserves);
      PriceDeposits(slots[from := slot], reserves, from + 1, count)
  }

  /** `reserves` are the accounts passed along with the instruction. */
  function RefreshObligation(o: ObligationData, reserves: Reserves, slot: u64): Result<ObligationData> {
    var borrows :- PriceBorrows(o.borrows, reserves, 0, o.borrowsCount);
    var deposits :- PriceDeposits(o.deposits, reserves, 0, o.depositsCount);
    Ok(o.(borrows := borrows, deposits := deposits, lastUpdateSlot := slot))
  }

  function RefreshReserve(r: ReserveData, update: PriceUpdate, slot: u64, now: i64): Result<ReserveData> {
    var _ :- Require(update.account == r.config.pythOracle, InvalidConfig);
    var accrued :- r.Accrue(slot);
    var price :- ReadPrice(update, now);
    Ok(accrued.(price := price, priceTime := update.publishTime))
  }

  // ---- Liquidation ----------------------------------------------------------------------------

  /** cTokens worth `repaid` tokens plus the bonus, before the cap; every division rounds down. */
  function SeizableCTokens(repaid: u64, repayPrice: u128, withdraw: ReserveData, supply: u128): Result<u128> {
    var repayValue :- Mul128(repaid, repayPrice);
    var withBonus :- MulDiv(repayValue, BPS_SCALER + withdraw.config.liquidationBonus, BPS_SCALER);
    var underlying :- Div128(withBonus, withdraw.price);
    if withdraw.ctokens == 0 || supply == 0 then Ok(underlying)
    else MulDiv(underlying, withdraw.ctokens, supply)
  }

  /** The most one liquidation may repay: half of the whole tokens owed, cast to 64 bits. The product stays in range. */
  function CloseFactorCap(debt: u128): u64 {
    Arithmetic.DivLe(debt, RATE_SCALE);
    debt / RATE_SCALE * MAX_LIQUIDATION_CLOSE_FACTOR_PCT / 100 % U64_MODULUS
  }

  /** An accrual and the tests both reserves of a liquidation pass before anything is computed. */
  function Prepare(r: ReserveData, slot: u64): Result<ReserveData> {
    var _ :- Require(r.config.IsActive(), InvalidConfig);
    var accrued :- r.Accrue(slot);
    var _ :- Require(accrued.price > 0, PriceNotValid);
    Ok(accrued)
  }

  function Min(a: int, b: int): int {
    if a <= b then a else b
  }

  /** How many tokens a liquidation repays and how many cTokens it takes. */
  function SeizeAmounts(repay: ReserveData, withdraw: ReserveData, debt: u128, o: ObligationData, key: Pubkey,
                        amount: u64)
    : Result<(u64, u64)>
  {
    var supply :- withdraw.TotalSupply();
    var repaid := Min(amount, CloseFactorCap(debt));
    var _ :- Require(repaid > 0, InvalidAmount);
    var ctokens :- SeizableCTokens(repaid, repay.price, withdraw, supply);
    var j :- Find(DepositKeys(o.deposits), key, DepositNotFound);
    var seized := Min(ctokens, o.deposits[j].amount);
    var _ :- Require(seized > 0, InvalidAmount);
    Ok((repaid, seized))
  }

  datatype Seizure = Seizure(obligation: ObligationData, repaid: u64, seized: u64)

  /** The obligation's side of a liquidation, given both accrued reserves. */
  function Seize(repay: ReserveData, withdraw: ReserveData, o: ObligationData,
                 repayKey: Pubkey, withdrawKey: Pubkey, amount: u64, slot: u64): Result<Seizure>
  {
    var _ :- withdraw.TotalSupply();
    var _ :- Require(slot == o.lastUpdateSlot, ObligationStale);
    var healthy :- o.IsHealthy();
    var _ :- Require(!healthy, ObligationHealthy);
    var i :- Find(BorrowKeys(o.borrows), repayKey, BorrowNotFound);
    var current :- o.AccrueInterest(i, repay.index);
    var (repaid, seized) :- SeizeAmounts(repay, withdraw, current.borrows[i].debt, current, withdrawKey, amount);
    var relieved :- current.Repay(repayKey, repaid);
    var left :- relieved.Withdraw(withdrawKey, seized);
    Ok(Seizure(left, repaid, seized))
  }

  /** Both reserves as accrued, what the repaid one becomes, and what happens to the obligation. */
  datatype Liquidation = Liquidation(repay: ReserveData, withdraw: ReserveData, relieved: ReserveData, seizure: Seizure)

  /** Both keys may name the same reserve; then the second accrual sees the first one's result. */
  function Liquidate(reserves: Reserves, o: ObligationData, repayKey: Pubkey, withdrawKey: Pubkey,
                     amount: u64, slot: u64): Result<Liquidation>
    requires repayKey in reserves && withdrawKey in reserves
  {
    var _ :- Require(amount > 0, InvalidAmount);
    var repay :- Prepare(reserves[repayKey], slot);
    var withdraw :- Prepare(reserves[repayKey := repay][withdrawKey], slot);
    var seizure :- Seize(repay, withdraw, o, repayKey, withdrawKey, amount, slot);
    var relieved :- (if repayKey == withdrawKey then withdraw else repay).Repay(seizure.repaid);
    Ok(Liquidation(repay, withdraw, relieved, seizure))
  }
}
