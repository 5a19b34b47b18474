/** With which error each instruction is refused: that of the first test it fails. */
module Refusals {
  import opened Arithmetic
  import opened Numeric
  import opened ReserveModel
  import opened ReserveProperties
  import opened Accruals
  import opened ObligationModel
  import opened ObligationProperties
  import opened InstructionProperties
  import opened Health
  import opened HealthGuards
  import opened PriceOracle
  import opened RefreshProperties
  import opened Refreshes
  import opened Acceptance
  import Guards
  import I = InstructionModel

  // ---- Reserves -------------------------------------------------------------------------------

  /** Why interest cannot be booked: the utilization aborts, or a product does not fit. */
  function StallReason(r: ReserveData): LendingError
    requires ReserveInv(r)
  {
    if 0 < r.Supply() && (r.borrowed * 100 > U128_MAX || Percent(r) * 100 > U128_MAX) then Panic else MathOverflow
  }

  lemma AccrualRefused(r: ReserveData, slot: u64)
    requires ReserveInv(r) && !Accruable(r, slot)
    ensures r.Accrue(slot) == Err(StallReason(r))
  {
    hide ReserveData.AccruedInterest, Percent, ReserveConfig.BorrowRate;
    AccrueAcceptedIff(r, slot);
    RateIs(r);
    if r.CurrentBorrowRate().Ok? && 0 < r.CurrentBorrowRate().value {
      ChargeError(r, r.CurrentBorrowRate().value, slot - r.lastUpdateSlot);
    }
  }

  lemma ChargeError(r: ReserveData, bps: u16, slots: u64)
    requires 0 < bps && 0 < slots && r.AccruedInterest(bps, slots, r.config.protocolFee).Err?
    ensures r.AccruedInterest(bps, slots, r.config.protocolFee) == Err(MathOverflow)
  {
  }

  /** Each test is stated in terms of the accrued reserve; the last error is what remains when all tests but the width
   *  of the idle amount have passed.
   */
  lemma DepositRefused(r: ReserveData, amount: u64, slot: u64)
    requires ReserveInv(r) && I.Deposit(r, amount, slot).Err?
    ensures I.Deposit(r, amount, slot).error ==
      if amount == 0 then InvalidAmount
      else if r.config.status != 0 then InvalidConfig
      else if !Accruable(r, slot) then StallReason(r)
      else if Current(r, slot).Supply() + amount > r.config.depositLimit then DepositLimitExceeded
      else MathOverflow
  {
    hide ReserveData.Accrue, Accruable, ReserveData.CollateralExchangeRate, ReserveInv;
    if Accruable(r, slot) {
      CurrentKeeps(r, slot);
      ExchangeRateUsed(Current(r, slot));
    } else {
      AccrualRefused(r, slot);
    }
  }

  /** The conversion is computed before the cTokens are looked for. */
  lemma WithdrawRefused(r: ReserveData, amount: u64, slot: u64)
    requires ReserveInv(r) && I.Withdraw(r, amount, slot).Err?
    ensures I.Withdraw(r, amount, slot).error ==
      if amount == 0 then InvalidAmount
      else if r.config.status != 0 then InvalidConfig
      else if !Accruable(r, slot) then StallReason(r)
      else if 0 < r.ctokens && amount * Current(r, slot).Supply() > U128_MAX then MathOverflow
      else if r.ctokens < amount then InsufficientCollateral
      else InsufficientLiquidity
  {
    hide ReserveData.Accrue, Accruable, ReserveData.CollateralExchangeRate;
    if Accruable(r, slot) {
      CurrentKeeps(r, slot);
      ExchangeRateUsed(Current(r, slot));
      Mono(0, Current(r, slot).Supply(), amount);
    } else {
      AccrualRefused(r, slot);
    }
  }

  // ---- Collateral -----------------------------------------------------------------------------

  lemma DepositCollateralRefused(r: ReserveData, o: ObligationData, key: Pubkey, amount: u64)
    requires Wf(o) && key != DEFAULT_PUBKEY && I.DepositCollateral(r, o, key, amount).Err?
    ensures I.DepositCollateral(r, o, key, amount).error ==
      if amount == 0 then InvalidAmount
      else if r.config.status != 0 then InvalidConfig
      else if Locked(o.deposits, key) == 0 && o.depositsCount == 8 then ObligationDepositsFull
      else MathOverflow
  {
    DepositAccepted(o, key, amount);
    SlotFor(DepositKeys(o.deposits), key, ObligationDepositsFull);
    TablesAreMaps(o);
  }

  lemma WithdrawCollateralRefused(o: ObligationData, key: Pubkey, amount: u64, slot: u64)
    requires Wf(o) && key != DEFAULT_PUBKEY && I.WithdrawCollateral(o, key, amount, slot).Err?
    ensures I.WithdrawCollateral(o, key, amount, slot).error ==
      if amount == 0 then InvalidAmount
      else if o.lastUpdateSlot != slot then ObligationStale
      else if Locked(o.deposits, key) == 0 then DepositNotFound
      else if Locked(o.deposits, key) < amount then InsufficientCollateral
      else if DepositAt(o.deposits, key).value * (Locked(o.deposits, key) - amount) > U128_MAX then MathOverflow
      else UnhealthyObligation
  {
    hide ObligationData.Withdraw, ObligationData.HealthFactor, SeenDeposits, SeenBorrows, Release;
    WithdrawCollateralAcceptedIff(o, key, amount, slot);
    if 0 < amount <= Locked(o.deposits, key) {
      var d := DepositAt(o.deposits, key);
      Mono(0, d.value, d.amount - amount);
      ReleaseCounts(o, key, amount);
      HealthTest(Release(o, key, amount));
      if d.value * (d.amount - amount) <= U128_MAX {
        CutsAndWithdraws(o, key, amount, MulDiv(d.value, d.amount - amount, d.amount).value);
      }
    }
  }

  // ---- Loans ----------------------------------------------------------------------------------

  lemma CatchUpError(o: ObligationData, key: Pubkey, i: nat, index: u128)
    requires Wf(o) && key != DEFAULT_PUBKEY && Position(BorrowKeys(o.borrows), key) == Some(i) && i < MAX_SLOTS
    requires LoanOf(o.borrows, key).Some? ==> LoanOf(o.borrows, key).value.index <= index
    ensures o.AccrueInterest(i, index).Err? ==>
      o.AccrueInterest(i, index) == Err(MathOverflow)
  {
    if o.borrows[i].IsActive() && o.borrows[i].debt * index <= U128_MAX {
      DebtAtCatchesUp(LoanIn(o.borrows[i]), index);
    }
  }

  lemma RepayError(o: ObligationData, key: Pubkey, amount: u128)
    requires Wf(o) && key != DEFAULT_PUBKEY && 0 < amount <= U64_MAX && LoanOf(o.borrows, key).Some?
    ensures o.Repay(key, amount).Err? ==> o.Repay(key, amount) == Err(InvalidAmount)
  {
  }

  /** The reserve's record is lowered before the loan is looked for; overpaying a loan is an invalid amount. */
  lemma RepayRefused(r: ReserveData, o: ObligationData, key: Pubkey, amount: u64, slot: u64)
    requires ReserveInv(r) && Wf(o) && key != DEFAULT_PUBKEY && I.Repay(r, o, key, amount, slot).Err?
    requires LoanOf(o.borrows, key).Some? ==> LoanOf(o.borrows, key).value.index <= r.index
    ensures LoanOf(o.borrows, key).Some? ==> 0 < LoanOf(o.borrows, key).value.index
    ensures I.Repay(r, o, key, amount, slot).error ==
      if amount == 0 then InvalidAmount
      else if r.config.status != 0 then InvalidConfig
      else if !Accruable(r, slot) then StallReason(r)
      else
        var a, loan := Current(r, slot), LoanOf(o.borrows, key);
        if a.borrowed < amount || r.available + amount > U64_MAX then MathOverflow
        else if loan.None? then BorrowNotFound
        else if !Computable(loan.value, a.index) then MathOverflow
        else InvalidAmount
  {
    hide ReserveData.Accrue, Accruable, Current, ReserveInv, ObligationData.AccrueInterest, ObligationData.Repay,
      Computable, Wf, DebtAt;
    LoanIndexPositive(o);
    if Accruable(r, slot) {
      CurrentKeeps(r, slot);
      var a, p := Current(r, slot), Position(BorrowKeys(o.borrows), key);
      LoanIsThere(o, key);
      if p.Some? {
        CaughtUpOrNot(o, key, a.index);
        CatchUpError(o, key, p.value, a.index);
        if o.AccrueInterest(p.value, a.index).Ok? && 0 < amount {
          AccrueRefines(o, p.value, a.index);
          RepayError(o.AccrueInterest(p.value, a.index).value, key, amount);
        }
      }
    } else {
      AccrualRefused(r, slot);
    }
  }

  lemma LoanIsThere(o: ObligationData, key: Pubkey)
    requires Wf(o) && key != DEFAULT_PUBKEY
    ensures LoanOf(o.borrows, key).Some? <==> Position(BorrowKeys(o.borrows), key).Some?
    ensures var p := Position(BorrowKeys(o.borrows), key);
      p.Some? ==> p.value < MAX_SLOTS && o.borrows[p.value].IsActive() && o.borrows[p.value].reserve == key
  {
  }

  /** What the inline check of a borrow finds wrong. */
  lemma CheckRefused(o: ObligationData, amount: u64, price: u128)
    requires o.depositsCount <= MAX_SLOTS && o.borrowsCount <= MAX_SLOTS && I.CheckBorrow(o, amount, price).Err?
    ensures var collateral, debt := Sum(DepositValues(o.deposits)[..o.depositsCount]),
        Sum(BorrowValues(o.borrows)[..o.borrowsCount]);
      I.CheckBorrow(o, amount, price).error ==
      if collateral > U128_MAX || debt > U128_MAX then Panic
      else if debt + amount * price > U128_MAX then MathOverflow
      else UnhealthyObligation
  {
    hide Sum;
    Mono(0, amount, price);
  }

  lemma BorrowError(o: ObligationData, key: Pubkey, amount: u64, index: u128)
    requires Wf(o) && key != DEFAULT_PUBKEY && 0 < amount && o.Borrow(key, amount, index).Err?
    ensures o.Borrow(key, amount, index).error ==
      if LoanOf(o.borrows, key).None? && o.borrowsCount == 8 then ObligationBorrowsFull else MathOverflow
  {
    BorrowAccepted(o, key, amount, index);
    SlotFor(BorrowKeys(o.borrows), key, ObligationBorrowsFull);
    TablesAreMaps(o);
  }

  /** Why the reserve does not lend. */
  lemma LendRefused(r: ReserveData, amount: u64)
    requires r.Borrow(amount).Err?
    ensures r.config.borrowLimit <= r.borrowed || r.available < amount
    ensures r.Borrow(amount).error ==
      if r.config.borrowLimit <= r.borrowed then BorrowLimitExceeded else InsufficientLiquidity
  {
  }

  /** The reserve's own tests come before those of the obligation, its limit before its liquidity. */
  lemma BorrowRefused(r: ReserveData, o: ObligationData, key: Pubkey, amount: u64, slot: u64)
    requires ReserveInv(r) && Wf(o) && key != DEFAULT_PUBKEY && I.Borrow(r, o, key, amount, slot).Err?
    requires LoanOf(o.borrows, key).Some? ==> LoanOf(o.borrows, key).value.index <= r.index
    ensures Scannable(o, key)
    ensures I.Borrow(r, o, key, amount, slot).error ==
      if amount == 0 then InvalidAmount
      else if r.config.status != 0 then InvalidConfig
      else if r.price == 0 then PriceNotValid
      else if !Accruable(r, slot) then StallReason(r)
      else
        var a, loan := Current(r, slot), LoanOf(o.borrows, key);
        if r.config.borrowLimit <= a.borrowed then BorrowLimitExceeded
        else if r.available < amount then InsufficientLiquidity
        else if o.lastUpdateSlot != slot then ObligationStale
        else if loan.Some? && !Computable(loan.value, a.index) then MathOverflow
        else if loan.None? && o.borrowsCount == 8 then ObligationBorrowsFull
        else if DebtAt(loan, a.index) + amount * RATE_SCALE > U128_MAX then MathOverflow
        else
          var collateral, debt := Sum(DepositValues(o.deposits)[..o.depositsCount]),
            Sum(BorrowValues(o.borrows)[..Guards.ScannedAfter(o, key)]);
          if collateral > U128_MAX || debt > U128_MAX then Panic
          else if debt + amount * r.price > U128_MAX then MathOverflow
          else UnhealthyObligation
  {
    hide ReserveData.Accrue, Accruable, Current, ReserveInv, ReserveData.Borrow, ObligationData.Borrow, I.CatchUp,
      I.CheckBorrow, Computable, Wf, DebtAt, LoanOf, Sum;
    LoanIndexPositive(o);
    TablesAreMaps(o);
    if Accruable(r, slot) {
      CurrentKeeps(r, slot);
      var a := Current(r, slot);
      if a.Borrow(amount).Err? {
        LendRefused(a, amount);
      } else {
        Guards.Lends(a, amount);
        if 0 < amount {
          DebtRefused(o, key, amount, a.index, r.price);
        }
      }
    } else {
      AccrualRefused(r, slot);
    }
  }

  /** The obligation's part of a borrow, from the catch-up on. */
  lemma DebtRefused(o: ObligationData, key: Pubkey, amount: u64, index: u128, price: u128)
    requires Wf(o) && key != DEFAULT_PUBKEY && 0 < amount && o.depositsCount <= MAX_SLOTS && o.borrowsCount <= MAX_SLOTS
    requires LoanOf(o.borrows, key).Some? ==> 0 < LoanOf(o.borrows, key).value.index <= index
    ensures var caught, loan := I.CatchUp(o, key, index), LoanOf(o.borrows, key);
      if loan.Some? && !Computable(loan.value, index) then caught == Err(MathOverflow)
      else
        && caught.Ok?
        && var debted := caught.value.Borrow(key, amount, index);
        if loan.None? && o.borrowsCount == 8 then debted == Err(ObligationBorrowsFull)
        else if DebtAt(loan, index) + amount * RATE_SCALE > U128_MAX then debted == Err(MathOverflow)
        else
          && debted.Ok?
          && var checked := I.CheckBorrow(debted.value, amount, price);
          checked.Err? ==>
            var collateral, debt := Sum(DepositValues(o.deposits)[..o.depositsCount]),
              Sum(BorrowValues(o.borrows)[..Guards.ScannedAfter(o, key)]);
            checked.error ==
            if collateral > U128_MAX || debt > U128_MAX then Panic
            else if debt + amount * price > U128_MAX then MathOverflow
            else UnhealthyObligation
  {
    hide ObligationData.Borrow, ObligationData.AccrueInterest, I.CheckBorrow, Computable, Wf, DebtAt, LoanOf, Sum;
    Guards.CatchUpSucceeds(o, key, index);
    LoanIsThere(o, key);
    Guards.NothingOwed(index);
    if I.CatchUp(o, key, index).Err? {
      CatchUpError(o, key, Position(BorrowKeys(o.borrows), key).value, index);
    } else {
      CatchUpEffect(o, key, index);
      var p := I.CatchUp(o, key, index).value;
      BorrowAccepted(p, key, amount, index);
      if p.Borrow(key, amount, index).Err? {
        BorrowError(p, key, amount, index);
      } else {
        Guards.BorrowKeepsValues(p, key, amount, index);
        var q := p.Borrow(key, amount, index).value;
        if I.CheckBorrow(q, amount, price).Err? {
          CheckRefused(q, amount, price);
        }
      }
    }
  }

  // ---- Liquidations ---------------------------------------------------------------------------

  /** Why a reserve cannot take part in a liquidation, if it cannot. */
  function PrepareReason(r: ReserveData, slot: u64): Option<LendingError>
    requires ReserveInv(r)
  {
    if r.config.status != 0 then Some(InvalidConfig)
    else if !Accruable(r, slot) then Some(StallReason(r))
    else if r.price == 0 then Some(PriceNotValid)
    else None
  }

  lemma PrepareRefused(r: ReserveData, slot: u64)
    requires ReserveInv(r)
    ensures match PrepareReason(r, slot)
      case None => Accruable(r, slot) && I.Prepare(r, slot) == Ok(Current(r, slot))
      case Some(e) => I.Prepare(r, slot) == Err(e)
  {
    hide ReserveData.Accrue, Accruable, Current, ReserveInv;
    if Accruable(r, slot) {
      CurrentKeeps(r, slot);
    } else {
      AccrualRefused(r, slot);
    }
  }

  lemma AmountsRefused(a: ReserveData, b: ReserveData, debt: u128, o: ObligationData, w: Pubkey, n: u64)
    requires ReserveInv(b) && 0 < b.price && w != DEFAULT_PUBKEY && Wf(o)
    requires I.SeizeAmounts(a, b, debt, o, w, n).Err?
    ensures I.SeizeAmounts(a, b, debt, o, w, n).error ==
      if Repaid(n, debt) == 0 then InvalidAmount
      else if !Priceable(Repaid(n, debt), a.price, b) then MathOverflow
      else if Locked(o.deposits, w) == 0 then DepositNotFound
      else InvalidAmount
  {
    hide Priceable, CTokensFor, I.SeizableCTokens, ReserveData.TotalSupply;
    ExchangeRateUsed(b);
    SeizableIs(Repaid(n, debt), a.price, b);
    SeizableError(Repaid(n, debt), a.price, b, b.Supply());
  }

  lemma SeizableError(repaid: u64, price: u128, b: ReserveData, supply: u128)
    ensures I.SeizableCTokens(repaid, price, b, supply).Err? ==>
      I.SeizableCTokens(repaid, price, b, supply) == Err(MathOverflow)
  {
  }

  /** The obligation's part, on reserves already accrued. */
  lemma SeizeRefused(a: ReserveData, b: ReserveData, o: ObligationData, key: Pubkey, w: Pubkey, n: u64, slot: u64)
    requires ReserveInv(b) && 0 < b.price && Wf(o) && key != DEFAULT_PUBKEY && w != DEFAULT_PUBKEY
    requires LoanOf(o.borrows, key).Some? ==> 0 < LoanOf(o.borrows, key).value.index <= a.index
    requires o.depositsCount <= MAX_SLOTS && o.borrowsCount <= MAX_SLOTS
    requires I.Seize(a, b, o, key, w, n, slot).Err?
    ensures I.Seize(a, b, o, key, w, n, slot).error ==
      var loan := LoanOf(o.borrows, key);
      var repaid := Repaid(n, DebtAt(loan, a.index));
      if o.lastUpdateSlot != slot then ObligationStale
      else if RATE_SCALE * SeenBorrows(o) <= SeenDeposits(o) then ObligationHealthy
      else if loan.None? then BorrowNotFound
      else if !Computable(loan.value, a.index) then MathOverflow
      else if repaid == 0 then InvalidAmount
      else if !Priceable(repaid, a.price, b) then MathOverflow
      else if Locked(o.deposits, w) == 0 then DepositNotFound
      else InvalidAmount
  {
    hide Priceable, Repaid, Taken, Locked, DebtAt, Wf, SeenDeposits, SeenBorrows, I.SeizeAmounts, LoanOf, Computable,
      ReserveData.TotalSupply, ObligationData.IsHealthy, ObligationData.Repay, ObligationData.Withdraw;
    ExchangeRateUsed(b);
    HealthyIff(o);
    NegativeCover(o);
    LoanIsThere(o, key);
    var p := Position(BorrowKeys(o.borrows), key);
    if p.Some? {
      CaughtUpOrNot(o, key, a.index);
      CatchUpError(o, key, p.value, a.index);
      if o.AccrueInterest(p.value, a.index).Ok? {
        var current := o.AccrueInterest(p.value, a.index).value;
        SettlesIff(o, key, w, a, b, n);
        if I.SeizeAmounts(a, b, current.borrows[p.value].debt, current, w, n).Err? {
          AmountsRefused(a, b, current.borrows[p.value].debt, current, w, n);
        }
      }
    }
  }

  /** Both reserves are tested before the obligation, and the repaid reserve's record last. */
  lemma LiquidateRefused(reserves: I.Reserves, o: ObligationData, key: Pubkey, w: Pubkey, n: u64, slot: u64)
    requires key in reserves && w in reserves && ReserveInv(reserves[key]) && ReserveInv(reserves[w])
    requires Wf(o) && key != DEFAULT_PUBKEY && w != DEFAULT_PUBKEY
    requires LoanOf(o.borrows, key).Some? ==> LoanOf(o.borrows, key).value.index <= reserves[key].index
    requires I.Liquidate(reserves, o, key, w, n, slot).Err?
    ensures Scannable(o, key)
    ensures I.Liquidate(reserves, o, key, w, n, slot).error ==
      if n == 0 then InvalidAmount
      else if PrepareReason(reserves[key], slot).Some? then PrepareReason(reserves[key], slot).value
      else if PrepareReason(reserves[w], slot).Some? then PrepareReason(reserves[w], slot).value
      else
        var a, b, loan := Current(reserves[key], slot), Current(reserves[w], slot), LoanOf(o.borrows, key);
        var repaid := Repaid(n, DebtAt(loan, a.index));
        if o.lastUpdateSlot != slot then ObligationStale
        else if RATE_SCALE * SeenBorrows(o) <= SeenDeposits(o) then ObligationHealthy
        else if loan.None? then BorrowNotFound
        else if !Computable(loan.value, a.index) then MathOverflow
        else if repaid == 0 then InvalidAmount
        else if !Priceable(repaid, a.price, b) then MathOverflow
        else if Locked(o.deposits, w) == 0 then DepositNotFound
        else if Taken(n, DebtAt(loan, a.index), a.price, b, Locked(o.deposits, w)) == 0 then InvalidAmount
        else MathOverflow
  {
    hide Priceable, Repaid, Taken, Locked, DebtAt, Wf, SeenDeposits, SeenBorrows, LoanOf, Computable, ReserveInv,
      Accruable, Current, ReserveData.Accrue, I.Prepare, I.Seize, ReserveData.Repay;
    LiquidateAcceptedIff(reserves, o, key, w, n, slot);
    PrepareRefused(reserves[key], slot);
    PrepareRefused(reserves[w], slot);
    if PrepareReason(reserves[key], slot).None? {
      var a := Current(reserves[key], slot);
      PreparedAgain(reserves[key], slot);
      assert reserves[key := a][w] == if w == key then a else reserves[w];
      if PrepareReason(reserves[w], slot).None? {
        var b := Current(reserves[w], slot);
        CurrentKeeps(reserves[key], slot);
        SeizeIff(a, b, o, key, w, n, slot);
        if I.Seize(a, b, o, key, w, n, slot).Err? {
          SeizeRefused(a, b, o, key, w, n, slot);
        } else {
          NothingToTake(n, DebtAt(LoanOf(o.borrows, key), a.index), a.price, b);
          RecordRefuses(a, I.Seize(a, b, o, key, w, n, slot).value.repaid);
        }
      }
    }
  }

  lemma NothingToTake(n: u64, owed: nat, price: u128, b: ReserveData)
    requires 0 < b.price && ReserveInv(b)
    ensures Taken(n, owed, price, b, 0) == 0
  {
    hide Priceable;
  }

  lemma RecordRefuses(r: ReserveData, amount: u64)
    ensures r.Repay(amount).Err? ==> r.Repay(amount) == Err(MathOverflow)
  {
  }

  // ---- Refreshes ------------------------------------------------------------------------------

  lemma PriceRefused(update: PriceUpdate, now: i64)
    requires ReadPrice(update, now).Err?
    ensures ReadPrice(update, now).error ==
      if !update.verified then PriceNotValid
      else if now - update.publishTime > 60 then PriceStale
      else if update.price <= 0 then PriceNotValid
      else if 50 * update.conf > update.price then PriceConfidenceTooWide
      else if !(-38 <= update.exponent <= 38) then Panic
      else MathOverflow
  {
    hide Pow10;
    PowerFitsIff(Magnitude(update.exponent));
  }

  lemma RefreshReserveRefused(r: ReserveData, update: PriceUpdate, slot: u64, now: i64)
    requires ReserveInv(r) && I.RefreshReserve(r, update, slot, now).Err?
    ensures ReadPrice(update, now).Err? || update.account != r.config.pythOracle || !Accruable(r, slot)
    ensures I.RefreshReserve(r, update, slot, now).error ==
      if update.account != r.config.pythOracle then InvalidConfig
      else if !Accruable(r, slot) then StallReason(r)
      else ReadPrice(update, now).error
  {
    hide ReserveData.Accrue, Accruable, ReadPrice, ReserveInv;
    if Accruable(r, slot) {
      CurrentKeeps(r, slot);
    } else {
      AccrualRefused(r, slot);
    }
  }

  lemma LoanUnpriced(b: BorrowSlot, reserves: I.Reserves)
    requires BorrowSlotOk(b) && (b.reserve in reserves ==> ReserveInv(reserves[b.reserve]))
    requires I.PriceBorrow(b, reserves).Err?
    ensures I.PriceBorrow(b, reserves).error ==
      if b.reserve !in reserves then BorrowNotFound
      else if reserves[b.reserve].index < b.index then BorrowRateDecreased
      else MathOverflow
  {
    if b.reserve in reserves {
      ExchangeRateUsed(reserves[b.reserve]);
    }
  }

  lemma DepositUnpriced(d: DepositSlot, reserves: I.Reserves)
    requires d.reserve in reserves ==> ReserveInv(reserves[d.reserve])
    requires I.PriceDeposit(d, reserves).Err?
    ensures I.PriceDeposit(d, reserves).error == if d.reserve !in reserves then DepositNotFound else MathOverflow
  {
    if d.reserve in reserves {
      ExchangeRateUsed(reserves[d.reserve]);
    }
  }

  /** Slot `i` is the first from `from` on that cannot be valued, and `e` says why. */
  ghost predicate FirstBadLoan(slots: BorrowTable, reserves: I.Reserves, from: nat, i: nat, e: LendingError) {
    && from <= i < MAX_SLOTS && I.PriceBorrow(slots[i], reserves) == Err(e)
    && forall j :: from <= j < i ==> I.PriceBorrow(slots[j], reserves).Ok?
  }

  lemma {:induction false} BorrowLoopRefused(slots: BorrowTable, reserves: I.Reserves, from: nat, count: nat)
    requires count <= MAX_SLOTS && I.PriceBorrows(slots, reserves, from, count).Err?
    ensures var e := I.PriceBorrows(slots, reserves, from, count).error;
      exists i :: from <= i < count && FirstBadLoan(slots, reserves, from, i, e)
    decreases count - from
  {
    hide I.PriceBorrow;
    var e := I.PriceBorrows(slots, reserves, from, count).error;
    if I.PriceBorrow(slots[from], reserves).Ok? {
      var next := slots[from := I.PriceBorrow(slots[from], reserves).value];
      BorrowLoopRefused(next, reserves, from + 1, count);
      var i :| from + 1 <= i < count && FirstBadLoan(next, reserves, from + 1, i, e);
      assert forall j :: from + 1 <= j <= i ==> next[j] == slots[j];
      assert FirstBadLoan(slots, reserves, from, i, e);
    } else {
      assert FirstBadLoan(slots, reserves, from, from, e);
    }
  }

  /** Slot `i` is the first from `from` on that cannot be valued, and `e` says why. */
  ghost predicate FirstBadDeposit(slots: DepositTable, reserves: I.Reserves, from: nat, i: nat, e: LendingError) {
    && from <= i < MAX_SLOTS && I.PriceDeposit(slots[i], reserves) == Err(e)
    && forall j :: from <= j < i ==> I.PriceDeposit(slots[j], reserves).Ok?
  }

  lemma {:induction false} DepositLoopRefused(slots: DepositTable, reserves: I.Reserves, from: nat, count: nat)
    requires count <= MAX_SLOTS && I.PriceDeposits(slots, reserves, from, count).Err?
    ensures var e := I.PriceDeposits(slots, reserves, from, count).error;
      exists i :: from <= i < count && FirstBadDeposit(slots, reserves, from, i, e)
    decreases count - from
  {
    hide I.PriceDeposit;
    var e := I.PriceDeposits(slots, reserves, from, count).error;
    if I.PriceDeposit(slots[from], reserves).Ok? {
      var next := slots[from := I.PriceDeposit(slots[from], reserves).value];
      DepositLoopRefused(next, reserves, from + 1, count);
      var i :| from + 1 <= i < count && FirstBadDeposit(next, reserves, from + 1, i, e);
      assert forall j :: from + 1 <= j <= i ==> next[j] == slots[j];
      assert FirstBadDeposit(slots, reserves, from, i, e);
    } else {
      assert FirstBadDeposit(slots, reserves, from, from, e);
    }
  }

  /** Loan `i` is the first in sight that cannot be valued: its account is missing, the index has fallen, or a product
   *  does not fit.
   */
  ghost predicate LoanFails(o: ObligationData, reserves: I.Reserves, i: nat, e: LendingError) {
    && i < o.borrowsCount && i < MAX_SLOTS && !LoanPriceable(o.borrows[i], reserves)
    && (forall j :: 0 <= j < i ==> LoanPriceable(o.borrows[j], reserves))
    && var b := o.borrows[i];
       e == if b.reserve !in reserves then BorrowNotFound
            else if reserves[b.reserve].index < b.index then BorrowRateDecreased
            else MathOverflow
  }

  /** All loans in sight can be valued, and deposit `i` is the first that cannot. */
  ghost predicate DepositFails(o: ObligationData, reserves: I.Reserves, i: nat, e: LendingError) {
    && o.borrowsCount <= MAX_SLOTS && (forall j :: 0 <= j < o.borrowsCount ==> LoanPriceable(o.borrows[j], reserves))
    && i < o.depositsCount && i < MAX_SLOTS && !DepositPriceable(o.deposits[i], reserves)
    && (forall j :: 0 <= j < i ==> DepositPriceable(o.deposits[j], reserves))
    && e == if o.deposits[i].reserve !in reserves then DepositNotFound else MathOverflow
  }

  lemma LoanLoopRefused(o: ObligationData, reserves: I.Reserves, e: LendingError)
    requires Wf(o) && AllSound(reserves) && o.borrowsCount <= MAX_SLOTS
    requires I.PriceBorrows(o.borrows, reserves, 0, o.borrowsCount) == Err(e)
    ensures exists i: nat :: LoanFails(o, reserves, i, e)
  {
    hide ReserveInv, I.PriceBorrow, I.PriceBorrows, LoanPriceable;
    forall i | 0 <= i < MAX_SLOTS
      ensures I.PriceBorrow(o.borrows[i], reserves).Ok? <==> LoanPriceable(o.borrows[i], reserves)
    {
      PriceBorrowIff(o.borrows[i], reserves);
    }
    BorrowLoopRefused(o.borrows, reserves, 0, o.borrowsCount);
    var i :| 0 <= i < o.borrowsCount && FirstBadLoan(o.borrows, reserves, 0, i, e);
    LoanUnpriced(o.borrows[i], reserves);
    assert LoanFails(o, reserves, i, e);
  }

  lemma CollateralLoopRefused(o: ObligationData, reserves: I.Reserves, e: LendingError)
    requires AllSound(reserves) && o.borrowsCount <= MAX_SLOTS && o.depositsCount <= MAX_SLOTS
    requires forall j :: 0 <= j < o.borrowsCount ==> LoanPriceable(o.borrows[j], reserves)
    requires I.PriceDeposits(o.deposits, reserves, 0, o.depositsCount) == Err(e)
    ensures exists i: nat :: DepositFails(o, reserves, i, e)
  {
    hide ReserveInv, I.PriceDeposit, I.PriceDeposits, LoanPriceable, DepositPriceable;
    forall i | 0 <= i < MAX_SLOTS
      ensures I.PriceDeposit(o.deposits[i], reserves).Ok? <==> DepositPriceable(o.deposits[i], reserves)
    {
      PriceDepositIff(o.deposits[i], reserves);
    }
    DepositLoopRefused(o.deposits, reserves, 0, o.depositsCount);
    var i :| 0 <= i < o.depositsCount && FirstBadDeposit(o.deposits, reserves, 0, i, e);
    DepositUnpriced(o.deposits[i], reserves);
    assert DepositFails(o, reserves, i, e);
  }

  /** A refused refresh names the first slot that cannot be valued, loans before deposits. */
  lemma RefreshObligationRefused(o: ObligationData, reserves: I.Reserves, slot: u64)
    requires Wf(o) && AllSound(reserves) && I.RefreshObligation(o, reserves, slot).Err?
    ensures var e := I.RefreshObligation(o, reserves, slot).error;
      (exists i: nat :: LoanFails(o, reserves, i, e)) || (exists i: nat :: DepositFails(o, reserves, i, e))
  {
    hide Wf, AllSound, I.PriceBorrow, I.PriceDeposit, I.PriceBorrows, I.PriceDeposits, LoanFails, DepositFails,
      LoanPriceable;
    TablesAreMaps(o);
    var e := I.RefreshObligation(o, reserves, slot).error;
    if I.PriceBorrows(o.borrows, reserves, 0, o.borrowsCount).Err? {
      LoanLoopRefused(o, reserves, e);
    } else {
      LoansPriceable(o, reserves);
      CollateralLoopRefused(o, reserves, e);
    }
  }

  lemma LoansPriceable(o: ObligationData, reserves: I.Reserves)
    requires Wf(o) && AllSound(reserves) && o.borrowsCount <= MAX_SLOTS
    requires I.PriceBorrows(o.borrows, reserves, 0, o.borrowsCount).Ok?
    ensures forall j :: 0 <= j < o.borrowsCount ==> LoanPriceable(o.borrows[j], reserves)
  {
    hide ReserveInv, I.PriceBorrow, I.PriceBorrows, LoanPriceable;
    BorrowLoop(o.borrows, reserves, 0, o.borrowsCount);
    forall j | 0 <= j < o.borrowsCount ensures LoanPriceable(o.borrows[j], reserves) {
      PriceBorrowIff(o.borrows[j], reserves);
    }
  }
}
