/** When instructions are refused: exactly, for one instruction, and what refusals protect over whole runs. */
module Guards {
  import opened Arithmetic
  import opened Numeric
  import opened ReserveModel
  import opened ReserveProperties
  import opened ObligationModel
  import opened ObligationProperties
  import opened PriceOracle
  import opened InstructionProperties
  import opened Health
  import opened Accruals
  import opened Market
  import opened MarketInvariant
  import opened ReserveFlows
  import opened RoundTrips
  import I = InstructionModel

  // ---- One instruction ------------------------------------------------------------------------

  /** A deposit is accepted exactly within the limit and the widths; minting itself never overflows. */
  lemma DepositAcceptedIff(r: ReserveData, amount: u64, slot: u64)
    requires ReserveInv(r)
    ensures Accruable(r, slot) <==> r.Accrue(slot).Ok?
    ensures I.Deposit(r, amount, slot).Ok? <==>
      && Accruable(r, slot)
      && var a := r.Accrue(slot).value;
      && 0 < amount && r.config.IsActive()
      && a.Supply() + amount <= a.config.depositLimit && a.available + amount <= U64_MAX
  {
    hide ReserveData.Accrue, ReserveData.CollateralExchangeRate, ExchangeRate.LiquidityToCollateral, Accruable;
    AccrueAcceptedIff(r, slot);
    if Accruable(r, slot) {
      AccrueEffect(r, slot);
      var a := r.Accrue(slot).value;
      ExchangeRateUsed(a);
      var rate := a.CollateralExchangeRate();
      RateConverts(rate, amount);
      MintedShare(rate, amount);
    }
  }

  lemma RateConverts(rate: ExchangeRate, amount: u64)
    requires rate.collateralSupply <= U64_MAX && 0 < rate.totalLiquidity
    ensures rate.LiquidityToCollateral(amount).Ok?
  {
    FitsIn128(amount, rate.collateralSupply);
  }

  /** A withdrawal is accepted exactly when the product fits, the cTokens exist and the idle liquidity covers the share
   *  as reduced to 64 bits, which is what it pays.
   */
  lemma WithdrawAcceptedIff(r: ReserveData, amount: u64, slot: u64)
    requires ReserveInv(r)
    ensures Accruable(r, slot) <==> r.Accrue(slot).Ok?
    ensures Accruable(r, slot) ==> ReserveInv(r.Accrue(slot).value)
    ensures I.Withdraw(r, amount, slot).Ok? <==>
      && Accruable(r, slot)
      && var a := r.Accrue(slot).value;
      && 0 < amount <= a.ctokens && r.config.IsActive()
      && amount * a.Supply() <= U128_MAX && Worth(a, amount) % U64_MODULUS <= a.available
    ensures I.Withdraw(r, amount, slot).Ok? ==>
      I.Withdraw(r, amount, slot).value.1 == Worth(r.Accrue(slot).value, amount) % U64_MODULUS
  {
    hide ReserveData.Accrue, ReserveData.RedeemCollateral, Worth, Accruable;
    AccrueAcceptedIff(r, slot);
    if Accruable(r, slot) {
      AccrueEffect(r, slot);
      var a := r.Accrue(slot).value;
      if 0 < a.ctokens {
        RedeemIs(a, amount);
      } else if a.RedeemCollateral(amount).Ok? {
        RedeemBounded(a, amount);
      }
    }
  }

  lemma CatchUpSucceeds(o: ObligationData, key: Pubkey, index: u128)
    requires Wf(o) && key != DEFAULT_PUBKEY
    requires LoanOf(o.borrows, key).Some? ==> LoanOf(o.borrows, key).value.index <= index
    ensures I.CatchUp(o, key, index).Ok?
       <==> LoanOf(o.borrows, key).None? || Computable(LoanOf(o.borrows, key).value, index)
    ensures I.CatchUp(o, key, index).Ok? ==> var p := I.CatchUp(o, key, index).value;
      && BorrowKeys(p.borrows) == BorrowKeys(o.borrows) && BorrowValues(p.borrows) == BorrowValues(o.borrows)
      && p == o.(borrows := p.borrows)
  {
    var p := Position(BorrowKeys(o.borrows), key);
    if p.Some? {
      DebtAtCatchesUp(LoanIn(o.borrows[p.value]), index);
    }
  }

  /** How many slots the check scans once a borrow of `key` has its slot. */
  function ScannedAfter(o: ObligationData, key: Pubkey): nat {
    o.borrowsCount + if LoanOf(o.borrows, key).None? then 1 else 0
  }

  lemma BorrowKeepsValues(o: ObligationData, key: Pubkey, amount: u128, index: u128)
    requires Wf(o) && key != DEFAULT_PUBKEY && o.Borrow(key, amount, index).Ok? && o.borrowsCount <= MAX_SLOTS
    ensures var p := o.Borrow(key, amount, index).value;
      && BorrowValues(p.borrows) == BorrowValues(o.borrows) && p.borrowsCount == ScannedAfter(o, key)
      && p.deposits == o.deposits && p.depositsCount == o.depositsCount
  {
  }

  /** The inline check in terms of the table before the borrow. */
  lemma CheckAfterBorrow(o: ObligationData, key: Pubkey, amount: u64, index: u128, price: u128)
    requires Wf(o) && o.depositsCount <= MAX_SLOTS && o.borrowsCount <= MAX_SLOTS && ScannedAfter(o, key) <= MAX_SLOTS
    requires key != DEFAULT_PUBKEY && o.Borrow(key, amount, index).Ok?
    ensures I.CheckBorrow(o.Borrow(key, amount, index).value, amount, price).Ok? <==>
      && Sum(DepositValues(o.deposits)[..o.depositsCount]) <= U128_MAX
      && Sum(BorrowValues(o.borrows)[..ScannedAfter(o, key)]) + amount * price
         <= Sum(DepositValues(o.deposits)[..o.depositsCount])
  {
    hide ObligationData.Borrow, Wf;
    BorrowKeepsValues(o, key, amount, index);
    Mono(0, amount, price);
  }

  lemma NothingOwed(index: nat)
    ensures DebtAt(None, index) == 0
  {
  }

  lemma Lends(r: ReserveData, amount: u64)
    ensures r.Borrow(amount).Ok? <==> r.borrowed < r.config.borrowLimit && amount <= r.available
    ensures r.Borrow(amount).Ok? ==> r.Borrow(amount).value.index == r.index && r.Borrow(amount).value.price == r.price
  {
  }

  /** A borrow is accepted exactly when the reserve may lend it, the obligation is fresh and has room for it, the loan
   *  can be caught up, and the cached collateral covers the cached debt together with the new debt, both as far as
   *  the scan reaches.
   */
  lemma BorrowAcceptedIff(r: ReserveData, o: ObligationData, key: Pubkey, amount: u64, slot: u64)
    requires ReserveInv(r) && Wf(o) && key != DEFAULT_PUBKEY
    requires LoanOf(o.borrows, key).Some? ==> LoanOf(o.borrows, key).value.index <= r.index
    ensures Accruable(r, slot) <==> r.Accrue(slot).Ok?
    ensures LoanOf(o.borrows, key).Some? ==> 0 < LoanOf(o.borrows, key).value.index
    ensures o.depositsCount <= MAX_SLOTS && o.borrowsCount <= MAX_SLOTS
    ensures I.Borrow(r, o, key, amount, slot).Ok? <==>
      && Accruable(r, slot)
      && var a, loan := r.Accrue(slot).value, LoanOf(o.borrows, key);
      && 0 < amount && r.config.IsActive() && 0 < r.price
      && a.borrowed < a.config.borrowLimit && amount <= a.available
      && slot == o.lastUpdateSlot
      && ScannedAfter(o, key) <= MAX_SLOTS
      && (loan.Some? ==> Computable(loan.value, a.index))
      && DebtAt(loan, a.index) + amount * RATE_SCALE <= U128_MAX
      && Sum(DepositValues(o.deposits)[..o.depositsCount]) <= U128_MAX
      && Sum(BorrowValues(o.borrows)[..ScannedAfter(o, key)]) + amount * r.price
         <= Sum(DepositValues(o.deposits)[..o.depositsCount])
  {
    hide ReserveData.Accrue, ReserveData.Borrow, I.CatchUp, I.CheckBorrow, ObligationData.Borrow, Wf, LoanOf, DebtAt,
      Sum, Computable, Accruable;
    AccrueAcceptedIff(r, slot);
    LoanIndexPositive(o);
    TablesAreMaps(o);
    if Accruable(r, slot) {
      AccruedBorrowIff(r, o, key, amount, slot);
    }
  }

  lemma AccruedBorrowIff(r: ReserveData, o: ObligationData, key: Pubkey, amount: u64, slot: u64)
    requires ReserveInv(r) && Wf(o) && key != DEFAULT_PUBKEY && r.Accrue(slot).Ok?
    requires LoanOf(o.borrows, key).Some? ==> 0 < LoanOf(o.borrows, key).value.index <= r.index
    requires o.depositsCount <= MAX_SLOTS && o.borrowsCount <= MAX_SLOTS
    ensures I.Borrow(r, o, key, amount, slot).Ok? <==>
      var a, loan := r.Accrue(slot).value, LoanOf(o.borrows, key);
      && 0 < amount && r.config.IsActive() && 0 < r.price
      && a.borrowed < a.config.borrowLimit && amount <= a.available
      && slot == o.lastUpdateSlot
      && ScannedAfter(o, key) <= MAX_SLOTS
      && (loan.Some? ==> Computable(loan.value, a.index))
      && DebtAt(loan, a.index) + amount * RATE_SCALE <= U128_MAX
      && Sum(DepositValues(o.deposits)[..o.depositsCount]) <= U128_MAX
      && Sum(BorrowValues(o.borrows)[..ScannedAfter(o, key)]) + amount * r.price
         <= Sum(DepositValues(o.deposits)[..o.depositsCount])
  {
    hide ReserveData.Accrue, ReserveData.Borrow, I.CatchUp, I.CheckBorrow, ObligationData.Borrow, Wf, LoanOf, DebtAt,
      Sum, Computable;
    AccrueEffect(r, slot);
    var a := r.Accrue(slot).value;
    CatchUpSucceeds(o, key, a.index);
    NothingOwed(a.index);
    Lends(a, amount);
    if I.CatchUp(o, key, a.index).Ok? {
      CatchUpEffect(o, key, a.index);
      var current := I.CatchUp(o, key, a.index).value;
      BorrowAccepted(current, key, amount, a.index);
      if current.Borrow(key, amount, a.index).Ok? {
        CheckAfterBorrow(current, key, amount, a.index, r.price);
      }
    }
  }

  lemma SeizeNeeds(repay: ReserveData, withdraw: ReserveData, o: ObligationData,
                   key: Pubkey, seizedKey: Pubkey, amount: u64, slot: u64)
    requires Wf(o) && I.Seize(repay, withdraw, o, key, seizedKey, amount, slot).Ok?
    ensures slot == o.lastUpdateSlot && o.IsHealthy() == Ok(false)
  {
  }

  lemma PrepareNeeds(r: ReserveData, slot: u64)
    ensures I.Prepare(r, slot).Ok? ==> r.config.IsActive() && r.Accrue(slot) == I.Prepare(r, slot)
    ensures I.Prepare(r, slot).Ok? ==> 0 < I.Prepare(r, slot).value.price
  {
  }

  /** Nobody is liquidated except in an unpaused market, on active and priced reserves, after a refresh in the same
   *  slot by which the position is not covered RATE_SCALE times.
   */
  lemma OnlyUncoveredAreLiquidated(s: State, l: nat, u: nat, key: Pubkey, w: Pubkey, amount: u64, to: Destination)
    requires Inv(s) && Exec(s, Liquidate(l, u, key, w, amount, to)).Ok?
    ensures Exists(s, u, key) && w in s.pools && !s.paused
    ensures s.pools[key].reserve.config.IsActive() && s.pools[w].reserve.config.IsActive()
    ensures 0 < s.pools[key].reserve.price && 0 < s.pools[w].reserve.price
    ensures var o := s.users[u].obligation;
      && o.lastUpdateSlot == s.slot
      && o.depositsCount <= MAX_SLOTS && o.borrowsCount <= MAX_SLOTS
      && SeenDeposits(o) < RATE_SCALE * SeenBorrows(o)
  {
    hide Inv, Wf, I.Prepare, I.Seize, Settle, SeenDeposits, SeenBorrows, ObligationData.IsHealthy;
    PoolOk(s, key);
    PoolOk(s, w);
    UserOk(s, u);
    var o, reserves := s.users[u].obligation, Reserves(s.pools);
    LiquidateEffect(reserves, o, key, w, amount, s.slot);
    var x := I.Liquidate(reserves, o, key, w, amount, s.slot).value;
    PrepareNeeds(reserves[key], s.slot);
    PrepareNeeds(reserves[key := x.repay][w], s.slot);
    AccrueEffect(reserves[key], s.slot);
    AccrueEffect(reserves[w], s.slot);
    SeizeNeeds(x.repay, x.withdraw, o, key, w, amount, s.slot);
    TablesAreMaps(o);
    HealthyIff(o);
  }

  // ---- Runs -----------------------------------------------------------------------------------

  /** What `t` still has of reserve `key` compared with `s` when nothing may leave. */
  predicate NothingLeft(s: State, t: State, key: Pubkey)
    requires key in s.pools
  {
    && key in t.pools
    && s.pools[key].liquidityVault <= t.pools[key].liquidityVault
    && t.pools[key].collateralVault == s.pools[key].collateralVault
    && t.pools[key].ctokenSupply == s.pools[key].ctokenSupply
  }

  lemma PausedStep(s: State, ix: Instruction, key: Pubkey)
    requires s.paused && key in s.pools && Exec(s, ix).Ok? && !ix.SetPaused?
    ensures Exec(s, ix).value.paused && NothingLeft(s, Exec(s, ix).value, key)
  {
    hide I.Repay, I.RefreshReserve, I.RefreshObligation;
  }

  /** While the market is paused no token leaves a vault, no cToken is minted, burned, locked or released; debts can
   *  still be repaid.
   */
  lemma {:induction false} PausedMarketHoldsEverything(s: State, ixs: seq<Instruction>, key: Pubkey)
    requires s.paused && key in s.pools && forall ix :: ix in ixs ==> !ix.SetPaused?
    ensures Run(s, ixs).paused && NothingLeft(s, Run(s, ixs), key)
  {
    hide Exec;
    if |ixs| == 0 {
    } else {
      var earlier, ix := ixs[..|ixs| - 1], ixs[|ixs| - 1];
      PausedMarketHoldsEverything(s, earlier, key);
      if Exec(Run(s, earlier), ix).Ok? {
        PausedStep(Run(s, earlier), ix, key);
      }
    }
  }

  /** The pool of a reserve that is not active: only interest, a price or a release of collateral changes it. */
  predicate Frozen(s: State, t: State, key: Pubkey)
    requires key in s.pools
  {
    && key in t.pools && t.pools[key].reserve.config == s.pools[key].reserve.config
    && t.pools[key].liquidityVault == s.pools[key].liquidityVault
    && t.pools[key].reserve.available == s.pools[key].reserve.available
    && t.pools[key].collateralVault <= s.pools[key].collateralVault
    && t.pools[key].reserve.ctokens == s.pools[key].reserve.ctokens
    && s.pools[key].reserve.borrowed <= t.pools[key].reserve.borrowed
  }

  lemma Inactive(r: ReserveData, o: ObligationData, key: Pubkey, amount: u64, slot: u64)
    requires !r.config.IsActive()
    ensures I.Deposit(r, amount, slot).Err? && I.Withdraw(r, amount, slot).Err?
    ensures I.Borrow(r, o, key, amount, slot).Err? && I.Repay(r, o, key, amount, slot).Err?
    ensures I.DepositCollateral(r, o, key, amount).Err?
  {
  }

  /** The instructions that need an active reserve cannot touch this one. */
  lemma InactiveIsUntouched(s: State, ix: Instruction, key: Pubkey)
    requires Inv(s) && key in s.pools && !s.pools[key].reserve.config.IsActive() && Exec(s, ix).Ok?
    requires ix.Deposit? || ix.Withdraw? || ix.DepositCollateral? || ix.Borrow? || ix.Repay? || ix.Liquidate?
    ensures key in Exec(s, ix).value.pools && Exec(s, ix).value.pools[key] == s.pools[key]
  {
    hide Inv, SeenDeposits, SeenBorrows, I.Deposit, I.Withdraw, I.DepositCollateral, I.Borrow, I.Repay, I.Liquidate;
    if ix.Liquidate? {
      OnlyUncoveredAreLiquidated(s, ix.liquidator, ix.user, ix.reserve, ix.seizedReserve, ix.amount, ix.to);
    } else if ix.reserve == key {
      Inactive(s.pools[key].reserve, s.users[ix.user].obligation, key, ix.amount, s.slot);
    }
  }

  lemma FrozenStep(s: State, ix: Instruction, key: Pubkey)
    requires Inv(s) && key in s.pools && !s.pools[key].reserve.config.IsActive() && Exec(s, ix).Ok?
    requires !(ix.UpdateConfig? && ix.reserve == key)
    ensures Frozen(s, Exec(s, ix).value, key)
  {
    hide Inv, I.Repay, I.RefreshObligation, I.Deposit, I.Withdraw, I.Borrow, I.Liquidate, I.WithdrawCollateral,
      I.DepositCollateral, ReserveData.Accrue, ReserveInv;
    if ix.Deposit? || ix.Withdraw? || ix.DepositCollateral? || ix.Borrow? || ix.Repay? || ix.Liquidate? {
      InactiveIsUntouched(s, ix, key);
    } else if ix.RefreshReserve? && ix.reserve == key {
      PoolOk(s, key);
      AccrueEffect(s.pools[key].reserve, s.slot);
    }
  }

  /** While a reserve is not active nothing enters or leaves its liquidity vault and no cToken of it is minted, burned
   *  or locked; its debt only grows, by interest.
   */
  lemma {:induction false} FrozenReserveStaysPut(s: State, ixs: seq<Instruction>, key: Pubkey)
    requires Inv(s) && key in s.pools && !s.pools[key].reserve.config.IsActive()
    requires forall ix :: ix in ixs ==> !(ix.UpdateConfig? && ix.reserve == key)
    ensures Frozen(s, Run(s, ixs), key)
  {
    hide Inv, Exec;
    if |ixs| == 0 {
    } else {
      var earlier, ix := ixs[..|ixs| - 1], ixs[|ixs| - 1];
      FrozenReserveStaysPut(s, earlier, key);
      RunKeepsInv(s, earlier);
      if Exec(Run(s, earlier), ix).Ok? {
        FrozenStep(Run(s, earlier), ix, key);
      }
    }
  }

  // ---- Reserves whose interest cannot be booked -----------------------------------------------

  /** Interest on reserve `key` cannot be booked in this slot. */
  predicate Stalled(s: State, key: Pubkey)
    requires key in s.pools && ReserveInv(s.pools[key].reserve)
  {
    !Accruable(s.pools[key].reserve, s.slot)
  }

  lemma NothingWithoutAccrual(r: ReserveData, o: ObligationData, key: Pubkey, amount: u64, slot: u64,
                              update: PriceUpdate, now: i64)
    requires r.Accrue(slot).Err?
    ensures I.Deposit(r, amount, slot).Err? && I.Withdraw(r, amount, slot).Err?
    ensures I.Borrow(r, o, key, amount, slot).Err? && I.Repay(r, o, key, amount, slot).Err?
    ensures I.RefreshReserve(r, update, slot, now).Err?
  {
    hide ReserveData.Accrue;
  }

  lemma NoLiquidationWithoutAccrual(reserves: I.Reserves, o: ObligationData, key: Pubkey, w: Pubkey, amount: u64,
                                    slot: u64)
    requires key in reserves && w in reserves && (reserves[key].Accrue(slot).Err? || reserves[w].Accrue(slot).Err?)
    ensures I.Liquidate(reserves, o, key, w, amount, slot).Err?
  {
    hide ReserveData.Accrue, I.Seize;
  }

  /** Such a reserve refuses every instruction that would move its liquidity, its debt or its price. */
  lemma StalledRefuses(s: State, ix: Instruction, key: Pubkey)
    requires Inv(s) && key in s.pools && ReserveInv(s.pools[key].reserve) && Stalled(s, key) && Accrues(ix, key)
    ensures Exec(s, ix).Err?
  {
    hide Inv, I.Deposit, I.Withdraw, I.Borrow, I.Repay, I.RefreshReserve, I.Liquidate, ReserveData.Accrue, Accruable;
    var r := s.pools[key].reserve;
    AccrueAcceptedIff(r, s.slot);
    if ix.Liquidate? {
      if Exists(s, ix.user, ix.reserve) && ix.seizedReserve in s.pools {
        NoLiquidationWithoutAccrual(Reserves(s.pools), s.users[ix.user].obligation, ix.reserve,
          ix.seizedReserve, ix.amount, s.slot);
      }
    } else if ix.RefreshReserve? {
      NothingWithoutAccrual(r, NewObligation(), key, 0, s.slot, ix.update, ix.now);
    } else if ix.user < |s.users| {
      NothingWithoutAccrual(r, s.users[ix.user].obligation, key, ix.amount, s.slot,
        PriceUpdate(0, false, 0, 0, 0, 0), 0);
    }
  }

  lemma SlotNeverFalls(s: State, ix: Instruction)
    requires Exec(s, ix).Ok?
    ensures s.slot <= Exec(s, ix).value.slot
  {
    hide I.Deposit, I.Withdraw, I.DepositCollateral, I.WithdrawCollateral, I.Borrow, I.Repay, I.Liquidate,
      I.RefreshObligation, I.RefreshReserve;
  }

  /** No run gets it going again: short of another configuration the reserve stays exactly as it is. */
  lemma {:induction false} StalledForever(s: State, ixs: seq<Instruction>, key: Pubkey)
    requires Inv(s) && key in s.pools && ReserveInv(s.pools[key].reserve) && Stalled(s, key)
    requires forall ix :: ix in ixs ==> !(ix.UpdateConfig? && ix.reserve == key)
    ensures key in Run(s, ixs).pools && Run(s, ixs).pools[key].reserve == s.pools[key].reserve
    ensures Stalled(Run(s, ixs), key)
  {
    hide Inv, Exec, Accruable, ReserveInv;
    if |ixs| == 0 {
    } else {
      var earlier, ix := ixs[..|ixs| - 1], ixs[|ixs| - 1];
      var m := Run(s, earlier);
      StalledForever(s, earlier, key);
      RunKeepsInv(s, earlier);
      if Exec(m, ix).Ok? {
        if Accrues(ix, key) {
          StalledRefuses(m, ix, key);
        }
        NoAccrualUntouched(m, ix, key);
        SlotNeverFalls(m, ix);
        StallPersists(s.pools[key].reserve, m.slot, Exec(m, ix).value.slot);
      }
    }
  }
}
