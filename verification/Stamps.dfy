/** What only a refresh changes: stamps, prices and the cached values of loans. */
module Stamps {
  import opened Numeric
  import opened ReserveModel
  import opened ObligationModel
  import opened Market
  import opened MarketInvariant
  import opened MarketSteps
  import opened ReserveFlows
  import Acceptance
  import Accruals
  import Balances
  import PriceOracle
  import I = InstructionModel

  // ---- Loans ----------------------------------------------------------------------------------

  /** The slot keeps its key and its cached value, or is opened without one, or closed. */
  predicate KeepsValue(b: BorrowSlot, c: BorrowSlot) {
    || (c.reserve == b.reserve && c.value == b.value)
    || (b.reserve == DEFAULT_PUBKEY && c.value == 0)
    || c == BorrowSlot(DEFAULT_PUBKEY, 0, RATE_SCALE, 0)
  }

  /** `p` is stamped as `o` was, and no loan of it has been revalued. */
  predicate NotRefreshed(o: ObligationData, p: ObligationData) {
    && p.lastUpdateSlot == o.lastUpdateSlot && p.lastUpdateTime == o.lastUpdateTime
    && forall j :: 0 <= j < MAX_SLOTS ==> KeepsValue(o.borrows[j], p.borrows[j])
  }

  lemma BorrowKeepsValues(o: ObligationData, key: Pubkey, amount: u128, index: u128)
    requires o.Borrow(key, amount, index).Ok?
    ensures NotRefreshed(o, o.Borrow(key, amount, index).value)
  {
  }

  lemma RepayKeepsValues(o: ObligationData, key: Pubkey, amount: u128)
    requires o.Repay(key, amount).Ok?
    ensures NotRefreshed(o, o.Repay(key, amount).value)
  {
  }

  lemma CatchUpKeepsValues(o: ObligationData, i: nat, index: u128)
    requires i < MAX_SLOTS && o.AccrueInterest(i, index).Ok?
    ensures NotRefreshed(o, o.AccrueInterest(i, index).value)
    ensures forall j :: 0 <= j < MAX_SLOTS ==>
      o.AccrueInterest(i, index).value.borrows[j].reserve == o.borrows[j].reserve
      && o.AccrueInterest(i, index).value.borrows[j].value == o.borrows[j].value
  {
  }

  lemma WithdrawKeepsLoans(o: ObligationData, key: Pubkey, amount: u64)
    requires o.Withdraw(key, amount).Ok?
    ensures var p := o.Withdraw(key, amount).value;
      p.borrows == o.borrows && p.lastUpdateSlot == o.lastUpdateSlot && p.lastUpdateTime == o.lastUpdateTime
  {
  }

  lemma BorrowedNotRefreshed(r: ReserveData, o: ObligationData, key: Pubkey, amount: u64, slot: u64)
    requires I.Borrow(r, o, key, amount, slot).Ok?
    ensures NotRefreshed(o, I.Borrow(r, o, key, amount, slot).value.1)
  {
    hide ReserveData.Accrue, ReserveData.Borrow, ObligationData.Borrow, ObligationData.AccrueInterest, I.CheckBorrow;
    var lent := r.Accrue(slot).value.Borrow(amount).value;
    var p := Position(BorrowKeys(o.borrows), key);
    if p.Some? {
      CatchUpKeepsValues(o, p.value, lent.index);
    }
    BorrowKeepsValues(I.CatchUp(o, key, lent.index).value, key, amount, lent.index);
  }

  lemma RepaidNotRefreshed(r: ReserveData, o: ObligationData, key: Pubkey, amount: u64, slot: u64)
    requires I.Repay(r, o, key, amount, slot).Ok?
    ensures NotRefreshed(o, I.Repay(r, o, key, amount, slot).value.1)
  {
    hide ReserveData.Accrue, ReserveData.Repay, ObligationData.Repay, ObligationData.AccrueInterest;
    var i, index := Position(BorrowKeys(o.borrows), key).value, r.Accrue(slot).value.index;
    CatchUpKeepsValues(o, i, index);
    RepayKeepsValues(o.AccrueInterest(i, index).value, key, amount);
  }

  lemma SeizedNotRefreshed(a: ReserveData, b: ReserveData, o: ObligationData, key: Pubkey, w: Pubkey, n: u64, slot: u64)
    requires I.Seize(a, b, o, key, w, n, slot).Ok?
    ensures NotRefreshed(o, I.Seize(a, b, o, key, w, n, slot).value.obligation)
  {
    hide ObligationData.Repay, ObligationData.AccrueInterest, ObligationData.Withdraw, I.SeizeAmounts,
      ObligationData.IsHealthy, ReserveData.TotalSupply;
    var i := Position(BorrowKeys(o.borrows), key).value;
    CatchUpKeepsValues(o, i, a.index);
    var current := o.AccrueInterest(i, a.index).value;
    var (repaid, seized) := I.SeizeAmounts(a, b, current.borrows[i].debt, current, w, n).value;
    RepayKeepsValues(current, key, repaid);
    WithdrawKeepsLoans(current.Repay(key, repaid).value, w, seized);
  }

  lemma CollateralNotRefreshed(r: ReserveData, o: ObligationData, key: Pubkey, amount: u64, slot: u64)
    ensures I.DepositCollateral(r, o, key, amount).Ok? ==>
      NotRefreshed(o, I.DepositCollateral(r, o, key, amount).value)
    ensures I.WithdrawCollateral(o, key, amount, slot).Ok? ==>
      NotRefreshed(o, I.WithdrawCollateral(o, key, amount, slot).value)
  {
  }

  lemma LiquidatedNotRefreshed(reserves: I.Reserves, o: ObligationData, key: Pubkey, w: Pubkey, n: u64, slot: u64)
    requires key in reserves && w in reserves && I.Liquidate(reserves, o, key, w, n, slot).Ok?
    ensures NotRefreshed(o, I.Liquidate(reserves, o, key, w, n, slot).value.seizure.obligation)
  {
    hide I.Prepare, I.Seize, NotRefreshed;
    var a := I.Prepare(reserves[key], slot).value;
    var b := I.Prepare(reserves[key := a][w], slot).value;
    SeizedNotRefreshed(a, b, o, key, w, n, slot);
  }

  lemma OwnLoanKeepsValues(s: State, ix: Instruction)
    requires Exec(s, ix).Ok? && (ix.Borrow? || ix.Repay?)
    ensures ix.user < |s.users| && ix.user < |Exec(s, ix).value.users|
    ensures NotRefreshed(s.users[ix.user].obligation, Exec(s, ix).value.users[ix.user].obligation)
  {
    hide NotRefreshed, I.Borrow, I.Repay, CreditAt, DebitAt, Credit, Debit;
    var o := s.users[ix.user].obligation;
    if ix.Borrow? {
      BorrowedNotRefreshed(s.pools[ix.reserve].reserve, o, ix.reserve, ix.amount, s.slot);
    } else {
      RepaidNotRefreshed(s.pools[ix.reserve].reserve, o, ix.reserve, ix.amount, s.slot);
    }
  }

  lemma LiquidationKeepsValues(s: State, ix: Instruction)
    requires Inv(s) && Exec(s, ix).Ok? && ix.Liquidate?
    ensures ix.user < |s.users| && ix.user < |Exec(s, ix).value.users|
    ensures NotRefreshed(s.users[ix.user].obligation, Exec(s, ix).value.users[ix.user].obligation)
  {
    hide Inv, NotRefreshed, I.Liquidate, LiquidateStep;
    PoolOk(s, ix.reserve);
    LiquidateOutcome(s, ix.liquidator, ix.user, ix.reserve, ix.seizedReserve, ix.amount, ix.to);
    LiquidatedNotRefreshed(Reserves(s.pools), s.users[ix.user].obligation, ix.reserve, ix.seizedReserve, ix.amount,
      s.slot);
  }

  lemma OwnCollateralKeepsValues(s: State, ix: Instruction)
    requires Exec(s, ix).Ok? && (ix.DepositCollateral? || ix.WithdrawCollateral?)
    ensures ix.user < |s.users| && ix.user < |Exec(s, ix).value.users|
    ensures NotRefreshed(s.users[ix.user].obligation, Exec(s, ix).value.users[ix.user].obligation)
  {
    hide NotRefreshed, I.DepositCollateral, I.WithdrawCollateral;
    CollateralNotRefreshed(s.pools[ix.reserve].reserve, s.users[ix.user].obligation, ix.reserve, ix.amount, s.slot);
  }

  /** Nothing but a refresh of that very obligation stamps it or gives a loan of it another value; a loan is opened
   *  without one.
   */
  lemma OnlyRefreshRevalues(s: State, ix: Instruction, i: nat)
    requires Inv(s) && Exec(s, ix).Ok? && i < |s.users| && !(ix.RefreshObligation? && ix.user == i)
    ensures i < |Exec(s, ix).value.users|
    ensures NotRefreshed(s.users[i].obligation, Exec(s, ix).value.users[i].obligation)
  {
    hide Inv, Exec;
    Balances.OnlyNamedChange(s, ix);
    if Balances.ActsOn(ix, i) {
      if ix.DepositCollateral? || ix.WithdrawCollateral? {
        OwnCollateralKeepsValues(s, ix);
      } else if ix.Liquidate? {
        LiquidationKeepsValues(s, ix);
      } else {
        OwnLoanKeepsValues(s, ix);
      }
    }
  }

  // ---- Stale until refreshed ------------------------------------------------------------------

  /** The instruction lends to user `i`, releases its collateral or liquidates it. */
  predicate NeedsFresh(ix: Instruction, i: nat) {
    (ix.Borrow? || ix.WithdrawCollateral? || ix.Liquidate?) && ix.user == i
  }

  predicate Stale(s: State, i: nat) {
    i < |s.users| && s.users[i].obligation.lastUpdateSlot < s.slot
  }

  lemma StaleRefuses(s: State, ix: Instruction, i: nat)
    requires Inv(s) && Stale(s, i) && NeedsFresh(ix, i)
    ensures Exec(s, ix).Err?
  {
    hide Inv, Exec, Acceptance.Current, Accruals.Accruable, Acceptance.Amounts, Acceptance.Scannable;
    if ix.Borrow? {
      Acceptance.BorrowIff(s, i, ix.reserve, ix.amount, ix.to);
    } else if ix.WithdrawCollateral? {
      Acceptance.ReleaseIff(s, i, ix.reserve, ix.amount);
    } else {
      Acceptance.LiquidateIff(s, ix.liquidator, i, ix.reserve, ix.seizedReserve, ix.amount, ix.to);
    }
  }

  lemma StaysStale(s: State, ix: Instruction, i: nat)
    requires Inv(s) && Stale(s, i) && Exec(s, ix).Ok? && !(ix.RefreshObligation? && ix.user == i)
    ensures Stale(Exec(s, ix).value, i)
  {
    hide Inv, Exec;
    OnlyRefreshRevalues(s, ix, i);
    Balances.OnlyNamedChange(s, ix);
  }

  /** Over any run without a refresh of it, an obligation from an earlier slot gets no loan, gives up no collateral and
   *  is not liquidated.
   */
  lemma {:induction false} StaleUntilRefreshed(s: State, ixs: seq<Instruction>, i: nat)
    requires Inv(s) && Stale(s, i) && forall ix :: ix in ixs ==> !(ix.RefreshObligation? && ix.user == i)
    ensures Stale(Run(s, ixs), i)
    ensures forall n :: 0 <= n < |ixs| && NeedsFresh(ixs[n], i) ==> Exec(Run(s, ixs[..n]), ixs[n]).Err?
  {
    hide Inv, Exec, Stale, NeedsFresh;
    if |ixs| == 0 {
    } else {
      var last := |ixs| - 1;
      var m := Run(s, ixs[..last]);
      StaleUntilRefreshed(s, ixs[..last], i);
      RunKeepsInv(s, ixs[..last]);
      assert ixs[last] in ixs;
      if Exec(m, ixs[last]).Ok? {
        StaysStale(m, ixs[last], i);
      }
      if NeedsFresh(ixs[last], i) {
        StaleRefuses(m, ixs[last], i);
      }
      forall n | 0 <= n < |ixs| && NeedsFresh(ixs[n], i) ensures Exec(Run(s, ixs[..n]), ixs[n]).Err? {
        if n < last {
          assert ixs[..last][..n] == ixs[..n] && ixs[..last][n] == ixs[n];
        }
      }
    }
  }

  // ---- Reserves -------------------------------------------------------------------------------

  /** Booking interest stamps a reserve, reading a price dates it; nothing else does either. */
  predicate StampMoves(s: State, ix: Instruction, key: Pubkey)
    requires key in s.pools && Exec(s, ix).Ok?
  {
    && key in Exec(s, ix).value.pools
    && var r, q := s.pools[key].reserve, Exec(s, ix).value.pools[key].reserve;
    && q.lastUpdateSlot == (if Accrues(ix, key) && r.lastUpdateSlot < s.slot then s.slot else r.lastUpdateSlot)
    && q.priceTime == (if ix.RefreshReserve? && ix.reserve == key then ix.update.publishTime else r.priceTime)
  }

  lemma AccrualStamps(r: ReserveData, slot: u64)
    requires r.Accrue(slot).Ok?
    ensures var q := r.Accrue(slot).value;
      q.priceTime == r.priceTime && q.lastUpdateSlot == if r.lastUpdateSlot < slot then slot else r.lastUpdateSlot
  {
  }

  lemma PoolStamp(s: State, ix: Instruction, key: Pubkey)
    requires key in s.pools && Exec(s, ix).Ok? && (ix.Deposit? || ix.Withdraw?)
    ensures StampMoves(s, ix, key)
  {
    hide ReserveData.Accrue, ReserveData.CollateralExchangeRate, ReserveData.TotalSupply, CreditAt, DebitAt, Credit,
      Debit;
    if s.pools[key].reserve.Accrue(s.slot).Ok? {
      AccrualStamps(s.pools[key].reserve, s.slot);
    }
  }

  lemma LoanStamp(s: State, ix: Instruction, key: Pubkey)
    requires key in s.pools && Exec(s, ix).Ok? && (ix.Borrow? || ix.Repay?)
    ensures StampMoves(s, ix, key)
  {
    hide ReserveData.Accrue, I.CatchUp, I.CheckBorrow, ObligationData.Borrow, ObligationData.Repay,
      ObligationData.AccrueInterest, CreditAt, DebitAt, Credit, Debit;
    if s.pools[key].reserve.Accrue(s.slot).Ok? {
      AccrualStamps(s.pools[key].reserve, s.slot);
    }
  }

  lemma LiquidationStamp(s: State, ix: Instruction, key: Pubkey)
    requires Inv(s) && key in s.pools && Exec(s, ix).Ok? && ix.Liquidate?
    ensures StampMoves(s, ix, key)
  {
    hide Inv, ReserveData.Accrue, I.Liquidate, LiquidateStep, Reserves;
    PoolOk(s, ix.reserve);
    LiquidateOutcome(s, ix.liquidator, ix.user, ix.reserve, ix.seizedReserve, ix.amount, ix.to);
    if s.pools[key].reserve.Accrue(s.slot).Ok? {
      AccrualStamps(s.pools[key].reserve, s.slot);
    }
  }

  lemma OtherStamp(s: State, ix: Instruction, key: Pubkey)
    requires key in s.pools && Exec(s, ix).Ok? && !ix.Liquidate?
    requires !ix.Deposit? && !ix.Withdraw? && !ix.Borrow? && !ix.Repay?
    ensures StampMoves(s, ix, key)
  {
    hide ReserveData.Accrue, I.DepositCollateral, I.WithdrawCollateral, I.RefreshObligation, PriceOracle.ReadPrice;
    if s.pools[key].reserve.Accrue(s.slot).Ok? {
      AccrualStamps(s.pools[key].reserve, s.slot);
    }
  }

  /** This holds of every instruction. */
  lemma StampsMove(s: State, ix: Instruction, key: Pubkey)
    requires Inv(s) && key in s.pools && Exec(s, ix).Ok?
    ensures StampMoves(s, ix, key)
  {
    hide Inv, Exec, StampMoves;
    if ix.Deposit? || ix.Withdraw? {
      PoolStamp(s, ix, key);
    } else if ix.Borrow? || ix.Repay? {
      LoanStamp(s, ix, key);
    } else if ix.Liquidate? {
      LiquidationStamp(s, ix, key);
    } else {
      OtherStamp(s, ix, key);
    }
  }
}
