/** Runs from the empty market on concrete numbers: a loan's whole life, and the inputs on which the program departs
 *  from what one would expect.
 */
module Rehearsal {
  import opened Numeric
  import opened ReserveModel
  import opened ObligationModel
  import opened PriceOracle
  import opened ObligationProperties
  import opened Market
  import opened MarketInvariant
  import opened Scenes
  import opened Positions
  import CachedValues
  import MarketSteps
  import I = InstructionModel

  const CONFIG := ReserveConfig(1_000_000, 1_000_000, 100, 200, 300, 8_000, 500, 500, 0, 75, 80, FEED)
  const LISTED := Side(NewReserve(0, CONFIG), 0)

  /** The reserve of the first asset with a thousand cTokens out. */
  function Pool(available: u64, borrowed: u128, index: u128, price: u128, slot: u64): ReserveData {
    ReserveData(available, borrowed, index, 0, price, 1_000, slot, CONFIG, 0)
  }

  /** A scene in which only the first asset matters. */
  function Solo(slot: u64, reserve: ReserveData, locked: u64, d: DepositSlot, b: BorrowSlot, updated: u64,
                a: nat, ca: nat, bob: nat, seized: nat): Scene
  {
    Scene(slot, Side(reserve, locked), LISTED, Actor(Pos(d, NOTHING, b, updated), a, 0, ca, 0),
          Newcomer().(a := bob, ca := seized))
  }

  // ---- A loan's life --------------------------------------------------------------------------

  const LENT := Pool(1_000, 0, RATE_SCALE, 10, 0)
  const VALUED := DepositSlot(ONE, 500, 4_000)

  /** A thousand tokens deposited, half of the cTokens locked and valued. */
  const READY := Solo(0, LENT, 500, VALUED, NO_LOAN, 0, 0, 500, 60, 0)

  /** Deposited and priced, nothing locked. */
  const SUPPLIED := Solo(0, LENT, 0, NOTHING, NO_LOAN, 0, 0, 1_000, 60, 0)

  lemma GetsSupplied()
    ensures Reachable(SUPPLIED)
  {
    hide I.Deposit, I.RefreshReserve, Reachable, Leads, Pos, NewObligation;
    var x0 := Opening(CONFIG, CONFIG);
    var x1 := x0.(alice := x0.alice.(a := 1_000));
    var x2 := x1.(bob := x1.bob.(a := 60));
    var x3 := SUPPLIED.(one := Side(Pool(1_000, 0, RATE_SCALE, 0, 0), 0));
    Opens(CONFIG, CONFIG);
    ThenFund(x0, 0, ONE, 1_000, x1);
    ThenFund(x1, 1, ONE, 60, x2);
    Supplies();
    NewIsPos();
    ThenDeposit(x2, 0, ONE, 1_000, x3);
    ThenPrice(x3, ONE, 10, SUPPLIED);
  }

  lemma GetsReady()
    ensures Reachable(READY)
  {
    hide I.DepositCollateral, I.RefreshObligation, Reachable, Leads, Pos, NewObligation;
    var x1 := Solo(0, LENT, 500, DepositSlot(ONE, 500, 0), NO_LOAN, 0, 0, 500, 60, 0);
    GetsSupplied();
    NewIsPos();
    LockNew(LENT, ONE, 500);
    ThenLock(SUPPLIED, 0, ONE, 500, x1);
    Values();
    RefreshPos(DepositSlot(ONE, 500, 0), NOTHING, NO_LOAN, 0, x1.Known(), 0);
    ThenRefresh(x1, 0, READY);
  }

  lemma Supplies()
    ensures I.Deposit(NewReserve(0, CONFIG), 1_000, 0) == Ok((Pool(1_000, 0, RATE_SCALE, 0, 0), 1_000))
    ensures I.RefreshReserve(Pool(1_000, 0, RATE_SCALE, 0, 0), Quoted(10), 0, 0) == Ok(LENT)
  {
    hide ReadPrice;
    QuotedIsStored(10);
  }

  lemma Values()
    ensures I.PriceDeposit(DepositSlot(ONE, 500, 0), map[ONE := LENT, TWO := LISTED.reserve]) == Ok(VALUED)
  {
  }

  const YEAR_INDEX: int := 1_011_200_000_000
  const YEAR_LATER := Pool(900, 101, YEAR_INDEX, 10, SLOTS_PER_YEAR)
  const RELIEVED := Pool(950, 51, YEAR_INDEX, 10, SLOTS_PER_YEAR)
  const REPAID := Pool(1_001, 0, YEAR_INDEX, 10, SLOTS_PER_YEAR)
  const OPENED := BorrowSlot(ONE, 100 * RATE_SCALE, RATE_SCALE, 0)
  const REVALUED := BorrowSlot(ONE, 100 * YEAR_INDEX, YEAR_INDEX, 1_010)
  const HALVED := BorrowSlot(ONE, 100 * YEAR_INDEX - 50 * RATE_SCALE, YEAR_INDEX, 1_010)
  const STALE := DepositSlot(ONE, 449, 4_000)

  /** The borrower has just been liquidated. */
  const LIQUIDATED := Solo(SLOTS_PER_YEAR, RELIEVED, 449, STALE, HALVED, SLOTS_PER_YEAR, 100, 500, 10, 51)

  /** The loan is repaid, the collateral back and redeemed; the liquidator holds the rest of the pool. */
  const OVER := Solo(SLOTS_PER_YEAR, REPAID.(available := 52, ctokens := 51), 0, NOTHING,
    NO_LOAN, SLOTS_PER_YEAR, 998, 0, 10, 51)

  /** A year at 10% utilization. */
  lemma Waits()
    ensures I.RefreshReserve(Pool(900, 100, RATE_SCALE, 10, 0), Quoted(10), SLOTS_PER_YEAR, 0) == Ok(YEAR_LATER)
  {
    hide ReadPrice;
    QuotedIsStored(10);
    assert Pool(900, 100, RATE_SCALE, 10, 0).UtilizationRate() == Ok(10);
    assert CONFIG.Curve(1_000) == 112;
    assert PeriodRate(112, SLOTS_PER_YEAR) == Ok(11_200_000_000) by {
      assert 112 * SLOTS_PER_YEAR * RATE_SCALE / SLOTS_PER_YEAR == 112 * RATE_SCALE;
    }
    assert MulDiv(11_200_000_000, 100, RATE_SCALE) == Ok(1);
    assert MulDiv(1, 500, BPS_SCALER) == Ok(0);
    assert MulDiv(11_200_000_000, RATE_SCALE, RATE_SCALE) == Ok(11_200_000_000);
  }

  lemma Revalues()
    ensures I.PriceBorrow(OPENED, map[ONE := YEAR_LATER, TWO := LISTED.reserve]) == Ok(REVALUED)
    ensures I.PriceDeposit(VALUED, map[ONE := YEAR_LATER, TWO := LISTED.reserve]) == Ok(VALUED)
  {
    assert 100 * RATE_SCALE * YEAR_INDEX / RATE_SCALE == 100 * YEAR_INDEX;
  }

  /** Worth four times its debt the position still counts as unhealthy; half of the debt is repaid. */
  lemma Seizes()
    ensures I.Liquidate(map[ONE := YEAR_LATER, TWO := LISTED.reserve], Pos(VALUED, NOTHING, REVALUED, SLOTS_PER_YEAR),
                        ONE, ONE, 60, SLOTS_PER_YEAR)
         == Ok(I.Liquidation(YEAR_LATER, YEAR_LATER, RELIEVED,
           I.Seizure(Pos(STALE, NOTHING, HALVED, SLOTS_PER_YEAR), 50, 51)))
  {
    var slot := SLOTS_PER_YEAR;
    var o, m, p := Pos(VALUED, NOTHING, REVALUED, slot), Pos(VALUED, NOTHING, HALVED, slot),
      Pos(STALE, NOTHING, HALVED, slot);
    SumsOfPos(VALUED, REVALUED, slot);
    assert o.IsHealthy() == Ok(false);
    PosKeys(VALUED, NOTHING, REVALUED, slot, ONE);
    PosKeys(VALUED, NOTHING, HALVED, slot, ONE);
    assert o.borrows[0 := o.borrows[0]] == o.borrows;
    assert I.CloseFactorCap(100 * YEAR_INDEX) == 50;
    assert I.SeizableCTokens(50, 10, YEAR_LATER, 1_001) == Ok(51);
    assert o.borrows[0 := HALVED] == m.borrows && o.deposits == m.deposits;
    assert o.Repay(ONE, 50) == Ok(m);
    assert m.deposits[0 := STALE] == p.deposits && m.borrows == p.borrows;
    assert m.Withdraw(ONE, 51) == Ok(p);
  }

  /** A year on: the loan is caught up and valued, and the position counts as unhealthy. */
  const OVERDUE := Solo(SLOTS_PER_YEAR, YEAR_LATER, 500, VALUED, REVALUED, SLOTS_PER_YEAR, 100, 500, 60, 0)

  lemma IsOverdue()
    ensures Reachable(OVERDUE)
  {
    hide I.Borrow, I.RefreshReserve, I.RefreshObligation, Reachable, Leads, Pos;
    var x1 := Solo(0, Pool(900, 100, RATE_SCALE, 10, 0), 500, VALUED, OPENED, 0, 100, 500, 60, 0);
    var x2 := x1.(slot := SLOTS_PER_YEAR);
    var x3 := x2.(one := Side(YEAR_LATER, 500));
    GetsReady();
    BorrowPos(LENT, VALUED, NO_LOAN, ONE, 100, 0);
    ThenBorrow(READY, 0, ONE, 100, x1);
    ThenAdvance(x1, SLOTS_PER_YEAR, x2);
    Waits();
    ThenPrice(x2, ONE, 10, x3);
    Revalues();
    RefreshPos(VALUED, NOTHING, OPENED, 0, x3.Known(), SLOTS_PER_YEAR);
    ThenRefresh(x3, 0, OVERDUE);
  }

  lemma IsLiquidated()
    ensures Reachable(LIQUIDATED)
  {
    hide I.Liquidate, Reachable, Leads, Pos;
    IsOverdue();
    Seizes();
    ThenLiquidate(OVERDUE, 60, LIQUIDATED);
  }

  /** A liquidation leaves the cached value of what it seized from behind: 4000 are cached, a refresh would
   *  find 3592. */
  lemma SeizureLeavesStaleValue()
    ensures Reachable(LIQUIDATED)
    ensures I.DepositValue(STALE.amount, RELIEVED) == Ok(3_592) && STALE.value == 4_000
    ensures CachedValues.Fresh(449 + 51, RELIEVED) == 4_000
  {
    IsLiquidated();
    assert 449 * 1_001 / 1_000 == 449 && 500 * 1_001 / 1_000 == 500;
  }

  /** A loan's whole life: tokens are lent, locked, valued, borrowed, earn a year's interest, are seized for, repaid
   *  with a fraction forgiven, unlocked and withdrawn.
   */
  lemma LivesToTheEnd()
    ensures Reachable(OVER)
  {
    hide I.Withdraw, I.Repay, I.WithdrawCollateral, Reachable, Leads, Pos;
    var slot := SLOTS_PER_YEAR;
    var x1 := Solo(slot, REPAID, 449, STALE, NO_LOAN, slot, 49, 500, 10, 51);
    var x2 := Solo(slot, REPAID, 0, NOTHING, NO_LOAN, slot, 49, 949, 10, 51);
    IsLiquidated();
    RepayPos(RELIEVED, STALE, HALVED, ONE, 51, slot, slot, HALVED.debt);
    ThenRepay(LIQUIDATED, 0, ONE, 51, x1);
    ReleaseAll(STALE, NOTHING, NO_LOAN, slot);
    ThenRelease(x1, 0, ONE, 449, x2);
    Leaves();
    ThenWithdraw(x2, 0, ONE, 949, OVER);
  }

  lemma Leaves()
    ensures I.Withdraw(REPAID, 949, SLOTS_PER_YEAR) == Ok((REPAID.(available := 52, ctokens := 51), 949))
  {
    assert MulDiv(949, 1_001, 1_000) == Ok(949);
  }

  // ---- Borrowing on a stale cache -------------------------------------------------------------

  function Borrowed(n: u64): ReserveData
    requires n <= 1_000
  {
    Pool(1_000 - n, n, RATE_SCALE, 10, 0)
  }

  function LoanOfTokens(n: u64, value: u128): BorrowSlot
    requires n <= 1_000
  {
    BorrowSlot(ONE, n * RATE_SCALE, RATE_SCALE, value)
  }

  /** The market after a borrow of 300 at price 10, checked against 4000 of collateral. */
  const ONCE := Solo(0, Borrowed(300), 500, VALUED, LoanOfTokens(300, 0), 0, 300, 500, 60, 0)

  lemma BorrowsOnce()
    ensures Reachable(ONCE)
  {
    hide I.Borrow, Reachable, Leads, Pos;
    GetsReady();
    BorrowPos(LENT, VALUED, NO_LOAN, ONE, 300, 0);
    ThenBorrow(READY, 0, ONE, 300, ONCE);
  }

  /** A second borrow of 300 in the same slot is admitted too; a refresh then finds 6000 of debt on 4000
   *  of collateral. */
  lemma BorrowsTwice()
    ensures Reachable(Solo(0, Borrowed(600), 500, VALUED, LoanOfTokens(600, 6_000), 0, 600, 500, 60, 0))
  {
    hide I.Borrow, I.RefreshObligation, Reachable, Leads, Pos;
    var x1 := Solo(0, Borrowed(600), 500, VALUED, LoanOfTokens(600, 0), 0, 600, 500, 60, 0);
    var x2 := Solo(0, Borrowed(600), 500, VALUED, LoanOfTokens(600, 6_000), 0, 600, 500, 60, 0);
    BorrowsOnce();
    BorrowPos(Borrowed(300), VALUED, LoanOfTokens(300, 0), ONE, 300, 0);
    ThenBorrow(ONCE, 0, ONE, 300, x1);
    FindsBoth();
    RefreshPos(VALUED, NOTHING, LoanOfTokens(600, 0), 0, x1.Known(), 0);
    ThenRefresh(x1, 0, x2);
  }

  lemma FindsBoth()
    ensures I.PriceBorrow(LoanOfTokens(600, 0), map[ONE := Borrowed(600), TWO := LISTED.reserve])
      == Ok(LoanOfTokens(600, 6_000))
    ensures I.PriceDeposit(VALUED, map[ONE := Borrowed(600), TWO := LISTED.reserve]) == Ok(VALUED)
  {
  }

  /** After one borrow in that slot all of its collateral can be taken out again. */
  lemma BorrowsAndUnlocks()
    ensures Reachable(Solo(0, Borrowed(300), 0, NOTHING, LoanOfTokens(300, 0), 0, 300, 1_000, 60, 0))
  {
    hide I.WithdrawCollateral, Reachable, Leads, Pos;
    BorrowsOnce();
    ReleaseAll(VALUED, NOTHING, LoanOfTokens(300, 0), 0);
    ThenRelease(ONCE, 0, ONE, 500, Solo(0, Borrowed(300), 0, NOTHING, LoanOfTokens(300, 0), 0, 300, 1_000, 60, 0));
  }

  // ---- Sent back into the vault ---------------------------------------------------------------

  /** A hundred tokens are lent into the vault they came from: it still holds a thousand, of which the reserve records
   *  nine hundred, and the borrower owes a hundred and has none.
   */
  ghost predicate LentBack(s: State) {
    && ONE in s.pools && 0 < |s.users|
    && s.pools[ONE].liquidityVault == 1_000 && s.pools[ONE].reserve.available == 900
    && LoanOf(s.users[0].obligation.borrows, ONE) == Some(Loan(100 * RATE_SCALE, RATE_SCALE))
    && Balance(s.users[0].tokens, ONE) == 0
  }

  lemma LoanIsLentBack()
    ensures exists ixs :: LentBack(Run(GENESIS, ixs))
  {
    hide Run, Exec, Shows, Pos, I.Borrow;
    GetsReady();
    var ixs := RunTo(READY);
    var ix := Borrow(0, ONE, 100, ToVault);
    RunSnoc(ixs, ix);
    LendsBackTo(Run(GENESIS, ixs), ix);
    assert LentBack(Run(GENESIS, ixs + [ix]));
  }

  lemma LendsBackTo(s: State, ix: Instruction)
    requires Shows(s, READY) && ix == Borrow(0, ONE, 100, ToVault)
    ensures LentBack(Step(s, ix))
  {
    hide I.Borrow, Pos;
    BorrowPos(LENT, VALUED, NO_LOAN, ONE, 100, 0);
    LoanOfPos(VALUED, OPENED, 0);
  }

  /** Fifty-one seized cTokens stay in the vault they were locked in: it holds five hundred, of which obligations have
   *  locked 449 and nobody the rest.
   */
  ghost predicate SeizedBack(s: State) {
    && ONE in s.pools
    && s.pools[ONE].collateralVault == 500 && TotalLocked(s.users, ONE) == 449
    && TotalHeld(s.users, ONE) == 500 && s.pools[ONE].ctokenSupply == 1_000
  }

  lemma CollateralIsSeizedBack()
    ensures exists ixs :: SeizedBack(Run(GENESIS, ixs))
  {
    hide Run, Exec, Shows, Pos, I.Liquidate;
    IsOverdue();
    var ixs := RunTo(OVERDUE);
    var ix := Liquidate(1, 0, ONE, ONE, 60, ToVault);
    RunSnoc(ixs, ix);
    SeizesBackTo(Run(GENESIS, ixs), ix);
    assert SeizedBack(Run(GENESIS, ixs + [ix]));
  }

  lemma SeizesBackTo(s: State, ix: Instruction)
    requires Shows(s, OVERDUE) && ix == Liquidate(1, 0, ONE, ONE, 60, ToVault)
    ensures SeizedBack(Step(s, ix))
  {
    hide Exec, Pos, Shows, Locked;
    SeizesBackState(s, ix);
    LockedOfPos(STALE, HALVED, SLOTS_PER_YEAR);
    MarketSteps.NewObligationWf();
    TwoUsers(Step(s, ix).users);
  }

  lemma SeizesBackState(s: State, ix: Instruction)
    requires Shows(s, OVERDUE) && ix == Liquidate(1, 0, ONE, ONE, 60, ToVault)
    ensures var t := Step(s, ix);
      && ONE in t.pools && t.pools[ONE].collateralVault == 500 && t.pools[ONE].ctokenSupply == 1_000
      && |t.users| == 2 && t.users[0].obligation == Pos(STALE, NOTHING, HALVED, SLOTS_PER_YEAR)
      && t.users[1].obligation == NewObligation()
      && Balance(t.users[0].ctokens, ONE) == 500 && Balance(t.users[1].ctokens, ONE) == 0
  {
    hide I.Liquidate, Pos, NewObligation;
    KnownReserves(s, OVERDUE);
    Seizes();
  }

  lemma TwoUsers(users: seq<User>)
    requires |users| == 2
    ensures TotalLocked(users, ONE)
      == Locked(users[0].obligation.deposits, ONE) + Locked(users[1].obligation.deposits, ONE)
    ensures TotalHeld(users, ONE) == Balance(users[0].ctokens, ONE) + Balance(users[1].ctokens, ONE)
  {
    var one := users[..1];
    assert one[..0] == [] && one[0] == users[0];
    assert TotalLocked(one, ONE) == Locked(users[0].obligation.deposits, ONE);
    assert TotalHeld(one, ONE) == Balance(users[0].ctokens, ONE);
  }
}
