/** What no run can do to a loan. */
module LoanSafety {
  import opened Arithmetic
  import opened Numeric
  import opened ReserveModel
  import opened ReserveProperties
  import opened ObligationModel
  import opened PriceOracle
  import opened ObligationProperties
  import opened InstructionProperties
  import opened Market
  import opened MarketInvariant
  import opened ReserveFlows
  import opened LoanFlows
  import I = InstructionModel

  // ---- The index never runs behind a loan ---------------------------------------------------------

  lemma SlotHasLoan(o: ObligationData, i: nat)
    requires Wf(o) && i < MAX_SLOTS && o.borrows[i].IsActive()
    ensures LoanOf(o.borrows, o.borrows[i].reserve) == Some(LoanIn(o.borrows[i]))
  {
    PositionOf(BorrowKeys(o.borrows), i);
  }

  lemma AccrueNotAhead(r: ReserveData, slot: u64)
    ensures r.Accrue(slot) != Err(BorrowRateDecreased)
  {
  }

  lemma BorrowNotAhead(r: ReserveData, o: ObligationData, key: Pubkey, amount: u64, slot: u64)
    requires ReserveInv(r) && Wf(o) && key != DEFAULT_PUBKEY
    requires LoanOf(o.borrows, key).Some? ==> LoanOf(o.borrows, key).value.index <= r.index
    ensures I.Borrow(r, o, key, amount, slot) != Err(BorrowRateDecreased)
  {
    hide ReserveData.Accrue;
    AccrueNotAhead(r, slot);
    if r.Accrue(slot).Ok? {
      AccrueEffect(r, slot);
    }
  }

  lemma RepayNotAhead(r: ReserveData, o: ObligationData, key: Pubkey, amount: u64, slot: u64)
    requires ReserveInv(r) && Wf(o) && key != DEFAULT_PUBKEY
    requires LoanOf(o.borrows, key).Some? ==> LoanOf(o.borrows, key).value.index <= r.index
    ensures I.Repay(r, o, key, amount, slot) != Err(BorrowRateDecreased)
  {
    if r.Accrue(slot).Ok? {
      AccrueEffect(r, slot);
    }
  }

  lemma LiquidateNotAhead(reserves: I.Reserves, o: ObligationData, key: Pubkey, w: Pubkey, amount: u64, slot: u64)
    requires key in reserves && w in reserves && ReserveInv(reserves[key]) && Wf(o) && key != DEFAULT_PUBKEY
    requires LoanOf(o.borrows, key).Some? ==> LoanOf(o.borrows, key).value.index <= reserves[key].index
    ensures I.Liquidate(reserves, o, key, w, amount, slot) != Err(BorrowRateDecreased)
  {
    hide I.Seize, I.Prepare;
    PrepareNotAhead(reserves[key], slot);
    if I.Prepare(reserves[key], slot).Ok? {
      AccrueEffect(reserves[key], slot);
      var repay := I.Prepare(reserves[key], slot).value;
      PrepareNotAhead(reserves[key := repay][w], slot);
      if I.Prepare(reserves[key := repay][w], slot).Ok? {
        SeizeNotAhead(repay, I.Prepare(reserves[key := repay][w], slot).value, o, key, w, amount, slot);
      }
    }
  }

  lemma PrepareNotAhead(r: ReserveData, slot: u64)
    ensures I.Prepare(r, slot) != Err(BorrowRateDecreased)
    ensures I.Prepare(r, slot).Ok? ==> r.Accrue(slot) == I.Prepare(r, slot)
  {
  }

  lemma SeizeNotAhead(repay: ReserveData, withdraw: ReserveData, o: ObligationData, key: Pubkey, w: Pubkey,
                      amount: u64, slot: u64)
    requires Wf(o) && key != DEFAULT_PUBKEY
    requires LoanOf(o.borrows, key).Some? ==> LoanOf(o.borrows, key).value.index <= repay.index
    ensures I.Seize(repay, withdraw, o, key, w, amount, slot) != Err(BorrowRateDecreased)
  {
  }

  lemma {:induction false} PricingNotAhead(slots: BorrowTable, reserves: I.Reserves, from: nat, count: nat)
    requires forall i :: 0 <= i < MAX_SLOTS && slots[i].reserve in reserves ==>
      slots[i].index <= reserves[slots[i].reserve].index
    ensures I.PriceBorrows(slots, reserves, from, count) != Err(BorrowRateDecreased)
    decreases count - from
  {
    if from >= count {
    } else if from < MAX_SLOTS && I.PriceBorrow(slots[from], reserves).Ok? {
      var next := slots[from := I.PriceBorrow(slots[from], reserves).value];
      PricingNotAhead(next, reserves, from + 1, count);
    }
  }

  lemma {:induction false} ValuingNotAhead(slots: DepositTable, reserves: I.Reserves, from: nat, count: nat)
    ensures I.PriceDeposits(slots, reserves, from, count) != Err(BorrowRateDecreased)
    decreases count - from
  {
    if from >= count {
    } else if from < MAX_SLOTS && I.PriceDeposit(slots[from], reserves).Ok? {
      ValuingNotAhead(slots[from := I.PriceDeposit(slots[from], reserves).value], reserves, from + 1, count);
    }
  }

  lemma RefreshNotAhead(o: ObligationData, reserves: I.Reserves, slot: u64)
    requires Wf(o)
    requires forall k :: k in reserves && LoanOf(o.borrows, k).Some? ==>
      LoanOf(o.borrows, k).value.index <= reserves[k].index
    requires forall k :: k in reserves ==> k != DEFAULT_PUBKEY
    ensures I.RefreshObligation(o, reserves, slot) != Err(BorrowRateDecreased)
  {
    forall i | 0 <= i < MAX_SLOTS && o.borrows[i].reserve in reserves
      ensures o.borrows[i].index <= reserves[o.borrows[i].reserve].index
    {
      SlotHasLoan(o, i);
    }
    PricingNotAhead(o.borrows, reserves, 0, o.borrowsCount);
    ValuingNotAhead(o.deposits, reserves, 0, o.depositsCount);
  }

  /** In a reachable market no instruction is ever refused because an index went backwards. */
  lemma RateNeverDecreases(s: State, ix: Instruction)
    requires Inv(s)
    ensures Exec(s, ix) != Err(BorrowRateDecreased)
  {
    hide Inv, PoolInv, Wf, LoanOf, ReserveInv, I.Borrow, I.Repay, I.Liquidate, I.RefreshObligation;
    match ix
    case Borrow(u, k, a, _) =>
      if Exists(s, u, k) {
        PoolOk(s, k);
        UserOk(s, u);
        BorrowNotAhead(s.pools[k].reserve, s.users[u].obligation, k, a, s.slot);
      }
    case Repay(u, k, a) =>
      if Exists(s, u, k) {
        PoolOk(s, k);
        UserOk(s, u);
        RepayNotAhead(s.pools[k].reserve, s.users[u].obligation, k, a, s.slot);
      }
    case Liquidate(l, u, k, w, a, _) =>
      if Exists(s, u, k) && Exists(s, l, w) {
        PoolOk(s, k);
        UserOk(s, u);
        LiquidateNotAhead(Reserves(s.pools), s.users[u].obligation, k, w, a, s.slot);
      }
    case RefreshObligation(u, accounts, _) =>
      if u < |s.users| {
        UserOk(s, u);
        forall k | k in s.pools ensures k != DEFAULT_PUBKEY { PoolOk(s, k); }
        RefreshNotAhead(s.users[u].obligation, Passed(s.pools, accounts), s.slot);
      }
    case _ => OthersNotAhead(s, ix);
  }

  lemma OthersNotAhead(s: State, ix: Instruction)
    requires !ix.Borrow? && !ix.Repay? && !ix.Liquidate? && !ix.RefreshObligation?
    ensures Exec(s, ix) != Err(BorrowRateDecreased)
  {
    hide I.Deposit, I.Withdraw, I.DepositCollateral, I.WithdrawCollateral, I.RefreshReserve;
    match ix
    case Deposit(u, k, a) => if Exists(s, u, k) { PoolNotAhead(s.pools[k].reserve, a, s.slot); }
    case Withdraw(u, k, a) => if Exists(s, u, k) { PoolNotAhead(s.pools[k].reserve, a, s.slot); }
    case DepositCollateral(u, k, a) =>
      if Exists(s, u, k) { CollateralNotAhead(s.pools[k].reserve, s.users[u].obligation, k, a, s.slot); }
    case WithdrawCollateral(u, k, a) =>
      if Exists(s, u, k) { CollateralNotAhead(s.pools[k].reserve, s.users[u].obligation, k, a, s.slot); }
    case RefreshReserve(k, update, now) => if k in s.pools { PriceNotAhead(s.pools[k].reserve, update, s.slot, now); }
    case _ =>
  }

  lemma PoolNotAhead(r: ReserveData, amount: u64, slot: u64)
    ensures I.Deposit(r, amount, slot) != Err(BorrowRateDecreased)
    ensures I.Withdraw(r, amount, slot) != Err(BorrowRateDecreased)
  {
  }

  lemma PriceNotAhead(r: ReserveData, update: PriceUpdate, slot: u64, now: i64)
    ensures I.RefreshReserve(r, update, slot, now) != Err(BorrowRateDecreased)
  {
  }

  lemma CollateralNotAhead(r: ReserveData, o: ObligationData, key: Pubkey, amount: u64, slot: u64)
    ensures I.DepositCollateral(r, o, key, amount) != Err(BorrowRateDecreased)
    ensures I.WithdrawCollateral(o, key, amount, slot) != Err(BorrowRateDecreased)
  {
  }

  // ---- A loan outlives its liquidations -----------------------------------------------------------

  predicate Liquidates(ix: Instruction, i: nat, key: Pubkey) {
    ix.Liquidate? && Charges(ix, i, key)
  }

  /** Without a repayment by its owner a loan stays open; only a liquidation lowers it, and by half at most of what is
   *  owed once it is caught up.
   */
  lemma LoanSurvives(s: State, ix: Instruction, i: nat, key: Pubkey)
    requires Inv(s) && i < |s.users| && key in s.pools && Exec(s, ix).Ok?
    requires UserLoan(s, i, key).Some? && !(ix.Repay? && Charges(ix, i, key))
    ensures i < |Exec(s, ix).value.users| && UserLoan(Exec(s, ix).value, i, key).Some?
    ensures var debt := UserLoan(Exec(s, ix).value, i, key).value.debt;
      && 0 < UserLoan(s, i, key).value.index
      && (Liquidates(ix, i, key) ==> DebtAt(UserLoan(s, i, key), WithInterest(s, ix, key).index) <= 2 * debt)
      && UserLoan(s, i, key).value.debt <= if Liquidates(ix, i, key) then 2 * debt else debt
  {
    hide Inv, Exec, UserLoan, WithInterest;
    LoanStep(s, ix, i, key);
    var x := UserLoan(s, i, key);
    if Charges(ix, i, key) {
      DebtAtCatchesUp(x.value, WithInterest(s, ix, key).index);
      LoanStaysOpen(s, ix, i, key);
    }
  }

  lemma LoanStaysOpen(s: State, ix: Instruction, i: nat, key: Pubkey)
    requires Inv(s) && i < |s.users| && key in s.pools && Exec(s, ix).Ok?
    requires Charges(ix, i, key) && !ix.Repay?
    ensures var f, index := FlowOf(s, ix, key), WithInterest(s, ix, key).index;
      && (UserLoan(s, i, key).Some? ==> 0 < UserLoan(s, i, key).value.index)
      && (ix.Borrow? ==> f.repaid == 0 && 0 < f.lent)
      && (ix.Liquidate? ==>
        f.lent == 0 && 0 < f.repaid && 2 * RATE_SCALE * f.repaid <= DebtAt(UserLoan(s, i, key), index))
  {
    hide Inv, Wf, LoanOf, I.Borrow, I.Liquidate;
    PoolOk(s, key);
    UserOk(s, i);
    LoanIndexPositive(s.users[i].obligation);
    match ix
    case Borrow(u, k, a, _) => BorrowEffect(s.pools[k].reserve, s.users[u].obligation, k, a, s.slot);
    case Liquidate(l, u, k, w, a, to) =>
      LiquidateLoan(s, l, u, k, w, a, to, i, key);
      PoolOk(s, w);
      LiquidateRepays(s, u, k, w, a);
  }

  lemma LiquidateRepays(s: State, user: nat, key: Pubkey, w: Pubkey, amount: u64)
    requires Exists(s, user, key) && w in s.pools && key != DEFAULT_PUBKEY && w != DEFAULT_PUBKEY
    requires ReserveInv(s.pools[key].reserve) && Wf(s.users[user].obligation)
    requires I.Liquidate(Reserves(s.pools), s.users[user].obligation, key, w, amount, s.slot).Ok?
    ensures 0 < I.Liquidate(Reserves(s.pools), s.users[user].obligation, key, w, amount, s.slot).value.seizure.repaid
  {
    hide Charged, Moved, Wf, I.Liquidate, I.Seize;
    var o := s.users[user].obligation;
    LiquidateEffect(Reserves(s.pools), o, key, w, amount, s.slot);
    var l := I.Liquidate(Reserves(s.pools), o, key, w, amount, s.slot).value;
    SeizeEffect(l.repay, l.withdraw, o, key, w, amount, s.slot);
  }

  function Pow2(n: nat): nat {
    if n == 0 then 1 else 2 * Pow2(n - 1)
  }

  /** How many liquidations of the loan succeed in a run. */
  function Hits(s: State, ixs: seq<Instruction>, i: nat, key: Pubkey): nat {
    if |ixs| == 0 then 0
    else
      var earlier, ix := ixs[..|ixs| - 1], ixs[|ixs| - 1];
      Hits(s, earlier, i, key) + if Liquidates(ix, i, key) && Exec(Run(s, earlier), ix).Ok? then 1 else 0
  }

  lemma DoubleHalves(start: nat, p: nat, x: nat, y: nat)
    requires start <= p * x && x <= 2 * y
    ensures start <= (2 * p) * y
  {
    Mono(x, 2 * y, p);
    assert p * (2 * y) == (2 * p) * y;
  }

  /** However often a loan is liquidated, and whatever accrues or is borrowed in between, it stays open and
   *  k liquidations leave at least one part in 2^k of it.
   */
  lemma {:induction false} LiquidationsNeverClose(s: State, ixs: seq<Instruction>, i: nat, key: Pubkey)
    requires Inv(s) && i < |s.users| && key in s.pools && UserLoan(s, i, key).Some?
    requires forall ix :: ix in ixs ==> !(ix.Repay? && Charges(ix, i, key))
    ensures i < |Run(s, ixs).users| && UserLoan(Run(s, ixs), i, key).Some?
    ensures UserLoan(s, i, key).value.debt <= Pow2(Hits(s, ixs, i, key)) * UserLoan(Run(s, ixs), i, key).value.debt
  {
    hide Inv, Exec, UserLoan, Charges, Liquidates;
    if |ixs| == 0 {
    } else {
      var earlier, ix := ixs[..|ixs| - 1], ixs[|ixs| - 1];
      var m := Run(s, earlier);
      LiquidationsNeverClose(s, earlier, i, key);
      RunKeepsInv(s, earlier);
      RunConserves(s, earlier, key);
      if Exec(m, ix).Ok? {
        LoanSurvives(m, ix, i, key);
        var start, p := UserLoan(s, i, key).value.debt, Pow2(Hits(s, earlier, i, key));
        var x, y := UserLoan(m, i, key).value.debt, UserLoan(Run(s, ixs), i, key).value.debt;
        if Liquidates(ix, i, key) {
          DoubleHalves(start, p, x, y);
        } else {
          Mono(x, y, p);
        }
      }
    }
  }
}
