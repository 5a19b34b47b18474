/** How one instruction moves each user's loans. */
module LoanFlows {
  import opened Numeric
  import opened ReserveModel
  import opened ObligationModel
  import opened ObligationProperties
  import opened RefreshProperties
  import opened InstructionProperties
  import opened Market
  import opened MarketInvariant
  import opened MarketSteps
  import opened ReserveFlows
  import I = InstructionModel

  /** The instruction lends to user `i` from reserve `key`, or repays that user's loan. */
  predicate Charges(ix: Instruction, i: nat, key: Pubkey) {
    match ix
    case Borrow(u, k, _, _) => u == i && k == key
    case Repay(u, k, _) => u == i && k == key
    case Liquidate(_, u, k, _, _, _) => u == i && k == key
    case _ => false
  }

  function UserLoan(s: State, i: nat, key: Pubkey): Option<Loan>
    requires i < |s.users|
  {
    LoanOf(s.users[i].obligation.borrows, key)
  }

  /** The loan is left alone, caught up with its reserve, or caught up and then changed by exactly the flow. */
  predicate LoanSteps(s: State, ix: Instruction, i: nat, key: Pubkey)
    requires i < |s.users| && key in s.pools && Exec(s, ix).Ok?
  {
    var x, t := UserLoan(s, i, key), Exec(s, ix).value;
    && |s.users| <= |t.users|
    && var y := UserLoan(t, i, key);
    && (x.Some? ==> 0 < x.value.index)
    && if Charges(ix, i, key) then
         var f, index := FlowOf(s, ix, key), WithInterest(s, ix, key).index;
         && (x.Some? ==> x.value.index <= index && Computable(x.value, index))
         && f.repaid * RATE_SCALE <= DebtAt(x, index)
         && LoanMoved(x, y, index, RATE_SCALE * (f.lent - f.repaid))
       else
         y == x || (ix.RefreshObligation? && ix.user == i
                    && x.Some? && y.Some? && y.value.index == s.pools[key].reserve.index && CaughtUp(x.value, y.value)
                    && Computable(x.value, s.pools[key].reserve.index))
  }

  lemma BorrowLoan(s: State, user: nat, key: Pubkey, amount: u64, to: Destination, i: nat, k: Pubkey)
    requires Inv(s) && i < |s.users| && k in s.pools && Exec(s, Borrow(user, key, amount, to)).Ok?
    ensures LoanSteps(s, Borrow(user, key, amount, to), i, k)
  {
    hide Inv, PoolInv, UserInv, ObligationInv, Wf, LoanOf, DebtAt, ReserveData.Accrue, I.Borrow;
    PoolOk(s, key);
    UserOk(s, user);
    UserOk(s, i);
    LoanIndexPositive(s.users[i].obligation);
    BorrowEffect(s.pools[key].reserve, s.users[user].obligation, key, amount, s.slot);
  }

  lemma RepayLoan(s: State, user: nat, key: Pubkey, amount: u64, i: nat, k: Pubkey)
    requires Inv(s) && i < |s.users| && k in s.pools && Exec(s, Repay(user, key, amount)).Ok?
    ensures LoanSteps(s, Repay(user, key, amount), i, k)
  {
    hide Inv, PoolInv, UserInv, ObligationInv, Wf, LoanOf, DebtAt, ReserveData.Accrue, I.Repay;
    PoolOk(s, key);
    UserOk(s, user);
    UserOk(s, i);
    LoanIndexPositive(s.users[i].obligation);
    RepayEffect(s.pools[key].reserve, s.users[user].obligation, key, amount, s.slot);
  }

  lemma LiquidateLoan(s: State, l: nat, user: nat, key: Pubkey, w: Pubkey, amount: u64, to: Destination, i: nat,
                      k: Pubkey)
    requires Inv(s) && i < |s.users| && k in s.pools && Exec(s, Liquidate(l, user, key, w, amount, to)).Ok?
    ensures LoanSteps(s, Liquidate(l, user, key, w, amount, to), i, k)
    ensures i == user && k == key ==>
      var ix := Liquidate(l, user, key, w, amount, to);
      2 * RATE_SCALE * FlowOf(s, ix, key).repaid <= DebtAt(UserLoan(s, i, key), WithInterest(s, ix, key).index)
  {
    hide Inv, PoolInv, UserInv, ObligationInv, Wf, LoanOf, DebtAt, Moved, ReserveData.Accrue, I.Liquidate,
      LiquidateStep;
    PoolOk(s, key);
    PoolOk(s, w);
    UserOk(s, user);
    UserOk(s, i);
    LoanIndexPositive(s.users[i].obligation);
    LiquidateOutcome(s, l, user, key, w, amount, to);
    LiquidateSettles(s, user, key, w, amount);
  }

  lemma RefreshLoan(s: State, user: nat, accounts: set<Pubkey>, now: i64, i: nat, k: Pubkey)
    requires Inv(s) && i < |s.users| && k in s.pools && Exec(s, RefreshObligation(user, accounts, now)).Ok?
    ensures LoanSteps(s, RefreshObligation(user, accounts, now), i, k)
  {
    hide Inv, UserInv, ObligationInv, Wf, LoanOf, I.RefreshObligation;
    UserOk(s, user);
    UserOk(s, i);
    LoanIndexPositive(s.users[i].obligation);
    RefreshKeeps(s.users[user].obligation, Passed(s.pools, accounts), s.slot);
  }

  lemma CollateralLoan(s: State, ix: Instruction, i: nat, k: Pubkey)
    requires i < |s.users| && Wf(s.users[i].obligation) && k in s.pools && Exec(s, ix).Ok?
    requires ix.DepositCollateral? || ix.WithdrawCollateral?
    ensures LoanSteps(s, ix, i, k)
  {
    hide I.WithdrawCollateral, LoanOf, DebtAt, Wf;
    LoanIndexPositive(s.users[i].obligation);
    if ix.WithdrawCollateral? {
      WithdrawKeepsBorrows(s.users[ix.user].obligation, ix.reserve, ix.amount, s.slot);
    }
  }

  lemma OtherLoan(s: State, ix: Instruction, i: nat, k: Pubkey)
    requires i < |s.users| && Wf(s.users[i].obligation) && k in s.pools && Exec(s, ix).Ok?
    requires !ix.Borrow? && !ix.Repay? && !ix.Liquidate? && !ix.RefreshObligation?
    requires !ix.DepositCollateral? && !ix.WithdrawCollateral?
    ensures LoanSteps(s, ix, i, k)
  {
    hide I.Deposit, I.Withdraw, I.RefreshReserve, LoanOf, DebtAt, Wf;
    LoanIndexPositive(s.users[i].obligation);
  }

  lemma WithdrawKeepsBorrows(o: ObligationData, key: Pubkey, amount: u64, slot: u64)
    requires I.WithdrawCollateral(o, key, amount, slot).Ok?
    ensures I.WithdrawCollateral(o, key, amount, slot).value.borrows == o.borrows
  {
  }

  lemma LoanStep(s: State, ix: Instruction, i: nat, key: Pubkey)
    requires Inv(s) && i < |s.users| && key in s.pools && Exec(s, ix).Ok?
    ensures LoanSteps(s, ix, i, key)
  {
    hide Inv, Exec, LoanSteps;
    match ix
    case Borrow(u, k, a, to) => BorrowLoan(s, u, k, a, to, i, key);
    case Repay(u, k, a) => RepayLoan(s, u, k, a, i, key);
    case Liquidate(l, u, k, w, a, to) => LiquidateLoan(s, l, u, k, w, a, to, i, key);
    case RefreshObligation(u, accounts, now) => RefreshLoan(s, u, accounts, now, i, key);
    case DepositCollateral(_, _, _) => UserOk(s, i); CollateralLoan(s, ix, i, key);
    case WithdrawCollateral(_, _, _) => UserOk(s, i); CollateralLoan(s, ix, i, key);
    case _ => UserOk(s, i); OtherLoan(s, ix, i, key);
  }
}
