/** A loan from the day it opens to the repayment that closes it. */
module LoanLife {
  import opened Arithmetic
  import opened Numeric
  import opened ReserveModel
  import opened ReserveProperties
  import opened Accruals
  import opened ObligationModel
  import opened ObligationProperties
  import opened RefreshProperties
  import opened InstructionProperties
  import opened Market
  import opened MarketInvariant
  import opened ReserveFlows
  import opened LoanFlows
  import I = InstructionModel

  // ---- Principal ------------------------------------------------------------------------------

  /** Tokens lent on a loan and repaid on it, by its owner or by liquidators, since it last opened. */
  datatype Tab = Tab(borrowed: nat, repaid: nat)

  function AddCharge(t: Tab, m: State, ix: Instruction, i: nat, key: Pubkey): Tab {
    if Exec(m, ix).Err? || !Charges(ix, i, key) || i >= |m.users| then t
    else
      var f := FlowOf(m, ix, key);
      if UserLoan(m, i, key).None? then Tab(f.lent, f.repaid) else Tab(t.borrowed + f.lent, t.repaid + f.repaid)
  }

  function TabOf(s: State, ixs: seq<Instruction>, i: nat, key: Pubkey): Tab {
    if |ixs| == 0 then Tab(0, 0)
    else
      var earlier, ix := ixs[..|ixs| - 1], ixs[|ixs| - 1];
      AddCharge(TabOf(s, earlier, i, key), Run(s, earlier), ix, i, key)
  }

  /** An open loan owes at least its unpaid principal; a closed one has been paid for in full. */
  predicate PrincipalKept(t: Tab, loan: Option<Loan>) {
    if loan.Some? then RATE_SCALE * (t.borrowed - t.repaid) <= loan.value.debt else t.borrowed <= t.repaid
  }

  lemma MoveKeepsPrincipal(t: Tab, x: Option<Loan>, y: Option<Loan>, index: nat, lent: nat, repaid: nat)
    requires x.Some? ==> 0 < x.value.index <= index
    requires PrincipalKept(t, x) && repaid * RATE_SCALE <= DebtAt(x, index)
    requires LoanMoved(x, y, index, RATE_SCALE * (lent - repaid))
    ensures PrincipalKept(if x.None? then Tab(lent, repaid) else Tab(t.borrowed + lent, t.repaid + repaid), y)
  {
    if x.Some? {
      DebtAtCatchesUp(x.value, index);
    }
  }

  lemma StepKeepsPrincipal(t: Tab, m: State, ix: Instruction, i: nat, key: Pubkey)
    requires Inv(m) && i < |m.users| && key in m.pools && Exec(m, ix).Ok?
    requires PrincipalKept(t, UserLoan(m, i, key))
    ensures i < |Exec(m, ix).value.users|
    ensures PrincipalKept(AddCharge(t, m, ix, i, key), UserLoan(Exec(m, ix).value, i, key))
  {
    hide Inv, Exec, FlowOf, WithInterest, UserLoan, LoanMoved, DebtAt;
    LoanStep(m, ix, i, key);
    if Charges(ix, i, key) {
      var f := FlowOf(m, ix, key);
      var x, y := UserLoan(m, i, key), UserLoan(Exec(m, ix).value, i, key);
      MoveKeepsPrincipal(t, x, y, WithInterest(m, ix, key).index, f.lent, f.repaid);
    }
  }

  /** Over any run, an open loan owes at least what was borrowed less what was repaid, and a loan that is closed
   *  has had at least as many tokens repaid as were borrowed since it opened.
   */
  lemma {:induction false} PrincipalIsRepaid(s: State, ixs: seq<Instruction>, i: nat, key: Pubkey)
    requires Inv(s) && i < |s.users| && key in s.pools && UserLoan(s, i, key).None?
    ensures i < |Run(s, ixs).users| && PrincipalKept(TabOf(s, ixs, i, key), UserLoan(Run(s, ixs), i, key))
  {
    hide Inv, Exec, UserLoan, AddCharge;
    if |ixs| == 0 {
    } else {
      var earlier, ix := ixs[..|ixs| - 1], ixs[|ixs| - 1];
      var m := Run(s, earlier);
      PrincipalIsRepaid(s, earlier, i, key);
      RunKeepsInv(s, earlier);
      RunConserves(s, earlier, key);
      if Exec(m, ix).Ok? {
        StepKeepsPrincipal(TabOf(s, earlier, i, key), m, ix, i, key);
      } else {
        RefusedAddsNothing(TabOf(s, earlier, i, key), m, ix, i, key);
      }
    }
  }

  lemma RefusedAddsNothing(t: Tab, m: State, ix: Instruction, i: nat, key: Pubkey)
    requires Exec(m, ix).Err?
    ensures AddCharge(t, m, ix, i, key) == t
  {
    hide Exec;
  }

  /** The step that closes a loan forgives less than one token of it. */
  lemma ClosingForgivesDust(m: State, ix: Instruction, i: nat, key: Pubkey)
    requires Inv(m) && i < |m.users| && key in m.pools && Exec(m, ix).Ok?
    requires UserLoan(m, i, key).Some?
    ensures i < |Exec(m, ix).value.users| && 0 < UserLoan(m, i, key).value.index
    ensures UserLoan(Exec(m, ix).value, i, key).None? ==>
      var owed := DebtAt(UserLoan(m, i, key), WithInterest(m, ix, key).index);
      Charges(ix, i, key) && 0 <= owed - RATE_SCALE * FlowOf(m, ix, key).repaid < RATE_SCALE
  {
    hide Inv, Exec, FlowOf, WithInterest, UserLoan, DebtAt;
    LoanStep(m, ix, i, key);
    if Charges(ix, i, key) && UserLoan(Exec(m, ix).value, i, key).None? {
      UserOk(m, i);
      NothingLentOnClosing(m, ix, i, key);
    }
  }

  lemma NothingLentOnClosing(m: State, ix: Instruction, i: nat, key: Pubkey)
    requires Exec(m, ix).Ok? && Charges(ix, i, key) && LoanSteps(m, ix, i, key)
    requires i < |m.users| && key in m.pools && UserLoan(Exec(m, ix).value, i, key).None?
    requires UserLoan(m, i, key).Some? && Wf(m.users[i].obligation)
    ensures FlowOf(m, ix, key).lent == 0
  {
    hide Exec, WithInterest, UserLoan;
  }

  // ---- Repaying in full -----------------------------------------------------------------------

  /** A repayment is accepted exactly when the reserve's record covers it as well as the loan does, and the loan can be
   *  caught up at all: the record, rounded down at every accrual, can be the tighter of the two.
   */
  lemma RepayAcceptedIff(r: ReserveData, o: ObligationData, key: Pubkey, amount: u64, slot: u64)
    requires ReserveInv(r) && Wf(o) && key != DEFAULT_PUBKEY
    requires LoanOf(o.borrows, key).Some? ==> LoanOf(o.borrows, key).value.index <= r.index
    ensures Accruable(r, slot) <==> r.Accrue(slot).Ok?
    ensures LoanOf(o.borrows, key).Some? ==> 0 < LoanOf(o.borrows, key).value.index
    ensures I.Repay(r, o, key, amount, slot).Ok? <==>
      && Accruable(r, slot)
      && var accrued, loan := r.Accrue(slot).value, LoanOf(o.borrows, key);
      && 0 < amount && r.config.IsActive()
      && amount <= accrued.borrowed && accrued.available + amount <= U64_MAX
      && loan.Some? && Computable(loan.value, accrued.index)
      && RATE_SCALE * amount <= DebtAt(loan, accrued.index)
  {
    hide ReserveData.Accrue, Accruable;
    LoanIndexPositive(o);
    AccrueAcceptedIff(r, slot);
    if Accruable(r, slot) {
      AccruedRepayIff(r, o, key, amount, slot);
    }
  }

  lemma AccruedRepayIff(r: ReserveData, o: ObligationData, key: Pubkey, amount: u64, slot: u64)
    requires ReserveInv(r) && Wf(o) && key != DEFAULT_PUBKEY && r.Accrue(slot).Ok?
    requires LoanOf(o.borrows, key).Some? ==> 0 < LoanOf(o.borrows, key).value.index <= r.index
    ensures I.Repay(r, o, key, amount, slot).Ok? <==>
      var accrued, loan := r.Accrue(slot).value, LoanOf(o.borrows, key);
      && 0 < amount && r.config.IsActive()
      && amount <= accrued.borrowed && accrued.available + amount <= U64_MAX
      && loan.Some? && Computable(loan.value, accrued.index)
      && RATE_SCALE * amount <= DebtAt(loan, accrued.index)
  {
    hide ReserveData.Accrue;
    AccrueEffect(r, slot);
    var accrued, p := r.Accrue(slot).value, Position(BorrowKeys(o.borrows), key);
    if p.Some? && o.AccrueInterest(p.value, accrued.index).Ok? {
      AccrueRefines(o, p.value, accrued.index);
      RepayRefines(o.AccrueInterest(p.value, accrued.index).value, key, amount);
    } else if p.Some? {
      DebtAtCatchesUp(LoanIn(o.borrows[p.value]), accrued.index);
    }
  }

  // ---- Loans too large to catch up ------------------------------------------------------------

  /** The reserve's index has moved past the loan's, and catching up would leave 128 bits. */
  predicate Stuck(s: State, i: nat, key: Pubkey)
    requires i < |s.users| && key in s.pools
  {
    var loan, index := UserLoan(s, i, key), s.pools[key].reserve.index;
    loan.Some? && loan.value.index < index && !Computable(loan.value, index)
  }

  lemma StuckStep(s: State, ix: Instruction, i: nat, key: Pubkey)
    requires Inv(s) && i < |s.users| && key in s.pools && Exec(s, ix).Ok? && Stuck(s, i, key)
    ensures i < |Exec(s, ix).value.users| && key in Exec(s, ix).value.pools
    ensures Stuck(Exec(s, ix).value, i, key) && UserLoan(Exec(s, ix).value, i, key) == UserLoan(s, i, key)
  {
    hide Inv, Exec, FlowOf, WithInterest, UserLoan, LoanMoved, DebtAt;
    LoanStep(s, ix, i, key);
    ReserveStep(s, ix, key);
    var debt, index := UserLoan(s, i, key).value.debt, s.pools[key].reserve.index;
    Mono(index, WithInterest(s, ix, key).index, debt);
    Mono(index, Exec(s, ix).value.pools[key].reserve.index, debt);
  }

  /** No run by anyone ever changes such a loan again: it is not repaid, not extended, not liquidated, not refreshed. */
  lemma {:induction false} StuckForever(s: State, ixs: seq<Instruction>, i: nat, key: Pubkey)
    requires Inv(s) && i < |s.users| && key in s.pools && Stuck(s, i, key)
    ensures i < |Run(s, ixs).users| && key in Run(s, ixs).pools
    ensures Stuck(Run(s, ixs), i, key) && UserLoan(Run(s, ixs), i, key) == UserLoan(s, i, key)
  {
    hide Inv, Exec, UserLoan, Stuck;
    if |ixs| == 0 {
    } else {
      var earlier, ix := ixs[..|ixs| - 1], ixs[|ixs| - 1];
      StuckForever(s, earlier, i, key);
      RunKeepsInv(s, earlier);
      if Exec(Run(s, earlier), ix).Ok? {
        StuckStep(Run(s, earlier), ix, i, key);
      }
    }
  }

  /** While the loan's reserve has a price and the scan reaches it, its obligation cannot even be refreshed. */
  lemma StuckIsNeverFresh(s: State, i: nat, key: Pubkey, accounts: set<Pubkey>, now: i64)
    requires Inv(s) && i < |s.users| && key in s.pools && Stuck(s, i, key) && 0 < s.pools[key].reserve.price
    requires Position(BorrowKeys(s.users[i].obligation.borrows), key).Some?
          && Position(BorrowKeys(s.users[i].obligation.borrows), key).value < s.users[i].obligation.borrowsCount
    ensures Exec(s, RefreshObligation(i, accounts, now)).Err?
  {
    hide Inv, ReserveData.TotalSupply;
    PoolOk(s, key);
    var o, reserves := s.users[i].obligation, Passed(s.pools, accounts);
    var p := Position(BorrowKeys(o.borrows), key).value;
    BorrowLoop(o.borrows, reserves, 0, o.borrowsCount);
    assert LoanOf(o.borrows, key) == Some(LoanIn(o.borrows[p]));
    assert o.borrows[p].debt * s.pools[key].reserve.index > U128_MAX;
    assert I.PriceBorrow(o.borrows[p], reserves).Err?;
  }
}
