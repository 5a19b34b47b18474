/** How one instruction moves each reserve, and what that adds up to over a run. */
module ReserveFlows {
  import opened Arithmetic
  import opened Numeric
  import opened ReserveModel
  import opened ReserveProperties
  import opened ObligationModel
  import opened PriceOracle
  import opened ObligationProperties
  import opened InstructionProperties
  import opened Market
  import opened MarketInvariant
  import opened MarketSteps
  import I = InstructionModel

  /** Reachability: the invariant holds after every run. */
  lemma {:induction false} RunKeepsInv(s: State, ixs: seq<Instruction>)
    requires Inv(s)
    ensures Inv(Run(s, ixs))
  {
    if |ixs| == 0 {
    } else {
      RunKeepsInv(s, ixs[..|ixs| - 1]);
      StepKeepsInv(Run(s, ixs[..|ixs| - 1]), ixs[|ixs| - 1]);
    }
  }

  lemma StepKeepsInv(s: State, ix: Instruction)
    requires Inv(s)
    ensures Inv(Step(s, ix))
  {
    if Exec(s, ix).Ok? {
      ExecKeepsInv(s, ix);
    }
  }

  lemma ReachableInv(ixs: seq<Instruction>)
    ensures Inv(Run(GENESIS, ixs))
  {
    RunKeepsInv(GENESIS, ixs);
  }

  /** Every reserve of every reachable market: the vaults and the mint hold what the program's own records say,
   *  whoever owns it; the fees never eat into what the cTokens stand for, the total supply never fails, and
   *  the 1:1 rate is used exactly while no cToken is out.
   */
  lemma ReachableReserve(ixs: seq<Instruction>, key: Pubkey)
    requires key in Run(GENESIS, ixs).pools
    ensures var s := Run(GENESIS, ixs);
      var p := s.pools[key];
      && p.liquidityVault == p.reserve.available + p.parked
      && p.ctokenSupply == p.reserve.ctokens
      && p.collateralVault == TotalLocked(s.users, key) + p.parkedCTokens
      && p.reserve.ctokens == p.collateralVault + TotalHeld(s.users, key)
      && p.reserve.fees <= p.reserve.available + p.reserve.borrowed
      && p.reserve.ctokens <= p.reserve.Supply()
      && p.reserve.TotalSupply() == Ok(p.reserve.Supply())
      && p.reserve.CollateralExchangeRate()
         == (if 0 < p.reserve.ctokens then ExchangeRate(p.reserve.ctokens, p.reserve.Supply()) else ExchangeRate(1, 1))
      && p.reserve.config.Validated() && RATE_SCALE <= p.reserve.index
  {
    hide Inv, DebtBounded, ReserveData.TotalSupply, ReserveData.CollateralExchangeRate;
    ReachableInv(ixs);
    PoolOk(Run(GENESIS, ixs), key);
    ExchangeRateUsed(Run(GENESIS, ixs).pools[key].reserve);
  }

  /** Every open loan of every reachable market: at least one token is owed, and its index lies between the
   *  initial index and the reserve's.
   */
  lemma ReachableLoan(ixs: seq<Instruction>, i: nat, key: Pubkey)
    requires i < |Run(GENESIS, ixs).users| && LoanOf(Run(GENESIS, ixs).users[i].obligation.borrows, key).Some?
    ensures var s := Run(GENESIS, ixs);
      var loan := LoanOf(s.users[i].obligation.borrows, key).value;
      && key in s.pools
      && RATE_SCALE <= loan.debt
      && RATE_SCALE <= loan.index <= s.pools[key].reserve.index
  {
    hide Inv, LoanOf, Wf;
    ReachableInv(ixs);
    UserOk(Run(GENESIS, ixs), i);
    LoanIndexPositive(Run(GENESIS, ixs).users[i].obligation);
  }

  // ---- One instruction ------------------------------------------------------------------------

  predicate Accrues(ix: Instruction, key: Pubkey) {
    match ix
    case Deposit(_, k, _) => k == key
    case Withdraw(_, k, _) => k == key
    case Borrow(_, k, _, _) => k == key
    case Repay(_, k, _) => k == key
    case Liquidate(_, _, k, w, _, _) => k == key || w == key
    case RefreshReserve(k, _, _) => k == key
    case _ => false
  }

  /** Tokens an executed instruction moves into or out of reserve `key`. */
  datatype Flow = Flow(deposited: nat, redeemed: nat, lent: nat, repaid: nat)

  const NO_FLOW := Flow(0, 0, 0, 0)

  function FlowOf(s: State, ix: Instruction, key: Pubkey): Flow
    requires Exec(s, ix).Ok?
  {
    match ix
    case Deposit(_, k, a) => if k == key then NO_FLOW.(deposited := a) else NO_FLOW
    case Withdraw(_, k, a) =>
      if k == key then NO_FLOW.(redeemed := I.Withdraw(s.pools[k].reserve, a, s.slot).value.1) else NO_FLOW
    case Borrow(_, k, a, _) => if k == key then NO_FLOW.(lent := a) else NO_FLOW
    case Repay(_, k, a) => if k == key then NO_FLOW.(repaid := a) else NO_FLOW
    case Liquidate(_, u, k, w, a, _) =>
      if k == key
      then NO_FLOW.(repaid := I.Liquidate(Reserves(s.pools), s.users[u].obligation, k, w,
        a, s.slot).value.seizure.repaid)
      else NO_FLOW
    case _ => NO_FLOW
  }

  /** The reserve after the interest the instruction books, before anything else. */
  function WithInterest(s: State, ix: Instruction, key: Pubkey): ReserveData
    requires key in s.pools
  {
    var r := s.pools[key].reserve;
    if Accrues(ix, key) then r.Accrue(s.slot).GetOr(r) else r
  }

  /** `q` is `a` after the flow `f`, at an exchange rate that has not fallen. */
  predicate Flowed(a: ReserveData, q: ReserveData, f: Flow) {
    && q.index == a.index && q.fees == a.fees
    && q.borrowed == a.borrowed + f.lent - f.repaid
    && q.available == a.available + f.deposited - f.redeemed - f.lent + f.repaid
    && (a.ctokens > 0 ==> RateKept(a, q))
  }

  /** The price of reserve `key` after the instruction. */
  function PriceAfter(ix: Instruction, key: Pubkey, price: u128): u128 {
    if ix.RefreshReserve? && ix.reserve == key then ReadPrice(ix.update, ix.now).GetOr(price) else price
  }

  /** The parameters of reserve `key` after the instruction. */
  function ConfigAfter(ix: Instruction, key: Pubkey, config: ReserveConfig): ReserveConfig {
    if ix.UpdateConfig? && ix.reserve == key then ix.config else config
  }

  /** The claim of `ReserveStep`. */
  predicate StepFlows(s: State, ix: Instruction, key: Pubkey)
    requires key in s.pools && Exec(s, ix).Ok?
  {
    var a, t := WithInterest(s, ix, key), Exec(s, ix).value;
    && key in t.pools
    && Accrued(s.pools[key].reserve, a) && ReserveInv(a)
    && Flowed(a, t.pools[key].reserve, FlowOf(s, ix, key))
    && t.pools[key].reserve.price == PriceAfter(ix, key, a.price)
    && t.pools[key].reserve.config == ConfigAfter(ix, key, a.config)
  }

  lemma DepositFlow(s: State, user: nat, key: Pubkey, amount: u64)
    requires key in s.pools && ReserveInv(s.pools[key].reserve) && Exec(s, Deposit(user, key, amount)).Ok?
    ensures StepFlows(s, Deposit(user, key, amount), key)
  {
    hide ReserveData.Accrue, ReserveData.DepositLiquidity, RateKept;
    AccrueEffect(s.pools[key].reserve, s.slot);
    DepositEffect(s.pools[key].reserve.Accrue(s.slot).value, amount);
  }

  lemma WithdrawFlow(s: State, user: nat, key: Pubkey, amount: u64)
    requires key in s.pools && ReserveInv(s.pools[key].reserve) && Exec(s, Withdraw(user, key, amount)).Ok?
    ensures StepFlows(s, Withdraw(user, key, amount), key)
  {
    hide ReserveData.Accrue, ReserveData.RedeemCollateral, RateKept;
    AccrueEffect(s.pools[key].reserve, s.slot);
    RedeemEffect(s.pools[key].reserve.Accrue(s.slot).value, amount);
  }

  lemma BorrowFlow(s: State, user: nat, key: Pubkey, amount: u64, to: Destination)
    requires Inv(s) && key in s.pools && Exec(s, Borrow(user, key, amount, to)).Ok?
    ensures StepFlows(s, Borrow(user, key, amount, to), key)
  {
    hide Inv, PoolInv, UserInv, ObligationInv, Charged, Wf, I.Borrow, ReserveData.Accrue, Balance;
    PoolOk(s, key);
    UserOk(s, user);
    BorrowEffect(s.pools[key].reserve, s.users[user].obligation, key, amount, s.slot);
    AccrueEffect(s.pools[key].reserve, s.slot);
  }

  lemma RepayFlow(s: State, user: nat, key: Pubkey, amount: u64)
    requires Inv(s) && key in s.pools && Exec(s, Repay(user, key, amount)).Ok?
    ensures StepFlows(s, Repay(user, key, amount), key)
  {
    hide Inv, PoolInv, UserInv, ObligationInv, Charged, Wf, I.Repay, ReserveData.Accrue, Balance;
    PoolOk(s, key);
    UserOk(s, user);
    RepayEffect(s.pools[key].reserve, s.users[user].obligation, key, amount, s.slot);
    AccrueEffect(s.pools[key].reserve, s.slot);
  }

  lemma LiquidateFlow(s: State, l: nat, user: nat, k: Pubkey, w: Pubkey, amount: u64, to: Destination, key: Pubkey)
    requires k in s.pools && key in s.pools && ReserveInv(s.pools[k].reserve) && ReserveInv(s.pools[key].reserve)
    requires Exec(s, Liquidate(l, user, k, w, amount, to)).Ok?
    ensures StepFlows(s, Liquidate(l, user, k, w, amount, to), key)
  {
    hide I.Liquidate, LiquidateStep, ReserveData.Accrue, ReserveInv, Reserves;
    LiquidateOutcome(s, l, user, k, w, amount, to);
    if key == k || key == w {
      AccrueEffect(s.pools[key].reserve, s.slot);
    }
  }

  lemma RefreshReserveFlow(s: State, key: Pubkey, update: PriceUpdate, now: i64)
    requires key in s.pools && ReserveInv(s.pools[key].reserve) && Exec(s, RefreshReserve(key, update, now)).Ok?
    ensures StepFlows(s, RefreshReserve(key, update, now), key)
  {
    hide ReadPrice;
    AccrueEffect(s.pools[key].reserve, s.slot);
  }

  /** The reserve is left alone, except perhaps for its configuration. */
  predicate Untouched(s: State, ix: Instruction, key: Pubkey)
    requires key in s.pools && Exec(s, ix).Ok?
  {
    && key in Exec(s, ix).value.pools
    && var r := s.pools[key].reserve;
       Exec(s, ix).value.pools[key].reserve == r.(config := ConfigAfter(ix, key, r.config))
  }

  /** That makes no flow. */
  lemma UntouchedFlows(s: State, ix: Instruction, key: Pubkey)
    requires key in s.pools && ReserveInv(s.pools[key].reserve) && Exec(s, ix).Ok?
    requires !Accrues(ix, key) && Untouched(s, ix, key)
    ensures StepFlows(s, ix, key)
  {
    hide Exec;
  }

  lemma OtherPoolUntouched(s: State, ix: Instruction, key: Pubkey)
    requires key in s.pools && Exec(s, ix).Ok? && !Accrues(ix, key)
    requires ix.Deposit? || ix.Withdraw? || ix.Borrow? || ix.Repay? || ix.RefreshReserve?
    ensures Untouched(s, ix, key)
  {
    hide I.Deposit, I.Withdraw, I.Borrow, I.Repay, I.RefreshReserve;
  }

  lemma ObligationUntouched(s: State, ix: Instruction, key: Pubkey)
    requires key in s.pools && Exec(s, ix).Ok?
    requires ix.DepositCollateral? || ix.WithdrawCollateral? || ix.RefreshObligation?
    ensures Untouched(s, ix, key)
  {
    hide I.DepositCollateral, I.WithdrawCollateral, I.RefreshObligation;
  }

  lemma LiquidationUntouched(s: State, ix: Instruction, key: Pubkey)
    requires Inv(s) && key in s.pools && Exec(s, ix).Ok? && ix.Liquidate? && !Accrues(ix, key)
    ensures Untouched(s, ix, key)
  {
    hide Inv, I.Liquidate, LiquidateStep, Reserves;
    PoolOk(s, ix.reserve);
    LiquidateOutcome(s, ix.liquidator, ix.user, ix.reserve, ix.seizedReserve, ix.amount, ix.to);
  }

  lemma SettingsUntouched(s: State, ix: Instruction, key: Pubkey)
    requires key in s.pools && Exec(s, ix).Ok?
    requires ix.AddReserve? || ix.UpdateConfig? || ix.SetPaused? || ix.InitObligation? || ix.Fund? || ix.SendCTokens?
          || ix.AdvanceSlot?
    ensures Untouched(s, ix, key)
  {
    hide DepositStep, WithdrawStep, DepositCollateralStep, WithdrawCollateralStep, BorrowStep, RepayStep, LiquidateStep,
      RefreshObligationStep, RefreshReserveStep;
  }

  /** An instruction that books no interest on a reserve leaves it alone. */
  lemma NoAccrualUntouched(s: State, ix: Instruction, key: Pubkey)
    requires Inv(s) && key in s.pools && Exec(s, ix).Ok? && !Accrues(ix, key)
    ensures Untouched(s, ix, key)
  {
    hide Inv, Untouched, Exec;
    match ix
    case Liquidate(_, _, _, _, _, _) => LiquidationUntouched(s, ix, key);
    case Deposit(_, _, _) => OtherPoolUntouched(s, ix, key);
    case Withdraw(_, _, _) => OtherPoolUntouched(s, ix, key);
    case Borrow(_, _, _, _) => OtherPoolUntouched(s, ix, key);
    case Repay(_, _, _) => OtherPoolUntouched(s, ix, key);
    case RefreshReserve(_, _, _) => OtherPoolUntouched(s, ix, key);
    case DepositCollateral(_, _, _) => ObligationUntouched(s, ix, key);
    case WithdrawCollateral(_, _, _) => ObligationUntouched(s, ix, key);
    case RefreshObligation(_, _, _) => ObligationUntouched(s, ix, key);
    case _ => SettingsUntouched(s, ix, key);
  }

  /** Every instruction moves every reserve by its booked interest and its flow, and by nothing else. */
  lemma ReserveStep(s: State, ix: Instruction, key: Pubkey)
    requires Inv(s) && key in s.pools && Exec(s, ix).Ok?
    ensures StepFlows(s, ix, key)
  {
    hide Inv, StepFlows, Untouched, Exec;
    PoolOk(s, key);
    if !Accrues(ix, key) {
      NoAccrualUntouched(s, ix, key);
      UntouchedFlows(s, ix, key);
    } else {
      match ix
      case Liquidate(l, u, k, w, a, to) =>
        LiquidatesListed(s, ix);
        PoolOk(s, k);
        LiquidateFlow(s, l, u, k, w, a, to, key);
      case Deposit(u, k, a) => DepositFlow(s, u, k, a);
      case Withdraw(u, k, a) => WithdrawFlow(s, u, k, a);
      case Borrow(u, k, a, to) => BorrowFlow(s, u, k, a, to);
      case Repay(u, k, a) => RepayFlow(s, u, k, a);
      case RefreshReserve(k, update, now) => RefreshReserveFlow(s, k, update, now);
    }
  }

  lemma LiquidatesListed(s: State, ix: Instruction)
    requires Exec(s, ix).Ok? && ix.Liquidate?
    ensures ix.reserve in s.pools && ix.seizedReserve in s.pools
  {
    hide LiquidateStep;
  }

  // ---- Runs -----------------------------------------------------------------------------------

  /** What a run has moved through reserve `key`: flows, booked interest, accruals and the debt they ran on. */
  datatype Totals = Totals(flow: Flow, interest: int, accruals: nat, accruedDebt: nat)

  function TotalsOf(s: State, ixs: seq<Instruction>, key: Pubkey): Totals {
    if |ixs| == 0 then Totals(NO_FLOW, 0, 0, 0)
    else
      var earlier, last := ixs[..|ixs| - 1], ixs[|ixs| - 1];
      AddStep(TotalsOf(s, earlier, key), Run(s, earlier), last, key)
  }

  /** The totals after one more instruction; a refused instruction adds nothing. */
  function AddStep(t: Totals, s: State, ix: Instruction, key: Pubkey): Totals {
    if Exec(s, ix).Err? || key !in s.pools then t
    else
      var f, r, a := FlowOf(s, ix, key), s.pools[key].reserve, WithInterest(s, ix, key);
      var accrual := a.index > r.index;
      Totals(Flow(t.flow.deposited + f.deposited, t.flow.redeemed + f.redeemed,
                  t.flow.lent + f.lent, t.flow.repaid + f.repaid),
             t.interest + a.borrowed - r.borrowed,
             t.accruals + if accrual then 1 else 0,
             t.accruedDebt + if accrual then r.borrowed else 0)
  }

  /** Tokens are conserved: holdings plus debt equal what came in, less what went out, plus booked interest. */
  lemma {:induction false} RunConserves(s: State, ixs: seq<Instruction>, key: Pubkey)
    requires Inv(s) && key in s.pools
    ensures key in Run(s, ixs).pools
    ensures var r, q, t := s.pools[key].reserve, Run(s, ixs).pools[key].reserve, TotalsOf(s, ixs, key);
      && q.available + q.borrowed == r.available + r.borrowed + t.flow.deposited - t.flow.redeemed + t.interest
      && q.available == r.available + t.flow.deposited - t.flow.redeemed - t.flow.lent + t.flow.repaid
      && r.fees <= q.fees && 10 * (q.fees - r.fees) <= t.interest
      && r.index <= q.index
  {
    hide Inv, Exec, WithInterest, FlowOf;
    if |ixs| == 0 {
    } else {
      var earlier, ix := ixs[..|ixs| - 1], ixs[|ixs| - 1];
      var m := Run(s, earlier);
      RunConserves(s, earlier, key);
      RunKeepsInv(s, earlier);
      if Exec(m, ix).Ok? {
        ReserveStep(m, ix, key);
        var a, r := WithInterest(m, ix, key), m.pools[key].reserve;
        Mono(r.config.protocolFee, 1000, a.borrowed - r.borrowed);
      }
    }
  }

  /** cTokens of `key` stay outstanding throughout the run. */
  predicate Outstanding(s: State, ixs: seq<Instruction>, key: Pubkey) {
    && key in Run(s, ixs).pools && Run(s, ixs).pools[key].reserve.ctokens > 0
    && (|ixs| > 0 ==> Outstanding(s, ixs[..|ixs| - 1], key))
  }

  lemma RateTransitive(r: ReserveData, m: ReserveData, q: ReserveData)
    requires RateKept(r, m) && RateKept(m, q) && 0 < m.ctokens && 0 <= r.ctokens
    ensures RateKept(r, q)
  {
    RatioTransitive(r.Supply(), r.ctokens, m.Supply(), m.ctokens, q.Supply(), q.ctokens);
  }

  lemma AccrualKeepsRate(r: ReserveData, a: ReserveData)
    requires ReserveInv(r) && Accrued(r, a)
    ensures RateKept(r, a)
  {
    AccruedKeepsSupply(r, a);
    Mono(r.Supply(), a.Supply(), r.ctokens);
  }

  /** While cTokens are outstanding their exchange rate never falls, whatever anyone does. */
  lemma {:induction false} ExchangeRateNeverFalls(s: State, ixs: seq<Instruction>, key: Pubkey)
    requires Inv(s) && key in s.pools && Outstanding(s, ixs, key)
    ensures RateKept(s.pools[key].reserve, Run(s, ixs).pools[key].reserve)
  {
    hide Inv, Exec, WithInterest, FlowOf;
    if |ixs| == 0 {
    } else {
      var earlier, ix := ixs[..|ixs| - 1], ixs[|ixs| - 1];
      var m := Run(s, earlier);
      ExchangeRateNeverFalls(s, earlier, key);
      if Exec(m, ix).Ok? {
        RunKeepsInv(s, earlier);
        StepKeepsRate(m, ix, key);
        RateTransitive(s.pools[key].reserve, m.pools[key].reserve, Run(s, ixs).pools[key].reserve);
      }
    }
  }

  lemma StepKeepsRate(s: State, ix: Instruction, key: Pubkey)
    requires Inv(s) && key in s.pools && s.pools[key].reserve.ctokens > 0 && Exec(s, ix).Ok?
    ensures key in Exec(s, ix).value.pools && RateKept(s.pools[key].reserve, Exec(s, ix).value.pools[key].reserve)
  {
    hide Inv, Exec, WithInterest, FlowOf, RateKept;
    PoolOk(s, key);
    ReserveStep(s, ix, key);
    AccrualKeepsRate(s.pools[key].reserve, WithInterest(s, ix, key));
    RateTransitive(s.pools[key].reserve, WithInterest(s, ix, key), Exec(s, ix).value.pools[key].reserve);
  }
}
