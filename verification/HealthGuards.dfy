/** What the tests of an obligation's health let through: exactly, for one instruction, and what escapes them
 *  in runs. */
module HealthGuards {
  import opened Arithmetic
  import opened Numeric
  import opened ReserveModel
  import opened ReserveProperties
  import opened Accruals
  import opened ObligationModel
  import opened ObligationProperties
  import opened RefreshProperties
  import opened InstructionProperties
  import opened Health
  import opened Market
  import opened MarketInvariant
  import opened MarketSteps
  import opened ReserveFlows
  import I = InstructionModel

  // ---- Withdrawing collateral -----------------------------------------------------------------

  /** The obligation without `amount` of the collateral of `key`; what is left keeps its part of the cached value. */
  function Release(o: ObligationData, key: Pubkey, amount: nat): ObligationData
    requires Position(DepositKeys(o.deposits), key).Some?
    requires 0 < amount <= o.deposits[Position(DepositKeys(o.deposits), key).value].amount
  {
    var i := Position(DepositKeys(o.deposits), key).value;
    var d := o.deposits[i];
    if amount == d.amount then
      o.(deposits := o.deposits[i := EMPTY_DEPOSIT], depositsCount := SaturatingDec(o.depositsCount))
    else
      Share(d.value, d.amount - amount, d.amount);
      o.(deposits := o.deposits[i := d.(amount := d.amount - amount,
        value := d.value * (d.amount - amount) / d.amount)])
  }

  lemma HealthTest(p: ObligationData)
    requires p.depositsCount <= MAX_SLOTS && p.borrowsCount <= MAX_SLOTS
    ensures p.HealthFactor().Ok? && (p.HealthFactor().value.None? || p.HealthFactor().value.value >= RATE_SCALE
      <==> SeenBorrows(p) == 0 || RATE_SCALE * SeenBorrows(p) <= SeenDeposits(p))
  {
    HealthyIff(p);
  }

  lemma CutsAndWithdraws(o: ObligationData, key: Pubkey, amount: u64, value: u128)
    requires Wf(o) && key != DEFAULT_PUBKEY && 0 < amount <= Locked(o.deposits, key)
    requires var d := DepositAt(o.deposits, key); MulDiv(d.value, d.amount - amount, d.amount) == Ok(value)
    ensures var i := Position(DepositKeys(o.deposits), key).value;
      o.(deposits := o.deposits[i := o.deposits[i].(value := value)]).Withdraw(key, amount)
        == Ok(Release(o, key, amount))
  {
    var i := Position(DepositKeys(o.deposits), key).value;
    var cut := o.(deposits := o.deposits[i := o.deposits[i].(value := value)]);
    assert DepositKeys(cut.deposits) == DepositKeys(o.deposits);
    var p := Release(o, key, amount);
    assert cut.deposits[i := p.deposits[i]] == p.deposits;
  }

  lemma ReleaseCounts(o: ObligationData, key: Pubkey, amount: nat)
    requires Wf(o) && key != DEFAULT_PUBKEY && 0 < amount <= Locked(o.deposits, key)
    ensures Release(o, key, amount).depositsCount <= MAX_SLOTS && Release(o, key, amount).borrowsCount <= MAX_SLOTS
    ensures Release(o, key, amount).borrows == o.borrows && SeenBorrows(Release(o, key, amount)) == SeenBorrows(o)
  {
    TablesAreMaps(o);
  }

  /** A withdrawal of collateral is accepted exactly when the obligation is fresh and holds that much, the cut of the
   *  cached value fits, and what is then in sight covers RATE_SCALE times the debt in sight or no debt is in sight,
   *  whatever holes the tables have.
   */
  lemma WithdrawCollateralAcceptedIff(o: ObligationData, key: Pubkey, amount: u64, slot: u64)
    requires Wf(o) && key != DEFAULT_PUBKEY
    ensures o.borrowsCount <= MAX_SLOTS
    ensures 0 < amount <= Locked(o.deposits, key) ==> Release(o, key, amount).depositsCount <= MAX_SLOTS
    ensures I.WithdrawCollateral(o, key, amount, slot).Ok? <==>
      && slot == o.lastUpdateSlot && 0 < amount <= Locked(o.deposits, key)
      && DepositAt(o.deposits, key).value * (Locked(o.deposits, key) - amount) <= U128_MAX
      && (SeenBorrows(o) == 0 || RATE_SCALE * SeenBorrows(o) <= SeenDeposits(Release(o, key, amount)))
    ensures I.WithdrawCollateral(o, key, amount, slot).Ok? ==>
      I.WithdrawCollateral(o, key, amount, slot) == Ok(Release(o, key, amount))
  {
    hide ObligationData.Withdraw, ObligationData.HealthFactor, SeenDeposits, SeenBorrows, Release, Wf;
    TablesAreMaps(o);
    if 0 < amount <= Locked(o.deposits, key) {
      var d := DepositAt(o.deposits, key);
      Mono(0, d.value, d.amount - amount);
      ReleaseCounts(o, key, amount);
      HealthTest(Release(o, key, amount));
      if d.value * (d.amount - amount) <= U128_MAX {
        CutsAndWithdraws(o, key, amount, MulDiv(d.value, d.amount - amount, d.amount).value);
      }
    }
  }

  // ---- Liquidating ----------------------------------------------------------------------------

  /** What one liquidation may repay of a debt. */
  function Repaid(amount: u64, owed: nat): u64 {
    Floor(owed, RATE_SCALE);
    I.Min(amount, owed / RATE_SCALE * MAX_LIQUIDATION_CLOSE_FACTOR_PCT / 100 % U64_MODULUS)
  }

  /** The value repaid with the bonus, in tokens of the seized reserve `b`. */
  function UnderlyingFor(repaid: u64, price: u128, b: ReserveData): nat
    requires 0 < b.price
  {
    Mono(0, repaid, price);
    Mono(0, repaid * price, BPS_SCALER + b.config.liquidationBonus);
    Floor(repaid * price * (BPS_SCALER + b.config.liquidationBonus), BPS_SCALER);
    Floor(repaid * price * (BPS_SCALER + b.config.liquidationBonus) / BPS_SCALER, b.price);
    repaid * price * (BPS_SCALER + b.config.liquidationBonus) / BPS_SCALER / b.price
  }

  /** The same in its cTokens. */
  function CTokensFor(repaid: u64, price: u128, b: ReserveData): nat
    requires 0 < b.price && ReserveInv(b)
  {
    var underlying := UnderlyingFor(repaid, price, b);
    if b.ctokens == 0 then underlying
    else
      Mono(0, underlying, b.ctokens);
      Floor(underlying * b.ctokens, b.Supply());
      underlying * b.ctokens / b.Supply()
  }

  /** Both products fit 128 bits. */
  predicate Priceable(repaid: u64, price: u128, b: ReserveData)
    requires 0 < b.price && ReserveInv(b)
  {
    && repaid * price * (BPS_SCALER + b.config.liquidationBonus) <= U128_MAX
    && UnderlyingFor(repaid, price, b) * b.ctokens <= U128_MAX
  }

  lemma SeizableIs(repaid: u64, price: u128, b: ReserveData)
    requires 0 < b.price && ReserveInv(b)
    ensures var c := I.SeizableCTokens(repaid, price, b, b.Supply());
      && (c.Ok? <==> Priceable(repaid, price, b))
      && (c.Ok? ==> c.value == CTokensFor(repaid, price, b))
  {
    var factor := BPS_SCALER + b.config.liquidationBonus;
    Mono(0, repaid, price);
    Mono(1, factor, repaid * price);
    Mono(0, UnderlyingFor(repaid, price, b), b.ctokens);
    if repaid * price * factor <= U128_MAX {
      DivLe(repaid * price * factor, BPS_SCALER);
      DivLe(repaid * price * factor / BPS_SCALER, b.price);
    }
  }

  /** What a liquidation of `owed` tokens' worth of debt seizes. */
  function Taken(amount: u64, owed: nat, price: u128, b: ReserveData, locked: u64): u64
    requires 0 < b.price && ReserveInv(b)
  {
    I.Min(CTokensFor(Repaid(amount, owed), price, b), locked)
  }

  lemma AmountsIff(a: ReserveData, b: ReserveData, debt: u128, o: ObligationData, w: Pubkey, amount: u64)
    requires ReserveInv(b) && 0 < b.price && w != DEFAULT_PUBKEY
    ensures I.SeizeAmounts(a, b, debt, o, w, amount).Ok? <==>
      var repaid := Repaid(amount, debt);
      0 < repaid && Priceable(repaid, a.price, b) && 0 < Taken(amount, debt, a.price, b, Locked(o.deposits, w))
    ensures I.SeizeAmounts(a, b, debt, o, w, amount).Ok? ==>
      I.SeizeAmounts(a, b, debt, o, w, amount)
      == Ok((Repaid(amount, debt), Taken(amount, debt, a.price, b, Locked(o.deposits, w))))
  {
    hide Priceable, CTokensFor, I.SeizableCTokens, ReserveData.TotalSupply;
    ExchangeRateUsed(b);
    SeizableIs(Repaid(amount, debt), a.price, b);
  }

  /** The obligation's side, on reserves already accrued. */
  lemma SeizeIff(a: ReserveData, b: ReserveData, o: ObligationData, key: Pubkey, w: Pubkey, amount: u64, slot: u64)
    requires ReserveInv(b) && 0 < b.price && Wf(o) && key != DEFAULT_PUBKEY && w != DEFAULT_PUBKEY
    requires LoanOf(o.borrows, key).Some? ==> 0 < LoanOf(o.borrows, key).value.index <= a.index
    requires o.depositsCount <= MAX_SLOTS && o.borrowsCount <= MAX_SLOTS
    ensures I.Seize(a, b, o, key, w, amount, slot).Ok? <==>
      var loan := LoanOf(o.borrows, key);
      var owed := DebtAt(loan, a.index);
      && slot == o.lastUpdateSlot && SeenDeposits(o) < RATE_SCALE * SeenBorrows(o)
      && loan.Some? && Computable(loan.value, a.index)
      && 0 < Repaid(amount, owed) && Priceable(Repaid(amount, owed), a.price, b)
      && 0 < Taken(amount, owed, a.price, b, Locked(o.deposits, w))
    ensures I.Seize(a, b, o, key, w, amount, slot).Ok? ==>
      var owed := DebtAt(LoanOf(o.borrows, key), a.index);
      && I.Seize(a, b, o, key, w, amount, slot).value.repaid == Repaid(amount, owed)
      && I.Seize(a, b, o, key, w, amount, slot).value.seized == Taken(amount, owed, a.price, b, Locked(o.deposits, w))
  {
    hide Priceable, Repaid, Taken, Locked, DebtAt, Wf, SeenDeposits, SeenBorrows, I.SeizeAmounts,
      ReserveData.TotalSupply, ObligationData.IsHealthy, ObligationData.Repay, ObligationData.Withdraw;
    ExchangeRateUsed(b);
    HealthyIff(o);
    NegativeCover(o);
    var p := Position(BorrowKeys(o.borrows), key);
    if p.Some? {
      CaughtUpOrNot(o, key, a.index);
      if o.AccrueInterest(p.value, a.index).Ok? {
        var current := o.AccrueInterest(p.value, a.index).value;
        AmountsIff(a, b, current.borrows[p.value].debt, current, w, amount);
        SettlesIff(o, key, w, a, b, amount);
      }
    }
  }

  lemma NegativeCover(o: ObligationData)
    requires o.depositsCount <= MAX_SLOTS && o.borrowsCount <= MAX_SLOTS
    ensures !(SeenBorrows(o) == 0 || RATE_SCALE * SeenBorrows(o) <= SeenDeposits(o))
       <==> SeenDeposits(o) < RATE_SCALE * SeenBorrows(o)
  {
  }

  lemma CaughtUpOrNot(o: ObligationData, key: Pubkey, index: u128)
    requires Wf(o) && key != DEFAULT_PUBKEY && Position(BorrowKeys(o.borrows), key).Some?
    requires LoanOf(o.borrows, key).Some? ==> 0 < LoanOf(o.borrows, key).value.index <= index
    ensures var i := Position(BorrowKeys(o.borrows), key).value;
      && LoanOf(o.borrows, key).Some?
      && (o.AccrueInterest(i, index).Ok? <==> Computable(LoanOf(o.borrows, key).value, index))
      && (o.AccrueInterest(i, index).Ok? ==>
            var p := o.AccrueInterest(i, index).value;
            && Wf(p) && p.deposits == o.deposits && p.borrows[i].debt == DebtAt(LoanOf(o.borrows, key), index)
            && Owed(p.borrows, key) == DebtAt(LoanOf(o.borrows, key), index))
  {
    var i := Position(BorrowKeys(o.borrows), key).value;
    DebtAtCatchesUp(LoanIn(o.borrows[i]), index);
    if o.AccrueInterest(i, index).Ok? {
      AccrueRefines(o, i, index);
    }
  }

  /** Amounts that were computed are always repaid and seized. */
  lemma SettlesIff(o: ObligationData, key: Pubkey, w: Pubkey, a: ReserveData, b: ReserveData, amount: u64)
    requires Wf(o) && key != DEFAULT_PUBKEY && w != DEFAULT_PUBKEY && Position(BorrowKeys(o.borrows), key).Some?
    requires LoanOf(o.borrows, key).Some? ==> 0 < LoanOf(o.borrows, key).value.index <= a.index
    requires o.AccrueInterest(Position(BorrowKeys(o.borrows), key).value, a.index).Ok?
    ensures var i := Position(BorrowKeys(o.borrows), key).value;
      var current := o.AccrueInterest(i, a.index).value;
      var amounts := I.SeizeAmounts(a, b, current.borrows[i].debt, current, w, amount);
      amounts.Ok? ==>
        && current.Repay(key, amounts.value.0).Ok?
        && current.Repay(key, amounts.value.0).value.Withdraw(w, amounts.value.1).Ok?
  {
    hide I.SeizeAmounts, ObligationData.Repay, ObligationData.Withdraw, Wf, DebtAt, LoanOf, Owed, Locked;
    CaughtUpOrNot(o, key, a.index);
    var i := Position(BorrowKeys(o.borrows), key).value;
    var current := o.AccrueInterest(i, a.index).value;
    var amounts := I.SeizeAmounts(a, b, current.borrows[i].debt, current, w, amount);
    if amounts.Ok? {
      AmountsInRange(a, b, current.borrows[i].debt, current, w, amount);
      SeizedIsThere(a, b, current.borrows[i].debt, current, w, amount);
      RepayRefines(current, key, amounts.value.0);
      WithdrawRefines(current.Repay(key, amounts.value.0).value, w, amounts.value.1);
    }
  }

  lemma SeizedIsThere(a: ReserveData, b: ReserveData, debt: u128, o: ObligationData, w: Pubkey, amount: u64)
    requires w != DEFAULT_PUBKEY && I.SeizeAmounts(a, b, debt, o, w, amount).Ok?
    ensures 0 < I.SeizeAmounts(a, b, debt, o, w, amount).value.1 <= Locked(o.deposits, w)
  {
    hide I.SeizableCTokens;
  }

  lemma PrepareIff(r: ReserveData, slot: u64)
    ensures I.Prepare(r, slot).Ok? <==> r.config.IsActive() && r.Accrue(slot).Ok? && 0 < r.Accrue(slot).value.price
    ensures I.Prepare(r, slot).Ok? ==> I.Prepare(r, slot) == r.Accrue(slot)
  {
    hide ReserveData.Accrue;
  }

  lemma RepaysIff(r: ReserveData, amount: u64)
    ensures r.Repay(amount).Ok? <==> amount <= r.borrowed && r.available + amount <= U64_MAX
    ensures r.Repay(amount).Ok? ==>
      r.Repay(amount).value == r.(borrowed := r.borrowed - amount, available := r.available + amount)
  {
  }

  /** A liquidation is accepted exactly when both reserves are active, can book their interest and have a price, the
   *  obligation is fresh and not covered RATE_SCALE times as far as the scan reaches, the loan exists and can be
   *  caught up, something is left to repay and to seize after the close factor, the roundings and the cap, the
   *  products fit, and the reserve's own record covers what is repaid. It then repays and seizes just that.
   */
  lemma LiquidateAcceptedIff(reserves: I.Reserves, o: ObligationData, key: Pubkey, w: Pubkey, amount: u64, slot: u64)
    requires key in reserves && w in reserves && ReserveInv(reserves[key]) && ReserveInv(reserves[w])
    requires Wf(o) && key != DEFAULT_PUBKEY && w != DEFAULT_PUBKEY
    requires LoanOf(o.borrows, key).Some? ==> LoanOf(o.borrows, key).value.index <= reserves[key].index
    ensures o.depositsCount <= MAX_SLOTS && o.borrowsCount <= MAX_SLOTS
    ensures LoanOf(o.borrows, key).Some? ==> 0 < LoanOf(o.borrows, key).value.index
    ensures forall k :: k == key || k == w ==>
      && (Accruable(reserves[k], slot) <==> reserves[k].Accrue(slot).Ok?)
      && (Accruable(reserves[k], slot) ==> ReserveInv(reserves[k].Accrue(slot).value))
    ensures I.Liquidate(reserves, o, key, w, amount, slot).Ok? <==>
      && 0 < amount && reserves[key].config.IsActive() && reserves[w].config.IsActive()
      && Accruable(reserves[key], slot) && Accruable(reserves[w], slot)
      && var a, b := reserves[key].Accrue(slot).value, reserves[w].Accrue(slot).value;
      && 0 < a.price && 0 < b.price
      && slot == o.lastUpdateSlot && SeenDeposits(o) < RATE_SCALE * SeenBorrows(o)
      && var loan := LoanOf(o.borrows, key);
      var repaid := Repaid(amount, DebtAt(loan, a.index));
      && loan.Some? && Computable(loan.value, a.index)
      && 0 < repaid && Priceable(repaid, a.price, b)
      && 0 < Taken(amount, DebtAt(loan, a.index), a.price, b, Locked(o.deposits, w))
      && repaid <= a.borrowed && a.available + repaid <= U64_MAX
    ensures I.Liquidate(reserves, o, key, w, amount, slot).Ok? ==>
      var l := I.Liquidate(reserves, o, key, w, amount, slot).value;
      var a, b, owed := reserves[key].Accrue(slot).value, reserves[w].Accrue(slot).value,
        DebtAt(LoanOf(o.borrows, key), reserves[key].Accrue(slot).value.index);
      && l.seizure.repaid == Repaid(amount, owed)
      && l.seizure.seized == Taken(amount, owed, a.price, b, Locked(o.deposits, w))
      && l.repay == a && l.withdraw == b
      && l.relieved == a.(borrowed := a.borrowed - l.seizure.repaid, available := a.available + l.seizure.repaid)
  {
    hide ReserveData.Accrue, Accruable, Priceable, Repaid, Taken, Locked, DebtAt, Wf, SeenDeposits, SeenBorrows, LoanOf,
      I.Prepare, I.Seize, ReserveData.Repay, Computable, ReserveInv;
    TablesAreMaps(o);
    LoanIndexPositive(o);
    forall k | k == key || k == w
      ensures Accruable(reserves[k], slot) <==> reserves[k].Accrue(slot).Ok?
      ensures Accruable(reserves[k], slot) ==> ReserveInv(reserves[k].Accrue(slot).value)
    {
      AccrueAcceptedIff(reserves[k], slot);
      if reserves[k].Accrue(slot).Ok? {
        AccrueEffect(reserves[k], slot);
      }
    }
    PrepareIff(reserves[key], slot);
    if I.Prepare(reserves[key], slot).Ok? {
      var a := I.Prepare(reserves[key], slot).value;
      AccrueEffect(reserves[key], slot);
      AccrueTwice(reserves[key], slot);
      assert reserves[key := a][w] == if w == key then a else reserves[w];
      PreparedAgain(reserves[key], slot);
      PrepareIff(reserves[w], slot);
      if I.Prepare(reserves[w], slot).Ok? {
        var b := I.Prepare(reserves[w], slot).value;
        SeizeIff(a, b, o, key, w, amount, slot);
        RepaysIff(a, Repaid(amount, DebtAt(LoanOf(o.borrows, key), a.index)));
      }
    }
  }

  /** Preparing an account a second time in the slot changes nothing. */
  lemma PreparedAgain(r: ReserveData, slot: u64)
    requires ReserveInv(r) && I.Prepare(r, slot).Ok?
    ensures I.Prepare(I.Prepare(r, slot).value, slot) == I.Prepare(r, slot)
  {
    hide ReserveData.Accrue;
    AccrueTwice(r, slot);
    AccrueEffect(r, slot);
    SameConfig(r, slot);
  }

  lemma SameConfig(r: ReserveData, slot: u64)
    requires r.Accrue(slot).Ok?
    ensures r.Accrue(slot).value.config == r.config
  {
  }

  // ---- Debt out of sight ----------------------------------------------------------------------

  /** An obligation whose scan sees no debt is never liquidated, whatever it owes. */
  lemma UnseenDebtIsNotLiquidated(s: State, u: nat, ix: Instruction)
    requires Inv(s) && u < |s.users| && ix.Liquidate? && ix.user == u
    requires s.users[u].obligation.borrowsCount <= MAX_SLOTS && SeenBorrows(s.users[u].obligation) == 0
    ensures Exec(s, ix).Err?
  {
    hide Inv, Wf, SeenBorrows, I.Prepare, ObligationData.IsHealthy, I.SeizeAmounts, ReserveData.TotalSupply;
    UserOk(s, u);
    TablesAreMaps(s.users[u].obligation);
    HealthyIff(s.users[u].obligation);
  }

  /** Nor is it held to its collateral: any part of it is released that is locked, as long as the cut of the cached
   *  value fits; the vault always has it and the owner's account always has room. */
  lemma UnseenDebtHoldsNothing(s: State, u: nat, key: Pubkey, amount: u64)
    requires Inv(s) && u < |s.users| && key in s.pools
    requires s.users[u].obligation.borrowsCount <= MAX_SLOTS && SeenBorrows(s.users[u].obligation) == 0
    ensures Exec(s, WithdrawCollateral(u, key, amount)).Ok? <==>
      var o := s.users[u].obligation;
      && !s.paused && s.slot == o.lastUpdateSlot && 0 < amount <= Locked(o.deposits, key)
      && DepositAt(o.deposits, key).value * (Locked(o.deposits, key) - amount) <= U128_MAX
  {
    hide Inv, Wf, SeenBorrows, SeenDeposits, I.WithdrawCollateral, Locked, DepositAt, Release, Balance;
    PoolOk(s, key);
    UserOk(s, u);
    WithdrawCollateralAcceptedIff(s.users[u].obligation, key, amount, s.slot);
    LockedBelowTotal(s.users, u, key);
    HeldBelowTotal(s.users, u, key);
  }

  lemma {:induction false} HeldBelowTotal(users: seq<User>, i: nat, key: Pubkey)
    requires i < |users|
    ensures Balance(users[i].ctokens, key) <= TotalHeld(users, key)
  {
    if i == |users| - 1 {
    } else {
      HeldBelowTotal(users[..|users| - 1], i, key);
    }
  }

  /** The scan reaches no loan at all. */
  predicate Blind(o: ObligationData) {
    o.borrowsCount <= MAX_SLOTS && forall i :: 0 <= i < o.borrowsCount ==> !o.borrows[i].IsActive()
  }

  lemma BlindSeesNothing(o: ObligationData)
    requires Blind(o)
    ensures SeenBorrows(o) == 0
  {
    var seen := BorrowValues(o.borrows)[..o.borrowsCount];
    SumZeroTail(seen, 0);
    assert seen[..0] == [];
    SaturatingIsMin(seen);
  }

  lemma BlindRefresh(o: ObligationData, reserves: I.Reserves, slot: u64)
    requires Blind(o) && I.RefreshObligation(o, reserves, slot).Ok?
    ensures var p := I.RefreshObligation(o, reserves, slot).value;
      p.borrows == o.borrows && p.borrowsCount == o.borrowsCount
  {
    BorrowLoop(o.borrows, reserves, 0, o.borrowsCount);
    var p := I.RefreshObligation(o, reserves, slot).value;
    assert p.borrows == o.borrows;
  }

  lemma CollateralKeepsLoans(r: ReserveData, o: ObligationData, key: Pubkey, amount: u64, slot: u64)
    ensures I.DepositCollateral(r, o, key, amount).Ok? ==>
      var p := I.DepositCollateral(r, o, key, amount).value; p.borrows == o.borrows && p.borrowsCount == o.borrowsCount
    ensures I.WithdrawCollateral(o, key, amount, slot).Ok? ==>
      var p := I.WithdrawCollateral(o, key, amount, slot).value;
      p.borrows == o.borrows && p.borrowsCount == o.borrowsCount
  {
  }

  /** The instruction is one by which user `u` changes its own loans. */
  predicate ChangesOwnLoans(ix: Instruction, u: nat) {
    (ix.Borrow? || ix.Repay?) && ix.user == u
  }

  /** User `u` has the loans it had. */
  predicate SameLoans(s: State, t: State, u: nat)
    requires u < |s.users|
  {
    && u < |t.users|
    && t.users[u].obligation.borrows == s.users[u].obligation.borrows
    && t.users[u].obligation.borrowsCount == s.users[u].obligation.borrowsCount
  }

  lemma LiquidationKeepsOthers(s: State, ix: Instruction, u: nat)
    requires Inv(s) && u < |s.users| && Exec(s, ix).Ok? && ix.Liquidate? && ix.user != u
    ensures SameLoans(s, Exec(s, ix).value, u)
  {
    hide Inv, I.Liquidate, LiquidateStep, Reserves;
    PoolOk(s, ix.reserve);
    LiquidateOutcome(s, ix.liquidator, ix.user, ix.reserve, ix.seizedReserve, ix.amount, ix.to);
  }

  lemma OthersKeepLoans(s: State, ix: Instruction, u: nat)
    requires u < |s.users| && Exec(s, ix).Ok? && !ix.Liquidate?
    requires (ix.Borrow? || ix.Repay? || ix.RefreshObligation? || ix.DepositCollateral? || ix.WithdrawCollateral?)
      ==> ix.user != u
    ensures SameLoans(s, Exec(s, ix).value, u)
  {
    hide I.Deposit, I.Withdraw, I.DepositCollateral, I.WithdrawCollateral, I.Borrow, I.Repay, I.RefreshObligation,
      I.RefreshReserve, LiquidateStep;
  }

  lemma OwnStepKeepsLoans(s: State, ix: Instruction, u: nat)
    requires u < |s.users| && Blind(s.users[u].obligation) && Exec(s, ix).Ok?
    requires (ix.RefreshObligation? || ix.DepositCollateral? || ix.WithdrawCollateral?) && ix.user == u
    ensures SameLoans(s, Exec(s, ix).value, u)
  {
    hide I.DepositCollateral, I.WithdrawCollateral, I.RefreshObligation, Blind;
    var o := s.users[u].obligation;
    if ix.RefreshObligation? {
      BlindRefresh(o, Passed(s.pools, ix.accounts), s.slot);
    } else {
      CollateralKeepsLoans(s.pools[ix.reserve].reserve, o, ix.reserve, ix.amount, s.slot);
    }
  }

  lemma BlindStep(s: State, ix: Instruction, u: nat)
    requires Inv(s) && u < |s.users| && Blind(s.users[u].obligation) && Exec(s, ix).Ok? && !ChangesOwnLoans(ix, u)
    ensures !(ix.Liquidate? && ix.user == u) && SameLoans(s, Exec(s, ix).value, u)
  {
    hide Inv, Blind, SeenBorrows, Exec, SameLoans;
    BlindSeesNothing(s.users[u].obligation);
    BlindCounts(s.users[u].obligation);
    if ix.Liquidate? {
      if ix.user == u {
        UnseenDebtIsNotLiquidated(s, u, ix);
      } else {
        LiquidationKeepsOthers(s, ix, u);
      }
    } else if (ix.RefreshObligation? || ix.DepositCollateral? || ix.WithdrawCollateral?) && ix.user == u {
      OwnStepKeepsLoans(s, ix, u);
    } else {
      OthersKeepLoans(s, ix, u);
    }
  }

  lemma BlindCounts(o: ObligationData)
    requires Blind(o)
    ensures o.borrowsCount <= MAX_SLOTS
  {
  }

  /** Over any run by anyone in which the owner neither borrows nor repays, loans that the scan does not reach stay
   *  exactly as they are, refreshed or not, and the obligation is never liquidated.
   */
  lemma {:induction false} BlindForever(s: State, ixs: seq<Instruction>, u: nat)
    requires Inv(s) && u < |s.users| && Blind(s.users[u].obligation)
    requires forall ix :: ix in ixs ==> !ChangesOwnLoans(ix, u)
    ensures SameLoans(s, Run(s, ixs), u)
    ensures forall n :: 0 <= n < |ixs| && ixs[n].Liquidate? && ixs[n].user == u ==> Exec(Run(s, ixs[..n]), ixs[n]).Err?
  {
    hide Inv, Exec;
    if |ixs| == 0 {
    } else {
      var last := |ixs| - 1;
      var m := Run(s, ixs[..last]);
      BlindForever(s, ixs[..last], u);
      RunKeepsInv(s, ixs[..last]);
      if Exec(m, ixs[last]).Ok? {
        BlindStep(m, ixs[last], u);
      }
      forall n | 0 <= n < |ixs| && ixs[n].Liquidate? && ixs[n].user == u
        ensures Exec(Run(s, ixs[..n]), ixs[n]).Err?
      {
        if n < last {
          assert ixs[..last][..n] == ixs[..n] && ixs[..last][n] == ixs[n];
        }
      }
    }
  }
}
