/** What each handler does to the reserve and the loans it touches, across all the methods it calls. */
module InstructionProperties {
  import opened Numeric
  import opened ReserveModel
  import opened ReserveProperties
  import opened ObligationModel
  import opened ObligationProperties
  import I = InstructionModel

  /** The loan is caught up with `index` and then changed by `delta`; less than one token is forgiven. */
  predicate LoanMoved(before: Option<Loan>, after: Option<Loan>, index: nat, delta: int)
    requires before.Some? ==> 0 < before.value.index
  {
    var debt := DebtAt(before, index) + delta;
    after == if debt < RATE_SCALE then None else Some(Loan(debt, index))
  }

  /** `p` differs from `o` in the loan of `key` at most, which moves by `delta`. */
  ghost predicate Charged(o: ObligationData, p: ObligationData, key: Pubkey, index: nat, delta: int)
    requires Wf(o)
  {
    LoanIndexPositive(o);
    && Wf(p)
    && (LoanOf(o.borrows, key).Some? ==>
          LoanOf(o.borrows, key).value.index <= index && Computable(LoanOf(o.borrows, key).value, index))
    && LoanMoved(LoanOf(o.borrows, key), LoanOf(p.borrows, key), index, delta)
    && forall k :: k != key ==> LoanOf(p.borrows, k) == LoanOf(o.borrows, k)
  }

  lemma LoanIndexPositive(o: ObligationData)
    requires Wf(o)
    ensures forall k :: LoanOf(o.borrows, k).Some? ==>
      RATE_SCALE <= LoanOf(o.borrows, k).value.index && RATE_SCALE <= LoanOf(o.borrows, k).value.debt
  {
  }

  lemma CatchUpEffect(o: ObligationData, key: Pubkey, index: u128)
    requires Wf(o) && key != DEFAULT_PUBKEY && I.CatchUp(o, key, index).Ok?
    ensures var p := I.CatchUp(o, key, index).value;
      var before := LoanOf(o.borrows, key);
      && Wf(p) && p.deposits == o.deposits
      && (before.Some? ==> 0 < before.value.index <= index && Computable(before.value, index))
      && LoanOf(p.borrows, key) == (if before.Some? then Some(Loan(DebtAt(before, index), index)) else None)
      && forall k :: k != key ==> LoanOf(p.borrows, k) == LoanOf(o.borrows, k)
  {
    LoanIndexPositive(o);
    match Position(BorrowKeys(o.borrows), key) {
      case None =>
      case Some(i) => AccrueRefines(o, i, index);
    }
  }

  lemma ChargeEffect(o: ObligationData, key: Pubkey, amount: u64, index: u128)
    requires Wf(o) && key != DEFAULT_PUBKEY && RATE_SCALE <= index && I.CatchUp(o, key, index).Ok?
    requires I.CatchUp(o, key, index).value.Borrow(key, amount, index).Ok?
    ensures var p := I.CatchUp(o, key, index).value.Borrow(key, amount, index).value;
      amount > 0 && p.deposits == o.deposits && Charged(o, p, key, index, amount * RATE_SCALE)
  {
    CatchUpEffect(o, key, index);
    BorrowRefines(I.CatchUp(o, key, index).value, key, amount, index);
  }

  lemma BorrowEffect(r: ReserveData, o: ObligationData, key: Pubkey, amount: u64, slot: u64)
    requires ReserveInv(r) && Wf(o) && key != DEFAULT_PUBKEY && I.Borrow(r, o, key, amount, slot).Ok?
    ensures amount > 0 && r.Accrue(slot).Ok?
    ensures var accrued := r.Accrue(slot).value;
      var (lent, indebted) := I.Borrow(r, o, key, amount, slot).value;
      && amount <= accrued.available && accrued.borrowed + amount <= U128_MAX
      && lent == accrued.(available := accrued.available - amount, borrowed := accrued.borrowed + amount)
      && ReserveInv(lent)
      && indebted.deposits == o.deposits
      && Charged(o, indebted, key, accrued.index, amount * RATE_SCALE)
  {
    AccrueEffect(r, slot);
    var index := r.Accrue(slot).value.index;
    ChargeEffect(o, key, amount, index);
  }

  /** Catching a loan up and repaying part of it. */
  lemma ReliefEffect(o: ObligationData, i: nat, amount: u64, index: u128)
    requires Wf(o) && i < MAX_SLOTS && o.borrows[i].IsActive() && o.AccrueInterest(i, index).Ok?
    requires o.AccrueInterest(i, index).value.Repay(o.borrows[i].reserve, amount).Ok?
    ensures var key := o.borrows[i].reserve;
      var current := o.AccrueInterest(i, index).value;
      var p := current.Repay(key, amount).value;
      && amount > 0 && p.deposits == o.deposits
      && LoanOf(o.borrows, key).Some? && 0 < LoanOf(o.borrows, key).value.index
      && current.borrows[i].debt == DebtAt(LoanOf(o.borrows, key), index)
      && RATE_SCALE * amount <= DebtAt(LoanOf(o.borrows, key), index)
      && Charged(o, p, key, index, -(RATE_SCALE * amount))
  {
    LoanIndexPositive(o);
    AccrueRefines(o, i, index);
    RepayRefines(o.AccrueInterest(i, index).value, o.borrows[i].reserve, amount);
  }

  lemma RepayEffect(r: ReserveData, o: ObligationData, key: Pubkey, amount: u64, slot: u64)
    requires ReserveInv(r) && Wf(o) && key != DEFAULT_PUBKEY && I.Repay(r, o, key, amount, slot).Ok?
    ensures amount > 0 && r.Accrue(slot).Ok?
    ensures var accrued := r.Accrue(slot).value;
      var (repaid, left) := I.Repay(r, o, key, amount, slot).value;
      && amount <= accrued.borrowed && accrued.available + amount <= U64_MAX
      && repaid == accrued.(available := accrued.available + amount, borrowed := accrued.borrowed - amount)
      && ReserveInv(repaid)
      && left.deposits == o.deposits
      && LoanOf(o.borrows, key).Some? && amount * RATE_SCALE <= DebtAt(LoanOf(o.borrows, key), accrued.index)
      && Charged(o, left, key, accrued.index, -(RATE_SCALE * amount))
  {
    AccrueEffect(r, slot);
    ReliefEffect(o, Position(BorrowKeys(o.borrows), key).value, amount, r.Accrue(slot).value.index);
  }

  /** Locked collateral of `key` changes by `delta`; no other does. */
  ghost predicate Moved(o: ObligationData, p: ObligationData, key: Pubkey, delta: int) {
    forall k :: Locked(p.deposits, k) == Locked(o.deposits, k) + if k == key then delta else 0
  }

  lemma RevalueKeeps(o: ObligationData, i: nat, value: u128)
    requires Wf(o) && i < MAX_SLOTS && o.deposits[i].IsActive()
    ensures var p := o.(deposits := o.deposits[i := o.deposits[i].(value := value)]);
      Wf(p) && Moved(o, p, DEFAULT_PUBKEY, 0)
  {
    WriteDeposit(o.deposits, i, o.deposits[i].(value := value), o.depositsCount);
    PositionOf(DepositKeys(o.deposits), i);
  }

  lemma WithdrawCollateralEffect(o: ObligationData, key: Pubkey, amount: u64, slot: u64)
    requires Wf(o) && key != DEFAULT_PUBKEY && I.WithdrawCollateral(o, key, amount, slot).Ok?
    ensures var p := I.WithdrawCollateral(o, key, amount, slot).value;
      && Wf(p) && p.borrows == o.borrows && Moved(o, p, key, -(amount as int))
      && 0 < amount <= Locked(o.deposits, key)
  {
    var i := Position(DepositKeys(o.deposits), key).value;
    var before := o.deposits[i].amount;
    var newValue := MulDiv(o.deposits[i].value, before - amount, if before > 1 then before else 1).value;
    RevalueKeeps(o, i, newValue);
    WithdrawRefines(o.(deposits := o.deposits[i := o.deposits[i].(value := newValue)]), key, amount);
  }

  /** One liquidation repays at most half of the debt, and may repay every whole token of that half, unless there are
   *  more of them than 64 bits can count.
   */
  lemma CapIsHalf(debt: u128)
    ensures 2 * RATE_SCALE * I.CloseFactorCap(debt) <= debt
    ensures debt < 2 * RATE_SCALE * U64_MODULUS ==> debt < 2 * RATE_SCALE * (I.CloseFactorCap(debt) + 1)
  {
    var raw := debt / RATE_SCALE;
    assert RATE_SCALE * raw <= debt;
    var half := raw * MAX_LIQUIDATION_CLOSE_FACTOR_PCT / 100;
    assert 2 * half <= raw < 2 * (half + 1);
  }

  lemma AmountsInRange(repay: ReserveData, withdraw: ReserveData, debt: u128, o: ObligationData, key: Pubkey,
                       amount: u64)
    requires I.SeizeAmounts(repay, withdraw, debt, o, key, amount).Ok?
    ensures 0 < I.SeizeAmounts(repay, withdraw, debt, o, key, amount).value.0 <= amount
    ensures 2 * RATE_SCALE * I.SeizeAmounts(repay, withdraw, debt, o, key, amount).value.0 <= debt
  {
    CapIsHalf(debt);
  }

  /** Both halves of a liquidation's effect on the obligation. */
  lemma SettleEffect(o: ObligationData, i: nat, seizedKey: Pubkey, repaid: u64, seized: u64, index: u128)
    requires Wf(o) && i < MAX_SLOTS && o.borrows[i].IsActive() && seizedKey != DEFAULT_PUBKEY
    requires o.AccrueInterest(i, index).Ok?
    requires o.AccrueInterest(i, index).value.Repay(o.borrows[i].reserve, repaid).Ok?
    requires o.AccrueInterest(i, index).value.Repay(o.borrows[i].reserve, repaid).value.Withdraw(seizedKey, seized).Ok?
    ensures var key := o.borrows[i].reserve;
      var current := o.AccrueInterest(i, index).value;
      var p := current.Repay(key, repaid).value.Withdraw(seizedKey, seized).value;
      && LoanOf(o.borrows, key).Some? && 0 < LoanOf(o.borrows, key).value.index
      && current.borrows[i].debt == DebtAt(LoanOf(o.borrows, key), index)
      && 0 < seized <= Locked(o.deposits, seizedKey)
      && Charged(o, p, key, index, -(RATE_SCALE * repaid))
      && Moved(o, p, seizedKey, -(seized as int))
  {
    ReliefEffect(o, i, repaid, index);
    WithdrawRefines(o.AccrueInterest(i, index).value.Repay(o.borrows[i].reserve, repaid).value, seizedKey, seized);
  }

  lemma SeizeEffect(repay: ReserveData, withdraw: ReserveData, o: ObligationData,
                    key: Pubkey, seizedKey: Pubkey, amount: u64, slot: u64)
    requires Wf(o) && key != DEFAULT_PUBKEY && seizedKey != DEFAULT_PUBKEY
    requires I.Seize(repay, withdraw, o, key, seizedKey, amount, slot).Ok?
    ensures var s := I.Seize(repay, withdraw, o, key, seizedKey, amount, slot).value;
      && 0 < s.repaid <= amount && 0 < s.seized <= Locked(o.deposits, seizedKey)
      && LoanOf(o.borrows, key).Some? && 0 < LoanOf(o.borrows, key).value.index
      && 2 * RATE_SCALE * s.repaid <= DebtAt(LoanOf(o.borrows, key), repay.index)
      && Charged(o, s.obligation, key, repay.index, -(RATE_SCALE * s.repaid))
      && Moved(o, s.obligation, seizedKey, -(s.seized as int))
  {
    hide Wf, LoanOf, Locked, DebtAt, Charged, Moved, ObligationData.IsHealthy, ReserveData.TotalSupply,
      BorrowSlot.Accrue;
    var s := I.Seize(repay, withdraw, o, key, seizedKey, amount, slot).value;
    var i := Position(BorrowKeys(o.borrows), key).value;
    var current := o.AccrueInterest(i, repay.index).value;
    AmountsInRange(repay, withdraw, current.borrows[i].debt, current, seizedKey, amount);
    SettleEffect(o, i, seizedKey, s.repaid, s.seized, repay.index);
  }

  /** A liquidation accrues both reserves, settles with the obligation and credits the repayment. */
  lemma LiquidateEffect(reserves: I.Reserves, o: ObligationData, key: Pubkey, seizedKey: Pubkey, amount: u64, slot: u64)
    requires key in reserves && seizedKey in reserves && ReserveInv(reserves[key])
    requires I.Liquidate(reserves, o, key, seizedKey, amount, slot).Ok?
    ensures reserves[key].Accrue(slot).Ok? && reserves[seizedKey].Accrue(slot).Ok?
    ensures var l := I.Liquidate(reserves, o, key, seizedKey, amount, slot).value;
      && l.repay == reserves[key].Accrue(slot).value && l.withdraw == reserves[seizedKey].Accrue(slot).value
      && I.Seize(l.repay, l.withdraw, o, key, seizedKey, amount, slot) == Ok(l.seizure)
      && l.repay.Repay(l.seizure.repaid) == Ok(l.relieved)
  {
    var repay := reserves[key].Accrue(slot).value;
    AccrueEffect(reserves[key], slot);
    if key == seizedKey {
      assert repay.Accrue(slot) == Ok(repay);
    }
  }
}
