/** Exactly when a market accepts each instruction that moves tokens, in terms of its accounts. */
module Acceptance {
  import opened Numeric
  import opened ReserveModel
  import opened ReserveProperties
  import opened Accruals
  import opened ObligationModel
  import opened ObligationProperties
  import opened InstructionProperties
  import opened Health
  import opened HealthGuards
  import opened Market
  import opened MarketInvariant
  import CachedValues
  import Guards
  import LoanLife
  import I = InstructionModel

  // ---- Locking collateral ---------------------------------------------------------------------

  /** Collateral is locked exactly if the amount is positive, the reserve active, a slot available and the total fits,
   *  whatever the obligation owes, cached or not, fresh or not. Loans and stamps are not touched.
   */
  lemma DepositCollateralAcceptedIff(r: ReserveData, o: ObligationData, key: Pubkey, amount: u64)
    requires Wf(o) && key != DEFAULT_PUBKEY
    ensures I.DepositCollateral(r, o, key, amount).Ok? <==>
      && 0 < amount && r.config.status == 0
      && (0 < Locked(o.deposits, key) || o.depositsCount < 8)
      && Locked(o.deposits, key) + amount <= U64_MAX
    ensures I.DepositCollateral(r, o, key, amount).Ok? ==>
      var p := I.DepositCollateral(r, o, key, amount).value;
      && Locked(p.deposits, key) == Locked(o.deposits, key) + amount
      && (forall k :: k != key ==> DepositAt(p.deposits, k) == DepositAt(o.deposits, k))
      && DepositAt(p.deposits, key).value == DepositAt(o.deposits, key).value
      && p.depositsCount == o.depositsCount + (if Locked(o.deposits, key) == 0 then 1 else 0)
      && p.borrows == o.borrows && p.borrowsCount == o.borrowsCount
      && p.lastUpdateSlot == o.lastUpdateSlot && p.lastUpdateTime == o.lastUpdateTime
  {
    DepositAccepted(o, key, amount);
    if o.Deposit(key, amount).Ok? {
      DepositRefines(o, key, amount);
      SlotFilled(o, key, amount);
    }
  }

  lemma SlotFilled(o: ObligationData, key: Pubkey, amount: u64)
    requires Wf(o) && key != DEFAULT_PUBKEY && o.Deposit(key, amount).Ok?
    ensures var p := o.Deposit(key, amount).value;
      && (forall k :: k != key ==> DepositAt(p.deposits, k) == DepositAt(o.deposits, k))
      && DepositAt(p.deposits, key).value == DepositAt(o.deposits, key).value
      && p.depositsCount == o.depositsCount + (if Locked(o.deposits, key) == 0 then 1 else 0)
  {
    var p := o.Deposit(key, amount).value;
    forall k ensures k != key ==> DepositAt(p.deposits, k) == DepositAt(o.deposits, k) {
      CachedValues.DepositSlotMoves(o, key, amount, k);
    }
    CachedValues.DepositSlotMoves(o, key, amount, key);
    SlotFor(DepositKeys(o.deposits), key, ObligationDepositsFull);
    TablesAreMaps(o);
  }

  // ---- Whole instructions ---------------------------------------------------------------------

  /** The reserve with its interest booked. */
  function Current(r: ReserveData, slot: u64): (a: ReserveData)
    requires ReserveInv(r) && Accruable(r, slot)
    ensures ReserveInv(a) && a.price == r.price
  {
    AccrueAcceptedIff(r, slot);
    AccrueEffect(r, slot);
    r.Accrue(slot).value
  }

  lemma CurrentKeeps(r: ReserveData, slot: u64)
    requires ReserveInv(r) && Accruable(r, slot)
    ensures r.Accrue(slot) == Ok(Current(r, slot)) && ReserveInv(Current(r, slot))
    ensures var a := Current(r, slot);
      a.available == r.available && a.ctokens == r.ctokens && a.config == r.config && a.price == r.price
      && r.index <= a.index
  {
    hide ReserveData.Accrue;
    AccrueAcceptedIff(r, slot);
    AccrueEffect(r, slot);
  }

  /** The user needs the cTokens; the vault always has room for them. */
  lemma LockIff(s: State, u: nat, k: Pubkey, n: u64)
    requires Inv(s)
    ensures Exec(s, DepositCollateral(u, k, n)).Ok? <==>
      && u < |s.users| && k in s.pools && !s.paused
      && var locked, o := Locked(s.users[u].obligation.deposits, k), s.users[u].obligation;
      && 0 < n <= Balance(s.users[u].ctokens, k)
      && s.pools[k].reserve.config.status == 0
      && (0 < locked || o.depositsCount < 8) && locked + n <= U64_MAX
  {
    hide Inv, I.DepositCollateral, Wf, Locked, Balance;
    if u < |s.users| && k in s.pools {
      PoolOk(s, k);
      UserOk(s, u);
      DepositCollateralAcceptedIff(s.pools[k].reserve, s.users[u].obligation, k, n);
      HeldBelowTotal(s.users, u, k);
    }
  }

  /** The vault always has what is released, and the user's account always has room for it. */
  lemma ReleaseIff(s: State, u: nat, k: Pubkey, n: u64)
    requires Inv(s)
    ensures u < |s.users| && 0 < n <= Locked(s.users[u].obligation.deposits, k) ==>
      k in s.pools && k != DEFAULT_PUBKEY
    ensures Exec(s, WithdrawCollateral(u, k, n)).Ok? <==>
      && u < |s.users| && !s.paused
      && var o := s.users[u].obligation;
      && 0 < n <= Locked(o.deposits, k) && s.slot == o.lastUpdateSlot
      && DepositAt(o.deposits, k).value * (Locked(o.deposits, k) - n) <= U128_MAX
      && o.borrowsCount <= MAX_SLOTS && Release(o, k, n).depositsCount <= MAX_SLOTS
      && (SeenBorrows(o) == 0 || RATE_SCALE * SeenBorrows(o) <= SeenDeposits(Release(o, k, n)))
  {
    hide Inv, Wf, SeenBorrows, SeenDeposits, I.WithdrawCollateral, DepositAt, Release, Balance;
    if u < |s.users| {
      UserOk(s, u);
      if k in s.pools {
        PoolOk(s, k);
        WithdrawCollateralAcceptedIff(s.users[u].obligation, k, n, s.slot);
        LockedBelowTotal(s.users, u, k);
        HeldBelowTotal(s.users, u, k);
      }
    }
  }

  /** The user needs the tokens and the vault room for them, also next to what was sent back into it; the cTokens can
   *  always be minted and received.
   */
  lemma DepositIff(s: State, u: nat, k: Pubkey, n: u64)
    requires Inv(s)
    ensures k in s.pools ==> ReserveInv(s.pools[k].reserve)
    ensures Exec(s, Deposit(u, k, n)).Ok? <==>
      && u < |s.users| && k in s.pools && !s.paused
      && var p := s.pools[k];
      && 0 < n <= Balance(s.users[u].tokens, k) && p.liquidityVault + n <= U64_MAX
      && p.reserve.config.status == 0 && Accruable(p.reserve, s.slot)
      && Current(p.reserve, s.slot).Supply() + n <= p.reserve.config.depositLimit
  {
    hide Inv, Accruable, Current, I.Deposit, ReserveInv;
    if k in s.pools {
      PoolOk(s, k);
    }
    if u < |s.users| && k in s.pools {
      var p := s.pools[k];
      Guards.DepositAcceptedIff(p.reserve, n, s.slot);
      HeldBelowTotal(s.users, u, k);
      if Accruable(p.reserve, s.slot) {
        CurrentKeeps(p.reserve, s.slot);
        if I.Deposit(p.reserve, n, s.slot).Ok? {
          MintedFits(p.reserve, n, s.slot);
        }
      }
    }
  }

  lemma MintedFits(r: ReserveData, n: u64, slot: u64)
    requires ReserveInv(r) && Accruable(r, slot) && I.Deposit(r, n, slot).Ok?
    ensures r.ctokens + I.Deposit(r, n, slot).value.1 <= U64_MAX
  {
    hide ReserveData.Accrue, Accruable, ReserveInv, ReserveData.CollateralExchangeRate;
    CurrentKeeps(r, slot);
  }

  /** The user needs the cTokens and room for the tokens; the mint can always burn and the vault always pay. */
  lemma WithdrawIff(s: State, u: nat, k: Pubkey, n: u64)
    requires Inv(s)
    ensures k in s.pools ==> ReserveInv(s.pools[k].reserve)
    ensures u < |s.users| && k in s.pools && 0 < Balance(s.users[u].ctokens, k) ==> 0 < s.pools[k].reserve.ctokens
    ensures Exec(s, Withdraw(u, k, n)).Ok? <==>
      && u < |s.users| && k in s.pools && !s.paused
      && var r := s.pools[k].reserve;
      && 0 < n <= Balance(s.users[u].ctokens, k)
      && r.config.status == 0 && Accruable(r, s.slot)
      && var a := Current(r, s.slot);
      && n * a.Supply() <= U128_MAX
      && var paid := n * a.Supply() / r.ctokens % U64_MODULUS;
      && paid <= r.available && Balance(s.users[u].tokens, k) + paid <= U64_MAX
  {
    hide Inv, Accruable, Current, I.Withdraw, ReserveInv;
    if k in s.pools {
      PoolOk(s, k);
    }
    if u < |s.users| && k in s.pools {
      var p := s.pools[k];
      Guards.WithdrawAcceptedIff(p.reserve, n, s.slot);
      HeldBelowTotal(s.users, u, k);
      if Accruable(p.reserve, s.slot) {
        CurrentKeeps(p.reserve, s.slot);
      }
    }
  }

  /** The obligation is one that a scan can be run on, and its loan of `k` one that can be caught up with some index. */
  predicate Scannable(o: ObligationData, k: Pubkey) {
    && o.depositsCount <= MAX_SLOTS && o.borrowsCount <= MAX_SLOTS
    && (LoanOf(o.borrows, k).Some? ==> 0 < LoanOf(o.borrows, k).value.index)
  }

  /** What a borrow asks of the reserve and the obligation; the debt is what the reserve's price makes of it. */
  predicate Lendable(r: ReserveData, o: ObligationData, k: Pubkey, n: u64, slot: u64)
    requires ReserveInv(r) && Scannable(o, k)
  {
    && 0 < n <= r.available && r.config.status == 0 && 0 < r.price
    && slot == o.lastUpdateSlot && Guards.ScannedAfter(o, k) <= MAX_SLOTS
    && Accruable(r, slot)
    && var a, loan := Current(r, slot), LoanOf(o.borrows, k);
    && a.borrowed < r.config.borrowLimit
    && (loan.Some? ==> Computable(loan.value, a.index))
    && DebtAt(loan, a.index) + n * RATE_SCALE <= U128_MAX
    && var collateral, debt := Sum(DepositValues(o.deposits)[..o.depositsCount]),
         Sum(BorrowValues(o.borrows)[..Guards.ScannedAfter(o, k)]);
    collateral <= U128_MAX && debt + n * r.price <= collateral
  }

  lemma LendableIff(r: ReserveData, o: ObligationData, k: Pubkey, n: u64, slot: u64)
    requires ReserveInv(r) && Wf(o) && k != DEFAULT_PUBKEY
    requires LoanOf(o.borrows, k).Some? ==> LoanOf(o.borrows, k).value.index <= r.index
    ensures Scannable(o, k) && (I.Borrow(r, o, k, n, slot).Ok? <==> Lendable(r, o, k, n, slot))
  {
    hide Wf, Accruable, Current, I.Borrow, ReserveInv, LoanOf, DebtAt, Sum, Computable, Guards.ScannedAfter;
    Guards.BorrowAcceptedIff(r, o, k, n, slot);
    if Accruable(r, slot) {
      CurrentKeeps(r, slot);
    }
  }

  /** Whoever receives the loan needs room for it; the vault always has it, and takes it back without any. */
  lemma BorrowIff(s: State, u: nat, k: Pubkey, n: u64, to: Destination)
    requires Inv(s)
    ensures k in s.pools ==> ReserveInv(s.pools[k].reserve)
    ensures u < |s.users| && k in s.pools ==> Scannable(s.users[u].obligation, k)
    ensures Exec(s, Borrow(u, k, n, to)).Ok? <==>
      && u < |s.users| && k in s.pools && !s.paused
      && (to.ToUser? ==> to.i < |s.users| && Balance(s.users[to.i].tokens, k) + n <= U64_MAX)
      && Lendable(s.pools[k].reserve, s.users[u].obligation, k, n, s.slot)
  {
    hide Inv, Wf, Lendable, Scannable, I.Borrow, ReserveInv, LoanOf;
    if k in s.pools {
      PoolOk(s, k);
      if u < |s.users| {
        UserOk(s, u);
        LendableIff(s.pools[k].reserve, s.users[u].obligation, k, n, s.slot);
        if Lendable(s.pools[k].reserve, s.users[u].obligation, k, n, s.slot) {
          Limited(s.pools[k].reserve, s.users[u].obligation, k, n, s.slot);
        }
      }
    }
  }

  lemma Limited(r: ReserveData, o: ObligationData, k: Pubkey, n: u64, slot: u64)
    requires ReserveInv(r) && Scannable(o, k) && Lendable(r, o, k, n, slot)
    ensures n <= r.available
  {
    hide ReserveInv, Accruable;
  }

  /** Repayments are accepted in a paused market too. */
  lemma RepayIff(s: State, u: nat, k: Pubkey, n: u64)
    requires Inv(s)
    ensures k in s.pools ==> ReserveInv(s.pools[k].reserve)
    ensures u < |s.users| && LoanOf(s.users[u].obligation.borrows, k).Some? ==>
      0 < LoanOf(s.users[u].obligation.borrows, k).value.index
    ensures Exec(s, Repay(u, k, n)).Ok? <==>
      && u < |s.users| && k in s.pools
      && var p, loan := s.pools[k], LoanOf(s.users[u].obligation.borrows, k);
      && 0 < n <= Balance(s.users[u].tokens, k) && p.liquidityVault + n <= U64_MAX
      && p.reserve.config.status == 0 && Accruable(p.reserve, s.slot)
      && var a := Current(p.reserve, s.slot);
      && n <= a.borrowed
      && loan.Some? && Computable(loan.value, a.index) && RATE_SCALE * n <= DebtAt(loan, a.index)
  {
    hide Inv, Wf, Accruable, Current, I.Repay, ReserveInv, LoanOf, DebtAt, Computable;
    if k in s.pools {
      PoolOk(s, k);
    }
    if u < |s.users| {
      UserOk(s, u);
      LoanIndexPositive(s.users[u].obligation);
      if k in s.pools {
        var p := s.pools[k];
        LoanLife.RepayAcceptedIff(p.reserve, s.users[u].obligation, k, n, s.slot);
        if Accruable(p.reserve, s.slot) {
          CurrentKeeps(p.reserve, s.slot);
        }
      }
    }
  }

  /** What a liquidation asks of the two reserves and the obligation. */
  predicate Liquidatable(r: ReserveData, q: ReserveData, o: ObligationData, k: Pubkey, w: Pubkey, n: u64, slot: u64)
    requires ReserveInv(r) && ReserveInv(q) && Scannable(o, k)
  {
    && 0 < n && r.config.status == 0 && q.config.status == 0 && 0 < r.price && 0 < q.price
    && slot == o.lastUpdateSlot && SeenDeposits(o) < RATE_SCALE * SeenBorrows(o)
    && Accruable(r, slot) && Accruable(q, slot)
    && var a, loan := Current(r, slot), LoanOf(o.borrows, k);
    && loan.Some? && Computable(loan.value, a.index)
    && var (repaid, taken) := Amounts(r, q, o, k, w, n, slot);
    && 0 < repaid <= a.borrowed && r.available + repaid <= U64_MAX
    && Priceable(repaid, r.price, Current(q, slot)) && 0 < taken
  }

  /** Half of the whole tokens owed at most, and the cTokens they are worth with the bonus, as many as there are. */
  function Amounts(r: ReserveData, q: ReserveData, o: ObligationData, k: Pubkey, w: Pubkey, n: u64, slot: u64)
    : (u64, u64)
    requires ReserveInv(r) && ReserveInv(q) && Scannable(o, k) && 0 < q.price
    requires Accruable(r, slot) && Accruable(q, slot)
  {
    var owed := DebtAt(LoanOf(o.borrows, k), Current(r, slot).index);
    (Repaid(n, owed), Taken(n, owed, r.price, Current(q, slot), Locked(o.deposits, w)))
  }

  lemma LiquidatableIff(reserves: I.Reserves, o: ObligationData, k: Pubkey, w: Pubkey, n: u64, slot: u64)
    requires k in reserves && w in reserves && ReserveInv(reserves[k]) && ReserveInv(reserves[w])
    requires Wf(o) && k != DEFAULT_PUBKEY && w != DEFAULT_PUBKEY
    requires LoanOf(o.borrows, k).Some? ==> LoanOf(o.borrows, k).value.index <= reserves[k].index
    ensures Scannable(o, k)
    ensures I.Liquidate(reserves, o, k, w, n, slot).Ok? <==> Liquidatable(reserves[k], reserves[w], o, k, w, n, slot)
    ensures I.Liquidate(reserves, o, k, w, n, slot).Ok? ==>
      var l := I.Liquidate(reserves, o, k, w, n, slot).value.seizure;
      (l.repaid, l.seized) == Amounts(reserves[k], reserves[w], o, k, w, n, slot) && l.seized <= Locked(o.deposits, w)
  {
    hide Wf, Accruable, Current, I.Liquidate, ReserveInv, LoanOf, DebtAt, Computable, SeenDeposits, SeenBorrows,
      Repaid, CTokensFor, Priceable, Locked;
    LiquidateAcceptedIff(reserves, o, k, w, n, slot);
    if Accruable(reserves[k], slot) {
      CurrentKeeps(reserves[k], slot);
    }
    if Accruable(reserves[w], slot) {
      CurrentKeeps(reserves[w], slot);
    }
  }

  /** Whoever liquidates, and wherever the cTokens go: the liquidator needs the tokens and the vault room for them,
   *  while the cTokens can always be handed over.
   */
  lemma LiquidateIff(s: State, l: nat, u: nat, k: Pubkey, w: Pubkey, n: u64, to: Destination)
    requires Inv(s)
    ensures k in s.pools && w in s.pools ==> ReserveInv(s.pools[k].reserve) && ReserveInv(s.pools[w].reserve)
    ensures u < |s.users| && k in s.pools && w in s.pools ==> Scannable(s.users[u].obligation, k)
    ensures Exec(s, Liquidate(l, u, k, w, n, to)).Ok? <==>
      && u < |s.users| && l < |s.users| && k in s.pools && w in s.pools && !s.paused
      && (to.ToUser? ==> to.i < |s.users|)
      && var r, q, o := s.pools[k].reserve, s.pools[w].reserve, s.users[u].obligation;
      && Liquidatable(r, q, o, k, w, n, s.slot)
      && var repaid := Amounts(r, q, o, k, w, n, s.slot).0;
      && repaid <= Balance(s.users[l].tokens, k) && s.pools[k].liquidityVault + repaid <= U64_MAX
  {
    hide Inv, Wf, Liquidatable, Amounts, Scannable, I.Liquidate, ReserveInv, LoanOf, Locked, LiquidateStep;
    if k in s.pools && w in s.pools {
      PoolOk(s, k);
      PoolOk(s, w);
      if u < |s.users| {
        UserOk(s, u);
        LiquidatableIff(Reserves(s.pools), s.users[u].obligation, k, w, n, s.slot);
        LockedBelowTotal(s.users, u, w);
        if to.ToUser? && to.i < |s.users| {
          HeldBelowTotal(s.users, to.i, w);
        }
        if l < |s.users| && Receives(s, to) {
          Settles(s, l, u, k, w, n, to);
        }
      }
    }
  }

  /** Once computed, a liquidation fails only for lack of tokens or of room. */
  lemma Settles(s: State, l: nat, u: nat, k: Pubkey, w: Pubkey, n: u64, to: Destination)
    requires Exists(s, u, k) && Exists(s, l, w) && Receives(s, to)
    ensures LiquidateStep(s, l, u, k, w, n, to).Ok? <==>
      && !s.paused && I.Liquidate(Reserves(s.pools), s.users[u].obligation, k, w, n, s.slot).Ok?
      && var x := I.Liquidate(Reserves(s.pools), s.users[u].obligation, k, w, n, s.slot).value.seizure;
      && x.repaid <= Balance(s.users[l].tokens, k) && s.pools[k].liquidityVault + x.repaid <= U64_MAX
      && x.seized <= s.pools[w].collateralVault
      && (to.ToUser? ==> Balance(s.users[to.i].ctokens, w) + x.seized <= U64_MAX)
  {
    hide I.Liquidate;
  }
}
