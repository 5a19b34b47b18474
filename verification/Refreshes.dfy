/** When prices and obligations are refreshed: exactly, and with what result. */
module Refreshes {
  import opened Arithmetic
  import opened Numeric
  import opened ReserveModel
  import opened ReserveProperties
  import opened Accruals
  import opened ObligationModel
  import opened ObligationProperties
  import opened PriceOracle
  import opened RefreshProperties
  import opened Market
  import opened MarketInvariant
  import I = InstructionModel

  // ---- Prices ---------------------------------------------------------------------------------

  /** The update comes from the reserve's oracle account and passes every test of a price. */
  predicate Quotable(r: ReserveData, update: PriceUpdate, now: i64) {
    && update.account == r.config.pythOracle
    && update.verified && now - update.publishTime <= 60
    && 0 < update.price && 50 * update.conf <= update.price
    && -38 <= update.exponent <= 38
    && (0 <= update.exponent ==> update.price * RATE_SCALE * Pow10(update.exponent) <= U128_MAX)
  }

  /** `q` is `a` but for the price, which is that of the update rounded down to a 10^12th of a dollar, and its time. */
  predicate Repriced(a: ReserveData, update: PriceUpdate, q: ReserveData) {
    && q.(price := a.price, priceTime := a.priceTime) == a
    && q.priceTime == update.publishTime
    && var exact, power := update.price * RATE_SCALE, Pow10(Magnitude(update.exponent));
       if 0 <= update.exponent then q.price == exact * power
       else q.price * power <= exact < (q.price + 1) * power
  }

  /** A price is stored exactly when it comes from the configured account, is one that may be used, and the interest up
   *  to now can be booked; the reserve is then the accrued one at that price.
   */
  lemma RefreshReserveAcceptedIff(r: ReserveData, update: PriceUpdate, slot: u64, now: i64)
    requires ReserveInv(r)
    ensures Accruable(r, slot) <==> r.Accrue(slot).Ok?
    ensures I.RefreshReserve(r, update, slot, now).Ok? <==> Accruable(r, slot) && Quotable(r, update, now)
    ensures I.RefreshReserve(r, update, slot, now).Ok? ==>
      Repriced(r.Accrue(slot).value, update, I.RefreshReserve(r, update, slot, now).value)
  {
    hide ReserveData.Accrue, Accruable, ReadPrice, Pow10;
    AccrueAcceptedIff(r, slot);
    PriceAcceptedIff(update, now);
    if ReadPrice(update, now).Ok? {
      StoredPrice(update, now);
    }
  }

  /** In a market, paused or not: anyone may bring any listed reserve's price up to date, and nothing else changes. */
  lemma PriceRefreshIff(s: State, key: Pubkey, update: PriceUpdate, now: i64)
    requires Inv(s)
    ensures key in s.pools ==> ReserveInv(s.pools[key].reserve)
    ensures Exec(s, RefreshReserve(key, update, now)).Ok? <==>
      && key in s.pools
      && Accruable(s.pools[key].reserve, s.slot) && Quotable(s.pools[key].reserve, update, now)
    ensures Exec(s, RefreshReserve(key, update, now)).Ok? ==>
      var t := Exec(s, RefreshReserve(key, update, now)).value;
      && s.pools[key].reserve.Accrue(s.slot).Ok?
      && t.pools.Keys == s.pools.Keys
      && t == s.(pools := t.pools)
      && (forall k :: k in s.pools && k != key ==> t.pools[k] == s.pools[k])
      && t.pools[key] == s.pools[key].(reserve := t.pools[key].reserve)
      && Repriced(s.pools[key].reserve.Accrue(s.slot).value, update, t.pools[key].reserve)
  {
    hide Inv, I.RefreshReserve, Accruable, Quotable, Repriced, ReserveInv, ReserveData.Accrue;
    if key in s.pools {
      PoolOk(s, key);
      RefreshReserveAcceptedIff(s.pools[key].reserve, update, s.slot, now);
    }
  }

  // ---- One slot of an obligation --------------------------------------------------------------

  /** The slot can be valued against its reserve: there is no price to value it at, or the loan can be caught up and its
   *  worth in whole tokens fits.
   */
  predicate DebtFits(b: BorrowSlot, r: ReserveData) {
    r.price == 0
    || (&& 0 < b.index <= r.index && Computable(LoanIn(b), r.index)
        && DebtAt(Some(LoanIn(b)), r.index) / RATE_SCALE * r.price <= U128_MAX)
  }

  /** `c` is `b` valued against `r`: caught up, and worth the price of its whole tokens. */
  predicate DebtValued(b: BorrowSlot, r: ReserveData, c: BorrowSlot) {
    if r.price == 0 then c == b
    else
      && 0 < b.index
      && c.reserve == b.reserve && c.index == r.index
      && c.debt == DebtAt(Some(LoanIn(b)), r.index)
      && c.value == c.debt / RATE_SCALE * r.price
  }

  /** The tokens that `amount` cTokens stand for, rounded down; none while there are no cTokens. */
  function Units(amount: nat, r: ReserveData): int {
    if r.ctokens == 0 then 0 else amount * r.Supply() / r.ctokens
  }

  predicate CollateralFits(d: DepositSlot, r: ReserveData) {
    r.price == 0
    || (&& (0 < r.ctokens ==> d.amount * r.Supply() <= U128_MAX)
        && Units(d.amount, r) * r.price <= U128_MAX
        && Units(d.amount, r) * r.price * r.config.liquidationThreshold <= U128_MAX)
  }

  /** `e` is `d` with its tokens valued at the price and cut by the threshold, a percentage, rounded down. */
  predicate CollateralValued(d: DepositSlot, r: ReserveData, e: DepositSlot) {
    if r.price == 0 then e == d
    else
      && e == d.(value := e.value)
      && 100 * e.value <= Units(d.amount, r) * r.price * r.config.liquidationThreshold < 100 * (e.value + 1)
  }

  predicate LoanPriceable(b: BorrowSlot, reserves: I.Reserves) {
    b.reserve == DEFAULT_PUBKEY || (b.reserve in reserves && DebtFits(b, reserves[b.reserve]))
  }

  predicate LoanPriced(b: BorrowSlot, reserves: I.Reserves, c: BorrowSlot) {
    if b.reserve == DEFAULT_PUBKEY then c == b
    else b.reserve in reserves && DebtValued(b, reserves[b.reserve], c)
  }

  predicate DepositPriceable(d: DepositSlot, reserves: I.Reserves) {
    d.reserve == DEFAULT_PUBKEY || (d.reserve in reserves && CollateralFits(d, reserves[d.reserve]))
  }

  predicate DepositPriced(d: DepositSlot, reserves: I.Reserves, e: DepositSlot) {
    if d.reserve == DEFAULT_PUBKEY then e == d
    else d.reserve in reserves && CollateralValued(d, reserves[d.reserve], e)
  }

  /** A loan is valued exactly when its reserve is passed along and the products fit; whether the reserve is active does
   *  not matter.
   */
  lemma PriceBorrowIff(b: BorrowSlot, reserves: I.Reserves)
    requires BorrowSlotOk(b) && (b.reserve in reserves ==> ReserveInv(reserves[b.reserve]))
    ensures I.PriceBorrow(b, reserves).Ok? <==> LoanPriceable(b, reserves)
    ensures I.PriceBorrow(b, reserves).Ok? ==> LoanPriced(b, reserves, I.PriceBorrow(b, reserves).value)
  {
    if b.IsActive() && b.reserve in reserves {
      var r := reserves[b.reserve];
      ExchangeRateUsed(r);
      if 0 < r.price && b.index <= r.index {
        DebtAtCatchesUp(LoanIn(b), r.index);
        Floor(DebtAt(Some(LoanIn(b)), r.index), RATE_SCALE);
        Mono(0, DebtAt(Some(LoanIn(b)), r.index) / RATE_SCALE, r.price);
      }
    }
  }

  lemma DepositValueIff(amount: u64, r: ReserveData)
    requires ReserveInv(r)
    ensures I.DepositValue(amount, r).Ok? <==>
      && (0 < r.ctokens ==> amount * r.Supply() <= U128_MAX)
      && Units(amount, r) * r.price <= U128_MAX
      && Units(amount, r) * r.price * r.config.liquidationThreshold <= U128_MAX
    ensures I.DepositValue(amount, r).Ok? ==>
      var v := I.DepositValue(amount, r).value;
      100 * v <= Units(amount, r) * r.price * r.config.liquidationThreshold < 100 * (v + 1)
  {
    hide ReserveData.TotalSupply;
    ExchangeRateUsed(r);
    var units := Units(amount, r);
    if 0 < r.ctokens {
      Mono(0, r.Supply(), amount);
      Floor(amount * r.Supply(), r.ctokens);
      DivLe(amount * r.Supply(), r.ctokens);
    }
    Mono(0, units, r.price);
    Mono(0, units * r.price, r.config.liquidationThreshold);
    Floor(units * r.price * r.config.liquidationThreshold, 100);
    DivLe(units * r.price * r.config.liquidationThreshold, 100);
  }

  /** A deposit likewise. */
  lemma PriceDepositIff(d: DepositSlot, reserves: I.Reserves)
    requires d.reserve in reserves ==> ReserveInv(reserves[d.reserve])
    ensures I.PriceDeposit(d, reserves).Ok? <==> DepositPriceable(d, reserves)
    ensures I.PriceDeposit(d, reserves).Ok? ==> DepositPriced(d, reserves, I.PriceDeposit(d, reserves).value)
  {
    hide I.DepositValue, Units, ReserveData.TotalSupply;
    if d.IsActive() && d.reserve in reserves {
      ExchangeRateUsed(reserves[d.reserve]);
      DepositValueIff(d.amount, reserves[d.reserve]);
    }
  }

  // ---- A whole obligation ---------------------------------------------------------------------

  /** Every slot that the scan reaches can be valued against the accounts passed along. */
  predicate Valuable(o: ObligationData, reserves: I.Reserves)
    requires o.borrowsCount <= MAX_SLOTS && o.depositsCount <= MAX_SLOTS
  {
    && (forall i :: 0 <= i < o.borrowsCount ==> LoanPriceable(o.borrows[i], reserves))
    && (forall i :: 0 <= i < o.depositsCount ==> DepositPriceable(o.deposits[i], reserves))
  }

  /** `p` is `o` with exactly those slots valued. */
  predicate Valued(o: ObligationData, reserves: I.Reserves, p: ObligationData) {
    && p.borrowsCount == o.borrowsCount && p.depositsCount == o.depositsCount
    && (forall i :: 0 <= i < MAX_SLOTS ==>
          if i < o.borrowsCount then LoanPriced(o.borrows[i], reserves, p.borrows[i]) else p.borrows[i] == o.borrows[i])
    && (forall i :: 0 <= i < MAX_SLOTS ==>
          if i < o.depositsCount then DepositPriced(o.deposits[i], reserves, p.deposits[i])
          else p.deposits[i] == o.deposits[i])
  }

  ghost predicate AllSound(reserves: I.Reserves) {
    forall k :: k in reserves ==> ReserveInv(reserves[k])
  }

  /** An obligation is refreshed exactly when every slot that the scan reaches can be valued, and then just those slots
   *  are, and the obligation is stamped with the slot.
   */
  lemma RefreshObligationAcceptedIff(o: ObligationData, reserves: I.Reserves, slot: u64)
    requires Wf(o) && AllSound(reserves)
    ensures o.borrowsCount <= MAX_SLOTS && o.depositsCount <= MAX_SLOTS
    ensures I.RefreshObligation(o, reserves, slot).Ok? <==> Valuable(o, reserves)
    ensures I.RefreshObligation(o, reserves, slot).Ok? ==>
      var p := I.RefreshObligation(o, reserves, slot).value;
      Valued(o, reserves, p) && p.lastUpdateSlot == slot && p.lastUpdateTime == o.lastUpdateTime
  {
    hide ReserveInv, I.PriceBorrow, I.PriceDeposit, I.PriceBorrows, I.PriceDeposits, LoanPriceable, LoanPriced,
      DepositPriceable, DepositPriced;
    TablesAreMaps(o);
    BorrowLoop(o.borrows, reserves, 0, o.borrowsCount);
    DepositLoop(o.deposits, reserves, 0, o.depositsCount);
    forall i | 0 <= i < MAX_SLOTS
      ensures var x := I.PriceBorrow(o.borrows[i], reserves);
        && (x.Ok? <==> LoanPriceable(o.borrows[i], reserves))
        && (x.Ok? ==> LoanPriced(o.borrows[i], reserves, x.value))
      ensures var y := I.PriceDeposit(o.deposits[i], reserves);
        && (y.Ok? <==> DepositPriceable(o.deposits[i], reserves))
        && (y.Ok? ==> DepositPriced(o.deposits[i], reserves, y.value))
    {
      PriceBorrowIff(o.borrows[i], reserves);
      PriceDepositIff(o.deposits[i], reserves);
    }
  }

  /** `reserves` are the listed reserves among the accounts passed along, as they are now. */
  predicate Shown(s: State, accounts: set<Pubkey>, reserves: I.Reserves) {
    && reserves.Keys == s.pools.Keys * accounts
    && forall k :: k in reserves ==> reserves[k] == s.pools[k].reserve
  }

  /** In a market, paused or not: exactly the named user's obligation is valued, against the accounts passed along as
   *  they are, active or not, and stamped with slot and time.
   */
  lemma ObligationRefreshIff(s: State, user: nat, accounts: set<Pubkey>, now: i64, reserves: I.Reserves)
    requires Inv(s) && Shown(s, accounts, reserves)
    ensures user < |s.users| ==>
      s.users[user].obligation.borrowsCount <= MAX_SLOTS && s.users[user].obligation.depositsCount <= MAX_SLOTS
    ensures Exec(s, RefreshObligation(user, accounts, now)).Ok? <==>
      user < |s.users| && Valuable(s.users[user].obligation, reserves)
    ensures Exec(s, RefreshObligation(user, accounts, now)).Ok? ==>
      var t := Exec(s, RefreshObligation(user, accounts, now)).value;
      && t == s.(users := t.users) && |t.users| == |s.users|
      && (forall i :: 0 <= i < |s.users| && i != user ==> t.users[i] == s.users[i])
      && t.users[user] == s.users[user].(obligation := t.users[user].obligation)
      && var p := t.users[user].obligation;
      && Valued(s.users[user].obligation, reserves, p)
      && p.lastUpdateSlot == s.slot && p.lastUpdateTime == now
  {
    hide Inv, ReserveInv, I.RefreshObligation, Valuable, LoanPriced, DepositPriced;
    assert Passed(s.pools, accounts) == reserves;
    forall k | k in reserves ensures ReserveInv(reserves[k]) {
      PoolOk(s, k);
    }
    if user < |s.users| {
      UserOk(s, user);
      RefreshObligationAcceptedIff(s.users[user].obligation, reserves, s.slot);
    }
  }
}
