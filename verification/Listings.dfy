/** Listing and configuring reserves, and what time alone does to them. */
module Listings {
  import opened Numeric
  import opened ReserveModel
  import opened ReserveProperties
  import opened ObligationModel
  import opened Market
  import opened MarketInvariant
  import opened MarketSteps
  import opened ReserveFlows
  import Balances
  import Stamps
  import I = InstructionModel

  /** Thresholds, rates, utilization and fee in order, each within its bound. */
  predicate InOrder(c: ReserveConfig) {
    && c.loanToValue < c.liquidationThreshold <= 100
    && c.minBorrowRate <= c.optimalBorrowRate <= c.maxBorrowRate
    && c.optimalUtilization <= 10_000 && c.protocolFee <= 1_000
  }

  /** Nothing but pool `key` differs. */
  predicate OnlyPool(s: State, t: State, key: Pubkey) {
    && t == s.(pools := t.pools)
    && t.pools.Keys == s.pools.Keys + {key}
    && forall k :: k in s.pools && k != key ==> t.pools[k] == s.pools[k]
  }

  /** A reserve is listed exactly in an unpaused market, at a new address, with a configuration in order. It then has
   *  nothing, at the index that loans start from, without a price, stamped with the slot of its listing.
   */
  lemma AddReserveAcceptedIff(s: State, key: Pubkey, c: ReserveConfig)
    ensures Exec(s, AddReserve(key, c)).Ok? <==>
      !s.paused && key !in s.pools && key != DEFAULT_PUBKEY && InOrder(c)
    ensures Exec(s, AddReserve(key, c)).Ok? ==>
      var t := Exec(s, AddReserve(key, c)).value;
      && OnlyPool(s, t, key)
      && var p := t.pools[key];
      && p.reserve.lastUpdateSlot == s.slot && p.reserve.index == RATE_SCALE && p.reserve.config == c
      && p.reserve.available == 0 && p.reserve.borrowed == 0 && p.reserve.fees == 0 && p.reserve.ctokens == 0
      && p.reserve.price == 0 && p.reserve.priceTime == 0
      && p.liquidityVault == 0 && p.collateralVault == 0 && p.ctokenSupply == 0
      && p.parked == 0 && p.parkedCTokens == 0
  {
  }

  /** A configuration is replaced, paused or not, exactly by one in order. Interest is not booked first: the slots since
   *  the last accrual will be charged under the new configuration, and the slot stamp, price and amounts stay.
   */
  lemma UpdateConfigAcceptedIff(s: State, key: Pubkey, c: ReserveConfig)
    ensures Exec(s, UpdateConfig(key, c)).Ok? <==> key in s.pools && InOrder(c)
    ensures Exec(s, UpdateConfig(key, c)).Ok? ==>
      var t := Exec(s, UpdateConfig(key, c)).value;
      && OnlyPool(s, t, key)
      && t.pools[key].reserve.config == c
      && t.pools[key] == s.pools[key].(reserve := s.pools[key].reserve.(config := c))
  {
  }

  /** Any number of obligations can be opened; a new one has nothing in its eight slots of either kind. */
  lemma InitObligationOpens(s: State)
    ensures Exec(s, InitObligation).Ok?
    ensures var t := Exec(s, InitObligation).value;
      && t == s.(users := t.users) && |t.users| == |s.users| + 1 && t.users[..|s.users|] == s.users
      && var u := t.users[|s.users|];
      && u.tokens == u.ctokens == map[]
      && u.obligation.depositsCount == u.obligation.borrowsCount == 0
      && (forall i :: 0 <= i < MAX_SLOTS ==> u.obligation.deposits[i] == DepositSlot(DEFAULT_PUBKEY, 0, 0))
      && (forall i :: 0 <= i < MAX_SLOTS ==> u.obligation.borrows[i] == BorrowSlot(DEFAULT_PUBKEY, 0, RATE_SCALE, 0))
      && u.obligation.lastUpdateSlot == 0 && u.obligation.lastUpdateTime == 0
  {
  }

  // ---- No interest without time ---------------------------------------------------------------

  /** Reserve `key` is listed and up to date. */
  predicate UpToDate(s: State, key: Pubkey) {
    key in s.pools && s.slot <= s.pools[key].reserve.lastUpdateSlot
  }

  lemma UpToDateAccrual(r: ReserveData, slot: u64)
    requires slot <= r.lastUpdateSlot
    ensures r.Accrue(slot) == Ok(r)
  {
  }

  /** Interest runs with slots alone: as long as the slot stands still, no run books any on a reserve that is up to
   *  date, and its index stays where it is.
   */
  lemma {:induction false} NoTimeNoInterest(s: State, ixs: seq<Instruction>, key: Pubkey)
    requires Inv(s) && UpToDate(s, key) && forall ix :: ix in ixs ==> !ix.AdvanceSlot?
    ensures UpToDate(Run(s, ixs), key)
    ensures var r, q := s.pools[key].reserve, Run(s, ixs).pools[key].reserve;
      q.index == r.index && q.fees == r.fees && TotalsOf(s, ixs, key).interest == 0
  {
    hide Inv, Exec, FlowOf, ReserveData.Accrue, UpToDate, ReserveInv, Accrued, RateKept;
    if |ixs| == 0 {
    } else {
      var earlier, ix := ixs[..|ixs| - 1], ixs[|ixs| - 1];
      var m := Run(s, earlier);
      NoTimeNoInterest(s, earlier, key);
      RunKeepsInv(s, earlier);
      if Exec(m, ix).Ok? {
        assert ix in ixs;
        StepKeepsStamp(m, ix, key);
        BooksNothing(m, ix, key);
        ReserveStep(m, ix, key);
      }
    }
  }

  lemma StepKeepsStamp(s: State, ix: Instruction, key: Pubkey)
    requires Inv(s) && UpToDate(s, key) && Exec(s, ix).Ok? && !ix.AdvanceSlot?
    ensures UpToDate(Exec(s, ix).value, key)
  {
    hide Inv, Exec;
    Stamps.StampsMove(s, ix, key);
    Balances.OnlyNamedChange(s, ix);
  }

  lemma BooksNothing(s: State, ix: Instruction, key: Pubkey)
    requires UpToDate(s, key)
    ensures key in s.pools && WithInterest(s, ix, key) == s.pools[key].reserve
  {
    hide ReserveData.Accrue;
    UpToDateAccrual(s.pools[key].reserve, s.slot);
  }

  /** So whatever the slot of its listing, a reserve has its first index and no fees for the rest of that slot, and the
   *  first deposit into it mints one cToken for each token.
   */
  lemma ListedWithoutBacklog(s: State, key: Pubkey, c: ReserveConfig, ixs: seq<Instruction>)
    requires Inv(s) && Exec(s, AddReserve(key, c)).Ok? && forall ix :: ix in ixs ==> !ix.AdvanceSlot?
    ensures var t := Run(Exec(s, AddReserve(key, c)).value, ixs);
      && UpToDate(t, key)
      && var r := t.pools[key].reserve;
      && r.index == RATE_SCALE && r.fees == 0 && r.Accrue(t.slot) == Ok(r)
      && forall amount: u64 :: r.available == 0 && r.borrowed == 0 && I.Deposit(r, amount, t.slot).Ok? ==>
           I.Deposit(r, amount, t.slot).value.1 == amount
  {
    hide Inv, Exec, ReserveData.Accrue, ReserveInv;
    var listed := Exec(s, AddReserve(key, c)).value;
    AddReserveAcceptedIff(s, key, c);
    ExecKeepsInv(s, AddReserve(key, c));
    NoTimeNoInterest(listed, ixs, key);
    var t := Run(listed, ixs);
    var r := t.pools[key].reserve;
    UpToDateAccrual(r, t.slot);
    RunKeepsInv(listed, ixs);
    PoolOk(t, key);
    forall amount: u64 | r.available == 0 && r.borrowed == 0 && I.Deposit(r, amount, t.slot).Ok?
      ensures I.Deposit(r, amount, t.slot).value.1 == amount
    {
      FirstDeposit(r, amount, t.slot);
    }
  }

  lemma FirstDeposit(r: ReserveData, amount: u64, slot: u64)
    requires ReserveInv(r) && r.available == 0 && r.borrowed == 0 && r.fees == 0 && slot <= r.lastUpdateSlot
    requires I.Deposit(r, amount, slot).Ok?
    ensures I.Deposit(r, amount, slot).value.1 == amount
  {
  }
}
