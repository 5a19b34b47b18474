/** What a liquidation takes is worth what it repays plus the bonus, less one unit at most per rounding. */
module SeizurePricing {
  import opened Arithmetic
  import opened Numeric
  import opened ReserveModel
  import opened ReserveProperties
  import opened ObligationModel
  import opened ObligationProperties
  import opened InstructionProperties
  import opened Market
  import opened MarketInvariant
  import I = InstructionModel

  /** Three floors in a row: `bonus`, then `units`, then `shares`. */
  lemma ThreeFloors(worth: nat, factor: nat, price: nat, issued: nat, supply: nat, bonus: nat, units: nat, shares: nat)
    requires 0 < price && 0 < supply && 0 < issued
    requires bonus == worth * factor / BPS_SCALER && units == bonus / price && shares == units * issued / supply
    ensures shares * supply * price * BPS_SCALER <= worth * factor * issued
    ensures worth * factor * issued < ((shares + 1) * supply + issued) * price * BPS_SCALER
  {
    var total := worth * factor;
    Floor(total, BPS_SCALER);
    Floor(bonus, price);
    Floor(units * issued, supply);
    calc {
      shares * supply * price * BPS_SCALER;
    <= { Mono(shares * supply, units * issued, price); }
      units * issued * price * BPS_SCALER;
      { assert units * issued * price == (units * price) * issued; }
      ((units * price) * issued) * BPS_SCALER;
    <= { Mono(units * price, bonus, issued); }
      (bonus * issued) * BPS_SCALER;
      (bonus * BPS_SCALER) * issued;
    <= { Mono(bonus * BPS_SCALER, total, issued); }
      total * issued;
    }
    UpperFloors(total, price, issued, supply, bonus, units, shares);
  }

  lemma UpperFloors(total: nat, price: nat, issued: nat, supply: nat, bonus: nat, units: nat, shares: nat)
    requires 0 < price && 0 < issued
    requires total < (bonus + 1) * BPS_SCALER && bonus + 1 <= (units + 1) * price
      && units * issued < (shares + 1) * supply
    ensures total * issued < ((shares + 1) * supply + issued) * price * BPS_SCALER
  {
    var room := (shares + 1) * supply + issued;
    Mono(total + 1, (bonus + 1) * BPS_SCALER, issued);
    assert total * issued < (total + 1) * issued;
    calc {
      (bonus + 1) * BPS_SCALER * issued;
      ((bonus + 1) * issued) * BPS_SCALER;
    <= { Mono(bonus + 1, (units + 1) * price, issued); }
      ((units + 1) * price * issued) * BPS_SCALER;
      { assert (units + 1) * price * issued == (units * issued + issued) * price; }
      ((units * issued + issued) * price) * BPS_SCALER;
    <= { Mono(units * issued + issued, room, price); }
      (room * price) * BPS_SCALER;
    }
  }

  /** The value seized, at the exchange rate and the prices used, against the value repaid with the bonus. */
  predicate NotOverSeized(repaid: nat, repay: ReserveData, withdraw: ReserveData, seized: nat) {
    seized * withdraw.Supply() * withdraw.price * BPS_SCALER
    <= repaid * repay.price * (BPS_SCALER + withdraw.config.liquidationBonus) * withdraw.ctokens
  }

  predicate NotUnderSeized(repaid: nat, repay: ReserveData, withdraw: ReserveData, seized: nat) {
    repaid * repay.price * (BPS_SCALER + withdraw.config.liquidationBonus) * withdraw.ctokens
    < ((seized + 1) * withdraw.Supply() + withdraw.ctokens) * withdraw.price * BPS_SCALER
  }

  lemma SeizableWithinBonus(repaid: u64, repay: ReserveData, withdraw: ReserveData, supply: u128)
    requires ReserveInv(withdraw) && 0 < withdraw.ctokens && withdraw.TotalSupply() == Ok(supply) && 0 < withdraw.price
    requires I.SeizableCTokens(repaid, repay.price, withdraw, supply).Ok?
    ensures var c := I.SeizableCTokens(repaid, repay.price, withdraw, supply).value;
      NotOverSeized(repaid, repay, withdraw, c) && NotUnderSeized(repaid, repay, withdraw, c)
  {
    var worth := repaid * repay.price;
    var factor := BPS_SCALER + withdraw.config.liquidationBonus;
    var bonus := worth * factor / BPS_SCALER;
    ThreeFloors(worth, factor, withdraw.price, withdraw.ctokens, supply, bonus, bonus / withdraw.price,
                I.SeizableCTokens(repaid, repay.price, withdraw, supply).value);
  }

  lemma FewerSeized(repaid: nat, repay: ReserveData, withdraw: ReserveData, c: nat, seized: nat)
    requires ReserveInv(withdraw) && NotOverSeized(repaid, repay, withdraw, c) && seized <= c
    ensures NotOverSeized(repaid, repay, withdraw, seized)
  {
    Mono(seized, c, withdraw.Supply());
    Mono(seized * withdraw.Supply(), c * withdraw.Supply(), withdraw.price);
  }

  /** No liquidation takes more than it repays plus the bonus; unless it takes the whole deposit it falls short
   *  by less than one cToken, one underlying token and one unit of value.
   */
  lemma SeizedWithinBonus(repay: ReserveData, withdraw: ReserveData, o: ObligationData,
                          key: Pubkey, seizedKey: Pubkey, amount: u64, slot: u64)
    requires Wf(o) && key != DEFAULT_PUBKEY && seizedKey != DEFAULT_PUBKEY
    requires ReserveInv(withdraw) && 0 < withdraw.ctokens && 0 < withdraw.price
    requires I.Seize(repay, withdraw, o, key, seizedKey, amount, slot).Ok?
    ensures var s := I.Seize(repay, withdraw, o, key, seizedKey, amount, slot).value;
      && NotOverSeized(s.repaid, repay, withdraw, s.seized)
      && (s.seized < Locked(o.deposits, seizedKey) ==> NotUnderSeized(s.repaid, repay, withdraw, s.seized))
  {
    hide NotOverSeized, NotUnderSeized, I.SeizableCTokens, Wf;
    var s := I.Seize(repay, withdraw, o, key, seizedKey, amount, slot).value;
    var supply := withdraw.TotalSupply().value;
    SeizableWithinBonus(s.repaid, repay, withdraw, supply);
    FewerSeized(s.repaid, repay, withdraw, I.SeizableCTokens(s.repaid, repay.price, withdraw, supply).value, s.seized);
  }

  /** cTokens that some obligation has locked are outstanding. */
  lemma LockedAreIssued(s: State, i: nat, key: Pubkey)
    requires Inv(s) && i < |s.users| && key in s.pools
    ensures Locked(s.users[i].obligation.deposits, key) <= s.pools[key].reserve.ctokens
  {
    hide Inv, Locked;
    PoolOk(s, key);
    LockedBelowTotal(s.users, i, key);
  }

  lemma SeizedIsLocked(s: State, user: nat, key: Pubkey, seizedKey: Pubkey, amount: u64)
    requires Inv(s) && Exists(s, user, key) && seizedKey in s.pools
    requires I.Liquidate(Reserves(s.pools), s.users[user].obligation, key, seizedKey, amount, s.slot).Ok?
    ensures var l := I.Liquidate(Reserves(s.pools), s.users[user].obligation, key, seizedKey, amount, s.slot).value;
      && 0 < l.seizure.seized <= Locked(s.users[user].obligation.deposits, seizedKey)
      && I.Seize(l.repay, l.withdraw, s.users[user].obligation, key, seizedKey, amount, s.slot) == Ok(l.seizure)
      && s.pools[seizedKey].reserve.Accrue(s.slot) == Ok(l.withdraw) && 0 < l.withdraw.price
  {
    hide Inv, Wf, Locked, Charged, Moved, I.Seize;
    PoolOk(s, key);
    PoolOk(s, seizedKey);
    UserOk(s, user);
    LiquidateEffect(Reserves(s.pools), s.users[user].obligation, key, seizedKey, amount, s.slot);
    var l := I.Liquidate(Reserves(s.pools), s.users[user].obligation, key, seizedKey, amount, s.slot).value;
    SeizeEffect(l.repay, l.withdraw, s.users[user].obligation, key, seizedKey, amount, s.slot);
  }

  /** In a reachable market every liquidation that succeeds is priced that way, whoever holds the cTokens. */
  lemma LiquidationsWithinBonus(s: State, liquidator: nat, user: nat, key: Pubkey, seizedKey: Pubkey, amount: u64,
                                to: Destination)
    requires Inv(s) && Exec(s, Liquidate(liquidator, user, key, seizedKey, amount, to)).Ok?
    ensures Exists(s, user, key) && seizedKey in s.pools
    ensures I.Liquidate(Reserves(s.pools), s.users[user].obligation, key, seizedKey, amount, s.slot).Ok?
    ensures var l := I.Liquidate(Reserves(s.pools), s.users[user].obligation, key, seizedKey, amount, s.slot).value;
      && NotOverSeized(l.seizure.repaid, l.repay, l.withdraw, l.seizure.seized)
      && (l.seizure.seized < Locked(s.users[user].obligation.deposits, seizedKey) ==>
            NotUnderSeized(l.seizure.repaid, l.repay, l.withdraw, l.seizure.seized))
  {
    hide Inv, Wf, Locked, I.Liquidate, I.Seize, NotOverSeized, NotUnderSeized;
    var l := I.Liquidate(Reserves(s.pools), s.users[user].obligation, key, seizedKey, amount, s.slot).value;
    PoolOk(s, key);
    PoolOk(s, seizedKey);
    UserOk(s, user);
    SeizedIsLocked(s, user, key, seizedKey, amount);
    LockedAreIssued(s, user, seizedKey);
    AccrueEffect(s.pools[seizedKey].reserve, s.slot);
    SeizedWithinBonus(l.repay, l.withdraw, s.users[user].obligation, key, seizedKey, amount, s.slot);
  }
}
