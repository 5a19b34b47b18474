/** Every instruction keeps the market invariant. */
module MarketSteps {
  import opened Numeric
  import opened ReserveModel
  import opened ReserveProperties
  import opened ObligationModel
  import opened PriceOracle
  import opened ObligationProperties
  import opened RefreshProperties
  import opened InstructionProperties
  import opened Market
  import opened MarketInvariant
  import I = InstructionModel

  lemma DepositKeepsInv(s: State, user: nat, key: Pubkey, amount: u64)
    requires Inv(s) && Exists(s, user, key) && DepositStep(s, user, key, amount).Ok?
    ensures Inv(DepositStep(s, user, key, amount).value)
  {
    hide Inv, ObligationInv, Wf, Locked;
    var t := DepositStep(s, user, key, amount).value;
    PoolOk(s, key);
    UserOk(s, user);
    AccrueEffect(s.pools[key].reserve, s.slot);
    DepositEffect(s.pools[key].reserve.Accrue(s.slot).value, amount);
    IndexRises(s.users[user].obligation, s.pools, key, t.pools[key]);
    PatchKeepsInv(s, key, t.pools[key], user, t.users[user]);
  }

  lemma WithdrawKeepsInv(s: State, user: nat, key: Pubkey, amount: u64)
    requires Inv(s) && Exists(s, user, key) && WithdrawStep(s, user, key, amount).Ok?
    ensures Inv(WithdrawStep(s, user, key, amount).value)
  {
    hide Inv, ObligationInv, Wf, Locked;
    var t := WithdrawStep(s, user, key, amount).value;
    PoolOk(s, key);
    UserOk(s, user);
    AccrueEffect(s.pools[key].reserve, s.slot);
    RedeemEffect(s.pools[key].reserve.Accrue(s.slot).value, amount);
    IndexRises(s.users[user].obligation, s.pools, key, t.pools[key]);
    PatchKeepsInv(s, key, t.pools[key], user, t.users[user]);
  }

  /** Moving collateral of a listed reserve keeps the obligation sound. */
  lemma MovedKeeps(o: ObligationData, p: ObligationData, pools: map<Pubkey, Pool>, key: Pubkey, q: Pool, delta: int)
    requires ObligationInv(o, pools) && key in pools && pools[key].reserve == q.reserve
    requires Wf(p) && p.borrows == o.borrows && Moved(o, p, key, delta)
    ensures ObligationInv(p, pools[key := q])
  {
  }

  lemma DepositCollateralKeepsInv(s: State, user: nat, key: Pubkey, amount: u64)
    requires Inv(s) && Exists(s, user, key) && DepositCollateralStep(s, user, key, amount).Ok?
    ensures Inv(DepositCollateralStep(s, user, key, amount).value)
  {
    hide Inv, ObligationInv, Wf, Locked;
    var t := DepositCollateralStep(s, user, key, amount).value;
    PoolOk(s, key);
    UserOk(s, user);
    DepositRefines(s.users[user].obligation, key, amount);
    MovedKeeps(s.users[user].obligation, t.users[user].obligation, s.pools, key, t.pools[key], amount);
    PatchKeepsInv(s, key, t.pools[key], user, t.users[user]);
  }

  lemma WithdrawCollateralKeepsInv(s: State, user: nat, key: Pubkey, amount: u64)
    requires Inv(s) && Exists(s, user, key) && WithdrawCollateralStep(s, user, key, amount).Ok?
    ensures Inv(WithdrawCollateralStep(s, user, key, amount).value)
  {
    hide Inv, ObligationInv, Wf, Locked;
    var t := WithdrawCollateralStep(s, user, key, amount).value;
    PoolOk(s, key);
    UserOk(s, user);
    WithdrawCollateralEffect(s.users[user].obligation, key, amount, s.slot);
    MovedKeeps(s.users[user].obligation, t.users[user].obligation, s.pools, key, t.pools[key], -(amount as int));
    PatchKeepsInv(s, key, t.pools[key], user, t.users[user]);
  }

  /** A loan that is caught up with its reserve keeps the obligation sound. */
  lemma ChargedKeeps(o: ObligationData, p: ObligationData, pools: map<Pubkey, Pool>, key: Pubkey, q: Pool, delta: int)
    requires ObligationInv(o, pools) && key in pools && pools[key].reserve.index <= q.reserve.index
    requires Charged(o, p, key, q.reserve.index, delta)
    requires forall k :: Locked(p.deposits, k) > 0 ==> Locked(o.deposits, k) > 0
    ensures ObligationInv(p, pools[key := q])
  {
  }

  lemma BorrowKeepsInv(s: State, user: nat, key: Pubkey, amount: u64, to: Destination)
    requires Inv(s) && Exists(s, user, key) && Receives(s, to) && BorrowStep(s, user, key, amount, to).Ok?
    ensures Inv(BorrowStep(s, user, key, amount, to).value)
  {
    hide Inv, PoolInv, ObligationInv, Wf, Locked, I.Borrow;
    var t := BorrowStep(s, user, key, amount, to).value;
    var v := s.users[user].(obligation := t.users[user].obligation);
    BorrowedBalances(s, user, key, amount, to);
    var m := WithUser(WithPool(s, key, t.pools[key]), user, v);
    PatchKeepsInv(s, key, t.pools[key], user, v);
    if to.ToUser? {
      UserOk(m, to.i);
      UserPatchKeepsInv(m, to.i, t.users[to.i]);
      assert t == WithUser(m, to.i, t.users[to.i]);
    } else {
      assert t == m;
    }
  }

  lemma BorrowedBalances(s: State, user: nat, key: Pubkey, amount: u64, to: Destination)
    requires Inv(s) && Exists(s, user, key) && Receives(s, to) && BorrowStep(s, user, key, amount, to).Ok?
    ensures var t := BorrowStep(s, user, key, amount, to).value; key in t.pools && |t.users| == |s.users|
    ensures var t := BorrowStep(s, user, key, amount, to).value;
      var v := s.users[user].(obligation := t.users[user].obligation);
      && ReserveInv(t.pools[key].reserve) && s.pools[key].reserve.index <= t.pools[key].reserve.index
      && Balanced(s.pools[key], t.pools[key], s.users[user], v, key)
      && ObligationInv(v.obligation, s.pools[key := t.pools[key]])
  {
    hide Inv, ObligationInv, Wf, Locked, I.Borrow, ReserveData.Accrue;
    var t := BorrowStep(s, user, key, amount, to).value;
    PoolOk(s, key);
    UserOk(s, user);
    BorrowEffect(s.pools[key].reserve, s.users[user].obligation, key, amount, s.slot);
    AccrueEffect(s.pools[key].reserve, s.slot);
    ChargedKeeps(s.users[user].obligation, t.users[user].obligation, s.pools, key, t.pools[key], amount * RATE_SCALE);
  }

  lemma RepayKeepsInv(s: State, user: nat, key: Pubkey, amount: u64)
    requires Inv(s) && Exists(s, user, key) && RepayStep(s, user, key, amount).Ok?
    ensures Inv(RepayStep(s, user, key, amount).value)
  {
    hide Inv, ObligationInv, Wf, Locked, ReserveData.Accrue, ReserveData.Repay, ObligationData.Repay,
      ObligationData.AccrueInterest;
    var t := RepayStep(s, user, key, amount).value;
    PoolOk(s, key);
    UserOk(s, user);
    AccrueEffect(s.pools[key].reserve, s.slot);
    RepayEffect(s.pools[key].reserve, s.users[user].obligation, key, amount, s.slot);
    ChargedKeeps(s.users[user].obligation, t.users[user].obligation, s.pools, key, t.pools[key],
      -(RATE_SCALE * amount));
    PatchKeepsInv(s, key, t.pools[key], user, t.users[user]);
  }

  lemma RefreshObligationKeepsInv(s: State, user: nat, accounts: set<Pubkey>, now: i64)
    requires Inv(s) && user < |s.users| && RefreshObligationStep(s, user, accounts, now).Ok?
    ensures Inv(RefreshObligationStep(s, user, accounts, now).value)
  {
    var t := RefreshObligationStep(s, user, accounts, now).value;
    RefreshKeeps(s.users[user].obligation, Passed(s.pools, accounts), s.slot);
    UserPatchKeepsInv(s, user, t.users[user]);
  }

  lemma RefreshReserveKeepsInv(s: State, key: Pubkey, update: PriceUpdate, now: i64)
    requires Inv(s) && key in s.pools && RefreshReserveStep(s, key, update, now).Ok?
    ensures Inv(RefreshReserveStep(s, key, update, now).value)
  {
    hide ReadPrice;
    assert PoolInv(s.pools[key], s.users, key);
    AccrueEffect(s.pools[key].reserve, s.slot);
    PoolPatchKeepsInv(s, key, RefreshReserveStep(s, key, update, now).value.pools[key]);
  }

  lemma SendCTokensKeepsInv(s: State, user: nat, to: nat, key: Pubkey, amount: u64)
    requires Inv(s) && user < |s.users| && to < |s.users| && SendCTokensStep(s, user, to, key, amount).Ok?
    ensures Inv(SendCTokensStep(s, user, to, key, amount).value)
  {
    hide Inv;
    var reduced := s.users[user].(ctokens := DebitAt(s.users[user].ctokens, key, amount).value);
    var sent := WithUser(s, user, reduced);
    var raised := sent.users[to].(ctokens := CreditAt(sent.users[to].ctokens, key, amount).value);
    TransferKeepsInv(s, user, to, reduced, raised);
  }

  lemma AccrueKeepsInv(s: State, key: Pubkey)
    requires Inv(s) && key in s.pools && s.pools[key].reserve.Accrue(s.slot).Ok?
    ensures Inv(WithReserve(s, key, s.pools[key].reserve.Accrue(s.slot).value))
  {
    assert PoolInv(s.pools[key], s.users, key);
    AccrueEffect(s.pools[key].reserve, s.slot);
    PoolPatchKeepsInv(s, key, s.pools[key].(reserve := s.pools[key].reserve.Accrue(s.slot).value));
  }

  /** A settled obligation whose owner receives the seized cTokens, or leaves them in the vault. */
  function Seized(s: State, user: nat, key: Pubkey, seizure: I.Seizure, to: Destination): State
    requires Exists(s, user, key) && seizure.seized <= s.pools[key].collateralVault
  {
    var p, u := s.pools[key], s.users[user];
    if to.ToVault? then
      WithUser(WithPool(s, key, p.(parkedCTokens := p.parkedCTokens + seizure.seized)), user,
        u.(obligation := seizure.obligation))
    else
      WithUser(WithPool(s, key, p.(collateralVault := p.collateralVault - seizure.seized)),
               user, User(seizure.obligation, u.tokens, u.ctokens[key := Balance(u.ctokens, key) + seizure.seized]))
  }

  lemma SeizedKeepsInv(s: State, user: nat, key: Pubkey, seizedKey: Pubkey, seizure: I.Seizure, to: Destination)
    requires Inv(s) && Exists(s, user, key) && seizedKey in s.pools
    requires seizure.seized <= s.pools[seizedKey].collateralVault
    requires Charged(s.users[user].obligation, seizure.obligation, key, s.pools[key].reserve.index,
      -(RATE_SCALE * seizure.repaid))
    requires Moved(s.users[user].obligation, seizure.obligation, seizedKey, -(seizure.seized as int))
    ensures Inv(Seized(s, user, seizedKey, seizure, to))
  {
    hide Inv, ObligationInv, Wf, Charged, Locked;
    var t := Seized(s, user, seizedKey, seizure, to);
    PoolOk(s, seizedKey);
    UserOk(s, user);
    ChargedKeeps(s.users[user].obligation, seizure.obligation, s.pools, key, s.pools[key],
      -(RATE_SCALE * seizure.repaid));
    assert s.pools[key := s.pools[key]] == s.pools;
    IndexRises(seizure.obligation, s.pools, seizedKey, t.pools[seizedKey]);
    PatchKeepsInv(s, seizedKey, t.pools[seizedKey], user, t.users[user]);
  }

  lemma RepaidKeepsInv(s: State, key: Pubkey, relieved: ReserveData, amount: u64, vault: u64)
    requires Inv(s) && key in s.pools && s.pools[key].reserve.Repay(amount) == Ok(relieved)
    requires vault == s.pools[key].liquidityVault + amount
    ensures Inv(WithPool(s, key, s.pools[key].(reserve := relieved, liquidityVault := vault)))
  {
    assert PoolInv(s.pools[key], s.users, key);
    PoolPatchKeepsInv(s, key, s.pools[key].(reserve := relieved, liquidityVault := vault));
  }

  /** The settled state up to the last stage: seized by the owner, repaid, paid for by the liquidator. */
  function PaidFor(s: State, liquidator: nat, user: nat, key: Pubkey, seizedKey: Pubkey, seizure: I.Seizure,
                   to: Destination, q: Pool, tokens: map<Pubkey, nat>): State
    requires Exists(s, user, key) && Exists(s, liquidator, seizedKey)
    requires seizure.seized <= s.pools[seizedKey].collateralVault
  {
    var repaid := WithPool(Seized(s, user, seizedKey, seizure, to), key, q);
    WithUser(repaid, liquidator, repaid.users[liquidator].(tokens := tokens))
  }

  lemma SettlePools(s: State, liquidator: nat, user: nat, key: Pubkey, seizedKey: Pubkey,
                    relieved: ReserveData, seizure: I.Seizure, to: Destination)
    requires Exists(s, user, key) && Exists(s, liquidator, seizedKey) && Receives(s, to)
    requires Settle(s, liquidator, user, key, seizedKey, relieved, seizure, to).Ok?
    ensures seizure.seized <= s.pools[seizedKey].collateralVault
    ensures var t := Settle(s, liquidator, user, key, seizedKey, relieved, seizure, to).value;
      var seized := Seized(s, user, seizedKey, seizure, to);
      && key in t.pools && t == s.(pools := t.pools, users := t.users)
      && seized.pools[key].reserve == s.pools[key].reserve
      && t.pools[key] == seized.pools[key].(reserve := relieved, liquidityVault := t.pools[key].liquidityVault)
      && t.pools[key].liquidityVault == seized.pools[key].liquidityVault + seizure.repaid
      && t.pools == seized.pools[key := t.pools[key]]
  {
  }

  lemma RepayForUsers(s: State, liquidator: nat, user: nat, key: Pubkey, relieved: ReserveData, seizure: I.Seizure)
    requires Exists(s, user, key) && liquidator < |s.users|
    requires RepayFor(s, liquidator, user, key, relieved, seizure).Ok?
    ensures var t := RepayFor(s, liquidator, user, key, relieved, seizure).value;
      && |t.users| == |s.users| && t.pools.Keys == s.pools.Keys
      && var charged := s.users[user := s.users[user].(obligation := seizure.obligation)];
      t.users == charged[liquidator := charged[liquidator].(tokens := t.users[liquidator].tokens)]
  {
  }

  lemma HandOverUsers(s: State, w: Pubkey, n: u64, to: Destination)
    requires w in s.pools && Receives(s, to) && HandOver(s, w, n, to).Ok?
    ensures var t := HandOver(s, w, n, to).value;
      t.users == match to
                 case ToVault => s.users
                 case ToUser(i) =>
                   s.users[i := s.users[i].(ctokens := s.users[i].ctokens[w := Balance(s.users[i].ctokens, w) + n])]
  {
  }

  lemma SettleUsers(s: State, liquidator: nat, user: nat, key: Pubkey, seizedKey: Pubkey,
                    relieved: ReserveData, seizure: I.Seizure, to: Destination)
    requires Exists(s, user, key) && Exists(s, liquidator, seizedKey) && Receives(s, to)
    requires seizure.seized <= s.pools[seizedKey].collateralVault
    requires Settle(s, liquidator, user, key, seizedKey, relieved, seizure, to).Ok?
    ensures var t := Settle(s, liquidator, user, key, seizedKey, relieved, seizure, to).value;
      && |t.users| == |s.users|
      && var owner := Seized(s, user, seizedKey, seizure, to).users;
      var paid := owner[liquidator := owner[liquidator].(tokens := t.users[liquidator].tokens)];
      && (to.ToVault? ==> t.users == paid)
      && (to.ToUser? ==>
            var restored := paid[user].(ctokens := s.users[user].ctokens);
            Transfer(paid, user, to.i, restored, t.users[to.i])
              && t.users == paid[user := restored][to.i := t.users[to.i]])
  {
    hide RepayFor, HandOver;
    RepayForUsers(s, liquidator, user, key, relieved, seizure);
    HandOverUsers(RepayFor(s, liquidator, user, key, relieved, seizure).value, seizedKey, seizure.seized, to);
  }

  /** The stages a settlement passes through: seize, repay, pay, and hand the seized cTokens on from the borrower. */
  lemma SettleStages(s: State, liquidator: nat, user: nat, key: Pubkey, seizedKey: Pubkey,
                     relieved: ReserveData, seizure: I.Seizure, to: Destination)
    requires Exists(s, user, key) && Exists(s, liquidator, seizedKey) && Receives(s, to)
    requires Settle(s, liquidator, user, key, seizedKey, relieved, seizure, to).Ok?
    ensures seizure.seized <= s.pools[seizedKey].collateralVault
    ensures var t := Settle(s, liquidator, user, key, seizedKey, relieved, seizure, to).value;
      var seized := Seized(s, user, seizedKey, seizure, to);
      && |t.users| == |s.users| && key in t.pools
      && seized.pools[key].reserve == s.pools[key].reserve
      && t.pools[key] == seized.pools[key].(reserve := relieved, liquidityVault := t.pools[key].liquidityVault)
      && t.pools[key].liquidityVault == seized.pools[key].liquidityVault + seizure.repaid
      && var paid := PaidFor(s, liquidator, user, key, seizedKey, seizure, to, t.pools[key],
        t.users[liquidator].tokens);
      && (to.ToVault? ==> t == paid)
      && (to.ToUser? ==>
            var restored := paid.users[user].(ctokens := s.users[user].ctokens);
            && Transfer(paid.users, user, to.i, restored, t.users[to.i])
            && t == WithUser(WithUser(paid, user, restored), to.i, t.users[to.i]))
  {
    hide Settle, Transfer;
    SettlePools(s, liquidator, user, key, seizedKey, relieved, seizure, to);
    SettleUsers(s, liquidator, user, key, seizedKey, relieved, seizure, to);
  }

  lemma SettleReserves(s: State, liquidator: nat, user: nat, key: Pubkey, seizedKey: Pubkey,
                       relieved: ReserveData, seizure: I.Seizure, to: Destination)
    requires Exists(s, user, key) && Exists(s, liquidator, seizedKey) && Receives(s, to)
    requires Settle(s, liquidator, user, key, seizedKey, relieved, seizure, to).Ok?
    ensures var t := Settle(s, liquidator, user, key, seizedKey, relieved, seizure, to).value;
      && t.pools.Keys == s.pools.Keys
      && (forall k :: k in s.pools ==> t.pools[k].reserve == if k == key then relieved else s.pools[k].reserve)
      && |t.users| == |s.users|
      && (forall i :: 0 <= i < |s.users| ==>
            t.users[i].obligation == if i == user then seizure.obligation else s.users[i].obligation)
  {
  }

  lemma SettleKeepsInv(s: State, liquidator: nat, user: nat, key: Pubkey, seizedKey: Pubkey,
                       relieved: ReserveData, seizure: I.Seizure, to: Destination)
    requires Inv(s) && Exists(s, user, key) && Exists(s, liquidator, seizedKey) && Receives(s, to)
    requires Settle(s, liquidator, user, key, seizedKey, relieved, seizure, to).Ok?
    requires s.pools[key].reserve.Repay(seizure.repaid) == Ok(relieved)
    requires Charged(s.users[user].obligation, seizure.obligation, key, s.pools[key].reserve.index,
      -(RATE_SCALE * seizure.repaid))
    requires Moved(s.users[user].obligation, seizure.obligation, seizedKey, -(seizure.seized as int))
    ensures Inv(Settle(s, liquidator, user, key, seizedKey, relieved, seizure, to).value)
  {
    hide Inv, PoolInv, ObligationInv, Wf, ReserveInv, Charged, Moved, Settle;
    SettleStages(s, liquidator, user, key, seizedKey, relieved, seizure, to);
    var t := Settle(s, liquidator, user, key, seizedKey, relieved, seizure, to).value;
    SeizedKeepsInv(s, user, key, seizedKey, seizure, to);
    var seized := Seized(s, user, seizedKey, seizure, to);
    RepaidKeepsInv(seized, key, relieved, seizure.repaid, t.pools[key].liquidityVault);
    var repaid := WithPool(seized, key, t.pools[key]);
    var paid := PaidFor(s, liquidator, user, key, seizedKey, seizure, to, t.pools[key], t.users[liquidator].tokens);
    UserOk(repaid, liquidator);
    UserPatchKeepsInv(repaid, liquidator, paid.users[liquidator]);
    if to.ToUser? {
      TransferKeepsInv(paid, user, to.i, paid.users[user].(ctokens := s.users[user].ctokens), t.users[to.i]);
    }
  }

  /** The market after both accruals of a liquidation. */
  function AccruedBoth(s: State, l: I.Liquidation, key: Pubkey, seizedKey: Pubkey): State
    requires key in s.pools && seizedKey in s.pools
  {
    WithReserve(WithReserve(s, key, l.repay), seizedKey, l.withdraw)
  }

  lemma LiquidateStages(s: State, liquidator: nat, user: nat, key: Pubkey, seizedKey: Pubkey, amount: u64,
                        to: Destination)
    requires Exists(s, user, key) && Exists(s, liquidator, seizedKey) && Receives(s, to)
    requires ReserveInv(s.pools[key].reserve)
    requires LiquidateStep(s, liquidator, user, key, seizedKey, amount, to).Ok?
    ensures I.Liquidate(Reserves(s.pools), s.users[user].obligation, key, seizedKey, amount, s.slot).Ok?
    ensures var l := I.Liquidate(Reserves(s.pools), s.users[user].obligation, key, seizedKey, amount, s.slot).value;
      var accrued := AccruedBoth(s, l, key, seizedKey);
      && s.pools[key].reserve.Accrue(s.slot) == Ok(l.repay)
      && WithReserve(s, key, l.repay).pools[seizedKey].reserve.Accrue(s.slot) == Ok(l.withdraw)
      && accrued.pools[key].reserve == l.repay && l.repay.Repay(l.seizure.repaid) == Ok(l.relieved)
      && Settle(accrued, liquidator, user, key, seizedKey, l.relieved, l.seizure, to)
         == LiquidateStep(s, liquidator, user, key, seizedKey, amount, to)
  {
    LiquidateEffect(Reserves(s.pools), s.users[user].obligation, key, seizedKey, amount, s.slot);
    AccrueTwice(s.pools[key].reserve, s.slot);
  }

  /** Everything a liquidation leaves changed, apart from token balances. */
  lemma LiquidateOutcome(s: State, liquidator: nat, user: nat, key: Pubkey, seizedKey: Pubkey, amount: u64,
                         to: Destination)
    requires Exists(s, user, key) && Exists(s, liquidator, seizedKey) && Receives(s, to)
    requires ReserveInv(s.pools[key].reserve)
    requires LiquidateStep(s, liquidator, user, key, seizedKey, amount, to).Ok?
    ensures I.Liquidate(Reserves(s.pools), s.users[user].obligation, key, seizedKey, amount, s.slot).Ok?
    ensures var l := I.Liquidate(Reserves(s.pools), s.users[user].obligation, key, seizedKey, amount, s.slot).value;
      var t := LiquidateStep(s, liquidator, user, key, seizedKey, amount, to).value;
      && s.pools[key].reserve.Accrue(s.slot) == Ok(l.repay)
      && s.pools[seizedKey].reserve.Accrue(s.slot) == Ok(l.withdraw)
      && l.repay.Repay(l.seizure.repaid) == Ok(l.relieved)
      && t.pools.Keys == s.pools.Keys
      && (forall k :: k in s.pools ==>
            t.pools[k].reserve == if k == key then l.relieved else if k == seizedKey then l.withdraw
              else s.pools[k].reserve)
      && |t.users| == |s.users|
      && (forall i :: 0 <= i < |s.users| ==>
            t.users[i].obligation == if i == user then l.seizure.obligation else s.users[i].obligation)
  {
    hide I.Liquidate, LiquidateStep, Settle;
    LiquidateStages(s, liquidator, user, key, seizedKey, amount, to);
    AccrueTwice(s.pools[key].reserve, s.slot);
    var l := I.Liquidate(Reserves(s.pools), s.users[user].obligation, key, seizedKey, amount, s.slot).value;
    SettleReserves(AccruedBoth(s, l, key, seizedKey), liquidator, user, key, seizedKey, l.relieved, l.seizure, to);
  }

  /** What a liquidation does to the borrower, on the borrowed reserve's accrued index. */
  lemma LiquidateSettles(s: State, user: nat, key: Pubkey, seizedKey: Pubkey, amount: u64)
    requires Exists(s, user, key) && seizedKey in s.pools && key != DEFAULT_PUBKEY && seizedKey != DEFAULT_PUBKEY
    requires ReserveInv(s.pools[key].reserve) && Wf(s.users[user].obligation)
    requires I.Liquidate(Reserves(s.pools), s.users[user].obligation, key, seizedKey, amount, s.slot).Ok?
    ensures var l := I.Liquidate(Reserves(s.pools), s.users[user].obligation, key, seizedKey, amount, s.slot).value;
      var o := s.users[user].obligation;
      && Charged(o, l.seizure.obligation, key, l.repay.index, -(RATE_SCALE * l.seizure.repaid))
      && Moved(o, l.seizure.obligation, seizedKey, -(l.seizure.seized as int))
      && LoanOf(o.borrows, key).Some? && 0 < LoanOf(o.borrows, key).value.index
      && 2 * RATE_SCALE * l.seizure.repaid <= DebtAt(LoanOf(o.borrows, key), l.repay.index)
  {
    hide Charged, Moved, Wf, I.Liquidate, I.Seize;
    var o := s.users[user].obligation;
    LiquidateEffect(Reserves(s.pools), o, key, seizedKey, amount, s.slot);
    var l := I.Liquidate(Reserves(s.pools), o, key, seizedKey, amount, s.slot).value;
    SeizeEffect(l.repay, l.withdraw, o, key, seizedKey, amount, s.slot);
  }

  lemma LiquidateKeepsInv(s: State, liquidator: nat, user: nat, key: Pubkey, seizedKey: Pubkey, amount: u64,
                          to: Destination)
    requires Inv(s) && Exists(s, user, key) && Exists(s, liquidator, seizedKey) && Receives(s, to)
    requires LiquidateStep(s, liquidator, user, key, seizedKey, amount, to).Ok?
    ensures Inv(LiquidateStep(s, liquidator, user, key, seizedKey, amount, to).value)
  {
    hide Inv, PoolInv, ObligationInv, Wf, ReserveInv, Charged, Moved, I.Liquidate, LiquidateStep, Settle;
    PoolOk(s, key);
    PoolOk(s, seizedKey);
    UserOk(s, user);
    LiquidateStages(s, liquidator, user, key, seizedKey, amount, to);
    LiquidateSettles(s, user, key, seizedKey, amount);
    var l := I.Liquidate(Reserves(s.pools), s.users[user].obligation, key, seizedKey, amount, s.slot).value;
    AccrueKeepsInv(s, key);
    AccrueKeepsInv(WithReserve(s, key, l.repay), seizedKey);
    SettleKeepsInv(AccruedBoth(s, l, key, seizedKey), liquidator, user, key, seizedKey, l.relieved, l.seizure, to);
  }

  lemma {:induction false} NothingUnlisted(users: seq<User>, pools: map<Pubkey, Pool>, key: Pubkey)
    requires forall i :: 0 <= i < |users| ==> UserInv(users[i], pools)
    requires key !in pools
    ensures TotalLocked(users, key) == TotalHeld(users, key) == 0
  {
    if |users| == 0 {
    } else {
      NothingUnlisted(users[..|users| - 1], pools, key);
      assert UserInv(users[|users| - 1], pools);
    }
  }

  lemma AddReserveKeepsInv(s: State, key: Pubkey, config: ReserveConfig)
    requires Inv(s) && key !in s.pools && key != DEFAULT_PUBKEY && config.Validated()
    ensures Inv(WithPool(s, key, Pool(NewReserve(s.slot, config), 0, 0, 0, 0, 0)))
  {
    hide ObligationInv, Locked;
    var q := Pool(NewReserve(s.slot, config), 0, 0, 0, 0, 0);
    NothingUnlisted(s.users, s.pools, key);
    forall j | 0 <= j < |s.users| ensures UserInv(s.users[j], s.pools[key := q]) {
      IndexRises(s.users[j].obligation, s.pools, key, q);
    }
  }

  lemma InitObligationKeepsInv(s: State)
    requires Inv(s)
    ensures Inv(s.(users := s.users + [User(NewObligation(), map[], map[])]))
  {
    hide NewObligation, Wf, Locked, LoanOf, ReserveInv;
    var u := User(NewObligation(), map[], map[]);
    var users := s.users + [u];
    assert users[..|users| - 1] == s.users;
    NewObligationWf();
    forall k | k in s.pools ensures PoolInv(s.pools[k], users, k) {
      assert Locked(u.obligation.deposits, k) == 0;
    }
  }

  lemma NewObligationWf()
    ensures Wf(NewObligation())
    ensures forall k :: Locked(NewObligation().deposits, k) == 0 && LoanOf(NewObligation().borrows, k) == None
  {
    NoKeys(DepositKeys(NewObligation().deposits));
    NoKeys(BorrowKeys(NewObligation().borrows));
  }

  /** The instructions that change only settings, the clock or a user's outside tokens. */
  lemma SettingsKeepInv(s: State, ix: Instruction)
    requires Inv(s) && Exec(s, ix).Ok?
    requires ix.UpdateConfig? || ix.SetPaused? || ix.Fund? || ix.AdvanceSlot?
    ensures Inv(Exec(s, ix).value)
  {
    hide ObligationInv, Locked, DepositStep, WithdrawStep, DepositCollateralStep, WithdrawCollateralStep,
      BorrowStep, RepayStep, LiquidateStep, RefreshObligationStep, RefreshReserveStep, SendCTokensStep;
    match ix
    case UpdateConfig(k, config) => PoolPatchKeepsInv(s, k, Exec(s, ix).value.pools[k]);
    case Fund(u, _, _) => UserPatchKeepsInv(s, u, Exec(s, ix).value.users[u]);
    case _ =>
  }

  /** Whatever instruction is executed, by whomever, the invariant holds afterwards. */
  lemma ExecKeepsInv(s: State, ix: Instruction)
    requires Inv(s) && Exec(s, ix).Ok?
    ensures Inv(Exec(s, ix).value)
  {
    hide Inv, DepositStep, WithdrawStep, DepositCollateralStep, WithdrawCollateralStep, BorrowStep, RepayStep,
      LiquidateStep, RefreshObligationStep, RefreshReserveStep, SendCTokensStep;
    match ix
    case Deposit(u, k, a) => DepositKeepsInv(s, u, k, a);
    case Withdraw(u, k, a) => WithdrawKeepsInv(s, u, k, a);
    case DepositCollateral(u, k, a) => DepositCollateralKeepsInv(s, u, k, a);
    case WithdrawCollateral(u, k, a) => WithdrawCollateralKeepsInv(s, u, k, a);
    case Borrow(u, k, a, to) => BorrowKeepsInv(s, u, k, a, to);
    case Repay(u, k, a) => RepayKeepsInv(s, u, k, a);
    case Liquidate(l, u, k, w, a, to) => LiquidateKeepsInv(s, l, u, k, w, a, to);
    case RefreshObligation(u, accounts, now) => RefreshObligationKeepsInv(s, u, accounts, now);
    case RefreshReserve(k, update, now) => RefreshReserveKeepsInv(s, k, update, now);
    case AddReserve(k, config) => AddReserveKeepsInv(s, k, config);
    case InitObligation => InitObligationKeepsInv(s);
    case SendCTokens(u, to, k, a) => SendCTokensKeepsInv(s, u, to, k, a);
    case _ => SettingsKeepInv(s, ix);
  }
}
