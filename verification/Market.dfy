/** The whole program as a state machine: any number of users and reserves, one instruction at a time. */
module Market {
  import opened Numeric
  import opened ReserveModel
  import opened ObligationModel
  import opened PriceOracle
  import I = InstructionModel

  /** A reserve together with the token accounts and the mint that belong to it. `parked` and `parkedCTokens` are
   *  history that no account records: what loans and seizures have sent back into the two vaults they came from.
   */
  datatype Pool = Pool(
    reserve: ReserveData,
    liquidityVault: u64,
    collateralVault: u64,
    ctokenSupply: u64,
    parked: nat,
    parkedCTokens: nat)

  /** A user has one obligation and, for each reserve, a balance of its asset and of its cTokens. */
  datatype User = User(obligation: ObligationData, tokens: map<Pubkey, nat>, ctokens: map<Pubkey, nat>)

  datatype State = State(slot: u64, paused: bool, pools: map<Pubkey, Pool>, users: seq<User>)

  /** Where borrowed tokens or seized cTokens go. The program accepts any account of the right mint, so besides any
   *  user's it may be the vault they come from.
   */
  datatype Destination = ToUser(i: nat) | ToVault

  datatype Instruction =
    | Deposit(user: nat, reserve: Pubkey, amount: u64)
    | Withdraw(user: nat, reserve: Pubkey, amount: u64)
    | DepositCollateral(user: nat, reserve: Pubkey, amount: u64)
    | WithdrawCollateral(user: nat, reserve: Pubkey, amount: u64)
    | Borrow(user: nat, reserve: Pubkey, amount: u64, to: Destination)
    | Repay(user: nat, reserve: Pubkey, amount: u64)
    | Liquidate(liquidator: nat, user: nat, reserve: Pubkey, seizedReserve: Pubkey, amount: u64, to: Destination)
    | RefreshObligation(user: nat, accounts: set<Pubkey>, now: i64)
    | RefreshReserve(reserve: Pubkey, update: PriceUpdate, now: i64)
    | AddReserve(reserve: Pubkey, config: ReserveConfig)
    | UpdateConfig(reserve: Pubkey, config: ReserveConfig)
    | SetPaused(paused: bool)
    | InitObligation
    | Fund(user: nat, reserve: Pubkey, amount: u64)
    | SendCTokens(user: nat, receiver: nat, reserve: Pubkey, amount: u64)
    | AdvanceSlot(slots: u64)

  function Balance(m: map<Pubkey, nat>, key: Pubkey): nat {
    if key in m then m[key] else 0
  }

  /** Token balances stay within 64 bits. */
  function Credit(balance: nat, amount: u64): Result<u64> {
    if balance + amount <= U64_MAX then Ok(balance + amount) else Err(TokenTransfer)
  }

  function Debit(balance: nat, amount: u64): Result<nat> {
    if amount <= balance then Ok(balance - amount) else Err(TokenTransfer)
  }

  function CreditAt(m: map<Pubkey, nat>, key: Pubkey, amount: u64): Result<map<Pubkey, nat>> {
    var b :- Credit(Balance(m, key), amount);
    Ok(m[key := b])
  }

  function DebitAt(m: map<Pubkey, nat>, key: Pubkey, amount: u64): Result<map<Pubkey, nat>> {
    var b :- Debit(Balance(m, key), amount);
    Ok(m[key := b])
  }

  function Reserves(pools: map<Pubkey, Pool>): I.Reserves {
    map k | k in pools :: pools[k].reserve
  }

  /** The reserve accounts passed along with an instruction. */
  function Passed(pools: map<Pubkey, Pool>, accounts: set<Pubkey>): I.Reserves {
    map k | k in pools && k in accounts :: pools[k].reserve
  }

  function WithPool(s: State, key: Pubkey, pool: Pool): State {
    s.(pools := s.pools[key := pool])
  }

  function WithUser(s: State, user: nat, u: User): State
    requires user < |s.users|
  {
    s.(users := s.users[user := u])
  }

  predicate Exists(s: State, user: nat, key: Pubkey) {
    user < |s.users| && key in s.pools
  }

  function DepositStep(s: State, user: nat, key: Pubkey, amount: u64): Result<State>
    requires Exists(s, user, key)
  {
    var _ :- Require(!s.paused, InvalidConfig);
    var p, u := s.pools[key], s.users[user];
    var (reserve, minted) :- I.Deposit(p.reserve, amount, s.slot);
    var tokens :- DebitAt(u.tokens, key, amount);
    var vault :- Credit(p.liquidityVault, amount);
    var supply :- Credit(p.ctokenSupply, minted);
    var ctokens :- CreditAt(u.ctokens, key, minted);
    Ok(WithUser(WithPool(s, key, p.(reserve := reserve, liquidityVault := vault, ctokenSupply := supply)),
                user, u.(tokens := tokens, ctokens := ctokens)))
  }

  function WithdrawStep(s: State, user: nat, key: Pubkey, amount: u64): Result<State>
    requires Exists(s, user, key)
  {
    var _ :- Require(!s.paused, InvalidConfig);
    var p, u := s.pools[key], s.users[user];
    var (reserve, liquidity) :- I.Withdraw(p.reserve, amount, s.slot);
    var ctokens :- DebitAt(u.ctokens, key, amount);
    var supply :- Debit(p.ctokenSupply, amount);
    var vault :- Debit(p.liquidityVault, liquidity);
    var tokens :- CreditAt(u.tokens, key, liquidity);
    Ok(WithUser(WithPool(s, key, p.(reserve := reserve, liquidityVault := vault, ctokenSupply := supply)),
                user, u.(tokens := tokens, ctokens := ctokens)))
  }

  function DepositCollateralStep(s: State, user: nat, key: Pubkey, amount: u64): Result<State>
    requires Exists(s, user, key)
  {
    var _ :- Require(!s.paused, InvalidConfig);
    var p, u := s.pools[key], s.users[user];
    var obligation :- I.DepositCollateral(p.reserve, u.obligation, key, amount);
    var ctokens :- DebitAt(u.ctokens, key, amount);
    var vault :- Credit(p.collateralVault, amount);
    Ok(WithUser(WithPool(s, key, p.(collateralVault := vault)),
                user, u.(obligation := obligation, ctokens := ctokens)))
  }

  function WithdrawCollateralStep(s: State, user: nat, key: Pubkey, amount: u64): Result<State>
    requires Exists(s, user, key)
  {
    var _ :- Require(!s.paused, InvalidConfig);
    var p, u := s.pools[key], s.users[user];
    var obligation :- I.WithdrawCollateral(u.obligation, key, amount, s.slot);
    var vault :- Debit(p.collateralVault, amount);
    var ctokens :- CreditAt(u.ctokens, key, amount);
    Ok(WithUser(WithPool(s, key, p.(collateralVault := vault)),
                user, u.(obligation := obligation, ctokens := ctokens)))
  }

  predicate Receives(s: State, to: Destination) {
    to.ToUser? ==> to.i < |s.users|
  }

  /** Tokens leave the liquidity vault. A transfer of the vault to itself is carried out and moves nothing. */
  function PayOut(s: State, key: Pubkey, amount: u64, to: Destination): Result<State>
    requires key in s.pools && Receives(s, to)
  {
    var p := s.pools[key];
    var vault :- Debit(p.liquidityVault, amount);
    match to
    case ToVault => Ok(WithPool(s, key, p.(parked := p.parked + amount)))
    case ToUser(i) =>
      var tokens :- CreditAt(s.users[i].tokens, key, amount);
      Ok(WithUser(WithPool(s, key, p.(liquidityVault := vault)), i, s.users[i].(tokens := tokens)))
  }

  /** cTokens leave the collateral vault, likewise. */
  function HandOver(s: State, key: Pubkey, amount: u64, to: Destination): Result<State>
    requires key in s.pools && Receives(s, to)
  {
    var p := s.pools[key];
    var vault :- Debit(p.collateralVault, amount);
    match to
    case ToVault => Ok(WithPool(s, key, p.(parkedCTokens := p.parkedCTokens + amount)))
    case ToUser(i) =>
      var ctokens :- CreditAt(s.users[i].ctokens, key, amount);
      Ok(WithUser(WithPool(s, key, p.(collateralVault := vault)), i, s.users[i].(ctokens := ctokens)))
  }

  function BorrowStep(s: State, user: nat, key: Pubkey, amount: u64, to: Destination): Result<State>
    requires Exists(s, user, key) && Receives(s, to)
  {
    var _ :- Require(!s.paused, InvalidConfig);
    var p, u := s.pools[key], s.users[user];
    var (reserve, obligation) :- I.Borrow(p.reserve, u.obligation, key, amount, s.slot);
    PayOut(WithUser(WithPool(s, key, p.(reserve := reserve)), user, u.(obligation := obligation)), key, amount, to)
  }

  function RepayStep(s: State, user: nat, key: Pubkey, amount: u64): Result<State>
    requires Exists(s, user, key)
  {
    var p, u := s.pools[key], s.users[user];
    var (reserve, obligation) :- I.Repay(p.reserve, u.obligation, key, amount, s.slot);
    var tokens :- DebitAt(u.tokens, key, amount);
    var vault :- Credit(p.liquidityVault, amount);
    Ok(WithUser(WithPool(s, key, p.(reserve := reserve, liquidityVault := vault)),
                user, u.(obligation := obligation, tokens := tokens)))
  }

  /** A liquidation on accrued pools up to the repayment; the liquidator may be the borrower. */
  function RepayFor(s: State, liquidator: nat, user: nat, key: Pubkey, relieved: ReserveData,
                    seizure: I.Seizure): Result<State>
    requires Exists(s, user, key) && liquidator < |s.users|
  {
    var charged := WithUser(s, user, s.users[user].(obligation := seizure.obligation));
    var payer := charged.users[liquidator];
    var tokens :- DebitAt(payer.tokens, key, seizure.repaid);
    var vault :- Credit(s.pools[key].liquidityVault, seizure.repaid);
    Ok(WithUser(WithPool(charged, key, s.pools[key].(reserve := relieved, liquidityVault := vault)),
                liquidator, payer.(tokens := tokens)))
  }

  /** The repayment, then the seized cTokens. */
  function Settle(s: State, liquidator: nat, user: nat, key: Pubkey, seizedKey: Pubkey,
                  relieved: ReserveData, seizure: I.Seizure, to: Destination): Result<State>
    requires Exists(s, user, key) && Exists(s, liquidator, seizedKey) && Receives(s, to)
  {
    var paid :- RepayFor(s, liquidator, user, key, relieved, seizure);
    HandOver(paid, seizedKey, seizure.seized, to)
  }

  function WithReserve(s: State, key: Pubkey, reserve: ReserveData): State
    requires key in s.pools
  {
    WithPool(s, key, s.pools[key].(reserve := reserve))
  }

  function LiquidateStep(s: State, liquidator: nat, user: nat, key: Pubkey, seizedKey: Pubkey, amount: u64,
                         to: Destination): Result<State>
    requires Exists(s, user, key) && Exists(s, liquidator, seizedKey) && Receives(s, to)
  {
    var _ :- Require(!s.paused, InvalidConfig);
    var l :- I.Liquidate(Reserves(s.pools), s.users[user].obligation, key, seizedKey, amount, s.slot);
    var accrued := WithReserve(WithReserve(s, key, l.repay), seizedKey, l.withdraw);
    Settle(accrued, liquidator, user, key, seizedKey, l.relieved, l.seizure, to)
  }

  function RefreshObligationStep(s: State, user: nat, accounts: set<Pubkey>, now: i64): Result<State>
    requires user < |s.users|
  {
    var u := s.users[user];
    var obligation :- I.RefreshObligation(u.obligation, Passed(s.pools, accounts), s.slot);
    Ok(WithUser(s, user, u.(obligation := obligation.(lastUpdateTime := now))))
  }

  function RefreshReserveStep(s: State, key: Pubkey, update: PriceUpdate, now: i64): Result<State>
    requires key in s.pools
  {
    var reserve :- I.RefreshReserve(s.pools[key].reserve, update, s.slot, now);
    Ok(WithReserve(s, key, reserve))
  }

  /** Tokens that reach a user from outside the program. */
  function FundStep(s: State, user: nat, key: Pubkey, amount: u64): Result<State>
    requires user < |s.users|
  {
    var tokens :- CreditAt(s.users[user].tokens, key, amount);
    Ok(WithUser(s, user, s.users[user].(tokens := tokens)))
  }

  function SendCTokensStep(s: State, user: nat, to: nat, key: Pubkey, amount: u64): Result<State>
    requires user < |s.users| && to < |s.users|
  {
    var reduced :- DebitAt(s.users[user].ctokens, key, amount);
    var sent := WithUser(s, user, s.users[user].(ctokens := reduced));
    var raised :- CreditAt(sent.users[to].ctokens, key, amount);
    Ok(WithUser(sent, to, sent.users[to].(ctokens := raised)))
  }

  /** One instruction: the next state, or the error with which it is refused. */
  function Exec(s: State, ix: Instruction): Result<State> {
    match ix
    case Deposit(u, k, a) => if Exists(s, u, k) then DepositStep(s, u, k, a) else Err(AccountMissing)
    case Withdraw(u, k, a) => if Exists(s, u, k) then WithdrawStep(s, u, k, a) else Err(AccountMissing)
    case DepositCollateral(u, k, a) =>
      if Exists(s, u, k) then DepositCollateralStep(s, u, k, a) else Err(AccountMissing)
    case WithdrawCollateral(u, k, a) => if Exists(s, u, k) then WithdrawCollateralStep(s, u, k, a)
      else Err(AccountMissing)
    case Borrow(u, k, a, to) =>
      if Exists(s, u, k) && Receives(s, to) then BorrowStep(s, u, k, a, to) else Err(AccountMissing)
    case Repay(u, k, a) => if Exists(s, u, k) then RepayStep(s, u, k, a) else Err(AccountMissing)
    case Liquidate(l, u, k, w, a, to) =>
      if Exists(s, u, k) && Exists(s, l, w) && Receives(s, to) then LiquidateStep(s, l, u, k, w, a, to)
      else Err(AccountMissing)
    case RefreshObligation(u, accounts, now) =>
      if u < |s.users| then RefreshObligationStep(s, u, accounts, now) else Err(AccountMissing)
    case RefreshReserve(k, update, now) => if k in s.pools then RefreshReserveStep(s, k, update, now)
      else Err(AccountMissing)
    case AddReserve(k, config) =>
      if s.paused then Err(InvalidConfig)
      else if k in s.pools || k == DEFAULT_PUBKEY then Err(AccountMissing)
      else if !config.Validated() then Err(InvalidConfig)
      else Ok(WithPool(s, k, Pool(NewReserve(s.slot, config), 0, 0, 0, 0, 0)))
    case UpdateConfig(k, config) =>
      if k !in s.pools then Err(AccountMissing)
      else if !config.Validated() then Err(InvalidConfig)
      else Ok(WithReserve(s, k, s.pools[k].reserve.(config := config)))
    case SetPaused(paused) => Ok(s.(paused := paused))
    case InitObligation => Ok(s.(users := s.users + [User(NewObligation(), map[], map[])]))
    case Fund(u, k, a) =>
      if u < |s.users| then FundStep(s, u, k, a) else Err(AccountMissing)
    case SendCTokens(u, to, k, a) =>
      if u < |s.users| && to < |s.users| then SendCTokensStep(s, u, to, k, a) else Err(AccountMissing)
    case AdvanceSlot(n) => if s.slot + n <= U64_MAX then Ok(s.(slot := s.slot + n)) else Err(Panic)
  }

  /** A refused instruction leaves no trace. */
  function Step(s: State, ix: Instruction): State {
    Exec(s, ix).GetOr(s)
  }

  function Run(s: State, ixs: seq<Instruction>): State {
    if |ixs| == 0 then s else Step(Run(s, ixs[..|ixs| - 1]), ixs[|ixs| - 1])
  }

  const GENESIS := State(0, false, map[], [])
}
