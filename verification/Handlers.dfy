/** The instruction handlers as they run: on accounts updated in place, in the order of the program.
 *
 *  Each is proved to do exactly what the state machine's step does, error for error. After an error the runtime
 *  discards every change, so nothing is said about the accounts then.
 */
module Handlers {
  import opened Numeric
  import opened ReserveModel
  import opened ObligationModel
  import opened ReserveAccount
  import opened ObligationAccount
  import opened PriceOracle
  import Arithmetic
  import Market
  import Health
  import I = InstructionModel

  // ---- Token program --------------------------------------------------------------------------

  class TokenAccount {
    var amount: u64

    constructor ()
      ensures amount == 0
    {
      amount := 0;
    }
  }

  class TokenMint {
    var supply: u64

    constructor ()
      ensures supply == 0
    {
      supply := 0;
    }
  }

  /** A transfer of an account to itself is carried out, needs the balance, and moves nothing. */
  method Transfer(source: TokenAccount, target: TokenAccount, amount: u64) returns (r: Result<()>)
    modifies source, target
    ensures r == Require(amount <= old(source.amount) && (source != target ==> old(target.amount) + amount <= U64_MAX),
      TokenTransfer)
    ensures source != target ==> source.amount == old(source.amount) - if r.Ok? then amount else 0
    ensures source != target ==> target.amount == old(target.amount) + if r.Ok? then amount else 0
    ensures source == target ==> source.amount == old(source.amount)
  {
    var _ :- Require(amount <= source.amount, TokenTransfer);
    if source == target {
      return Ok(());
    }
    var _ :- Require(target.amount + amount <= U64_MAX, TokenTransfer);
    source.amount := source.amount - amount;
    target.amount := target.amount + amount;
    return Ok(());
  }

  method MintTo(mint: TokenMint, target: TokenAccount, amount: u64) returns (r: Result<()>)
    modifies mint, target
    ensures r == Require(old(mint.supply) + amount <= U64_MAX && old(target.amount) + amount <= U64_MAX, TokenTransfer)
    ensures mint.supply == old(mint.supply) + if r.Ok? then amount else 0
    ensures target.amount == old(target.amount) + if r.Ok? then amount else 0
  {
    var _ :- Require(mint.supply + amount <= U64_MAX && target.amount + amount <= U64_MAX, TokenTransfer);
    mint.supply := mint.supply + amount;
    target.amount := target.amount + amount;
    return Ok(());
  }

  method BurnFrom(mint: TokenMint, source: TokenAccount, amount: u64) returns (r: Result<()>)
    modifies mint, source
    ensures r == Require(amount <= old(mint.supply) && amount <= old(source.amount), TokenTransfer)
    ensures mint.supply == old(mint.supply) - if r.Ok? then amount else 0
    ensures source.amount == old(source.amount) - if r.Ok? then amount else 0
  {
    var _ :- Require(amount <= mint.supply && amount <= source.amount, TokenTransfer);
    mint.supply := mint.supply - amount;
    source.amount := source.amount - amount;
    return Ok(());
  }

  // ---- Accounts and the state they hold -------------------------------------------------------

  /** A reserve with the accounts derived from its address. */
  datatype PoolAccounts = PoolAccounts(
    reserve: Reserve,
    liquidityVault: TokenAccount,
    collateralVault: TokenAccount,
    mint: TokenMint)
  {
    ghost predicate Holds(s: Market.State)
      reads reserve, liquidityVault, collateralVault, mint
    {
      && reserve.key in s.pools
      && var p := s.pools[reserve.key];
      && p.reserve == reserve.Data() && p.liquidityVault == liquidityVault.amount
      && p.collateralVault == collateralVault.amount && p.ctokenSupply == mint.supply
    }
  }

  /** A user's obligation and token accounts for one reserve's asset and its cTokens. */
  datatype UserAccounts = UserAccounts(obligation: Obligation, tokens: TokenAccount, ctokens: TokenAccount) {
    ghost predicate Holds(s: Market.State, user: nat, key: Pubkey)
      reads obligation, obligation.deposits, obligation.borrows, tokens, ctokens
    {
      && user < |s.users| && obligation.Valid()
      && s.users[user].obligation == obligation.Data()
      && Market.Balance(s.users[user].tokens, key) == tokens.amount
      && Market.Balance(s.users[user].ctokens, key) == ctokens.amount
    }
  }

  /** No account of which the user is the authority is a vault, and assets are not cTokens. */
  predicate Apart(pool: PoolAccounts, user: UserAccounts) {
    && pool.liquidityVault != pool.collateralVault
    && user.tokens != user.ctokens
    && user.tokens != pool.liquidityVault && user.tokens != pool.collateralVault
    && user.ctokens != pool.liquidityVault && user.ctokens != pool.collateralVault
  }

  /** The accounts hold the state `s` as user `user` acting on this pool sees it. */
  ghost predicate Holds(s: Market.State, user: nat, pool: PoolAccounts, accounts: UserAccounts)
    reads pool.reserve, pool.liquidityVault, pool.collateralVault, pool.mint
    reads accounts.obligation, accounts.obligation.deposits, accounts.obligation.borrows,
      accounts.tokens, accounts.ctokens
  {
    Apart(pool, accounts) && pool.Holds(s) && accounts.Holds(s, user, pool.reserve.key)
  }

  /** The handler ends as the step does: in accounts that hold its state, or with its error. */
  ghost predicate Simulates(r: Result<()>, step: Result<Market.State>, user: nat, pool: PoolAccounts,
                            accounts: UserAccounts)
    reads pool.reserve, pool.liquidityVault, pool.collateralVault, pool.mint
    reads accounts.obligation, accounts.obligation.deposits, accounts.obligation.borrows,
      accounts.tokens, accounts.ctokens
  {
    match r
    case Ok(_) => step.Ok? && Holds(step.value, user, pool, accounts)
    case Err(e) => step == Err(e)
  }

  // ---- Listing and configuring reserves -------------------------------------------------------

  /** `key` is the address of the account that the runtime has just created. */
  method AddReserve(key: Pubkey, config: ReserveConfig, paused: bool, slot: u64, ghost s: Market.State)
    returns (r: Result<PoolAccounts>)
    requires s.paused == paused && s.slot == slot && key !in s.pools && key != DEFAULT_PUBKEY
    ensures var step := Market.Exec(s, Market.AddReserve(key, config));
      match r
      case Ok(pool) =>
        && fresh(pool.reserve) && fresh(pool.liquidityVault) && fresh(pool.collateralVault) && fresh(pool.mint)
        && pool.liquidityVault != pool.collateralVault
        && pool.reserve.key == key && pool.reserve.lastUpdateSlot == slot
        && step.Ok? && pool.Holds(step.value)
      case Err(e) => step == Err(e)
  {
    var _ :- Require(!paused, InvalidConfig);
    var reserve := new Reserve(key, slot);
    var liquidityVault := new TokenAccount();
    var collateralVault := new TokenAccount();
    var mint := new TokenMint();
    var _ :- reserve.Configure(config);
    return Ok(PoolAccounts(reserve, liquidityVault, collateralVault, mint));
  }

  method UpdateReserveConfig(pool: PoolAccounts, config: ReserveConfig, ghost s: Market.State) returns (r: Result<()>)
    requires pool.Holds(s)
    modifies pool.reserve
    ensures var step := Market.Exec(s, Market.UpdateConfig(pool.reserve.key, config));
      match r
      case Ok(_) => step.Ok? && pool.Holds(step.value)
      case Err(e) => step == Err(e)
  {
    var _ :- pool.reserve.Configure(config);
    return Ok(());
  }

  // ---- Pool instructions ----------------------------------------------------------------------

  method Deposit(pool: PoolAccounts, accounts: UserAccounts, paused: bool, amount: u64, slot: u64,
                 ghost s: Market.State, ghost user: nat) returns (r: Result<()>)
    requires Holds(s, user, pool, accounts) && s.paused == paused && s.slot == slot
    modifies pool.reserve, pool.liquidityVault, pool.mint, accounts.tokens, accounts.ctokens
    ensures Simulates(r, Market.DepositStep(s, user, pool.reserve.key, amount), user, pool, accounts)
  {
    hide ReserveData.Accrue, ReserveData.DepositLiquidity;
    var _ :- Require(!paused, InvalidConfig);
    var _ :- Require(amount > 0, InvalidAmount);
    var _ :- Require(pool.reserve.config.IsActive(), InvalidConfig);
    var _ :- pool.reserve.AccrueInterest(slot);
    var collateralAmount :- pool.reserve.DepositLiquidity(amount);
    var _ :- Transfer(accounts.tokens, pool.liquidityVault, amount);
    var _ :- MintTo(pool.mint, accounts.ctokens, collateralAmount);
    return Ok(());
  }

  method Withdraw(pool: PoolAccounts, accounts: UserAccounts, paused: bool, amount: u64, slot: u64,
                  ghost s: Market.State, ghost user: nat) returns (r: Result<()>)
    requires Holds(s, user, pool, accounts) && s.paused == paused && s.slot == slot
    modifies pool.reserve, pool.liquidityVault, pool.mint, accounts.tokens, accounts.ctokens
    ensures Simulates(r, Market.WithdrawStep(s, user, pool.reserve.key, amount), user, pool, accounts)
  {
    hide ReserveData.Accrue, ReserveData.RedeemCollateral;
    var _ :- Require(!paused, InvalidConfig);
    var _ :- Require(amount > 0, InvalidAmount);
    var _ :- Require(pool.reserve.config.IsActive(), InvalidConfig);
    var _ :- pool.reserve.AccrueInterest(slot);
    var liquidityAmount :- pool.reserve.RedeemCollateral(amount);
    var _ :- BurnFrom(pool.mint, accounts.ctokens, amount);
    var _ :- Transfer(pool.liquidityVault, accounts.tokens, liquidityAmount);
    return Ok(());
  }

  // ---- Collateral instructions ----------------------------------------------------------------

  method DepositCollateral(pool: PoolAccounts, accounts: UserAccounts, paused: bool, amount: u64,
                           ghost s: Market.State, ghost user: nat) returns (r: Result<()>)
    requires Holds(s, user, pool, accounts) && s.paused == paused
    modifies pool.collateralVault, accounts.obligation, accounts.obligation.deposits, accounts.ctokens
    ensures Simulates(r, Market.DepositCollateralStep(s, user, pool.reserve.key, amount), user, pool, accounts)
  {
    hide ObligationData.Deposit;
    var _ :- Require(!paused, InvalidConfig);
    var _ :- Require(amount > 0, InvalidAmount);
    var _ :- Require(pool.reserve.config.IsActive(), InvalidConfig);
    var _ :- accounts.obligation.Deposit(pool.reserve.key, amount);
    var _ :- Transfer(accounts.ctokens, pool.collateralVault, amount);
    return Ok(());
  }

  /** The obligation's part of a collateral withdrawal: cut the cached value, withdraw, then test the health. */
  method ReleaseCollateral(o: Obligation, key: Pubkey, amount: u64, slot: u64) returns (r: Result<()>)
    requires o.Valid()
    modifies o, o.deposits
    ensures ObligationAccount.Matches(r, I.WithdrawCollateral(old(o.Data()), key, amount, slot), o.Data())
  {
    hide ObligationData.Withdraw, ObligationData.HealthFactor;
    var _ :- Require(amount > 0, InvalidAmount);
    var _ :- Require(slot == o.lastUpdateSlot, ObligationStale);
    var i :- o.FindDeposit(key);
    var before := o.deposits[i].amount;
    var _ :- Require(amount <= before, InsufficientCollateral);
    var newValue :- MulDiv(o.deposits[i].value, before - amount, if before > 1 then before else 1);
    o.deposits[i] := o.deposits[i].(value := newValue);
    assert o.deposits[..] == old(o.deposits[..])[i := o.deposits[i]];
    var _ :- o.Withdraw(key, amount);
    var factor :- o.HealthFactor();
    var _ :- Require(factor.None? || factor.value >= RATE_SCALE, UnhealthyObligation);
    return Ok(());
  }

  method WithdrawCollateral(pool: PoolAccounts, accounts: UserAccounts, paused: bool, amount: u64, slot: u64,
                            ghost s: Market.State, ghost user: nat) returns (r: Result<()>)
    requires Holds(s, user, pool, accounts) && s.paused == paused && s.slot == slot
    modifies pool.collateralVault, accounts.obligation, accounts.obligation.deposits, accounts.ctokens
    ensures Simulates(r, Market.WithdrawCollateralStep(s, user, pool.reserve.key, amount), user, pool, accounts)
  {
    hide I.WithdrawCollateral;
    var _ :- Require(!paused, InvalidConfig);
    var _ :- ReleaseCollateral(accounts.obligation, pool.reserve.key, amount, slot);
    var _ :- Transfer(pool.collateralVault, accounts.ctokens, amount);
    return Ok(());
  }

  // ---- Loan instructions ----------------------------------------------------------------------

  /** The cached value of the active deposits among the first `count`; summing aborts when it leaves 128 bits. */
  method CollateralValue(o: Obligation) returns (r: Result<u128>)
    requires o.Valid()
    ensures r == if o.depositsCount <= MAX_SLOTS then CheckedSum(DepositValues(o.deposits[..])[..o.depositsCount])
      else Err(Panic)
  {
    var _ :- Require(o.depositsCount <= MAX_SLOTS, Panic);
    ghost var values := DepositValues(o.deposits[..]);
    var total: u128 := 0;
    for i := 0 to o.depositsCount
      invariant total == Sum(values[..i])
    {
      assert values[..i + 1][..i] == values[..i];
      if o.deposits[i].IsActive() {
        if total + o.deposits[i].value > U128_MAX {
          assert values[..o.depositsCount][..i + 1] == values[..i + 1];
          Health.SumPrefix(values[..o.depositsCount], i + 1);
          return Err(Panic);
        }
        total := total + o.deposits[i].value;
      }
    }
    return Ok(total);
  }

  /** The same for the active loans. */
  method DebtValue(o: Obligation) returns (r: Result<u128>)
    requires o.Valid()
    ensures r == if o.borrowsCount <= MAX_SLOTS then CheckedSum(BorrowValues(o.borrows[..])[..o.borrowsCount])
      else Err(Panic)
  {
    var _ :- Require(o.borrowsCount <= MAX_SLOTS, Panic);
    ghost var values := BorrowValues(o.borrows[..]);
    var total: u128 := 0;
    for i := 0 to o.borrowsCount
      invariant total == Sum(values[..i])
    {
      assert values[..i + 1][..i] == values[..i];
      if o.borrows[i].IsActive() {
        if total + o.borrows[i].value > U128_MAX {
          assert values[..o.borrowsCount][..i + 1] == values[..i + 1];
          Health.SumPrefix(values[..o.borrowsCount], i + 1);
          return Err(Panic);
        }
        total := total + o.borrows[i].value;
      }
    }
    return Ok(total);
  }

  /** The inline health check of `borrow`. */
  method CheckBorrow(o: Obligation, amount: u64, price: u128) returns (r: Result<(u128, u128)>)
    requires o.Valid()
    ensures r == I.CheckBorrow(o.Data(), amount, price)
  {
    var collateral :- CollateralValue(o);
    var existing :- DebtValue(o);
    var added :- Mul128(amount, price);
    var total :- Add128(existing, added);
    var _ :- Require(collateral >= total, UnhealthyObligation);
    return Ok((collateral, total));
  }

  /** The obligation's part of a borrow. */
  method TakeLoan(o: Obligation, key: Pubkey, amount: u64, index: u128) returns (r: Result<()>)
    requires o.Valid()
    modifies o, o.borrows
    ensures o.deposits[..] == old(o.deposits[..])
    ensures match I.CatchUp(old(o.Data()), key, index)
            case Err(e) => r == Err(e)
            case Ok(current) => ObligationAccount.Matches(r, current.Borrow(key, amount, index), o.Data())
  {
    hide ObligationData.Borrow, ObligationData.AccrueInterest;
    var found := o.FindBorrow(key);
    if found.Ok? {
      var _ :- o.AccrueInterest(found.value, index);
    }
    r := o.Borrow(key, amount, index);
  }

  /** The tokens of a loan may go to any account of the asset: a user's, or the very vault they come from. */
  ghost predicate Lands(s: Market.State, pool: PoolAccounts, account: TokenAccount, to: Market.Destination)
    reads pool.reserve, account
  {
    && Market.Receives(s, to) && account != pool.collateralVault
    && (to.ToVault? <==> account == pool.liquidityVault)
    && (to.ToUser? ==> Market.Balance(s.users[to.i].tokens, pool.reserve.key) == account.amount)
  }

  /** The accounts of a borrow hold the state: the pool, the borrower's obligation and where the tokens go. */
  ghost predicate LoanHolds(s: Market.State, user: nat, pool: PoolAccounts, o: Obligation, account: TokenAccount,
                            to: Market.Destination)
    reads pool.reserve, pool.liquidityVault, pool.collateralVault, pool.mint, o, o.deposits, o.borrows, account
  {
    && pool.liquidityVault != pool.collateralVault && pool.Holds(s)
    && user < |s.users| && o.Valid() && s.users[user].obligation == o.Data()
    && Lands(s, pool, account, to)
  }

  /** What a borrow step leaves in the accounts that take part, and when it is refused for lack of tokens. */
  lemma BorrowStepIs(s: Market.State, user: nat, key: Pubkey, amount: u64, to: Market.Destination)
    requires Market.Exists(s, user, key) && Market.Receives(s, to) && !s.paused
    ensures var lent := I.Borrow(s.pools[key].reserve, s.users[user].obligation, key, amount, s.slot);
      var step, p := Market.BorrowStep(s, user, key, amount, to), s.pools[key];
      && (lent.Err? ==> step == Err(lent.error))
      && (lent.Ok? ==>
            && (step.Ok? <==>
                  && amount <= p.liquidityVault
                  && (to.ToUser? ==> Market.Balance(s.users[to.i].tokens, key) + amount <= U64_MAX))
            && (step.Err? ==> step.error == TokenTransfer))
      && (step.Ok? ==>
            && var t := step.value;
            && |t.users| == |s.users| && key in t.pools && lent.Ok?
            && t.users[user].obligation == lent.value.1 && t.pools[key].reserve == lent.value.0
            && t.pools[key].liquidityVault == p.liquidityVault - (if to.ToUser? then amount else 0)
            && t.pools[key].collateralVault == p.collateralVault && t.pools[key].ctokenSupply == p.ctokenSupply
            && (to.ToUser? ==>
                  Market.Balance(t.users[to.i].tokens, key) == Market.Balance(s.users[to.i].tokens, key) + amount))
  {
    hide I.Borrow;
  }

  /** Everything a borrow does before tokens move. */
  method TakeOut(reserve: Reserve, o: Obligation, amount: u64, slot: u64) returns (r: Result<()>)
    requires o.Valid()
    modifies reserve, o, o.borrows
    ensures var expected := I.Borrow(old(reserve.Data()), old(o.Data()), reserve.key, amount, slot);
      match r
      case Ok(_) => expected == Ok((reserve.Data(), o.Data()))
      case Err(e) => expected == Err(e)
  {
    hide ReserveData.Accrue, ReserveData.Borrow, ObligationData.Borrow, I.CatchUp, I.CheckBorrow;
    var _ :- Require(amount > 0, InvalidAmount);
    var _ :- Require(reserve.config.IsActive(), InvalidConfig);
    var _ :- Require(reserve.marketPrice > 0, PriceNotValid);
    var _ :- reserve.AccrueInterest(slot);
    var _ :- reserve.Borrow(amount);
    var _ :- Require(slot == o.lastUpdateSlot, ObligationStale);
    var _ :- TakeLoan(o, reserve.key, amount, reserve.cumulativeBorrowRate);
    var _ :- CheckBorrow(o, amount, reserve.marketPrice);
    return Ok(());
  }

  method Borrow(pool: PoolAccounts, o: Obligation, destination: TokenAccount, paused: bool, amount: u64, slot: u64,
                ghost s: Market.State, ghost user: nat, ghost to: Market.Destination) returns (r: Result<()>)
    requires LoanHolds(s, user, pool, o, destination, to) && s.paused == paused && s.slot == slot
    modifies pool.reserve, pool.liquidityVault, o, o.borrows, destination
    ensures var step := Market.BorrowStep(s, user, pool.reserve.key, amount, to);
      match r
      case Ok(_) => step.Ok? && LoanHolds(step.value, user, pool, o, destination, to)
      case Err(e) => step == Err(e)
  {
    hide Market.BorrowStep, Market.Balance, I.Borrow, Reserve.Data, Obligation.Data, Obligation.Valid;
    if paused {
      PausedBorrow(s, user, pool.reserve.key, amount, to);
      return Err(InvalidConfig);
    }
    BorrowStepIs(s, user, pool.reserve.key, amount, to);
    var _ :- TakeOut(pool.reserve, o, amount, slot);
    r := Transfer(pool.liquidityVault, destination, amount);
  }

  lemma PausedBorrow(s: Market.State, user: nat, key: Pubkey, amount: u64, to: Market.Destination)
    requires Market.Exists(s, user, key) && Market.Receives(s, to) && s.paused
    ensures Market.BorrowStep(s, user, key, amount, to) == Err(InvalidConfig)
  {
    hide I.Borrow;
  }

  method Repay(pool: PoolAccounts, accounts: UserAccounts, amount: u64, slot: u64,
               ghost s: Market.State, ghost user: nat) returns (r: Result<()>)
    requires Holds(s, user, pool, accounts) && s.slot == slot
    modifies pool.reserve, pool.liquidityVault, accounts.obligation, accounts.obligation.borrows, accounts.tokens
    ensures Simulates(r, Market.RepayStep(s, user, pool.reserve.key, amount), user, pool, accounts)
  {
    hide ReserveData.Accrue, ReserveData.Repay, ObligationData.Repay, ObligationData.AccrueInterest;
    var reserve, o := pool.reserve, accounts.obligation;
    var _ :- Require(amount > 0, InvalidAmount);
    var _ :- Require(reserve.config.IsActive(), InvalidConfig);
    var _ :- reserve.AccrueInterest(slot);
    var index := reserve.cumulativeBorrowRate;
    var _ :- reserve.Repay(amount);
    var i :- o.FindBorrow(reserve.key);
    var _ :- o.AccrueInterest(i, index);
    var _ :- o.Repay(reserve.key, amount);
    var _ :- Transfer(accounts.tokens, pool.liquidityVault, amount);
    return Ok(());
  }

  // ---- Liquidation ----------------------------------------------------------------------------

  /** The accounts of a liquidation hold the state: both pools, which may be one, the borrower's obligation, the
   *  liquidator's account for the repaid asset, and the account that receives the seized cTokens: a user's, or the very
   *  vault they are locked in.
   */
  ghost predicate LiquidationHolds(s: Market.State, liquidator: nat, user: nat, repay: PoolAccounts,
                                   seized: PoolAccounts, o: Obligation, tokens: TokenAccount, ctokens: TokenAccount,
                                   to: Market.Destination)
    reads repay.reserve, repay.liquidityVault, repay.collateralVault, repay.mint
    reads seized.reserve, seized.liquidityVault, seized.collateralVault, seized.mint
    reads o, o.deposits, o.borrows, tokens, ctokens
  {
    && AllApart(repay, seized, tokens, ctokens)
    && repay.Holds(s) && seized.Holds(s)
    && liquidator < |s.users| && user < |s.users| && o.Valid() && s.users[user].obligation == o.Data()
    && Market.Balance(s.users[liquidator].tokens, repay.reserve.key) == tokens.amount
    && Market.Receives(s, to) && (to.ToVault? <==> ctokens == seized.collateralVault)
    && (to.ToUser? ==> Market.Balance(s.users[to.i].ctokens, seized.reserve.key) == ctokens.amount)
  }

  predicate AllApart(repay: PoolAccounts, seized: PoolAccounts, tokens: TokenAccount, ctokens: TokenAccount) {
    && repay.liquidityVault != repay.collateralVault && seized.liquidityVault != seized.collateralVault
    && tokens != ctokens && tokens != repay.liquidityVault && tokens != repay.collateralVault
    && tokens != seized.liquidityVault && tokens != seized.collateralVault
    && ctokens != repay.liquidityVault && ctokens != seized.liquidityVault
    && (repay.reserve.key == seized.reserve.key ==> repay == seized)
    && (repay.reserve.key != seized.reserve.key ==>
          && repay.reserve != seized.reserve && repay.mint != seized.mint && ctokens != repay.collateralVault
          && repay.liquidityVault != seized.liquidityVault && repay.liquidityVault != seized.collateralVault
          && repay.collateralVault != seized.liquidityVault && repay.collateralVault != seized.collateralVault)
  }

  method Prepare(reserve: Reserve, slot: u64) returns (r: Result<()>)
    modifies reserve
    ensures ReserveAccount.Matches(r, I.Prepare(old(reserve.Data()), slot), reserve.Data())
  {
    hide ReserveData.Accrue;
    var _ :- Require(reserve.config.IsActive(), InvalidConfig);
    var _ :- reserve.AccrueInterest(slot);
    var _ :- Require(reserve.marketPrice > 0, PriceNotValid);
    return Ok(());
  }

  /** cTokens for `repaid` tokens and the bonus: four roundings down in a row. */
  method CTokensFor(repaid: u64, repayPrice: u128, withdraw: ReserveData, supply: u128) returns (r: Result<u128>)
    ensures r == I.SeizableCTokens(repaid, repayPrice, withdraw, supply)
  {
    var repayValue :- Mul128(repaid, repayPrice);
    var bonusValue :- MulDiv(repayValue, BPS_SCALER + withdraw.config.liquidationBonus, BPS_SCALER);
    var underlying :- Div128(bonusValue, withdraw.price);
    if withdraw.ctokens == 0 || supply == 0 {
      return Ok(underlying);
    }
    r := MulDiv(underlying, withdraw.ctokens, supply);
  }

  /** The obligation's part of a liquidation, given what was read from both accrued reserves. */
  method Seize(o: Obligation, repayKey: Pubkey, seizedKey: Pubkey, repay: ReserveData, withdraw: ReserveData,
               supply: u128, amount: u64, slot: u64) returns (r: Result<(u64, u64)>)
    requires o.Valid() && withdraw.TotalSupply() == Ok(supply)
    modifies o, o.deposits, o.borrows
    ensures match r
            case Ok((repaid, seized)) =>
              I.Seize(repay, withdraw, old(o.Data()), repayKey, seizedKey, amount, slot)
                == Ok(I.Seizure(o.Data(), repaid, seized))
            case Err(e) => I.Seize(repay, withdraw, old(o.Data()), repayKey, seizedKey, amount, slot) == Err(e)
  {
    hide ReserveData.TotalSupply, ObligationData.IsHealthy, ObligationData.Repay, ObligationData.Withdraw,
      I.SeizableCTokens;
    var _ :- Require(slot == o.lastUpdateSlot, ObligationStale);
    var healthy :- o.IsHealthy();
    var _ :- Require(!healthy, ObligationHealthy);
    var borrowIndex :- o.FindBorrow(repayKey);
    var _ :- o.AccrueInterest(borrowIndex, repay.index);
    var rawDebt := o.borrows[borrowIndex].debt / RATE_SCALE;
    var maxRepay := rawDebt * MAX_LIQUIDATION_CLOSE_FACTOR_PCT / 100 % U64_MODULUS;
    var actualRepay: u64 := if amount <= maxRepay then amount else maxRepay;
    var _ :- Require(actualRepay > 0, InvalidAmount);
    var ctokens :- CTokensFor(actualRepay, repay.price, withdraw, supply);
    var depositIndex :- o.FindDeposit(seizedKey);
    var deposited := o.deposits[depositIndex].amount;
    var seized: u64 := if ctokens <= deposited then ctokens else deposited;
    var _ :- Require(seized > 0, InvalidAmount);
    var _ :- o.Repay(repayKey, actualRepay);
    var _ :- o.Withdraw(seizedKey, seized);
    return Ok((actualRepay, seized));
  }

  /** Everything a liquidation does before tokens move. Both reserves may be the same account. */
  method Relieve(repay: Reserve, seized: Reserve, o: Obligation, amount: u64, slot: u64, ghost reserves: I.Reserves)
    returns (r: Result<(u64, u64)>)
    requires o.Valid() && (repay.key == seized.key <==> repay == seized)
    requires repay.key in reserves && seized.key in reserves
    requires reserves[repay.key] == repay.Data() && reserves[seized.key] == seized.Data()
    modifies repay, seized, o, o.deposits, o.borrows
    ensures var expected := I.Liquidate(reserves, old(o.Data()), repay.key, seized.key, amount, slot);
      match r
      case Ok((repaid, taken)) =>
        && expected.Ok?
        && expected.value.seizure == I.Seizure(o.Data(), repaid, taken)
        && repay.Data() == expected.value.relieved
        && (repay != seized ==> seized.Data() == expected.value.withdraw)
      case Err(e) => expected == Err(e)
  {
    hide I.Prepare, I.Seize, ReserveData.Repay, ReserveData.TotalSupply;
    var _ :- Require(amount > 0, InvalidAmount);
    var _ :- Prepare(repay, slot);
    var repayData := repay.Data();
    var _ :- Prepare(seized, slot);
    var seizedData := seized.Data();
    NoSupplyNoSeizure(repayData, seizedData, o.Data(), repay.key, seized.key, amount, slot);
    var supply :- seizedData.TotalSupply();
    var amounts :- Seize(o, repay.key, seized.key, repayData, seizedData, supply, amount, slot);
    var _ :- repay.Repay(amounts.0);
    return Ok(amounts);
  }

  lemma NoSupplyNoSeizure(repay: ReserveData, withdraw: ReserveData, o: ObligationData,
                          key: Pubkey, seizedKey: Pubkey, amount: u64, slot: u64)
    ensures withdraw.TotalSupply().Err? ==>
      I.Seize(repay, withdraw, o, key, seizedKey, amount, slot) == Err(withdraw.TotalSupply().error)
  {
  }

  /** When an unpaused liquidation step is refused for lack of tokens. */
  lemma LiquidateStepIff(s: Market.State, liquidator: nat, user: nat, key: Pubkey, seizedKey: Pubkey, amount: u64,
                         to: Market.Destination)
    requires Market.Exists(s, user, key) && Market.Exists(s, liquidator, seizedKey) && Market.Receives(s, to)
      && !s.paused
    requires I.Liquidate(Market.Reserves(s.pools), s.users[user].obligation, key, seizedKey, amount, s.slot).Ok?
    ensures var l := I.Liquidate(Market.Reserves(s.pools), s.users[user].obligation, key,
      seizedKey, amount, s.slot).value;
      var step := Market.LiquidateStep(s, liquidator, user, key, seizedKey, amount, to);
      var (repaid, taken) := (l.seizure.repaid, l.seizure.seized);
      && (step.Ok? <==>
            && repaid <= Market.Balance(s.users[liquidator].tokens, key)
            && s.pools[key].liquidityVault + repaid <= U64_MAX
            && taken <= s.pools[seizedKey].collateralVault
            && (to.ToUser? ==> Market.Balance(s.users[to.i].ctokens, seizedKey) + taken <= U64_MAX))
      && (step.Err? ==> step.error == TokenTransfer)
  {
    hide I.Liquidate;
  }

  /** What it leaves in the users' accounts that take part. */
  lemma LiquidateUsers(s: Market.State, liquidator: nat, user: nat, key: Pubkey, seizedKey: Pubkey, amount: u64,
                       to: Market.Destination)
    requires Market.Exists(s, user, key) && Market.Exists(s, liquidator, seizedKey) && Market.Receives(s, to)
    requires Market.LiquidateStep(s, liquidator, user, key, seizedKey, amount, to).Ok?
    ensures I.Liquidate(Market.Reserves(s.pools), s.users[user].obligation, key, seizedKey, amount, s.slot).Ok?
    ensures var l := I.Liquidate(Market.Reserves(s.pools), s.users[user].obligation, key,
      seizedKey, amount, s.slot).value;
      var t := Market.LiquidateStep(s, liquidator, user, key, seizedKey, amount, to).value;
      && |t.users| == |s.users| && t.users[user].obligation == l.seizure.obligation
      && Market.Balance(t.users[liquidator].tokens, key)
         == Market.Balance(s.users[liquidator].tokens, key) - l.seizure.repaid
      && (to.ToUser? ==>
            Market.Balance(t.users[to.i].ctokens, seizedKey)
            == Market.Balance(s.users[to.i].ctokens, seizedKey) + l.seizure.seized)
  {
    hide I.Liquidate;
  }

  /** What it leaves in the pools. */
  lemma LiquidatePools(s: Market.State, liquidator: nat, user: nat, key: Pubkey, seizedKey: Pubkey, amount: u64,
                       to: Market.Destination)
    requires Market.Exists(s, user, key) && Market.Exists(s, liquidator, seizedKey) && Market.Receives(s, to)
    requires Market.LiquidateStep(s, liquidator, user, key, seizedKey, amount, to).Ok?
    ensures I.Liquidate(Market.Reserves(s.pools), s.users[user].obligation, key, seizedKey, amount, s.slot).Ok?
    ensures var l := I.Liquidate(Market.Reserves(s.pools), s.users[user].obligation, key,
      seizedKey, amount, s.slot).value;
      var t := Market.LiquidateStep(s, liquidator, user, key, seizedKey, amount, to).value;
      var out := if to.ToUser? then l.seizure.seized else 0;
      && key in t.pools && seizedKey in t.pools
      && t.pools[key].reserve == l.relieved
      && t.pools[key].liquidityVault == s.pools[key].liquidityVault + l.seizure.repaid
      && t.pools[key].collateralVault == s.pools[key].collateralVault - (if key == seizedKey then out else 0)
      && t.pools[key].ctokenSupply == s.pools[key].ctokenSupply
      && (key != seizedKey ==>
            && t.pools[seizedKey].reserve == l.withdraw
            && t.pools[seizedKey].liquidityVault == s.pools[seizedKey].liquidityVault
            && t.pools[seizedKey].collateralVault == s.pools[seizedKey].collateralVault - out
            && t.pools[seizedKey].ctokenSupply == s.pools[seizedKey].ctokenSupply)
  {
    hide I.Liquidate;
  }

  /** The two token movements of a liquidation. */
  method Exchange(tokens: TokenAccount, vault: TokenAccount, repaid: u64,
                  collateral: TokenAccount, ctokens: TokenAccount, taken: u64)
    returns (r: Result<()>)
    requires tokens != vault && tokens != collateral && tokens != ctokens && vault != collateral && vault != ctokens
    modifies tokens, vault, collateral, ctokens
    ensures r.Ok? <==>
      && repaid <= old(tokens.amount) && old(vault.amount) + repaid <= U64_MAX
      && taken <= old(collateral.amount) && (collateral != ctokens ==> old(ctokens.amount) + taken <= U64_MAX)
    ensures r.Err? ==> r.error == TokenTransfer
    ensures r.Ok? ==> tokens.amount == old(tokens.amount) - repaid && vault.amount == old(vault.amount) + repaid
    ensures r.Ok? && collateral != ctokens ==>
      collateral.amount == old(collateral.amount) - taken && ctokens.amount == old(ctokens.amount) + taken
    ensures collateral == ctokens ==> collateral.amount == old(collateral.amount)
  {
    var _ :- Transfer(tokens, vault, repaid);
    r := Transfer(collateral, ctokens, taken);
  }

  method Liquidate(repay: PoolAccounts, seized: PoolAccounts, o: Obligation, tokens: TokenAccount,
                   ctokens: TokenAccount, paused: bool, amount: u64, slot: u64, ghost s: Market.State,
                   ghost liquidator: nat, ghost user: nat, ghost to: Market.Destination)
    returns (r: Result<()>)
    requires LiquidationHolds(s, liquidator, user, repay, seized, o, tokens, ctokens, to)
      && s.paused == paused && s.slot == slot
    modifies repay.reserve, seized.reserve, o, o.deposits, o.borrows
    modifies tokens, repay.liquidityVault, seized.collateralVault, ctokens
    ensures var step := Market.LiquidateStep(s, liquidator, user, repay.reserve.key, seized.reserve.key, amount, to);
      match r
      case Ok(_) => step.Ok? && LiquidationHolds(step.value, liquidator, user, repay, seized, o, tokens, ctokens, to)
      case Err(e) => step == Err(e)
  {
    hide I.Liquidate, Market.LiquidateStep, Market.Reserves, Market.Balance, Reserve.Data, Obligation.Data,
      Obligation.Valid;
    PausedStep(s, liquidator, user, repay.reserve.key, seized.reserve.key, amount, to);
    ReservesHold(s, repay, seized);
    var _ :- Require(!paused, InvalidConfig);
    var amounts :- Relieve(repay.reserve, seized.reserve, o, amount, slot, Market.Reserves(s.pools));
    LiquidateStepIff(s, liquidator, user, repay.reserve.key, seized.reserve.key, amount, to);
    if Market.LiquidateStep(s, liquidator, user, repay.reserve.key, seized.reserve.key, amount, to).Ok? {
      LiquidateUsers(s, liquidator, user, repay.reserve.key, seized.reserve.key, amount, to);
      LiquidatePools(s, liquidator, user, repay.reserve.key, seized.reserve.key, amount, to);
    }
    r := Exchange(tokens, repay.liquidityVault, amounts.0, seized.collateralVault, ctokens, amounts.1);
  }

  lemma ReservesHold(s: Market.State, repay: PoolAccounts, seized: PoolAccounts)
    requires repay.Holds(s) && seized.Holds(s)
    ensures var reserves := Market.Reserves(s.pools);
      && repay.reserve.key in reserves && reserves[repay.reserve.key] == repay.reserve.Data()
      && seized.reserve.key in reserves && reserves[seized.reserve.key] == seized.reserve.Data()
  {
  }

  lemma PausedStep(s: Market.State, liquidator: nat, user: nat, key: Pubkey, seizedKey: Pubkey, amount: u64,
                   to: Market.Destination)
    requires Market.Exists(s, user, key) && Market.Exists(s, liquidator, seizedKey) && Market.Receives(s, to)
    ensures var step := Market.LiquidateStep(s, liquidator, user, key, seizedKey, amount, to);
      var expected := I.Liquidate(Market.Reserves(s.pools), s.users[user].obligation, key, seizedKey, amount, s.slot);
      && (s.paused ==> step == Err(InvalidConfig))
      && (!s.paused && expected.Err? ==> step == Err(expected.error))
  {
    hide I.Liquidate;
  }

  // ---- Refreshing -----------------------------------------------------------------------------

  /** `reserves` lists exactly the reserve accounts that were passed along. */
  ghost predicate Lists(accounts: seq<Reserve>, reserves: I.Reserves)
    reads accounts
  {
    && (forall a :: a in accounts ==> a.key in reserves && reserves[a.key] == a.Data())
    && (forall k :: k in reserves ==> exists a :: a in accounts && a.key == k)
  }

  method FindAccount(accounts: seq<Reserve>, key: Pubkey) returns (p: Option<Reserve>)
    ensures p.Some? ==> p.value in accounts && p.value.key == key
    ensures p.None? ==> forall a :: a in accounts ==> a.key != key
  {
    for i := 0 to |accounts|
      invariant forall j :: 0 <= j < i ==> accounts[j].key != key
    {
      if accounts[i].key == key {
        return Some(accounts[i]);
      }
    }
    return None;
  }

  /** One turn of the loop over borrow slots. */
  method PriceBorrowSlot(o: Obligation, i: nat, accounts: seq<Reserve>, ghost reserves: I.Reserves)
    returns (r: Result<()>)
    requires o.Valid() && i < MAX_SLOTS && Lists(accounts, reserves)
    modifies o.borrows
    ensures r.Ok? ==> I.PriceBorrow(old(o.borrows[i]), reserves) == Ok(o.borrows[i])
    ensures r.Ok? ==> o.borrows[..] == old(o.borrows[..])[i := o.borrows[i]]
    ensures r.Err? ==> I.PriceBorrow(old(o.borrows[i]), reserves) == Err(r.error)
  {
    if !o.borrows[i].IsActive() {
      return Ok(());
    }
    var found := FindAccount(accounts, o.borrows[i].reserve);
    if found.None? {
      return Err(BorrowNotFound);
    }
    var reserve := found.value;
    var _ :- reserve.Data().TotalSupply();
    if reserve.marketPrice == 0 {
      return Ok(());
    }
    var _ :- o.AccrueInterest(i, reserve.cumulativeBorrowRate);
    Arithmetic.DivLe(o.borrows[i].debt, RATE_SCALE);
    var value :- Mul128(o.borrows[i].debt / RATE_SCALE, reserve.marketPrice);
    o.borrows[i] := o.borrows[i].(value := value);
    return Ok(());
  }

  /** One turn of the loop over deposit slots. */
  method PriceDepositSlot(o: Obligation, i: nat, accounts: seq<Reserve>, ghost reserves: I.Reserves)
    returns (r: Result<()>)
    requires o.Valid() && i < MAX_SLOTS && Lists(accounts, reserves)
    modifies o.deposits
    ensures r.Ok? ==> I.PriceDeposit(old(o.deposits[i]), reserves) == Ok(o.deposits[i])
    ensures r.Ok? ==> o.deposits[..] == old(o.deposits[..])[i := o.deposits[i]]
    ensures r.Err? ==> I.PriceDeposit(old(o.deposits[i]), reserves) == Err(r.error)
  {
    if !o.deposits[i].IsActive() {
      return Ok(());
    }
    var found := FindAccount(accounts, o.deposits[i].reserve);
    if found.None? {
      return Err(DepositNotFound);
    }
    var reserve := found.value;
    var total :- reserve.Data().TotalSupply();
    if reserve.marketPrice == 0 {
      return Ok(());
    }
    var underlying: u128 := 0;
    if reserve.mintTotalSupply != 0 {
      underlying :- MulDiv(o.deposits[i].amount, total, reserve.mintTotalSupply);
    }
    var value :- Mul128(underlying, reserve.marketPrice);
    value :- MulDiv(value, reserve.config.liquidationThreshold, 100);
    o.deposits[i] := o.deposits[i].(value := value);
    return Ok(());
  }

  method RefreshObligation(o: Obligation, accounts: seq<Reserve>, slot: u64, now: i64, ghost reserves: I.Reserves)
    returns (r: Result<()>)
    requires o.Valid() && Lists(accounts, reserves)
    modifies o, o.borrows, o.deposits
    ensures var refreshed := I.RefreshObligation(old(o.Data()), reserves, slot);
      match r
      case Ok(_) => refreshed.Ok? && o.Data() == refreshed.value.(lastUpdateTime := now)
      case Err(e) => refreshed == Err(e)
  {
    hide I.PriceBorrow, I.PriceDeposit, Lists;
    for i := 0 to o.borrowsCount
      invariant i <= MAX_SLOTS
      modifies o.borrows
      invariant o.deposits[..] == old(o.deposits[..])
      invariant I.PriceBorrows(old(o.borrows[..]), reserves, 0, o.borrowsCount)
             == I.PriceBorrows(o.borrows[..], reserves, i, o.borrowsCount)
    {
      if i == MAX_SLOTS {
        return Err(Panic);
      }
      var _ :- PriceBorrowSlot(o, i, accounts, reserves);
    }
    for i := 0 to o.depositsCount
      invariant i <= MAX_SLOTS
      modifies o.deposits
      invariant I.PriceBorrows(old(o.borrows[..]), reserves, 0, o.borrowsCount) == Ok(o.borrows[..])
      invariant I.PriceDeposits(old(o.deposits[..]), reserves, 0, o.depositsCount)
             == I.PriceDeposits(o.deposits[..], reserves, i, o.depositsCount)
    {
      if i == MAX_SLOTS {
        return Err(Panic);
      }
      var _ :- PriceDepositSlot(o, i, accounts, reserves);
    }
    o.lastUpdateSlot := slot;
    o.lastUpdateTime := now;
    return Ok(());
  }

  method RefreshReserve(pool: PoolAccounts, update: PriceUpdate, slot: u64, now: i64, ghost s: Market.State)
    returns (r: Result<()>)
    requires pool.Holds(s) && s.slot == slot
    modifies pool.reserve
    ensures var step := Market.RefreshReserveStep(s, pool.reserve.key, update, now);
      match r
      case Ok(_) => step.Ok? && pool.Holds(step.value)
      case Err(e) => step == Err(e)
  {
    hide ReserveData.Accrue, ReadPrice;
    var _ :- Require(update.account == pool.reserve.config.pythOracle, InvalidConfig);
    var _ :- pool.reserve.AccrueInterest(slot);
    var price :- ReadPrice(update, now);
    pool.reserve.marketPrice := price;
    pool.reserve.priceLastUpdated := update.publishTime;
    return Ok(());
  }
}
