/** Who pays and who receives: every user's own accounts and obligation, instruction by instruction. */
module Balances {
  import opened Numeric
  import opened ReserveModel
  import opened ObligationModel
  import opened Market
  import I = InstructionModel

  // ---- Accounts -------------------------------------------------------------------------------

  function If(condition: bool, amount: int): int {
    if condition then amount else 0
  }

  function Seized(s: State, ix: Instruction): I.Seizure
    requires Exec(s, ix).Ok? && ix.Liquidate?
  {
    I.Liquidate(Reserves(s.pools), s.users[ix.user].obligation, ix.reserve, ix.seizedReserve, ix.amount, s.slot)
      .value.seizure
  }

  /** Tokens of `key` that user `i` gains by an instruction. */
  function TokensGained(s: State, ix: Instruction, i: nat, key: Pubkey): int
    requires Exec(s, ix).Ok?
  {
    match ix
    case Deposit(u, k, n) => If(i == u && key == k, 0 - n)
    case Withdraw(u, k, n) => If(i == u && key == k, I.Withdraw(s.pools[k].reserve, n, s.slot).value.1)
    case Borrow(u, k, n, to) => If(to == ToUser(i) && key == k, n)
    case Repay(u, k, n) => If(i == u && key == k, 0 - n)
    case Liquidate(l, u, k, w, n, to) => If(i == l && key == k, 0 - Seized(s, ix).repaid)
    case Fund(u, k, n) => If(i == u && key == k, n)
    case _ => 0
  }

  /** Likewise its cTokens. */
  function CTokensGained(s: State, ix: Instruction, i: nat, key: Pubkey): int
    requires Exec(s, ix).Ok?
  {
    match ix
    case Deposit(u, k, n) => If(i == u && key == k, I.Deposit(s.pools[k].reserve, n, s.slot).value.1)
    case Withdraw(u, k, n) => If(i == u && key == k, 0 - n)
    case DepositCollateral(u, k, n) => If(i == u && key == k, 0 - n)
    case WithdrawCollateral(u, k, n) => If(i == u && key == k, n)
    case Liquidate(l, u, k, w, n, to) => If(to == ToUser(i) && key == w, Seized(s, ix).seized)
    case SendCTokens(u, v, k, n) => If(i == v && key == k, n) - If(i == u && key == k, n)
    case _ => 0
  }

  /** The instruction leaves user `i` with exactly these gains. */
  predicate Gains(s: State, ix: Instruction, i: nat, key: Pubkey)
    requires Exec(s, ix).Ok? && i < |s.users|
  {
    var t := Exec(s, ix).value;
    && i < |t.users|
    && Balance(t.users[i].tokens, key) == Balance(s.users[i].tokens, key) + TokensGained(s, ix, i, key)
    && Balance(t.users[i].ctokens, key) == Balance(s.users[i].ctokens, key) + CTokensGained(s, ix, i, key)
  }

  lemma PoolGains(s: State, ix: Instruction, i: nat, key: Pubkey)
    requires Exec(s, ix).Ok? && i < |s.users| && (ix.Deposit? || ix.Withdraw?)
    ensures Gains(s, ix, i, key)
  {
    hide I.Deposit, I.Withdraw;
  }

  lemma LoanGains(s: State, ix: Instruction, i: nat, key: Pubkey)
    requires Exec(s, ix).Ok? && i < |s.users| && (ix.Repay? || ix.Borrow?)
    ensures Gains(s, ix, i, key)
  {
    hide I.Borrow, I.Repay;
  }

  lemma RepaymentGains(s: State, l: nat, u: nat, k: Pubkey, relieved: ReserveData, x: I.Seizure, i: nat, key: Pubkey)
    requires Exists(s, u, k) && l < |s.users| && i < |s.users| && RepayFor(s, l, u, k, relieved, x).Ok?
    ensures var t := RepayFor(s, l, u, k, relieved, x).value;
      && |t.users| == |s.users| && t.pools.Keys == s.pools.Keys
      && Balance(t.users[i].tokens, key) == Balance(s.users[i].tokens, key) - If(i == l && key == k, x.repaid)
      && t.users[i].ctokens == s.users[i].ctokens
  {
  }

  lemma HandOverGains(s: State, w: Pubkey, n: u64, to: Destination, i: nat, key: Pubkey)
    requires w in s.pools && Receives(s, to) && i < |s.users| && HandOver(s, w, n, to).Ok?
    ensures var t := HandOver(s, w, n, to).value;
      && |t.users| == |s.users|
      && t.users[i].tokens == s.users[i].tokens
      && Balance(t.users[i].ctokens, key) == Balance(s.users[i].ctokens, key) + If(to == ToUser(i) && key == w, n)
  {
  }

  lemma LiquidationGains(s: State, ix: Instruction, i: nat, key: Pubkey)
    requires Exec(s, ix).Ok? && i < |s.users| && ix.Liquidate?
    ensures Gains(s, ix, i, key)
  {
    hide I.Liquidate, RepayFor, HandOver, Balance;
    var l := I.Liquidate(Reserves(s.pools), s.users[ix.user].obligation, ix.reserve, ix.seizedReserve,
      ix.amount, s.slot).value;
    var m := WithReserve(WithReserve(s, ix.reserve, l.repay), ix.seizedReserve, l.withdraw);
    RepaymentGains(m, ix.liquidator, ix.user, ix.reserve, l.relieved, l.seizure, i, key);
    var paid := RepayFor(m, ix.liquidator, ix.user, ix.reserve, l.relieved, l.seizure).value;
    HandOverGains(paid, ix.seizedReserve, l.seizure.seized, ix.to, i, key);
  }

  lemma CollateralGains(s: State, ix: Instruction, i: nat, key: Pubkey)
    requires Exec(s, ix).Ok? && i < |s.users| && (ix.DepositCollateral? || ix.WithdrawCollateral?)
    ensures Gains(s, ix, i, key)
  {
    hide I.DepositCollateral, I.WithdrawCollateral;
  }

  lemma FundGains(s: State, ix: Instruction, i: nat, key: Pubkey)
    requires Exec(s, ix).Ok? && i < |s.users| && ix.Fund?
    ensures Gains(s, ix, i, key)
  {
  }

  lemma SendGains(s: State, ix: Instruction, i: nat, key: Pubkey)
    requires Exec(s, ix).Ok? && i < |s.users| && ix.SendCTokens?
    ensures Gains(s, ix, i, key)
  {
    hide I.Liquidate, I.Deposit, I.Withdraw;
  }

  lemma OtherGains(s: State, ix: Instruction, i: nat, key: Pubkey)
    requires Exec(s, ix).Ok? && i < |s.users|
    requires ix.RefreshObligation? || ix.RefreshReserve? || ix.AddReserve? || ix.UpdateConfig? || ix.SetPaused?
      || ix.InitObligation? || ix.AdvanceSlot?
    ensures Gains(s, ix, i, key)
  {
    hide I.RefreshObligation, I.RefreshReserve;
  }

  /** Every user's balances move by exactly what the instruction names: the payer pays, the receiver receives, nobody
   *  else and no other asset is touched.
   */
  lemma BalancesMove(s: State, ix: Instruction, i: nat, key: Pubkey)
    requires Exec(s, ix).Ok? && i < |s.users|
    ensures Gains(s, ix, i, key)
  {
    hide Exec, Gains;
    if ix.Deposit? || ix.Withdraw? {
      PoolGains(s, ix, i, key);
    } else if ix.Repay? || ix.Borrow? {
      LoanGains(s, ix, i, key);
    } else if ix.Liquidate? {
      LiquidationGains(s, ix, i, key);
    } else if ix.DepositCollateral? || ix.WithdrawCollateral? {
      CollateralGains(s, ix, i, key);
    } else if ix.Fund? {
      FundGains(s, ix, i, key);
    } else if ix.SendCTokens? {
      SendGains(s, ix, i, key);
    } else {
      OtherGains(s, ix, i, key);
    }
  }

  // ---- Obligations and pools ------------------------------------------------------------------

  /** The instruction acts on the obligation of user `i`. */
  predicate ActsOn(ix: Instruction, i: nat) {
    && (ix.DepositCollateral? || ix.WithdrawCollateral? || ix.Borrow? || ix.Repay? || ix.Liquidate?
        || ix.RefreshObligation?)
    && ix.user == i
  }

  /** The instruction names reserve `key`. */
  predicate Names(ix: Instruction, key: Pubkey) {
    match ix
    case Liquidate(_, _, k, w, _, _) => key == k || key == w
    case Deposit(_, k, _) => key == k
    case Withdraw(_, k, _) => key == k
    case DepositCollateral(_, k, _) => key == k
    case WithdrawCollateral(_, k, _) => key == k
    case Borrow(_, k, _, _) => key == k
    case Repay(_, k, _) => key == k
    case RefreshReserve(k, _, _) => key == k
    case AddReserve(k, _) => key == k
    case UpdateConfig(k, _) => key == k
    case _ => false
  }

  /** Obligations it does not act on and pools it does not name are as they were; users and pools stay. */
  predicate Contained(s: State, ix: Instruction)
    requires Exec(s, ix).Ok?
  {
    var t := Exec(s, ix).value;
    && |s.users| <= |t.users| && s.pools.Keys <= t.pools.Keys
    && (forall i :: 0 <= i < |s.users| && !ActsOn(ix, i) ==> t.users[i].obligation == s.users[i].obligation)
    && (forall k :: k in s.pools && !Names(ix, k) ==> t.pools[k] == s.pools[k])
    && t.slot == s.slot + (if ix.AdvanceSlot? then ix.slots else 0)
    && t.paused == (if ix.SetPaused? then ix.paused else s.paused)
    && |t.users| == |s.users| + (if ix.InitObligation? then 1 else 0)
    && t.pools.Keys == s.pools.Keys + (if ix.AddReserve? then {ix.reserve} else {})
  }

  lemma PoolContained(s: State, ix: Instruction)
    requires Exec(s, ix).Ok? && (ix.Deposit? || ix.Withdraw? || ix.Repay? || ix.Borrow?)
    ensures Contained(s, ix)
  {
    hide I.Deposit, I.Withdraw, I.Borrow, I.Repay, CreditAt, DebitAt, Credit, Debit;
  }

  lemma CollateralContained(s: State, ix: Instruction)
    requires Exec(s, ix).Ok? && (ix.DepositCollateral? || ix.WithdrawCollateral?)
    ensures Contained(s, ix)
  {
    hide I.DepositCollateral, I.WithdrawCollateral, CreditAt, DebitAt, Credit, Debit;
  }

  lemma LiquidationContained(s: State, ix: Instruction)
    requires Exec(s, ix).Ok? && ix.Liquidate?
    ensures Contained(s, ix)
  {
    hide I.Liquidate, CreditAt, DebitAt, Credit, Debit;
  }

  lemma OtherContained(s: State, ix: Instruction)
    requires Exec(s, ix).Ok? && !ix.Liquidate?
    requires !ix.Deposit? && !ix.Withdraw? && !ix.Repay? && !ix.Borrow?
    requires !ix.DepositCollateral? && !ix.WithdrawCollateral?
    ensures Contained(s, ix)
  {
    hide I.RefreshObligation, I.RefreshReserve;
  }

  /** An instruction reaches no further than what it names. */
  lemma OnlyNamedChange(s: State, ix: Instruction)
    requires Exec(s, ix).Ok?
    ensures Contained(s, ix)
  {
    hide Exec, Contained;
    if ix.Liquidate? {
      LiquidationContained(s, ix);
    } else if ix.Deposit? || ix.Withdraw? || ix.Repay? || ix.Borrow? {
      PoolContained(s, ix);
    } else if ix.DepositCollateral? || ix.WithdrawCollateral? {
      CollateralContained(s, ix);
    } else {
      OtherContained(s, ix);
    }
  }

  // ---- Bystanders -----------------------------------------------------------------------------

  /** User `i` acts, is acted on, or receives something. */
  predicate Involves(ix: Instruction, i: nat) {
    match ix
    case Borrow(u, _, _, to) => i == u || to == ToUser(i)
    case Liquidate(l, u, _, _, _, to) => i == l || i == u || to == ToUser(i)
    case SendCTokens(u, v, _, _) => i == u || i == v
    case Deposit(u, _, _) => i == u
    case Withdraw(u, _, _) => i == u
    case DepositCollateral(u, _, _) => i == u
    case WithdrawCollateral(u, _, _) => i == u
    case Repay(u, _, _) => i == u
    case RefreshObligation(u, _, _) => i == u
    case Fund(u, _, _) => i == u
    case _ => false
  }

  lemma BystanderStep(s: State, ix: Instruction, i: nat, key: Pubkey)
    requires Exec(s, ix).Ok? && i < |s.users| && !Involves(ix, i)
    ensures var t := Exec(s, ix).value;
      && i < |t.users| && t.users[i].obligation == s.users[i].obligation
      && Balance(t.users[i].tokens, key) == Balance(s.users[i].tokens, key)
      && Balance(t.users[i].ctokens, key) == Balance(s.users[i].ctokens, key)
  {
    hide Exec, Seized;
    OnlyNamedChange(s, ix);
    BalancesMove(s, ix, i, key);
  }

  /** Whatever the others do over a run, a user that no instruction of it names keeps every token, every cToken and the
   *  obligation to the letter.
   */
  lemma {:induction false} BystanderKeepsAll(s: State, ixs: seq<Instruction>, i: nat, key: Pubkey)
    requires i < |s.users| && forall ix :: ix in ixs ==> !Involves(ix, i)
    ensures var t := Run(s, ixs);
      && i < |t.users| && t.users[i].obligation == s.users[i].obligation
      && Balance(t.users[i].tokens, key) == Balance(s.users[i].tokens, key)
      && Balance(t.users[i].ctokens, key) == Balance(s.users[i].ctokens, key)
  {
    hide Exec, Involves, Balance;
    if |ixs| == 0 {
    } else {
      var earlier, ix := ixs[..|ixs| - 1], ixs[|ixs| - 1];
      BystanderKeepsAll(s, earlier, i, key);
      assert ix in ixs;
      if Exec(Run(s, earlier), ix).Ok? {
        BystanderStep(Run(s, earlier), ix, i, key);
      }
    }
  }
}
