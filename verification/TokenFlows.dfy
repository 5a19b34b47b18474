/** No instruction creates or destroys tokens of an asset. */
module TokenFlows {
  import opened Numeric
  import opened ReserveModel
  import opened ObligationModel
  import opened Market
  import I = InstructionModel

  /** Tokens of reserve `key` in users' own accounts. */
  function TotalTokens(users: seq<User>, key: Pubkey): nat {
    if |users| == 0 then 0
    else TotalTokens(users[..|users| - 1], key) + Balance(users[|users| - 1].tokens, key)
  }

  function Vault(s: State, key: Pubkey): nat {
    if key in s.pools then s.pools[key].liquidityVault else 0
  }

  /** All tokens of the asset inside the model: in users' accounts and in the vault. */
  function Circulating(s: State, key: Pubkey): nat {
    TotalTokens(s.users, key) + Vault(s, key)
  }

  lemma {:induction false} TokensUpdate(users: seq<User>, i: nat, u: User, key: Pubkey)
    requires i < |users|
    ensures TotalTokens(users[i := u], key)
      == TotalTokens(users, key) - Balance(users[i].tokens, key) + Balance(u.tokens, key)
  {
    var n := |users| - 1;
    if i < n {
      assert users[i := u][..n] == users[..n][i := u];
      TokensUpdate(users[..n], i, u, key);
    } else {
      assert users[i := u][..n] == users[..n];
    }
  }

  /** Tokens an instruction brings in from outside. */
  function Funded(s: State, ix: Instruction, key: Pubkey): nat {
    if Exec(s, ix).Ok? && ix.Fund? && ix.reserve == key then ix.amount else 0
  }

  lemma PoolTokens(s: State, ix: Instruction, key: Pubkey)
    requires Exec(s, ix).Ok? && (ix.Deposit? || ix.Withdraw? || ix.Repay?)
    ensures Circulating(Exec(s, ix).value, key) == Circulating(s, key)
  {
    hide I.Deposit, I.Withdraw, I.Repay, TotalTokens;
    TokensUpdate(s.users, ix.user, Exec(s, ix).value.users[ix.user], key);
  }

  /** Two users in turn: one whose obligation changes or who pays, one who receives. */
  lemma TokensUpdateTwice(users: seq<User>, i: nat, u: User, j: nat, v: User, key: Pubkey)
    requires i < |users| && j < |users|
    ensures TotalTokens(users[i := u][j := v], key)
         == TotalTokens(users, key) - Balance(users[i].tokens, key) + Balance(u.tokens, key)
            - Balance(users[i := u][j].tokens, key) + Balance(v.tokens, key)
  {
    TokensUpdate(users, i, u, key);
    TokensUpdate(users[i := u], j, v, key);
  }

  lemma BorrowTokens(s: State, ix: Instruction, key: Pubkey)
    requires Exec(s, ix).Ok? && ix.Borrow?
    ensures Circulating(Exec(s, ix).value, key) == Circulating(s, key)
  {
    hide I.Borrow, TotalTokens;
    var t := Exec(s, ix).value;
    var charged := s.users[ix.user].(obligation := t.users[ix.user].obligation);
    var receiver := if ix.to.ToUser? then ix.to.i else ix.user;
    TokensUpdateTwice(s.users, ix.user, charged, receiver, t.users[receiver], key);
    assert t.users == s.users[ix.user := charged][receiver := t.users[receiver]];
  }

  /** The users after a liquidation: one charged, one paying, one receiving; the vault of `key` gains what is paid. */
  lemma LiquidationUsers(s: State, ix: Instruction)
    requires Exec(s, ix).Ok? && ix.Liquidate?
    ensures ix.user < |s.users| && ix.liquidator < |s.users| && (ix.to.ToUser? ==> ix.to.i < |s.users|)
    ensures |Exec(s, ix).value.users| == |s.users|
    ensures var t := Exec(s, ix).value;
      var charged := s.users[ix.user := s.users[ix.user].(obligation := t.users[ix.user].obligation)];
      var paid := charged[ix.liquidator := charged[ix.liquidator].(tokens := t.users[ix.liquidator].tokens)];
      var receiver := if ix.to.ToUser? then ix.to.i else ix.liquidator;
      t.users == paid[receiver := t.users[receiver]] && t.users[receiver].tokens == paid[receiver].tokens
  {
    hide I.Liquidate;
  }

  lemma RepaymentPays(s: State, l: nat, u: nat, k: Pubkey, relieved: ReserveData, seizure: I.Seizure, key: Pubkey)
    requires Exists(s, u, k) && l < |s.users| && RepayFor(s, l, u, k, relieved, seizure).Ok?
    ensures var t := RepayFor(s, l, u, k, relieved, seizure).value;
      && |t.users| == |s.users| && t.pools.Keys == s.pools.Keys
      && Vault(t, key) - Vault(s, key) == Balance(s.users[l].tokens, key) - Balance(t.users[l].tokens, key)
  {
  }

  lemma HandOverMovesNoTokens(s: State, w: Pubkey, n: u64, to: Destination, key: Pubkey, i: nat)
    requires w in s.pools && Receives(s, to) && HandOver(s, w, n, to).Ok? && i < |s.users|
    ensures var t := HandOver(s, w, n, to).value;
      |t.users| == |s.users| && Vault(t, key) == Vault(s, key) && t.users[i].tokens == s.users[i].tokens
  {
  }

  lemma LiquidationPays(s: State, ix: Instruction, key: Pubkey)
    requires Exec(s, ix).Ok? && ix.Liquidate?
    ensures ix.liquidator < |s.users| && |Exec(s, ix).value.users| == |s.users|
    ensures var t := Exec(s, ix).value;
      Vault(t, key) - Vault(s, key)
        == Balance(s.users[ix.liquidator].tokens, key) - Balance(t.users[ix.liquidator].tokens, key)
  {
    hide I.Liquidate, RepayFor, HandOver, Balance;
    var l := I.Liquidate(Reserves(s.pools), s.users[ix.user].obligation, ix.reserve, ix.seizedReserve,
      ix.amount, s.slot).value;
    var m := WithReserve(WithReserve(s, ix.reserve, l.repay), ix.seizedReserve, l.withdraw);
    RepaymentPays(m, ix.liquidator, ix.user, ix.reserve, l.relieved, l.seizure, key);
    var paid := RepayFor(m, ix.liquidator, ix.user, ix.reserve, l.relieved, l.seizure).value;
    assert Exec(s, ix) == Settle(m, ix.liquidator, ix.user, ix.reserve, ix.seizedReserve, l.relieved, l.seizure, ix.to);
    HandOverMovesNoTokens(paid, ix.seizedReserve, l.seizure.seized, ix.to, key, ix.liquidator);
  }

  lemma LiquidationTokens(s: State, ix: Instruction, key: Pubkey)
    requires Exec(s, ix).Ok? && ix.Liquidate?
    ensures Circulating(Exec(s, ix).value, key) == Circulating(s, key)
  {
    hide Exec, TotalTokens;
    LiquidationUsers(s, ix);
    LiquidationPays(s, ix, key);
    var t := Exec(s, ix).value;
    var charged := s.users[ix.user].(obligation := t.users[ix.user].obligation);
    var charging := s.users[ix.user := charged];
    var paid := charging[ix.liquidator].(tokens := t.users[ix.liquidator].tokens);
    TokensUpdateTwice(s.users, ix.user, charged, ix.liquidator, paid, key);
    var receiver := if ix.to.ToUser? then ix.to.i else ix.liquidator;
    TokensUpdate(charging[ix.liquidator := paid], receiver, t.users[receiver], key);
  }

  lemma UserTokens(s: State, ix: Instruction, key: Pubkey)
    requires Exec(s, ix).Ok? && (ix.DepositCollateral? || ix.WithdrawCollateral? || ix.RefreshObligation? || ix.Fund?)
    ensures Circulating(Exec(s, ix).value, key) == Circulating(s, key) + Funded(s, ix, key)
  {
    hide I.DepositCollateral, I.WithdrawCollateral, I.RefreshObligation, TotalTokens;
    TokensUpdate(s.users, ix.user, Exec(s, ix).value.users[ix.user], key);
  }

  lemma SentTokens(s: State, ix: Instruction, key: Pubkey)
    requires Exec(s, ix).Ok? && ix.SendCTokens?
    ensures Circulating(Exec(s, ix).value, key) == Circulating(s, key)
  {
    hide TotalTokens;
    var t := Exec(s, ix).value;
    var reduced := s.users[ix.user].(ctokens := DebitAt(s.users[ix.user].ctokens, ix.reserve, ix.amount).value);
    TokensUpdate(s.users, ix.user, reduced, key);
    TokensUpdate(s.users[ix.user := reduced], ix.receiver, t.users[ix.receiver], key);
  }

  /** Settings, prices, new reserves and new users move no tokens. */
  lemma NoTokens(s: State, ix: Instruction, key: Pubkey)
    requires Exec(s, ix).Ok?
    requires ix.RefreshReserve? || ix.AddReserve? || ix.UpdateConfig? || ix.SetPaused? || ix.InitObligation?
      || ix.AdvanceSlot?
    ensures Circulating(Exec(s, ix).value, key) == Circulating(s, key)
  {
    hide I.RefreshReserve, TotalTokens;
    if ix.InitObligation? {
      NewUserHasNone(s, key);
    }
  }

  lemma NewUserHasNone(s: State, key: Pubkey)
    ensures TotalTokens(Exec(s, InitObligation).value.users, key) == TotalTokens(s.users, key)
  {
    var users := Exec(s, InitObligation).value.users;
    assert users[..|users| - 1] == s.users;
  }

  lemma TokenStep(s: State, ix: Instruction, key: Pubkey)
    requires Exec(s, ix).Ok?
    ensures Circulating(Exec(s, ix).value, key) == Circulating(s, key) + Funded(s, ix, key)
  {
    hide Exec, Circulating;
    match ix
    case Liquidate(_, _, _, _, _, _) => LiquidationTokens(s, ix, key);
    case Deposit(_, _, _) => PoolTokens(s, ix, key);
    case Withdraw(_, _, _) => PoolTokens(s, ix, key);
    case Borrow(_, _, _, _) => BorrowTokens(s, ix, key);
    case Repay(_, _, _) => PoolTokens(s, ix, key);
    case DepositCollateral(_, _, _) => UserTokens(s, ix, key);
    case WithdrawCollateral(_, _, _) => UserTokens(s, ix, key);
    case RefreshObligation(_, _, _) => UserTokens(s, ix, key);
    case Fund(_, _, _) => UserTokens(s, ix, key);
    case SendCTokens(_, _, _, _) => SentTokens(s, ix, key);
    case _ => NoTokens(s, ix, key);
  }

  function FundedOver(s: State, ixs: seq<Instruction>, key: Pubkey): nat {
    if |ixs| == 0 then 0
    else
      var earlier := ixs[..|ixs| - 1];
      FundedOver(s, earlier, key) + Funded(Run(s, earlier), ixs[|ixs| - 1], key)
  }

  /** Over any run the tokens of an asset in users' accounts and in its vault change only by what comes in from
   *  outside. */
  lemma {:induction false} TokensConserved(s: State, ixs: seq<Instruction>, key: Pubkey)
    ensures Circulating(Run(s, ixs), key) == Circulating(s, key) + FundedOver(s, ixs, key)
  {
    hide Exec, Circulating;
    if |ixs| == 0 {
    } else {
      var earlier, ix := ixs[..|ixs| - 1], ixs[|ixs| - 1];
      TokensConserved(s, earlier, key);
      if Exec(Run(s, earlier), ix).Ok? {
        TokenStep(Run(s, earlier), ix, key);
      }
    }
  }
}
