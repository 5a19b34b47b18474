/** Tokens and cTokens that a run sends back into the vault they come from, and what that does to the vaults. */
module Parking {
  import opened Numeric
  import opened ReserveModel
  import opened ObligationModel
  import opened Market
  import opened MarketInvariant
  import opened ReserveFlows
  import I = InstructionModel

  /** The instruction lends tokens of `key` to the vault they are lent from. */
  predicate LendsBack(s: State, ix: Instruction, key: Pubkey) {
    Exec(s, ix).Ok? && ix.Borrow? && ix.reserve == key && ix.to.ToVault?
  }

  /** The instruction hands seized cTokens of `key` to the vault they are locked in. */
  predicate SeizesBack(s: State, ix: Instruction, key: Pubkey) {
    Exec(s, ix).Ok? && ix.Liquidate? && ix.seizedReserve == key && ix.to.ToVault?
  }

  function SentBack(s: State, ix: Instruction, key: Pubkey): nat {
    if LendsBack(s, ix, key) then ix.amount else 0
  }

  function SentBackCTokens(s: State, ix: Instruction, key: Pubkey): nat {
    if SeizesBack(s, ix, key)
    then I.Liquidate(Reserves(s.pools), s.users[ix.user].obligation, ix.reserve, key, ix.amount,
      s.slot).value.seizure.seized
    else 0
  }

  /** What a run has sent back in all. */
  function Parked(s: State, ixs: seq<Instruction>, key: Pubkey): nat {
    if |ixs| == 0 then 0
    else
      var earlier := ixs[..|ixs| - 1];
      Parked(s, earlier, key) + SentBack(Run(s, earlier), ixs[|ixs| - 1], key)
  }

  function ParkedCTokens(s: State, ixs: seq<Instruction>, key: Pubkey): nat {
    if |ixs| == 0 then 0
    else
      var earlier := ixs[..|ixs| - 1];
      ParkedCTokens(s, earlier, key) + SentBackCTokens(Run(s, earlier), ixs[|ixs| - 1], key)
  }

  // ---- One instruction ------------------------------------------------------------------------

  /** A pool's history, nothing for a reserve that is not listed. */
  function Sent(s: State, key: Pubkey): (nat, nat) {
    if key in s.pools then (s.pools[key].parked, s.pools[key].parkedCTokens) else (0, 0)
  }

  lemma LoanParks(s: State, ix: Instruction, key: Pubkey)
    requires Exec(s, ix).Ok? && ix.Borrow?
    ensures Sent(Exec(s, ix).value, key) == (Sent(s, key).0 + SentBack(s, ix, key), Sent(s, key).1)
    ensures LendsBack(s, ix, key) ==> 0 < ix.amount
  {
    hide ReserveData.Accrue, I.CatchUp, I.CheckBorrow;
  }

  lemma SeizureParks(s: State, ix: Instruction, key: Pubkey)
    requires Exec(s, ix).Ok? && ix.Liquidate?
    ensures Sent(Exec(s, ix).value, key) == (Sent(s, key).0, Sent(s, key).1 + SentBackCTokens(s, ix, key))
    ensures SeizesBack(s, ix, key) ==> 0 < SentBackCTokens(s, ix, key)
  {
    hide I.Liquidate;
    SeizesSomething(Reserves(s.pools), s.users[ix.user].obligation, ix.reserve, ix.seizedReserve, ix.amount, s.slot);
  }

  lemma SeizesSomething(reserves: I.Reserves, o: ObligationData, key: Pubkey, w: Pubkey, amount: u64, slot: u64)
    requires key in reserves && w in reserves
    ensures I.Liquidate(reserves, o, key, w, amount, slot).Ok? ==>
      0 < I.Liquidate(reserves, o, key, w, amount, slot).value.seizure.seized
  {
    hide I.Prepare, ObligationData.IsHealthy, ObligationData.Repay, ObligationData.Withdraw, I.SeizableCTokens;
  }

  lemma PoolStepParksNothing(s: State, ix: Instruction, key: Pubkey)
    requires Exec(s, ix).Ok?
    requires ix.Deposit? || ix.Withdraw? || ix.Repay? || ix.DepositCollateral? || ix.WithdrawCollateral?
    ensures Sent(Exec(s, ix).value, key) == Sent(s, key)
  {
    hide I.Deposit, I.Withdraw, I.Repay, I.DepositCollateral, I.WithdrawCollateral;
  }

  lemma OtherStepParksNothing(s: State, ix: Instruction, key: Pubkey)
    requires Exec(s, ix).Ok? && !ix.Borrow? && !ix.Liquidate?
    requires !ix.Deposit? && !ix.Withdraw? && !ix.Repay? && !ix.DepositCollateral? && !ix.WithdrawCollateral?
    ensures Sent(Exec(s, ix).value, key) == Sent(s, key)
  {
    hide I.RefreshReserve, I.RefreshObligation;
  }

  lemma StepParks(s: State, ix: Instruction, key: Pubkey)
    requires Exec(s, ix).Ok?
    ensures Sent(Exec(s, ix).value, key)
         == (Sent(s, key).0 + SentBack(s, ix, key), Sent(s, key).1 + SentBackCTokens(s, ix, key))
    ensures LendsBack(s, ix, key) <==> 0 < SentBack(s, ix, key)
    ensures SeizesBack(s, ix, key) <==> 0 < SentBackCTokens(s, ix, key)
  {
    hide Exec, Sent;
    if ix.Borrow? {
      LoanParks(s, ix, key);
    } else if ix.Liquidate? {
      SeizureParks(s, ix, key);
    } else if ix.Deposit? || ix.Withdraw? || ix.Repay? || ix.DepositCollateral? || ix.WithdrawCollateral? {
      PoolStepParksNothing(s, ix, key);
    } else {
      OtherStepParksNothing(s, ix, key);
    }
  }

  // ---- Runs -----------------------------------------------------------------------------------

  /** Some step of the run lends back; some step seizes back. */
  predicate EverLendsBack(s: State, ixs: seq<Instruction>, key: Pubkey) {
    exists n :: 0 <= n < |ixs| && LendsBack(Run(s, ixs[..n]), ixs[n], key)
  }

  predicate EverSeizesBack(s: State, ixs: seq<Instruction>, key: Pubkey) {
    exists n :: 0 <= n < |ixs| && SeizesBack(Run(s, ixs[..n]), ixs[n], key)
  }

  /** The history is what the run's instructions add up to, and nothing ever leaves it. */
  lemma {:induction false} RunParks(s: State, ixs: seq<Instruction>, key: Pubkey)
    ensures Sent(Run(s, ixs), key) == (Sent(s, key).0 + Parked(s, ixs, key),
      Sent(s, key).1 + ParkedCTokens(s, ixs, key))
  {
    hide Exec, Sent, SentBack, SentBackCTokens;
    if |ixs| == 0 {
    } else {
      var earlier, ix := ixs[..|ixs| - 1], ixs[|ixs| - 1];
      RunParks(s, earlier, key);
      if Exec(Run(s, earlier), ix).Ok? {
        StepParks(Run(s, earlier), ix, key);
      } else {
        RefusedSendsNothing(Run(s, earlier), ix, key);
      }
    }
  }

  lemma RefusedSendsNothing(s: State, ix: Instruction, key: Pubkey)
    requires Exec(s, ix).Err?
    ensures SentBack(s, ix, key) == SentBackCTokens(s, ix, key) == 0
    ensures !LendsBack(s, ix, key) && !SeizesBack(s, ix, key)
  {
    hide Exec;
  }

  lemma SendsIff(s: State, ix: Instruction, key: Pubkey)
    ensures LendsBack(s, ix, key) <==> 0 < SentBack(s, ix, key)
    ensures SeizesBack(s, ix, key) <==> 0 < SentBackCTokens(s, ix, key)
  {
    hide Exec;
    if Exec(s, ix).Ok? {
      StepParks(s, ix, key);
    }
  }

  lemma EverLendsBackSnoc(s: State, ixs: seq<Instruction>, key: Pubkey)
    requires 0 < |ixs|
    ensures var last := |ixs| - 1;
      EverLendsBack(s, ixs, key)
      <==> EverLendsBack(s, ixs[..last], key) || LendsBack(Run(s, ixs[..last]), ixs[last], key)
  {
    hide Exec, Run, LendsBack;
    var last, earlier := |ixs| - 1, ixs[..|ixs| - 1];
    assert forall n :: 0 <= n < last ==> earlier[..n] == ixs[..n] && earlier[n] == ixs[n];
    if EverLendsBack(s, earlier, key) {
      var n :| 0 <= n < |earlier| && LendsBack(Run(s, earlier[..n]), earlier[n], key);
      assert LendsBack(Run(s, ixs[..n]), ixs[n], key);
    }
    if EverLendsBack(s, ixs, key) {
      var n :| 0 <= n < |ixs| && LendsBack(Run(s, ixs[..n]), ixs[n], key);
      if n < last {
        assert LendsBack(Run(s, earlier[..n]), earlier[n], key);
      }
    }
  }

  lemma EverSeizesBackSnoc(s: State, ixs: seq<Instruction>, key: Pubkey)
    requires 0 < |ixs|
    ensures var last := |ixs| - 1;
      EverSeizesBack(s, ixs, key)
      <==> EverSeizesBack(s, ixs[..last], key) || SeizesBack(Run(s, ixs[..last]), ixs[last], key)
  {
    hide Exec, Run, SeizesBack;
    var last, earlier := |ixs| - 1, ixs[..|ixs| - 1];
    assert forall n :: 0 <= n < last ==> earlier[..n] == ixs[..n] && earlier[n] == ixs[n];
    if EverSeizesBack(s, earlier, key) {
      var n :| 0 <= n < |earlier| && SeizesBack(Run(s, earlier[..n]), earlier[n], key);
      assert SeizesBack(Run(s, ixs[..n]), ixs[n], key);
    }
    if EverSeizesBack(s, ixs, key) {
      var n :| 0 <= n < |ixs| && SeizesBack(Run(s, ixs[..n]), ixs[n], key);
      if n < last {
        assert SeizesBack(Run(s, earlier[..n]), earlier[n], key);
      }
    }
  }

  lemma {:induction false} ParkedIff(s: State, ixs: seq<Instruction>, key: Pubkey)
    ensures 0 < Parked(s, ixs, key) <==> EverLendsBack(s, ixs, key)
    ensures 0 < ParkedCTokens(s, ixs, key) <==> EverSeizesBack(s, ixs, key)
  {
    hide Exec, Run, LendsBack, SeizesBack, SentBack, SentBackCTokens, EverLendsBack, EverSeizesBack;
    if |ixs| == 0 {
      NothingEver(s, key);
    } else {
      var last := |ixs| - 1;
      ParkedIff(s, ixs[..last], key);
      SendsIff(Run(s, ixs[..last]), ixs[last], key);
      EverLendsBackSnoc(s, ixs, key);
      EverSeizesBackSnoc(s, ixs, key);
    }
  }

  lemma NothingEver(s: State, key: Pubkey)
    ensures !EverLendsBack(s, [], key) && !EverSeizesBack(s, [], key)
  {
  }

  /** In every reachable market the vaults hold what the program records and, besides, exactly what the run has sent
   *  back into them. So each vault equals its record if and only if nothing was ever sent back into it.
   */
  lemma VaultsMatchRecordsIff(ixs: seq<Instruction>, key: Pubkey)
    requires key in Run(GENESIS, ixs).pools
    ensures var s := Run(GENESIS, ixs);
      var p := s.pools[key];
      && p.liquidityVault == p.reserve.available + Parked(GENESIS, ixs, key)
      && p.collateralVault == TotalLocked(s.users, key) + ParkedCTokens(GENESIS, ixs, key)
      && p.ctokenSupply == p.reserve.ctokens == p.collateralVault + TotalHeld(s.users, key)
      && (p.liquidityVault == p.reserve.available <==> !EverLendsBack(GENESIS, ixs, key))
      && (p.collateralVault == TotalLocked(s.users, key) <==> !EverSeizesBack(GENESIS, ixs, key))
  {
    hide Inv, Exec, Run, EverLendsBack, EverSeizesBack, Parked, ParkedCTokens, ReserveInv;
    ReachableInv(ixs);
    PoolOk(Run(GENESIS, ixs), key);
    RunParks(GENESIS, ixs, key);
    ParkedIff(GENESIS, ixs, key);
  }
}
