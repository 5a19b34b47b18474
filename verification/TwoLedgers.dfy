/** The reserve's debt and the users' debts are two books of the same loans, rounded separately; they stay close. */
module TwoLedgers {
  import opened Arithmetic
  import opened Numeric
  import opened ReserveModel
  import opened ReserveProperties
  import opened ObligationModel
  import opened ObligationProperties
  import opened InstructionProperties
  import opened Market
  import opened MarketInvariant
  import opened MarketSteps
  import opened ReserveFlows
  import opened LoanFlows
  import I = InstructionModel

  const SCALE: real := RATE_SCALE as real

  /** Debt per unit of index: catching up does not change it, except for rounding. */
  function Share(loan: Option<Loan>): real {
    if loan.None? || loan.value.index == 0 then 0.0 else loan.value.debt as real / loan.value.index as real
  }

  function Shares(users: seq<User>, key: Pubkey): real {
    if |users| == 0 then 0.0
    else Shares(users[..|users| - 1], key) + Share(LoanOf(users[|users| - 1].obligation.borrows, key))
  }

  /** The same measure of the reserve's own record. */
  function PoolShare(r: ReserveData): real
    requires 0 < r.index
  {
    SCALE * (r.borrowed as real / r.index as real)
  }

  lemma RealMono(a: real, b: real, c: real)
    requires a <= b && 0.0 <= c
    ensures a * c <= b * c && c * a <= c * b
  {
  }

  lemma RealCancel(a: real, b: real, c: real)
    requires 0.0 < c && a * c <= b * c
    ensures a <= b
  {
  }

  lemma RealRatio(a: int, b: int, c: int, d: int)
    requires 0 < b && 0 < d && RatioLe(a, b, c, d)
    ensures a as real / b as real <= c as real / d as real
  {
    var x, y := a as real / b as real, c as real / d as real;
    var p := b as real * d as real;
    assert x * p == (a * d) as real;
    assert y * p == (c * b) as real;
    RealCancel(x, y, p);
  }

  lemma RealSum(a: int, b: int, d: int)
    requires 0 < d
    ensures (a + b) as real / d as real == a as real / d as real + b as real / d as real
  {
  }

  lemma RealSmall(a: int, b: int)
    requires 0 < b && a <= b
    ensures a as real / b as real <= 1.0
  {
  }

  /** Catching up loses less than one scaled unit, a share of less than 1 / RATE_SCALE. */
  lemma CaughtUpShare(x: Loan, y: Loan)
    requires 0 < x.index && RATE_SCALE <= y.index && CaughtUp(x, y)
    ensures Share(Some(x)) - 1.0 / SCALE <= Share(Some(y)) <= Share(Some(x))
  {
    RealRatio(y.debt, y.index, x.debt, x.index);
    RealRatio(x.debt, x.index, y.debt + 1, y.index);
    RealSum(y.debt, 1, y.index);
    RealRatio(1, y.index, 1, RATE_SCALE);
  }

  /** A move adds exactly its flow, less the rounding and, when the loan closes, less than one token. */
  lemma MovedShare(x: Option<Loan>, y: Option<Loan>, index: nat, delta: int)
    requires x.Some? ==> 0 < x.value.index <= index
    requires RATE_SCALE <= index && 0 <= DebtAt(x, index) + delta && LoanMoved(x, y, index, delta)
    ensures Share(y) <= Share(x) + delta as real / index as real
    ensures Share(x) + delta as real / index as real - 1.0 / SCALE - (if y.None? then 1.0 else 0.0) <= Share(y)
  {
    var d := DebtAt(x, index);
    if x.Some? {
      DebtAtCatchesUp(x.value, index);
      CaughtUpShare(x.value, Loan(d, index));
    }
    RealSum(d, delta, index);
    RealRatio(0, index, d + delta, index);
    if y.None? {
      RealSmall(d + delta, index);
    }
  }

  lemma RealProduct(a: int, b: int)
    ensures (a * b) as real == a as real * b as real
  {
  }

  lemma DriftUp(x: real, y: real, unit: real, c: real, n: real, dx: real, dy: real)
    requires 0.0 < c && 0.0 < n && unit * n == 1.0
    requires dx == x * c && dy == y * n && dy * c <= dx * (n + 1.0)
    ensures y <= x + x * unit
  {
    assert (x * c) * (n + 1.0) == (x * (n + 1.0)) * c;
    RealCancel(y * n, x * (n + 1.0), c);
    calc {
      (x + x * unit) * n;
      x * n + (x * unit) * n;
      { assert (x * unit) * n == x * (unit * n); }
      x * n + x;
      x * (n + 1.0);
    }
    RealCancel(y, x + x * unit, n);
  }

  /** Growth bounded by the products of `Accrued` raises the ratio by at most the ratio over the new index. */
  lemma RatioRise(debt: nat, index: nat, debt': nat, index': nat)
    requires 0 < index && 0 < index' && debt' * index <= debt * (index' + 1)
    ensures var x := debt as real / index as real;
      debt' as real / index' as real <= x + x * (1.0 / index' as real)
  {
    var x, y := debt as real / index as real, debt' as real / index' as real;
    var c, n := index as real, index' as real;
    InReals(debt, index, debt', index');
    RealCancels(debt, index);
    RealCancels(debt', index');
    RealCancels(1, index');
    DriftUp(x, y, 1.0 / n, c, n, debt as real, debt' as real);
  }

  lemma InReals(debt: nat, index: nat, debt': nat, index': nat)
    requires debt' * index <= debt * (index' + 1)
    ensures debt' as real * index as real <= debt as real * (index' as real + 1.0)
  {
    RealProduct(debt', index);
    RealProduct(debt, index' + 1);
  }

  /** If `debt` and `index` grow to `debt'` and `index'` at one rate, their ratio moves by the rounding only. */
  lemma RatioDrift(debt: nat, index: nat, debt': nat, index': nat)
    requires RATE_SCALE <= index <= index'
    requires debt * index' <= index * debt' + index && debt' * index <= debt * (index' + 1)
    ensures var before, after := debt as real / index as real, debt' as real / index' as real;
      SCALE * before <= SCALE * after + 1.0 && SCALE * after <= SCALE * before + debt as real / SCALE
  {
    var before, after := debt as real / index as real, debt' as real / index' as real;
    var unit := 1.0 / index' as real;
    UnitIsSmall(index');
    RatioFall(debt, index, debt', index');
    RatioRise(debt, index, debt', index');
    Mono(RATE_SCALE, index, debt);
    RealRatio(debt, index, debt, RATE_SCALE);
    ScaledBounds(before, after, unit, debt as real / SCALE);
  }

  lemma RatioFall(debt: nat, index: nat, debt': nat, index': nat)
    requires 0 < index && 0 < index' && debt * index' <= index * debt' + index
    ensures debt as real / index as real <= debt' as real / index' as real + 1.0 / index' as real
  {
    assert RatioLe(debt, index, debt' + 1, index');
    RealRatio(debt, index, debt' + 1, index');
    RealSum(debt', 1, index');
  }

  lemma UnitIsSmall(index: nat)
    requires RATE_SCALE <= index
    ensures SCALE * (1.0 / index as real) <= 1.0
  {
    RealSmall(RATE_SCALE, index);
    assert SCALE * (1.0 / index as real) == SCALE / index as real;
  }

  lemma ScaledBounds(before: real, after: real, unit: real, bound: real)
    requires 0.0 <= before <= bound && SCALE * unit <= 1.0
    requires before <= after + unit && after <= before + before * unit
    ensures SCALE * before <= SCALE * after + 1.0
    ensures SCALE * after <= SCALE * before + bound
  {
    RealMono(SCALE * unit, 1.0, before);
    assert SCALE * (before * unit) == (SCALE * unit) * before;
  }

  /** One accrual: the shares of the books part by at most one token, or by the debt over RATE_SCALE. */
  lemma AccruedShare(r: ReserveData, a: ReserveData)
    requires ReserveInv(r) && Accrued(r, a)
    ensures PoolShare(r) <= PoolShare(a) + (if r.index < a.index then 1.0 else 0.0)
    ensures PoolShare(a) <= PoolShare(r) + (if r.index < a.index then r.borrowed as real / SCALE else 0.0)
  {
    RatioDrift(r.borrowed, r.index, a.borrowed, a.index);
  }

  // ---- One instruction ------------------------------------------------------------------------

  /** What the users' book holds beyond the reserve's, per unit of index. */
  function Gap(s: State, key: Pubkey): real
    requires key in s.pools && 0 < s.pools[key].reserve.index
  {
    Shares(s.users, key) - PoolShare(s.pools[key].reserve)
  }

  /** The one user whose loans the instruction may touch. */
  function LoanUser(ix: Instruction): Option<nat> {
    match ix
    case Borrow(u, _, _, _) => Some(u)
    case Repay(u, _, _) => Some(u)
    case Liquidate(_, u, _, _, _, _) => Some(u)
    case RefreshObligation(u, _, _) => Some(u)
    case _ => None
  }

  /** The instruction may catch a loan of `key` up. */
  predicate Touches(ix: Instruction, key: Pubkey) {
    LoanUser(ix).Some? && (ix.RefreshObligation? || Charges(ix, LoanUser(ix).value, key))
  }

  /** The instruction repays a loan of `key` down to less than a token, which closes it. */
  predicate Closes(s: State, ix: Instruction, key: Pubkey) {
    && Touches(ix, key) && !ix.RefreshObligation? && Exec(s, ix).Ok?
    && var i := LoanUser(ix).value;
    i < |Exec(s, ix).value.users| && UserLoan(Exec(s, ix).value, i, key).None?
  }

  function Unit(b: bool): real {
    if b then 1.0 else 0.0
  }

  lemma {:induction false} SharesUpdate(before: seq<User>, after: seq<User>, key: Pubkey, i: nat)
    requires |before| == |after|
    requires forall j :: 0 <= j < |before| && j != i ==>
      LoanOf(after[j].obligation.borrows, key) == LoanOf(before[j].obligation.borrows, key)
    ensures Shares(after, key) - Shares(before, key)
         == if i < |before|
            then Share(LoanOf(after[i].obligation.borrows, key)) - Share(LoanOf(before[i].obligation.borrows, key))
            else 0.0
  {
    if |before| == 0 {
    } else {
      var n := |before| - 1;
      if i == n {
        SharesUpdate(before[..n], after[..n], key, n);
      } else {
        SharesUpdate(before[..n], after[..n], key, i);
      }
    }
  }

  /** One loan: the share moves by the flow, give or take the rounding. */
  lemma LoanShare(s: State, ix: Instruction, i: nat, key: Pubkey)
    requires Inv(s) && i < |s.users| && key in s.pools && Exec(s, ix).Ok? && LoanUser(ix) == Some(i)
    requires LoanSteps(s, ix, i, key)
    ensures var t := Exec(s, ix).value;
      var f, index := FlowOf(s, ix, key), WithInterest(s, ix, key).index;
      && i < |t.users| && 0 < index
      && var moved, exact := Share(UserLoan(t, i, key)) - Share(UserLoan(s, i, key)),
                             (RATE_SCALE * (f.lent - f.repaid)) as real / index as real;
      && moved <= exact
      && exact - Unit(Touches(ix, key)) / SCALE - Unit(Closes(s, ix, key)) <= moved
  {
    hide Inv, Exec, FlowOf, Share, WithInterest, PoolShare, UserLoan;
    var x, y := UserLoan(s, i, key), UserLoan(Exec(s, ix).value, i, key);
    PoolOk(s, key);
    ReserveStep(s, ix, key);
    if Charges(ix, i, key) {
      MovedShare(x, y, WithInterest(s, ix, key).index,
        RATE_SCALE * (FlowOf(s, ix, key).lent - FlowOf(s, ix, key).repaid));
    } else {
      NoCharge(s, ix, i, key);
      if y != x {
        CaughtUpShare(x.value, y.value);
      }
    }
  }

  lemma NoCharge(s: State, ix: Instruction, i: nat, key: Pubkey)
    requires Exec(s, ix).Ok? && (LoanUser(ix) == Some(i) ==> !Charges(ix, i, key))
    requires LoanUser(ix).None? || LoanUser(ix) == Some(i)
    ensures FlowOf(s, ix, key).lent == FlowOf(s, ix, key).repaid == 0
    ensures LoanUser(ix) == Some(i) && !ix.RefreshObligation? ==> !Touches(ix, key)
  {
    hide Exec;
  }

  lemma IndexPositive(s: State, ix: Instruction, key: Pubkey)
    requires Inv(s) && key in s.pools && Exec(s, ix).Ok?
    ensures 0 < WithInterest(s, ix, key).index
  {
    hide Inv, Exec, WithInterest, FlowOf;
    ReserveStep(s, ix, key);
  }

  /** All loans together: the users' book moves by the flow, give or take the rounding. */
  lemma SharesStep(s: State, ix: Instruction, key: Pubkey)
    requires Inv(s) && key in s.pools && Exec(s, ix).Ok?
    ensures var f, index := FlowOf(s, ix, key), WithInterest(s, ix, key).index;
      && 0 < index
      && var moved, exact := Shares(Exec(s, ix).value.users, key) - Shares(s.users, key),
                             (RATE_SCALE * (f.lent - f.repaid)) as real / index as real;
      && moved <= exact
      && exact - Unit(Touches(ix, key)) / SCALE - Unit(Closes(s, ix, key)) <= moved
  {
    hide Inv, Exec, FlowOf, Share, Shares, WithInterest, PoolShare, UserLoan, LoanSteps, StepFlows, Charges, Touches,
      Closes;
    IndexPositive(s, ix, key);
    var t := Exec(s, ix).value;
    OthersKeepLoans(s, ix, key);
    if ix == InitObligation {
      NoCharge(s, ix, 0, key);
      NewUserShare(s, key);
    } else if LoanUser(ix).Some? {
      var i := LoanUser(ix).value;
      LoanStep(s, ix, i, key);
      LoanShare(s, ix, i, key);
      SharesUpdateAt(s, t, key, i);
    } else {
      NoCharge(s, ix, 0, key);
      SharesUpdateAt(s, t, key, |s.users|);
    }
  }

  lemma SharesUpdateAt(s: State, t: State, key: Pubkey, i: nat)
    requires |s.users| == |t.users|
    requires forall j :: 0 <= j < |s.users| && j != i ==> UserLoan(t, j, key) == UserLoan(s, j, key)
    ensures Shares(t.users, key) - Shares(s.users, key)
         == if i < |s.users| then Share(UserLoan(t, i, key)) - Share(UserLoan(s, i, key)) else 0.0
  {
    forall j | 0 <= j < |s.users| && j != i
      ensures LoanOf(t.users[j].obligation.borrows, key) == LoanOf(s.users[j].obligation.borrows, key)
    {
      assert UserLoan(t, j, key) == UserLoan(s, j, key);
    }
    SharesUpdate(s.users, t.users, key, i);
  }

  lemma OthersKeepLoans(s: State, ix: Instruction, key: Pubkey)
    requires Inv(s) && key in s.pools && Exec(s, ix).Ok?
    ensures ix != InitObligation ==> |Exec(s, ix).value.users| == |s.users|
    ensures LoanUser(ix).Some? ==> LoanUser(ix).value < |s.users|
    ensures |Exec(s, ix).value.users| >= |s.users|
    ensures forall j :: 0 <= j < |s.users| && LoanUser(ix) != Some(j) ==>
      UserLoan(Exec(s, ix).value, j, key) == UserLoan(s, j, key)
  {
    hide Inv, UserLoan, I.Deposit, I.Withdraw, I.Borrow, I.Repay, I.Liquidate, I.RefreshObligation,
      I.WithdrawCollateral;
    forall j | 0 <= j < |s.users| && LoanUser(ix) != Some(j)
      ensures |Exec(s, ix).value.users| >= |s.users| && UserLoan(Exec(s, ix).value, j, key) == UserLoan(s, j, key)
    {
      LoanStep(s, ix, j, key);
    }
  }

  lemma NewUserShare(s: State, key: Pubkey)
    ensures Shares(Exec(s, InitObligation).value.users, key) == Shares(s.users, key)
  {
    var users := Exec(s, InitObligation).value.users;
    assert users[..|users| - 1] == s.users;
    NewObligationWf();
  }

  lemma PoolShareStep(a: ReserveData, q: ReserveData, f: Flow)
    requires 0 < a.index && Flowed(a, q, f)
    ensures PoolShare(q) == PoolShare(a) + (RATE_SCALE * (f.lent - f.repaid)) as real / a.index as real
  {
    var delta := f.lent - f.repaid;
    RealSum(a.borrowed, delta, a.index);
    assert SCALE * (delta as real / a.index as real) == (RATE_SCALE * delta) as real / a.index as real;
  }

  /** The books drift apart by at most this much in one instruction, either way. */
  lemma GapStep(s: State, ix: Instruction, key: Pubkey)
    requires Inv(s) && key in s.pools && Exec(s, ix).Ok?
    ensures var t, r, a := Exec(s, ix).value, s.pools[key].reserve, WithInterest(s, ix, key);
      && key in t.pools && 0 < r.index && 0 < t.pools[key].reserve.index
      && var accrual := r.index < a.index;
      && Gap(t, key) <= Gap(s, key) + Unit(accrual)
      && Gap(s, key) - (if accrual then r.borrowed as real / SCALE else 0.0)
         - Unit(Touches(ix, key)) / SCALE - Unit(Closes(s, ix, key)) <= Gap(t, key)
  {
    hide Inv, Exec, FlowOf, WithInterest, PoolShare, Shares, Touches, Closes, Accrued, Flowed;
    PoolOk(s, key);
    ReserveStep(s, ix, key);
    SharesStep(s, ix, key);
    AccruedShare(s.pools[key].reserve, WithInterest(s, ix, key));
    PoolShareStep(WithInterest(s, ix, key), Exec(s, ix).value.pools[key].reserve, FlowOf(s, ix, key));
    StepIndex(s, ix, key);
  }

  lemma StepIndex(s: State, ix: Instruction, key: Pubkey)
    requires Inv(s) && key in s.pools && Exec(s, ix).Ok?
    ensures key in Exec(s, ix).value.pools && 0 < Exec(s, ix).value.pools[key].reserve.index
  {
    hide Exec, FlowOf, WithInterest;
    ReserveStep(s, ix, key);
  }

  // ---- Runs -----------------------------------------------------------------------------------

  /** How far below the reserve's book the users' book may fall in a run, per unit of index. */
  function Slack(s: State, ixs: seq<Instruction>, key: Pubkey): real {
    if |ixs| == 0 then 0.0
    else
      var earlier, ix := ixs[..|ixs| - 1], ixs[|ixs| - 1];
      var m := Run(s, earlier);
      Slack(s, earlier, key)
      + if Exec(m, ix).Ok? then Unit(Touches(ix, key)) / SCALE + Unit(Closes(m, ix, key)) else 0.0
  }

  /** Over any run by any number of users the books of reserve `key` part by at most one token per accrual
   *  upwards, and by at most the accrued-on debt plus one per catch-up, over RATE_SCALE, plus one token per
   *  closed loan downwards, all times the index.
   */
  lemma {:induction false} LedgersStayClose(s: State, ixs: seq<Instruction>, key: Pubkey)
    requires Inv(s) && key in s.pools
    ensures key in Run(s, ixs).pools && 0 < s.pools[key].reserve.index && 0 < Run(s, ixs).pools[key].reserve.index
    ensures var totals := TotalsOf(s, ixs, key);
      && Gap(Run(s, ixs), key) <= Gap(s, key) + totals.accruals as real
      && Gap(s, key) - totals.accruedDebt as real / SCALE - Slack(s, ixs, key) <= Gap(Run(s, ixs), key)
  {
    hide Inv, Exec, FlowOf, WithInterest, PoolShare, Shares, Touches, Closes, Gap;
    PoolOk(s, key);
    if |ixs| == 0 {
    } else {
      var earlier, ix := ixs[..|ixs| - 1], ixs[|ixs| - 1];
      LedgersStayClose(s, earlier, key);
      RunKeepsInv(s, earlier);
      if Exec(Run(s, earlier), ix).Ok? {
        GapStep(Run(s, earlier), ix, key);
      }
    }
  }

  /** A reserve starts with both books empty. */
  lemma NewReserveGap(s: State, key: Pubkey, config: ReserveConfig)
    requires Inv(s) && Exec(s, AddReserve(key, config)).Ok?
    ensures Gap(Exec(s, AddReserve(key, config)).value, key) == 0.0
  {
    hide PoolInv, ReserveInv, Wf, LoanOf, Share;
    NoShares(s.users, s.pools, key);
  }

  lemma {:induction false} NoShares(users: seq<User>, pools: map<Pubkey, Pool>, key: Pubkey)
    requires forall i :: 0 <= i < |users| ==> UserInv(users[i], pools)
    requires key !in pools
    ensures Shares(users, key) == 0.0
  {
    if |users| == 0 {
    } else {
      NoShares(users[..|users| - 1], pools, key);
      assert UserInv(users[|users| - 1], pools);
    }
  }

  /** Everything owed to reserve `key` once all its loans are caught up with `index`, in scaled tokens. */
  function TotalOwed(users: seq<User>, key: Pubkey, index: nat): nat {
    if |users| == 0 then 0
    else
      var loan := LoanOf(users[|users| - 1].obligation.borrows, key);
      TotalOwed(users[..|users| - 1], key, index)
        + if loan.Some? && loan.value.index > 0 then DebtAt(loan, index) else 0
  }

  lemma {:induction false} OwedWithinShares(users: seq<User>, key: Pubkey, index: nat)
    requires 0 < index
    requires forall i :: 0 <= i < |users| ==>
      var loan := LoanOf(users[i].obligation.borrows, key);
      loan.Some? ==> 0 < loan.value.index <= index
    ensures TotalOwed(users, key, index) as real <= Shares(users, key) * index as real
  {
    hide Share, DebtAt, LoanOf;
    if |users| == 0 {
    } else {
      var n := |users| - 1;
      var loan := LoanOf(users[n].obligation.borrows, key);
      OwedWithinShares(users[..n], key, index);
      NoLoanNoShare(loan);
      RealDistributes(Shares(users[..n], key), Share(loan), index as real);
      if loan.Some? {
        LoanWithinShare(loan.value, index);
      }
    }
  }

  lemma NoLoanNoShare(loan: Option<Loan>)
    ensures loan.None? ==> Share(loan) == 0.0
  {
  }

  lemma RealDistributes(a: real, b: real, c: real)
    ensures (a + b) * c == a * c + b * c
  {
  }

  lemma LoanWithinShare(loan: Loan, index: nat)
    requires 0 < loan.index <= index
    ensures DebtAt(Some(loan), index) as real <= Share(Some(loan)) * index as real
  {
    var d := DebtAt(Some(loan), index);
    DebtAtCatchesUp(loan, index);
    RealRatio(d, index, loan.debt, loan.index);
    RealMono(d as real / index as real, Share(Some(loan)), index as real);
    RealCancels(d, index);
  }

  lemma RealCancels(a: int, b: int)
    requires 0 < b
    ensures (a as real / b as real) * b as real == a as real
  {
  }

  lemma GapInTokens(shares: real, r: ReserveData, n: nat, owed: nat)
    requires 0 < r.index && owed as real <= shares * r.index as real
    requires shares <= PoolShare(r) + n as real
    ensures owed <= RATE_SCALE * r.borrowed + n * r.index
  {
    var debt, index := r.borrowed, r.index;
    var share, c := debt as real / index as real, index as real;
    RealMono(shares, SCALE * share + n as real, c);
    RealDistributes(SCALE * share, n as real, c);
    RealCancels(debt, index);
    assert (SCALE * share) * c == SCALE * (share * c);
    assert n as real * c == (n * index) as real;
  }

  /** From the day a reserve is listed: what all borrowers together owe exceeds the reserve's own record of
   *  the debt by at most one indexed token per accrual.
   */
  lemma BorrowersOweAtMost(s: State, key: Pubkey, config: ReserveConfig, ixs: seq<Instruction>)
    requires Inv(s) && Exec(s, AddReserve(key, config)).Ok?
    ensures var listed := Exec(s, AddReserve(key, config)).value;
      var t := Run(listed, ixs);
      && key in t.pools
      && var r := t.pools[key].reserve;
      TotalOwed(t.users, key, r.index) <= RATE_SCALE * r.borrowed + TotalsOf(listed, ixs, key).accruals * r.index
  {
    hide Inv, Exec, FlowOf, WithInterest, TotalOwed, Shares, PoolShare, TotalsOf;
    var listed := Exec(s, AddReserve(key, config)).value;
    ExecKeepsInv(s, AddReserve(key, config));
    NewReserveGap(s, key, config);
    ListedHasPool(s, key, config);
    LedgersStayClose(listed, ixs, key);
    var t := Run(listed, ixs);
    RunKeepsInv(listed, ixs);
    var r := t.pools[key].reserve;
    LoansBehindReserve(t, key);
    OwedWithinShares(t.users, key, r.index);
    GapInTokens(Shares(t.users, key), r, TotalsOf(listed, ixs, key).accruals, TotalOwed(t.users, key, r.index));
  }

  /** Open loans from reserve `key`. */
  function OpenLoans(users: seq<User>, key: Pubkey): nat {
    if |users| == 0 then 0
    else
      OpenLoans(users[..|users| - 1], key)
      + if LoanOf(users[|users| - 1].obligation.borrows, key).Some? then 1 else 0
  }

  lemma ShareWithinLoan(loan: Loan, index: nat)
    requires 0 < loan.index <= index
    ensures Share(Some(loan)) * index as real <= DebtAt(Some(loan), index) as real + 1.0
  {
    var d := DebtAt(Some(loan), index);
    DebtAtCatchesUp(loan, index);
    RealRatio(loan.debt, loan.index, d + 1, index);
    RealMono(Share(Some(loan)), (d + 1) as real / index as real, index as real);
    RealCancels(d + 1, index);
  }

  /** Catching everybody up now would lose less than one scaled unit per open loan. */
  lemma {:induction false} SharesWithinOwed(users: seq<User>, key: Pubkey, index: nat)
    requires 0 < index
    requires forall i :: 0 <= i < |users| ==>
      var loan := LoanOf(users[i].obligation.borrows, key);
      loan.Some? ==> 0 < loan.value.index <= index
    ensures Shares(users, key) * index as real <= TotalOwed(users, key, index) as real + OpenLoans(users, key) as real
  {
    hide Share, DebtAt, LoanOf;
    if |users| == 0 {
    } else {
      var n := |users| - 1;
      var loan := LoanOf(users[n].obligation.borrows, key);
      SharesWithinOwed(users[..n], key, index);
      NoLoanNoShare(loan);
      RealDistributes(Shares(users[..n], key), Share(loan), index as real);
      if loan.Some? {
        ShareWithinLoan(loan.value, index);
      }
    }
  }

  lemma RecordInTokens(shares: real, r: ReserveData, slack: real, owed: real)
    requires 0 < r.index && shares * r.index as real <= owed && PoolShare(r) <= shares + slack
    ensures (RATE_SCALE * r.borrowed) as real <= owed + slack * r.index as real
  {
    var share, c := r.borrowed as real / r.index as real, r.index as real;
    RealMono(SCALE * share, shares + slack, c);
    RealDistributes(shares, slack, c);
    RealCancels(r.borrowed, r.index);
    assert (SCALE * share) * c == SCALE * (share * c);
    RealProduct(RATE_SCALE, r.borrowed);
  }

  /** The other side: the reserve's own record exceeds what all borrowers together owe by less than one scaled unit per
   *  open loan and, times the index, the accrued-on debt and the catch-ups over RATE_SCALE and one token per loan that
   *  was ever closed.
   */
  lemma RecordExceedsAtMost(s: State, key: Pubkey, config: ReserveConfig, ixs: seq<Instruction>)
    requires Inv(s) && Exec(s, AddReserve(key, config)).Ok?
    ensures var listed := Exec(s, AddReserve(key, config)).value;
      var t := Run(listed, ixs);
      && key in listed.pools && key in t.pools
      && var r := t.pools[key].reserve;
      (RATE_SCALE * r.borrowed) as real
      <= TotalOwed(t.users, key, r.index) as real + OpenLoans(t.users, key) as real
         + (TotalsOf(listed, ixs, key).accruedDebt as real / SCALE + Slack(listed, ixs, key)) * r.index as real
  {
    hide Inv, Exec, FlowOf, WithInterest, TotalOwed, OpenLoans, Shares, PoolShare, TotalsOf, Slack;
    var listed := Exec(s, AddReserve(key, config)).value;
    ExecKeepsInv(s, AddReserve(key, config));
    NewReserveGap(s, key, config);
    ListedHasPool(s, key, config);
    LedgersStayClose(listed, ixs, key);
    var t := Run(listed, ixs);
    RunKeepsInv(listed, ixs);
    var r := t.pools[key].reserve;
    LoansBehindReserve(t, key);
    SharesWithinOwed(t.users, key, r.index);
    RecordInTokens(Shares(t.users, key), r,
      TotalsOf(listed, ixs, key).accruedDebt as real / SCALE + Slack(listed, ixs, key),
                   TotalOwed(t.users, key, r.index) as real + OpenLoans(t.users, key) as real);
  }

  lemma ListedHasPool(s: State, key: Pubkey, config: ReserveConfig)
    requires Exec(s, AddReserve(key, config)).Ok?
    ensures key in Exec(s, AddReserve(key, config)).value.pools
  {
  }

  lemma LoansBehindReserve(s: State, key: Pubkey)
    requires Inv(s) && key in s.pools
    ensures forall i :: 0 <= i < |s.users| ==>
      var loan := LoanOf(s.users[i].obligation.borrows, key);
      loan.Some? ==> RATE_SCALE <= loan.value.index <= s.pools[key].reserve.index
  {
    hide LoanOf;
    forall i | 0 <= i < |s.users| ensures
      var loan := LoanOf(s.users[i].obligation.borrows, key);
      loan.Some? ==> RATE_SCALE <= loan.value.index <= s.pools[key].reserve.index
    {
      UserOk(s, i);
      LoanIndexPositive(s.users[i].obligation);
    }
  }
}
