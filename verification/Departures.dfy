/** Runs from the empty market to the states in which the program departs from what one would expect. */
module Departures {
  import opened Arithmetic
  import opened Numeric
  import opened ReserveModel
  import opened ObligationModel
  import opened ObligationProperties
  import opened Market
  import opened MarketInvariant
  import opened Scenes
  import opened Positions
  import opened Health
  import opened RoundTrips
  import opened Lending
  import opened RateCurve
  import Accruals
  import Guards
  import LoanLife
  import LoanSafety
  import PriceOracle
  import ReserveFlows
  import I = InstructionModel

  // ---- A loan too large to catch up -----------------------------------------------------------

  const LARGE: int := 1_000_000_000_000_000

  /** The first user's loan is stuck, and the obligation that holds it cannot be refreshed. */
  ghost predicate HoldsStuckLoan(s: State) {
    && 0 < |s.users| && ONE in s.pools && LoanLife.Stuck(s, 0, ONE)
    && forall accounts, now :: Exec(s, RefreshObligation(0, accounts, now)).Err?
  }

  function Vast(borrowed: u128, index: u128, years: u8): ReserveData {
    ReserveData(0, borrowed, index, 0, 1, LARGE, years * SLOTS_PER_YEAR, Flat(10_000, 0), 0)
  }

  const VAST_LOAN := BorrowSlot(ONE, LARGE * RATE_SCALE, RATE_SCALE, 0)

  function VastLent(borrowed: u128, index: u128, years: u8): Scene {
    BackingOf(2 * LARGE, 1);
    Scene(years * SLOTS_PER_YEAR, Side(Vast(borrowed, index, years), 0), Side(Backing(2 * LARGE, 1), 2 * LARGE),
          Actor(Pos(DepositSlot(TWO, 2 * LARGE, BackingValue(2 * LARGE, 1)), NOTHING, VAST_LOAN, 0), LARGE, 0, 0, 0),
          Newcomer().(ca := LARGE))
  }

  lemma LentIsVast()
    ensures BackingValue(2 * LARGE, 1) == 2 * LARGE * 80 / 100
    ensures Lent(LARGE, 2 * LARGE, 1, 10_000, 0) == VastLent(LARGE, RATE_SCALE, 0)
    ensures ReserveInv(Vast(LARGE, RATE_SCALE, 0))
    ensures YearOn(Vast(LARGE, RATE_SCALE, 0), 10_000, 0) == Vast(2 * LARGE, 2 * RATE_SCALE, 1)
  {
    hide Pos, BackingValue, Grown, Flat;
    BackingOf(2 * LARGE, 1);
    GrownTwice(LARGE);
    GrownTwice(RATE_SCALE);
  }

  lemma GetsStuck(s: State)
    requires Inv(s) && Shows(s, VastLent(2 * LARGE, 2 * RATE_SCALE, 1))
    ensures HoldsStuckLoan(s)
  {
    hide Exec, Flat, Inv, BackingValue, Pos;
    BackingOf(2 * LARGE, 1);
    var d := DepositSlot(TWO, 2 * LARGE, BackingValue(2 * LARGE, 1));
    LoanOfPos(d, VAST_LOAN, 0);
    PosKeys(d, NOTHING, VAST_LOAN, 0, ONE);
    CountsOfPos(d, VAST_LOAN);
    forall accounts, now ensures Exec(s, RefreshObligation(0, accounts, now)).Err? {
      LoanLife.StuckIsNeverFresh(s, 0, ONE, accounts, now);
    }
  }

  lemma CountsOfPos(d: DepositSlot, b: BorrowSlot)
    requires b.IsActive()
    ensures Pos(d, NOTHING, b, 0).borrowsCount == 1
  {
  }

  /** A loan of 10^15 raw units, a year at 100%: debt times index has left 128 bits, and the loan stays as it is in
   *  every run from here on.
   */
  lemma LargeLoanGetsStuck()
    ensures exists ixs :: HoldsStuckLoan(Run(GENESIS, ixs))
  {
    hide Run, Reachable, Flat, Lent, ReserveInv, YearOn, Shows, HoldsStuckLoan, Pos, Inv;
    LentIsVast();
    Lends(LARGE, 2 * LARGE, 1, 10_000, 0);
    Waits(VastLent(LARGE, RATE_SCALE, 0), 10_000, 0);
    var ixs := RunTo(VastLent(2 * LARGE, 2 * RATE_SCALE, 1));
    ReserveFlows.ReachableInv(ixs);
    GetsStuck(Run(GENESIS, ixs));
  }

  lemma BackingOf(m: u64, p: u64)
    ensures BackingValue(m, p) == m * p * 80 / 100
  {
  }

  // ---- A reserve whose interest cannot be booked ----------------------------------------------

  /** The first reserve stays as it is in every run that does not give it another configuration. */
  ghost predicate HasStalled(s: State) {
    && ONE in s.pools && Inv(s) && ReserveInv(s.pools[ONE].reserve) && Guards.Stalled(s, ONE)
    && forall ixs: seq<Instruction> :: (forall ix :: ix in ixs ==> !(ix.UpdateConfig? && ix.reserve == ONE)) ==>
         ONE in Run(s, ixs).pools && Run(s, ixs).pools[ONE].reserve == s.pools[ONE].reserve
  }

  /** Nothing was ever deposited; `years` at 100% have gone by, each booked by a price refresh. */
  function Idle(index: u128, years: u8): Scene {
    var c := Flat(10_000, 0);
    var r := NewReserve(0, c).(index := index, lastUpdateSlot := years * SLOTS_PER_YEAR, price := 1);
    Opening(c, c).(slot := years * SLOTS_PER_YEAR, one := Side(r, 0))
  }

  lemma {:induction false} IndexDoubles(years: u8)
    requires years <= 49
    ensures LoanSafety.Pow2(years) <= 0x2_0000_0000_0000 && Reachable(Idle(LoanSafety.Pow2(years) * RATE_SCALE, years))
  {
    hide Reachable, Leads, I.RefreshReserve, Flat, NewObligation;
    if years == 0 {
      var c := Flat(10_000, 0);
      Opens(c, c);
      Prices(c, 0, 1);
      ThenPrice(Opening(c, c), ONE, 1, Idle(RATE_SCALE, 0));
    } else {
      IndexDoubles(years - 1);
      PowersGrow(years - 1, 48);
      LargePowers();
      var index := LoanSafety.Pow2(years - 1) * RATE_SCALE;
      IdleYear(index, years - 1);
      Waits(Idle(index, years - 1), 10_000, 0);
    }
  }

  lemma {:induction false} PowersGrow(n: nat, m: nat)
    requires n <= m
    ensures 1 <= LoanSafety.Pow2(n) <= LoanSafety.Pow2(m)
  {
    if n < m {
      PowersGrow(n, m - 1);
    } else if 0 < n {
      PowersGrow(n - 1, m - 1);
    }
  }

  lemma {:induction false} PowersMultiply(n: nat, m: nat)
    ensures LoanSafety.Pow2(n + m) == LoanSafety.Pow2(n) * LoanSafety.Pow2(m)
  {
    if 0 < n {
      PowersMultiply(n - 1, m);
    }
  }

  lemma LargePowers()
    ensures LoanSafety.Pow2(48) == 0x1_0000_0000_0000 && LoanSafety.Pow2(49) == 0x2_0000_0000_0000
  {
    assert LoanSafety.Pow2(3) == 8;
    PowersMultiply(3, 3);
    PowersMultiply(6, 6);
    PowersMultiply(12, 12);
    PowersMultiply(24, 24);
  }

  lemma IdleYear(index: u128, years: u8)
    requires RATE_SCALE <= index <= LARGEST_INDEX && years < 49
    ensures ReserveInv(Idle(index, years).one.reserve)
    ensures YearLater(Idle(index, years), 10_000, 0) == Idle(2 * index, years + 1)
  {
    hide Flat, NewObligation;
    GrownTwice(index);
    GrownTwice(0);
  }

  /** After forty-nine years at 100% the index cannot double once more, with nothing ever deposited: from the next year
   *  on the reserve refuses everything that needs its interest booked.
   */
  lemma ReserveStalls()
    ensures exists ixs :: HasStalled(Run(GENESIS, ixs))
  {
    hide Run, Reachable, Flat, Shows, HasStalled, Inv, Leads, NewObligation;
    IndexDoubles(49);
    LargePowers();
    var x := Idle(2 * LARGEST_INDEX, 49);
    var y := x.(slot := x.slot + SLOTS_PER_YEAR);
    ThenAdvance(x, SLOTS_PER_YEAR, y);
    var ixs := RunTo(y);
    ReserveFlows.ReachableInv(ixs);
    Stalls(Run(GENESIS, ixs), y);
  }

  lemma Stalls(s: State, y: Scene)
    requires Inv(s) && Shows(s, y)
    requires var x := Idle(2 * LARGEST_INDEX, 49); y == x.(slot := x.slot + SLOTS_PER_YEAR)
    ensures HasStalled(s)
  {
    hide Run, Inv, Accruals.Accruable, Plays, Flat, NewObligation;
    MarketInvariant.PoolOk(s, ONE);
    NeverAccrues(s.pools[ONE].reserve, y.slot);
    forall ixs: seq<Instruction> | forall ix :: ix in ixs ==> !(ix.UpdateConfig? && ix.reserve == ONE)
      ensures ONE in Run(s, ixs).pools && Run(s, ixs).pools[ONE].reserve == s.pools[ONE].reserve
    {
      Guards.StalledForever(s, ixs, ONE);
    }
  }

  lemma NeverAccrues(r: ReserveData, slot: u64)
    requires ReserveInv(r) && r.config == Flat(10_000, 0) && r.borrowed == 0 && r.index == 2 * LARGEST_INDEX
    requires slot == r.lastUpdateSlot + SLOTS_PER_YEAR
    ensures !Accruals.Accruable(r, slot)
  {
    hide Accruals.Percent, Accruals.RateOver, Flat;
    RateOfYear(r);
    assert U128_MAX < RATE_SCALE * (2 * LARGEST_INDEX);
  }

  lemma RateOfYear(r: ReserveData)
    requires ReserveInv(r) && r.config == Flat(10_000, 0)
    ensures Accruals.RateOver(r, SLOTS_PER_YEAR) == RATE_SCALE
  {
    hide Accruals.Percent, ReserveInv;
    assert Flat(10_000, 0).BorrowRate(Accruals.Percent(r) * 100 % U16_MODULUS) == 10_000;
    assert 10_000 * SLOTS_PER_YEAR * RATE_SCALE / SLOTS_PER_YEAR / BPS_SCALER == RATE_SCALE;
  }

  // ---- The record falls behind ----------------------------------------------------------------

  /** A loan of one token at 60% a year. */
  function Lone(index: u128, years: u8): ReserveData {
    ReserveData(0, 1, index, 0, 1, 1, years * SLOTS_PER_YEAR, Flat(6_000, 0), 0)
  }

  function Owing(index: u128, years: u8): Scene {
    BackingOf(10, 1);
    Scene(years * SLOTS_PER_YEAR, Side(Lone(index, years), 0), Side(Backing(10, 1), 10),
          Actor(Pos(DepositSlot(TWO, 10, BackingValue(10, 1)), NOTHING, BorrowSlot(ONE, RATE_SCALE, RATE_SCALE, 0), 0),
            1, 0, 0, 0),
          Newcomer().(ca := 1))
  }

  /** After two years the record still says one token, and the borrower owes 2.56. */
  function Behind(): Scene {
    Owing(2_560_000_000_000, 2)
  }

  lemma GrowthOfOne()
    ensures Grown(1, 6_000) == 1 && Grown(RATE_SCALE, 6_000) == 1_600_000_000_000
    ensures Grown(1_600_000_000_000, 6_000) == 2_560_000_000_000
  {
  }

  lemma LoneYear(index: u128, years: u8, grown: u128)
    requires index <= 4 * RATE_SCALE && years < 0xFF && Grown(index, 6_000) == grown && Grown(1, 6_000) == 1
    ensures YearOn(Lone(index, years), 6_000, 0) == Lone(grown, years + 1)
  {
    hide Grown, Flat;
  }

  lemma LentIsOwing()
    ensures BackingValue(10, 1) == 8 && Lent(1, 10, 1, 6_000, 0) == Owing(RATE_SCALE, 0)
    ensures ReserveInv(Lone(RATE_SCALE, 0)) && ReserveInv(Lone(1_600_000_000_000, 1))
  {
    hide Pos, BackingValue;
    BackingOf(10, 1);
  }

  lemma FallsBehind()
    ensures Reachable(Behind())
  {
    hide Reachable, Leads, Grown, Pos, BackingValue, Flat, Lent, YearOn, ReserveInv;
    LentIsOwing();
    Lends(1, 10, 1, 6_000, 0);
    GrowthOfOne();
    LoneYear(RATE_SCALE, 0, 1_600_000_000_000);
    LoneYear(1_600_000_000_000, 1, 2_560_000_000_000);
    Waits(Owing(RATE_SCALE, 0), 6_000, 0);
    Waits(Owing(1_600_000_000_000, 1), 6_000, 0);
  }

  /** The recorded token has been repaid. */
  function Stranded(): Scene {
    BackingOf(10, 1);
    var x, d, index := Behind(), DepositSlot(TWO, 10, BackingValue(10, 1)), 2_560_000_000_000;
    x.(one := x.one.(reserve := x.one.reserve.(available := 1, borrowed := 0)),
       alice := Actor(Pos(d, NOTHING, BorrowSlot(ONE, index - RATE_SCALE, index, 0), 0), 0, 0, 0, 0))
  }

  /** No more than that one token can be repaid. After it 1.56 tokens are owed, and no repayment of any size is
   *  accepted.
   */
  lemma RecordFallsBehind()
    ensures Reachable(Behind()) && Refuses(Behind(), Repay(0, ONE, 2))
    ensures Leads(Behind(), Repay(0, ONE, 1), Stranded()) && Reachable(Stranded())
    ensures var x := Stranded();
      && LoanOf(x.alice.obligation.borrows, ONE) == Some(Loan(1_560_000_000_000, 2_560_000_000_000))
      && forall n: u64 :: Refuses(x, Repay(0, ONE, n))
  {
    hide Reachable, Leads, Refuses, I.Repay, Pos, BackingValue, Flat;
    BackingOf(10, 1);
    FallsBehind();
    var x, y := Behind(), Stranded();
    var d, b := DepositSlot(TWO, 10, 8), BorrowSlot(ONE, RATE_SCALE, RATE_SCALE, 0);
    var c := BorrowSlot(ONE, 1_560_000_000_000, 2_560_000_000_000, 0);
    CatchesUp();
    RepayPos(x.one.reserve, d, b, ONE, 1, 0, x.slot, 2_560_000_000_000);
    ThenRepay(x, 0, ONE, 1, y);
    LoanOfPos(d, c, 0);
    forall n: u64 ensures Refuses(y, Repay(0, ONE, n)) {
      BeyondRecord(y.one.reserve, y.alice.obligation, n, y.slot);
      RefusesRepay(y, 0, ONE, n);
    }
    BeyondRecord(x.one.reserve, x.alice.obligation, 2, x.slot);
    RefusesRepay(x, 0, ONE, 2);
  }

  lemma CatchesUp()
    ensures BorrowSlot(ONE, RATE_SCALE, RATE_SCALE, 0).Accrue(2_560_000_000_000)
         == Ok(BorrowSlot(ONE, 2_560_000_000_000, 2_560_000_000_000, 0))
  {
    WholeShare(RATE_SCALE, 2_560_000_000_000);
  }

  lemma BeyondRecord(r: ReserveData, o: ObligationData, n: u64, slot: u64)
    requires slot <= r.lastUpdateSlot && (r.borrowed < n || n == 0)
    ensures I.Repay(r, o, ONE, n, slot).Err?
  {
  }

  // ---- A quote that wraps ---------------------------------------------------------------------

  const HUGE: int := 0x8000_0000_0000_0000

  /** The reserve after a year at 100% on all of 2^63 tokens: a share of all its cTokens is worth 2^64. */
  function Wrapping(): ReserveData {
    ReserveData(0, U64_MODULUS, 2 * RATE_SCALE, 0, 1, HUGE, SLOTS_PER_YEAR, Flat(10_000, 0), 0)
  }

  function Wrapped(): Scene {
    BackingOf(HUGE, 2);
    Lent(HUGE, HUGE, 2, 10_000, 0).(slot := SLOTS_PER_YEAR, one := Side(Wrapping(), 0))
  }

  lemma GetsWrapped()
    ensures Reachable(Wrapped())
  {
    hide Reachable, Leads, Pos, Grown, BackingValue;
    BackingOf(HUGE, 2);
    Lends(HUGE, HUGE, 2, 10_000, 0);
    GrownTwice(HUGE);
    GrownTwice(RATE_SCALE);
    var x := Lent(HUGE, HUGE, 2, 10_000, 0);
    Waits(x, 10_000, 0);
    assert YearLater(x, 10_000, 0).one.reserve == Wrapping();
  }

  /** All the cTokens own the whole claim. */
  lemma WorthIs(r: ReserveData, n: u64)
    requires ReserveInv(r) && r.ctokens == n && 0 < n
    ensures Worth(r, n) == r.Supply()
  {
    WholeShare(n, r.Supply());
  }

  lemma QuoteOfAll(r: ReserveData, n: u64)
    requires ReserveInv(r) && r.ctokens == n && 0 < n && n * r.Supply() <= U128_MAX
    ensures Quote(r, n) == Ok(r.Supply() % U64_MODULUS)
  {
    hide Quote, Worth;
    WorthIs(r, n);
    QuoteIs(r, n);
  }

  /** Redeeming all the cTokens pays the whole claim, reduced to 64 bits. */
  lemma RedeemsAll(r: ReserveData, n: u64)
    requires ReserveInv(r) && r.config.IsActive() && r.ctokens == n && 0 < n && n * r.Supply() <= U128_MAX
    requires r.Supply() % U64_MODULUS <= r.available
    ensures var paid := r.Supply() % U64_MODULUS;
      I.Withdraw(r, n, r.lastUpdateSlot) == Ok((r.(available := r.available - paid, ctokens := 0), paid))
  {
    hide ReserveData.RedeemCollateral, Worth;
    WorthIs(r, n);
    RedeemIs(r, n);
  }

  /** The lender's quote has fallen from 2^63 to nothing, and redeeming everything burns it for nothing. */
  lemma QuoteWraps()
    ensures Reachable(Wrapped()) && Wrapped().bob.ca == HUGE && Wrapping().Supply() == U64_MODULUS
    ensures Quote(Lender(HUGE, 10_000, 0), HUGE) == Ok(HUGE) && Quote(Wrapping(), HUGE) == Ok(0)
    ensures var x := Wrapped();
      Leads(x, Withdraw(1, ONE, HUGE), x.(one := Side(Wrapping().(ctokens := 0), 0), bob := x.bob.(ca := 0)))
  {
    hide Reachable, Leads, Pos, I.Withdraw, Quote, Flat, BackingValue;
    GetsWrapped();
    QuoteOfAll(Lender(HUGE, 10_000, 0), HUGE);
    QuoteOfAll(Wrapping(), HUGE);
    RedeemsAll(Wrapping(), HUGE);
    var x := Wrapped();
    ThenWithdraw(x, 1, ONE, HUGE, x.(one := Side(Wrapping().(ctokens := 0), 0), bob := x.bob.(ca := 0)));
  }

  // ---- A pool without depositors --------------------------------------------------------------

  /** The lender's reserve at 100% a year and a fee of a tenth. */
  function Tithed(available: u64, borrowed: u128, fees: u128, index: u128, ctokens: u64, years: u8): ReserveData {
    ReserveData(available, borrowed, index, fees, 1, ctokens, years * SLOTS_PER_YEAR, Flat(10_000, 1_000), 0)
  }

  function Tithing(years: u8, reserve: ReserveData, debt: u128, index: u128, a: nat, bob: nat, shares: nat): Scene {
    BackingOf(10_000, 1);
    Scene(years * SLOTS_PER_YEAR, Side(reserve, 0), Side(Backing(10_000, 1), 10_000),
          Actor(Pos(DepositSlot(TWO, 10_000, BackingValue(10_000, 1)), NOTHING, BorrowSlot(ONE, debt, index, 0), 0),
            a, 0, 0, 0),
          Newcomer().(a := bob, ca := shares))
  }

  /** 1000 tokens lent, the same a year later, and when 1900 are repaid and all cTokens redeemed. */
  function Started(): Scene {
    Tithing(0, Tithed(0, 1_000, 0, RATE_SCALE, 1_000, 0), 1_000 * RATE_SCALE, RATE_SCALE, 1_000, 0, 1_000)
  }

  function Matured(): Scene {
    Tithing(1, Tithed(0, 2_000, 100, 2 * RATE_SCALE, 1_000, 1), 1_000 * RATE_SCALE, RATE_SCALE, 1_000, 0, 1_000)
  }

  function Emptied(): Scene {
    Tithing(1, Tithed(0, 100, 100, 2 * RATE_SCALE, 0, 1), 100 * RATE_SCALE, 2 * RATE_SCALE, 100, 1_900, 0)
  }

  lemma TithedYear(available: u64, borrowed: u64, fees: u64, index: u128, ctokens: u64, years: u8)
    requires index <= 4 * RATE_SCALE && fees + borrowed / 10 <= U64_MAX && years < 0xFF
    ensures YearOn(Tithed(available, borrowed, fees, index, ctokens, years), 10_000, 1_000)
         == Tithed(available, 2 * borrowed, fees + borrowed / 10, 2 * index, ctokens, years + 1)
  {
    hide Grown, Flat;
    GrownTwice(borrowed);
    GrownTwice(index);
  }

  lemma LentIsTithing()
    ensures BackingValue(10_000, 1) == 8_000
    ensures Lent(1_000, 10_000, 1, 10_000, 1_000) == Started()
    ensures ReserveInv(Tithed(0, 1_000, 0, RATE_SCALE, 1_000, 0))
  {
    hide Pos, BackingValue;
    BackingOf(10_000, 1);
  }

  /** The first year over: 1000 tokens lent have become 2000, of which 1900 are the depositor's. */
  lemma FirstYear()
    ensures Reachable(Matured())
  {
    hide Reachable, Leads, Pos, YearOn, BackingValue, Flat, Lent, ReserveInv;
    LentIsTithing();
    Lends(1_000, 10_000, 1, 10_000, 1_000);
    TithedYear(0, 1_000, 0, RATE_SCALE, 1_000, 0);
    Waits(Started(), 10_000, 1_000);
  }

  /** The borrower repays 1900. */
  function Refilled(): Scene {
    Tithing(1, Tithed(1_900, 100, 100, 2 * RATE_SCALE, 1_000, 1), 100 * RATE_SCALE, 2 * RATE_SCALE, 100, 0, 1_000)
  }

  lemma Refills()
    ensures Reachable(Refilled())
  {
    hide Reachable, Leads, Pos, BackingValue, I.Repay, Flat;
    BackingOf(10_000, 1);
    var r := Tithed(0, 2_000, 100, 2 * RATE_SCALE, 1_000, 1);
    var x1 := Tithing(1, r, 1_000 * RATE_SCALE, RATE_SCALE, 2_000, 0, 1_000);
    FirstYear();
    ThenFund(Matured(), 0, ONE, 1_000, x1);
    RepaysAt(r, 1_000 * RATE_SCALE, RATE_SCALE, 2_000 * RATE_SCALE, 1_900);
    ThenRepay(x1, 0, ONE, 1_900, Refilled());
  }

  /** The depositor redeems everything and leaves; no tokens and no cTokens remain. */
  lemma Empties()
    ensures Reachable(Emptied())
  {
    hide Reachable, Leads, Pos, BackingValue, I.Withdraw, Flat;
    BackingOf(10_000, 1);
    Refills();
    RedeemsAll(Refilled().one.reserve, 1_000);
    ThenWithdraw(Refilled(), 1, ONE, 1_000, Emptied());
  }

  lemma RepaysAt(r: ReserveData, debt: u128, index: u128, due: u128, n: u64)
    requires 0 < n <= r.borrowed && r.available + n <= U64_MAX && r.config.IsActive()
    requires BorrowSlot(ONE, debt, index, 0).Accrue(r.index) == Ok(BorrowSlot(ONE, due, r.index, 0))
    requires n * RATE_SCALE + RATE_SCALE <= due
    ensures BackingValue(10_000, 1) <= U128_MAX
    ensures var d := DepositSlot(TWO, 10_000, BackingValue(10_000, 1));
      I.Repay(r, Pos(d, NOTHING, BorrowSlot(ONE, debt, index, 0), 0), ONE, n, r.lastUpdateSlot)
      == Ok((r.(available := r.available + n, borrowed := r.borrowed - n),
             Pos(d, NOTHING, BorrowSlot(ONE, due - n * RATE_SCALE, r.index, 0), 0)))
  {
    hide Pos, I.Repay, BackingValue, Flat;
    BackingOf(10_000, 1);
    RepayPos(r, DepositSlot(TWO, 10_000, 8_000), BorrowSlot(ONE, debt, index, 0), ONE, n, 0, r.lastUpdateSlot, due);
  }

  /** A year on, the borrower's remaining debt has earned interest that belongs to nobody: no cTokens, a claim of 90. */
  function Leftover(): Scene {
    Tithing(2, Tithed(0, 200, 110, 4 * RATE_SCALE, 0, 2), 100 * RATE_SCALE, 2 * RATE_SCALE, 100, 1_900, 0)
  }

  lemma LeavesSomething()
    ensures Reachable(Leftover())
  {
    hide Reachable, Leads, Pos, YearOn, BackingValue;
    BackingOf(10_000, 1);
    Empties();
    TithedYear(0, 100, 100, 2 * RATE_SCALE, 0, 1);
    Waits(Emptied(), 10_000, 1_000);
  }

  /** A reachable pool without cTokens but with a claim. Once some of the debt is repaid, whoever deposits ten tokens
   *  and redeems them at once walks away with a hundred.
   */
  lemma FirstDepositorGains()
    ensures Reachable(Leftover()) && Leftover().one.reserve.ctokens == 0 && Leftover().one.reserve.Supply() == 90
    ensures var r := Tithed(100, 100, 110, 4 * RATE_SCALE, 0, 2);
      && Leads(Leftover(), Repay(0, ONE, 100), Tithing(2, r, 100 * RATE_SCALE, 4 * RATE_SCALE, 0, 1_900, 0))
      && Reachable(Tithing(2, r, 100 * RATE_SCALE, 4 * RATE_SCALE, 0, 1_900, 0))
      && PaidBack(r, 10) == Ok(100)
      && Reachable(Tithing(2, r.(available := 10), 100 * RATE_SCALE, 4 * RATE_SCALE, 0, 1_990, 0))
  {
    hide Reachable, Leads, Pos, BackingValue, I.Repay, I.Deposit, I.Withdraw, Flat, PaidBack;
    BackingOf(10_000, 1);
    var r := Tithed(100, 100, 110, 4 * RATE_SCALE, 0, 2);
    var x1 := Tithing(2, r, 100 * RATE_SCALE, 4 * RATE_SCALE, 0, 1_900, 0);
    var s := r.(available := 110, ctokens := 10);
    var x2 := Tithing(2, s, 100 * RATE_SCALE, 4 * RATE_SCALE, 0, 1_890, 10);
    var x3 := Tithing(2, r.(available := 10), 100 * RATE_SCALE, 4 * RATE_SCALE, 0, 1_990, 0);
    LeavesSomething();
    RepaysAt(Leftover().one.reserve, 100 * RATE_SCALE, 2 * RATE_SCALE, 200 * RATE_SCALE, 100);
    ThenRepay(Leftover(), 0, ONE, 100, x1);
    MintsOneToOne(r, 10);
    ThenDeposit(x1, 1, ONE, 10, x2);
    RedeemsAll(s, 10);
    ThenWithdraw(x2, 1, ONE, 10, x3);
    PaidAtOnce(r, 10);
  }

  lemma MintsOneToOne(r: ReserveData, n: u64)
    requires ReserveInv(r) && r.config == Flat(10_000, 1_000) && r.ctokens == 0 && 0 < n && r.Supply() + n <= U64_MAX
    requires r.available + n <= U64_MAX
    ensures I.Deposit(r, n, r.lastUpdateSlot) == Ok((r.(available := r.available + n, ctokens := n), n))
  {
    hide ReserveData.CurrentBorrowRate;
  }

  /** A deposit and a redemption in the slot of the last accrual, as one round trip. */
  lemma PaidAtOnce(r: ReserveData, n: u64)
    requires I.Deposit(r, n, r.lastUpdateSlot).Ok?
    requires var (s, minted) := I.Deposit(r, n, r.lastUpdateSlot).value; I.Withdraw(s, minted, r.lastUpdateSlot).Ok?
    ensures var (s, minted) := I.Deposit(r, n, r.lastUpdateSlot).value;
      s.lastUpdateSlot == r.lastUpdateSlot && PaidBack(r, n) == Ok(I.Withdraw(s, minted, r.lastUpdateSlot).value.1)
  {
    hide ReserveData.CurrentBorrowRate, ReserveData.CollateralExchangeRate;
  }

  // ---- A rate beyond its maximum --------------------------------------------------------------

  ghost predicate Overcharges(s: State, rate: u16) {
    && ONE in s.pools
    && s.pools[ONE].reserve.CurrentBorrowRate() == Ok(rate)
    && s.pools[ONE].reserve.config.maxBorrowRate < rate
  }

  /** With all idle liquidity lent out, debt exceeds the depositors' claim by the fees: utilization is 105%, and a curve
   *  that ends at one basis point charges 501.
   */
  lemma ChargesBeyondMaximum()
    ensures exists ixs :: Overcharges(Run(GENESIS, ixs), 501)
  {
    hide Run, Exec, Reachable, Pos, Shows, Flat, BackingValue;
    FirstYear();
    BackingOf(10_000, 1);
    var ixs := RunTo(Matured());
    RunSnoc(ixs, UpdateConfig(ONE, STEEP));
    Reconfigures(Run(GENESIS, ixs), Matured(), STEEP);
    FullyLent(Matured().one.reserve);
    assert Overcharges(Run(GENESIS, ixs + [UpdateConfig(ONE, STEEP)]), 501);
  }

  lemma Reconfigures(s: State, x: Scene, config: ReserveConfig)
    requires Shows(s, x) && config.Validated()
    ensures ONE in Step(s, UpdateConfig(ONE, config)).pools
    ensures Step(s, UpdateConfig(ONE, config)).pools[ONE].reserve == x.one.reserve.(config := config)
    ensures Shows(Step(s, UpdateConfig(ONE, config)), x.(one := x.one.(reserve := x.one.reserve.(config := config))))
  {
    hide Plays;
  }

  lemma FullyLent(r: ReserveData)
    requires r.available == 0 && r.borrowed == 2_000 && r.fees == 100
    ensures r.(config := STEEP).CurrentBorrowRate() == Ok(501)
  {
    assert 2_000 * PERCENT_SCALER / 1_900 == 105;
    assert STEEP.Curve(10_500) == 501;
  }

  // ---- An over-lent pool charged as if idle ---------------------------------------------------

  ghost predicate ChargesAt(s: State, utilization: u128, rate: u16) {
    && ONE in s.pools
    && s.pools[ONE].reserve.UtilizationRate() == Ok(utilization) && s.pools[ONE].reserve.CurrentBorrowRate() == Ok(rate)
  }

  /** Of 1000 cTokens 993 are redeemed: 14 tokens are left against a debt of 100 and fees of 100. */
  function OverLent(c: ReserveConfig): Scene {
    Tithing(1, Tithed(14, 100, 100, 2 * RATE_SCALE, 7, 1).(config := c), 100 * RATE_SCALE,
      2 * RATE_SCALE, 100, 1_886, 7)
  }

  lemma GetsOverLent()
    ensures Reachable(OverLent(Flat(10_000, 1_000)))
  {
    hide Reachable, Leads, Pos, BackingValue, I.Withdraw, Flat;
    BackingOf(10_000, 1);
    Refills();
    RedeemsMost(Refilled().one.reserve);
    ThenWithdraw(Refilled(), 1, ONE, 993, OverLent(Flat(10_000, 1_000)));
  }

  lemma RedeemsMost(r: ReserveData)
    requires r == Tithed(1_900, 100, 100, 2 * RATE_SCALE, 1_000, 1)
    ensures I.Withdraw(r, 993, r.lastUpdateSlot) == Ok((r.(available := 14, ctokens := 7), 1_886))
  {
    hide ReserveData.RedeemCollateral;
    assert Worth(r, 993) == 1_886;
    RedeemIs(r, 993);
  }

  /** At a utilization of 714%, read as 58.64%, the curve that ends at one basis point charges nothing; once 85 tokens
   *  of the debt are repaid the utilization is 107% and it charges 701. */
  lemma OverLentChargesNothing()
    ensures exists ixs ::
      ChargesAt(Run(GENESIS, ixs), 714, 0) && ChargesAt(Run(GENESIS, ixs + [Repay(0, ONE, 85)]), 107, 701)
  {
    hide Run, Exec, Reachable, Shows, Leads, Pos, BackingValue, Flat, I.Repay, ChargesAt;
    GetsOverLent();
    BackingOf(10_000, 1);
    var ixs := RunTo(OverLent(Flat(10_000, 1_000)));
    var update, repay := UpdateConfig(ONE, STEEP), Repay(0, ONE, 85);
    RunSnoc(ixs, update);
    Reconfigures(Run(GENESIS, ixs), OverLent(Flat(10_000, 1_000)), STEEP);
    var x := OverLent(STEEP);
    Reached(ixs + [update], x);
    RunSnoc(ixs + [update], repay);
    RepaysAt(x.one.reserve, 100 * RATE_SCALE, 2 * RATE_SCALE, 100 * RATE_SCALE, 85);
    var r := Tithed(99, 15, 100, 2 * RATE_SCALE, 7, 1).(config := STEEP);
    var y := Tithing(1, r, 15 * RATE_SCALE, 2 * RATE_SCALE, 15, 1_886, 7);
    ThenRepay(x, 0, ONE, 85, y);
    LeadsOn(Run(GENESIS, ixs + [update]), x, repay, y);
    ReadsWrapped(x.one.reserve, r);
    ShowsRate(Run(GENESIS, ixs + [update]), x, 714, 0);
    ShowsRate(Run(GENESIS, ixs + [update] + [repay]), y, 107, 701);
  }

  lemma LeadsOn(s: State, x: Scene, ix: Instruction, y: Scene)
    requires Shows(s, x) && Leads(x, ix, y)
    ensures Shows(Step(s, ix), y)
  {
    hide Exec, Shows;
  }

  lemma ShowsRate(s: State, x: Scene, utilization: u128, rate: u16)
    requires Shows(s, x) && x.one.reserve.UtilizationRate() == Ok(utilization)
      && x.one.reserve.CurrentBorrowRate() == Ok(rate)
    ensures ChargesAt(s, utilization, rate)
  {
  }

  lemma ReadsWrapped(r: ReserveData, q: ReserveData)
    requires r.available == 14 && r.borrowed == 100 && r.fees == 100 && r.config == STEEP
    requires q.available == 99 && q.borrowed == 15 && q.fees == 100 && q.config == STEEP
    ensures r.UtilizationRate() == Ok(714) && r.CurrentBorrowRate() == Ok(0)
    ensures q.UtilizationRate() == Ok(107) && q.CurrentBorrowRate() == Ok(701)
  {
    assert 100 * PERCENT_SCALER / 14 == 714 && 15 * PERCENT_SCALER / 14 == 107;
    assert 71_400 % U16_MODULUS == 5_864 && STEEP.Curve(5_864) == 0 && STEEP.Curve(10_700) == 701;
  }

  // ---- A rate for slots gone by ---------------------------------------------------------------

  /** A thousand tokens lent at no interest. */
  function Free(slot: u64, stamp: u64, c: ReserveConfig, debt: u128, index: u128): Scene {
    BackingOf(10_000, 1);
    var x := Lent(1_000, 10_000, 1, 0, 0);
    x.(slot := slot, one := x.one.(reserve := x.one.reserve.(
      lastUpdateSlot := stamp, config := c, borrowed := debt, index := index)))
  }

  ghost predicate Records(s: State, debt: u128) {
    ONE in s.pools && s.pools[ONE].reserve.borrowed == debt && s.pools[ONE].reserve.lastUpdateSlot == s.slot
  }

  lemma YearForFree(r: ReserveData)
    requires ReserveInv(r) && r.config == Flat(0, 0) && r.borrowed <= U64_MAX && r.price == 1 && r.priceTime == 0
    requires r.lastUpdateSlot + SLOTS_PER_YEAR <= U64_MAX
    ensures I.RefreshReserve(r, Quoted(1), r.lastUpdateSlot + SLOTS_PER_YEAR, 0)
         == Ok(r.(lastUpdateSlot := r.lastUpdateSlot + SLOTS_PER_YEAR))
  {
    hide ReserveData.CurrentBorrowRate, PriceOracle.ReadPrice;
    QuotedIsStored(1);
    FlatRate(r, 0, 0);
  }

  /** A loan of a thousand tokens has been free for a year. Booked first, the year costs nothing; if the rate is set to
   *  100% first, the year now over costs another thousand.
   */
  lemma NewRateReachesBack()
    ensures exists ixs ::
      && Records(Run(GENESIS, ixs + [RefreshReserve(ONE, Quoted(1), 0)]), 1_000)
      && Records(Run(GENESIS, ixs + [UpdateConfig(ONE, Flat(10_000, 0))] + [RefreshReserve(ONE, Quoted(1), 0)]), 2_000)
  {
    hide Run, Exec, Reachable, Shows, Leads, Pos, Flat, BackingValue, I.RefreshReserve, Records;
    var year, none, full := SLOTS_PER_YEAR, Flat(0, 0), Flat(10_000, 0);
    BackingOf(10_000, 1);
    Lends(1_000, 10_000, 1, 0, 0);
    var x := Free(year, 0, none, 1_000, RATE_SCALE);
    ThenAdvance(Free(0, 0, none, 1_000, RATE_SCALE), year, x);
    var ixs := RunTo(x);
    var refresh, update := RefreshReserve(ONE, Quoted(1), 0), UpdateConfig(ONE, full);
    var free := Free(year, year, none, 1_000, RATE_SCALE);
    FreeIsSound(none);
    YearForFree(x.one.reserve);
    ThenPrice(x, ONE, 1, free);
    RunSnoc(ixs, refresh);
    LeadsOn(Run(GENESIS, ixs), x, refresh, free);
    ShowsRecord(Run(GENESIS, ixs + [refresh]), free);
    var y, dear := Free(year, 0, full, 1_000, RATE_SCALE), Free(year, year, full, 2_000, 2 * RATE_SCALE);
    RunSnoc(ixs, update);
    Reconfigures(Run(GENESIS, ixs), x, full);
    Reached(ixs + [update], y);
    FreeIsSound(full);
    GrownTwice(1_000);
    GrownTwice(RATE_SCALE);
    GrownTwice(0);
    YearPasses(y.one.reserve, 10_000, 0);
    ThenPrice(y, ONE, 1, dear);
    RunSnoc(ixs + [update], refresh);
    LeadsOn(Run(GENESIS, ixs + [update]), y, refresh, dear);
    ShowsRecord(Run(GENESIS, ixs + [update] + [refresh]), dear);
  }

  lemma FreeIsSound(c: ReserveConfig)
    requires c.Validated()
    ensures ReserveInv(Free(SLOTS_PER_YEAR, 0, c, 1_000, RATE_SCALE).one.reserve)
  {
    hide Flat, Pos, BackingValue;
  }

  lemma ShowsRecord(s: State, x: Scene)
    requires Shows(s, x) && x.one.reserve.lastUpdateSlot == x.slot
    ensures Records(s, x.one.reserve.borrowed)
  {
  }

  // ---- Holes ----------------------------------------------------------------------------------

  /** Both of Alice's deposits of 500 are valued at 4000 each. */
  function BothSides(d: DepositSlot, e: DepositSlot, locked: u64, ca: nat): Scene {
    Scene(0, Side(Backing(500, 10), locked), Side(Backing(500, 10), 500),
      Actor(Pos(d, e, NO_LOAN, 0), 0, 0, ca, 0), Newcomer())
  }

  const FIRST := DepositSlot(ONE, 500, 4_000)
  const SECOND := DepositSlot(TWO, 500, 4_000)

  /** Both bought, neither priced nor locked. */
  function Bought(): Scene {
    var side := Side(NewReserve(0, Flat(1, 0)).(available := 500, ctokens := 500), 0);
    Opening(Flat(1, 0), Flat(1, 0)).(one := side, two := side, alice := Newcomer().(ca := 500, cb := 500))
  }

  lemma BuysBoth()
    ensures Reachable(Bought())
  {
    hide I.Deposit, Reachable, Flat, NewObligation;
    var c, n := Flat(1, 0), 500;
    var x0 := Opening(c, c);
    var x1 := x0.(alice := x0.alice.(a := n));
    var x2 := x0.(one := Bought().one, alice := x0.alice.(ca := n));
    var x3 := x2.(alice := x2.alice.(b := n));
    Opens(c, c);
    ThenFund(x0, 0, ONE, n, x1);
    FirstMints(c, n);
    ThenDeposit(x1, 0, ONE, n, x2);
    ThenFund(x2, 0, TWO, n, x3);
    ThenDeposit(x3, 0, TWO, n, Bought());
  }

  lemma LocksBoth()
    ensures Reachable(BothSides(FIRST, SECOND, 500, 0))
  {
    hide I.RefreshReserve, I.DepositCollateral, I.RefreshObligation, Reachable, Pos, Flat, NewObligation;
    var n, d, e := 500, FIRST.(value := 0), SECOND.(value := 0);
    var x1 := Bought().(one := Side(Backing(n, 10), 0));
    var x2 := x1.(two := Side(Backing(n, 10), 0));
    var x3 := x2.(one := Side(Backing(n, 10), n), alice := Actor(Pos(d, NOTHING, NO_LOAN, 0), 0, 0, 0, n));
    BuysBoth();
    Prices(Flat(1, 0), n, 10);
    ThenPrice(Bought(), ONE, 10, x1);
    ThenPrice(x1, TWO, 10, x2);
    LockNew(Backing(n, 10), ONE, n);
    ThenLock(x2, 0, ONE, n, x3);
    LockNext(Backing(n, 10), d, TWO, n);
    ThenLock(x3, 0, TWO, n, BothSides(d, e, 500, 0));
    ValuesBoth();
    RefreshPos(d, e, NO_LOAN, 0, BothSides(d, e, 500, 0).Known(), 0);
    ThenRefresh(BothSides(d, e, 500, 0), 0, BothSides(FIRST, SECOND, 500, 0));
  }

  lemma ValuesBoth()
    ensures var reserves := map[ONE := Backing(500, 10), TWO := Backing(500, 10)];
      && I.PriceDeposit(FIRST.(value := 0), reserves) == Ok(FIRST)
      && I.PriceDeposit(SECOND.(value := 0), reserves) == Ok(SECOND)
  {
    hide I.DepositValue;
    BackingIsValued(500, 10);
  }

  /** The first deposit is out. */
  function Hollow(): Scene {
    BothSides(NOTHING, SECOND, 0, 500)
  }

  /** Cached collateral that the scan does not reach. */
  predicate HidesCollateral(o: ObligationData, worth: nat) {
    && Sum(DepositValues(o.deposits)) == worth
    && o.depositsCount <= MAX_SLOTS && SeenDeposits(o) == 0 && Sum(DepositValues(o.deposits)[..o.depositsCount]) == 0
  }

  /** Taking the first deposit out leaves a hole before the second: the count says one, the scan stops at the empty
   *  slot, and collateral worth 4000 carries no loan of even one token.
   */
  lemma HoleHidesCollateral()
    ensures Reachable(Hollow()) && HidesCollateral(Hollow().alice.obligation, 4_000)
    ensures forall n: u64 :: Refuses(Hollow(), Borrow(0, ONE, n, ToUser(0)))
  {
    hide I.WithdrawCollateral, I.Borrow, Reachable, Leads, Refuses, Pos, HidesCollateral;
    LocksBoth();
    ReleaseAll(FIRST, SECOND, NO_LOAN, 0);
    ThenRelease(BothSides(FIRST, SECOND, 500, 0), 0, ONE, 500, Hollow());
    HidesSecond(SECOND);
    forall n: u64 ensures Refuses(Hollow(), Borrow(0, ONE, n, ToUser(0))) {
      HiddenCarriesNothing(Backing(500, 10), Pos(NOTHING, SECOND, NO_LOAN, 0), n);
      RefusesBorrow(Hollow(), 0, ONE, n);
    }
  }

  lemma HiddenCarriesNothing(r: ReserveData, o: ObligationData, n: u64)
    requires HidesCollateral(o, 4_000) && r.lastUpdateSlot == 0
    ensures I.Borrow(r, o, ONE, n, 0).Err?
  {
    hide I.Borrow, Sum, SeenDeposits;
    NoneInSight(r, o, ONE, n, 0);
  }

  lemma HidesSecond(e: DepositSlot)
    requires e.IsActive() && e.value == 4_000
    ensures HidesCollateral(Pos(NOTHING, e, NO_LOAN, 0), 4_000)
  {
    var o := Pos(NOTHING, e, NO_LOAN, 0);
    var values := DepositValues(o.deposits);
    assert values[..1] == [0];
    SumsOfOne(0);
    SumZeroTail(values, 2);
    assert values[..2][..1] == [0] && values[..2][1] == 4_000;
  }

  /** Without collateral in sight no loan of any size is admitted. */
  lemma NoneInSight(r: ReserveData, o: ObligationData, key: Pubkey, n: u64, slot: u64)
    requires slot <= r.lastUpdateSlot && o.depositsCount <= MAX_SLOTS
    requires Sum(DepositValues(o.deposits)[..o.depositsCount]) == 0
    ensures I.Borrow(r, o, key, n, slot).Err?
  {
    hide ReserveData.CurrentBorrowRate, Sum, I.CheckBorrow;
    forall p: ObligationData, price: u128
      | p.deposits == o.deposits && p.depositsCount == o.depositsCount && 0 < price && 0 < n
      ensures I.CheckBorrow(p, n, price).Err?
    {
      Uncovered(p, n, price);
    }
    assert I.CatchUp(o, key, r.index).Ok? ==>
      var c := I.CatchUp(o, key, r.index).value; c.deposits == o.deposits && c.depositsCount == o.depositsCount;
  }

  lemma Uncovered(p: ObligationData, n: u64, price: u128)
    requires p.depositsCount <= MAX_SLOTS && Sum(DepositValues(p.deposits)[..p.depositsCount]) == 0
      && 0 < n && 0 < price
    ensures I.CheckBorrow(p, n, price).Err?
  {
    hide Sum;
    Mono(1, n, price);
  }

  /** Alice's deposit of the first asset backs loans of both; Bob supplies the second. */
  function Backed(one: ReserveData, two: ReserveData, locked: u64, o: ObligationData, a: nat, b: nat, ca: nat): Scene {
    Scene(0, Side(one, locked), Side(two, 0), Actor(o, a, b, ca, 0), Newcomer().(cb := 1_000))
  }

  function LentOut(n: u64): ReserveData
    requires n <= 1_000
  {
    Backing(1_000, 10).(available := 1_000 - n, borrowed := n)
  }

  const SMALL := BorrowSlot(ONE, 10 * RATE_SCALE, RATE_SCALE, 0)
  const MAIN := BorrowSlot(TWO, 400 * RATE_SCALE, RATE_SCALE, 0)

  /** 500 cTokens worth 4000 carry a loan of 10 of the first asset and then one of 400 of the second, valued at 4000. */
  function TwoLoans(): Scene {
    Backed(LentOut(10), LentOut(400), 500, Table(FIRST, NOTHING, SMALL.(value := 100), MAIN.(value := 4_000), 0),
      10, 400, 500)
  }

  /** The first loan is repaid. */
  function SmallRepaid(): Scene {
    Backed(LentOut(0), LentOut(400), 500, Table(FIRST, NOTHING, NO_LOAN, MAIN.(value := 4_000), 0), 0, 400, 500)
  }

  /** The collateral is out; the second loan is not. */
  function Escaped(): Scene {
    Backed(LentOut(0), LentOut(400), 0, Table(NOTHING, NOTHING, NO_LOAN, MAIN.(value := 4_000), 0), 0, 400, 1_000)
  }

  lemma SuppliesBoth()
    ensures Reachable(Backed(LentOut(0), LentOut(0), 0, NewObligation(), 0, 0, 1_000))
  {
    hide I.Deposit, I.RefreshReserve, Reachable, Leads, Flat, NewObligation;
    var c, n := Flat(1, 0), 1_000;
    var bought := NewReserve(0, c).(available := n, ctokens := n);
    var x0 := Opening(c, c);
    var x1 := x0.(alice := x0.alice.(a := n));
    var x2 := x0.(one := Side(bought, 0), alice := x0.alice.(ca := n));
    var x3 := x2.(bob := x2.bob.(b := n));
    var x4 := x2.(two := Side(bought, 0), bob := x2.bob.(cb := n));
    var x5 := x4.(one := Side(LentOut(0), 0));
    Opens(c, c);
    ThenFund(x0, 0, ONE, n, x1);
    FirstMints(c, n);
    ThenDeposit(x1, 0, ONE, n, x2);
    ThenFund(x2, 1, TWO, n, x3);
    ThenDeposit(x3, 1, TWO, n, x4);
    Prices(c, n, 10);
    ThenPrice(x4, ONE, 10, x5);
    ThenPrice(x5, TWO, 10, Backed(LentOut(0), LentOut(0), 0, NewObligation(), 0, 0, n));
  }

  lemma ValuesFirst()
    ensures I.PriceDeposit(FIRST.(value := 0), map[ONE := LentOut(0), TWO := LentOut(0)]) == Ok(FIRST)
  {
    hide I.DepositValue;
    ThousandBacks(0);
  }

  /** 500 of a thousand cTokens, whatever part of the thousand tokens is lent. */
  lemma ThousandBacks(n: u64)
    requires n <= 1_000
    ensures I.DepositValue(500, LentOut(n)) == Ok(4_000)
  {
    assert LentOut(n).TotalSupply() == Ok(1_000);
    assert MulDiv(500, 1_000, 1_000) == Ok(500);
    assert MulDiv(5_000, 80, 100) == Ok(4_000);
  }

  lemma ValuesLoans()
    ensures var reserves := map[ONE := LentOut(10), TWO := LentOut(400)];
      && I.PriceDeposit(FIRST, reserves) == Ok(FIRST)
      && I.PriceBorrow(SMALL, reserves) == Ok(SMALL.(value := 100))
      && I.PriceBorrow(MAIN, reserves) == Ok(MAIN.(value := 4_000))
  {
    hide I.DepositValue;
    ThousandBacks(10);
  }

  lemma TakesTwoLoans()
    ensures Reachable(TwoLoans())
  {
    hide I.DepositCollateral, I.RefreshObligation, I.Borrow, Reachable, Leads, Pos, Table, Flat, NewObligation;
    var x0 := Backed(LentOut(0), LentOut(0), 0, NewObligation(), 0, 0, 1_000);
    var x1 := Backed(LentOut(0), LentOut(0), 500, Pos(FIRST.(value := 0), NOTHING, NO_LOAN, 0), 0, 0, 500);
    var x2 := Backed(LentOut(0), LentOut(0), 500, Pos(FIRST, NOTHING, NO_LOAN, 0), 0, 0, 500);
    var x3 := Backed(LentOut(10), LentOut(0), 500, Pos(FIRST, NOTHING, SMALL, 0), 10, 0, 500);
    var x4 := Backed(LentOut(10), LentOut(400), 500, Table(FIRST, NOTHING, SMALL, MAIN, 0), 10, 400, 500);
    SuppliesBoth();
    LockNew(LentOut(0), ONE, 500);
    ThenLock(x0, 0, ONE, 500, x1);
    ValuesFirst();
    RefreshPos(FIRST.(value := 0), NOTHING, NO_LOAN, 0, x1.Known(), 0);
    ThenRefresh(x1, 0, x2);
    BorrowPos(LentOut(0), FIRST, NO_LOAN, ONE, 10, 0);
    ThenBorrow(x2, 0, ONE, 10, x3);
    BorrowSecond(LentOut(0), FIRST, SMALL, TWO, 400, 0);
    ThenBorrow(x3, 0, TWO, 400, x4);
    ValuesLoans();
    RefreshTable(FIRST, NOTHING, SMALL, MAIN, 0, x4.Known(), 0);
    ThenRefresh(x4, 0, TwoLoans());
  }

  /** Cached debt that the scan does not reach, on a loan that is still open. */
  predicate HidesDebt(o: ObligationData, worth: nat) {
    && Sum(BorrowValues(o.borrows)) == worth && LoanOf(o.borrows, TWO) == Some(Loan(400 * RATE_SCALE, RATE_SCALE))
    && o.borrowsCount <= MAX_SLOTS && SeenBorrows(o) == 0 && o.IsHealthy() == Ok(true)
  }

  lemma HidesMain(d: DepositSlot)
    requires Proper(d, NOTHING, NO_LOAN)
    ensures HidesDebt(Table(d, NOTHING, NO_LOAN, MAIN.(value := 4_000), 0), 4_000)
  {
    var o := Table(d, NOTHING, NO_LOAN, MAIN.(value := 4_000), 0);
    var values := BorrowValues(o.borrows);
    assert values[..1] == [0];
    SumsOfOne(0);
    SumZeroTail(values, 2);
    assert values[..2][..1] == [0] && values[..2][1] == 4_000;
    LoanKeysOf(d, NOTHING, NO_LOAN, MAIN.(value := 4_000), 0, TWO);
  }

  /** Repaying the first loan leaves a hole before the second: the count says one, the scan stops at the empty slot, and
   *  a loan of 400 cached at 4000 is out of sight. The position counts as healthy, and in the same slot all of its
   *  collateral is released with the loan still open.
   */
  lemma HoleHidesDebt()
    ensures Reachable(TwoLoans()) && Leads(TwoLoans(), Repay(0, ONE, 10), SmallRepaid()) && Reachable(SmallRepaid())
    ensures HidesDebt(SmallRepaid().alice.obligation, 4_000)
    ensures Leads(SmallRepaid(), WithdrawCollateral(0, ONE, 500), Escaped()) && Reachable(Escaped())
    ensures HidesDebt(Escaped().alice.obligation, 4_000) && Escaped().one.locked == 0
  {
    hide I.Repay, I.WithdrawCollateral, Reachable, Leads, Table, Flat, HidesDebt;
    TakesTwoLoans();
    RepayTable(LentOut(10), FIRST, SMALL.(value := 100), MAIN.(value := 4_000), 10, 0, 0, SMALL.debt);
    ThenRepay(TwoLoans(), 0, ONE, 10, SmallRepaid());
    HidesMain(FIRST);
    ReleaseTable(FIRST, NOTHING, NO_LOAN, MAIN.(value := 4_000), 0);
    ThenRelease(SmallRepaid(), 0, ONE, 500, Escaped());
    HidesMain(NOTHING);
  }
}
