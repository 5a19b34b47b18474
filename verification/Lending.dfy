/** A reserve whose deposits are lent against the other asset, reached from the empty market, and years going by. */
module Lending {
  import opened Arithmetic
  import opened Numeric
  import opened ReserveModel
  import opened ObligationModel
  import opened PriceOracle
  import opened Market
  import opened Scenes
  import opened Positions
  import I = InstructionModel


  /** No limits to speak of, a flat yearly rate and a protocol fee, both in basis points. */
  function Flat(bps: u16, fee: u16): (c: ReserveConfig)
    requires fee <= MAX_PROTOCOL_FEE_BPS
    ensures c.pythOracle == FEED && c.Validated() && c.IsActive() && c.depositLimit == c.borrowLimit == U64_MAX
  {
    ReserveConfig(U64_MAX, U64_MAX, bps, bps, bps, 8_000, 500, fee, 0, 75, 80, FEED)
  }

  lemma FlatRate(r: ReserveData, bps: u16, fee: u16)
    requires fee <= MAX_PROTOCOL_FEE_BPS && r.config == Flat(bps, fee) && ReserveInv(r) && r.borrowed <= 4 * U64_MAX
    ensures r.CurrentBorrowRate() == Ok(bps)
  {
    forall u: u16 ensures r.config.BorrowRate(u) == bps {
    }
    if 0 < r.Supply() {
      DivLe(r.borrowed * PERCENT_SCALER, r.Supply());
    }
  }

  lemma FlatPeriod(bps: u16)
    ensures PeriodRate(bps, SLOTS_PER_YEAR) == Ok(bps * (RATE_SCALE / BPS_SCALER))
  {
    WholeShare(SLOTS_PER_YEAR, bps * RATE_SCALE);
    assert bps * SLOTS_PER_YEAR * RATE_SCALE == (bps * RATE_SCALE) * SLOTS_PER_YEAR;
    WholeShare(BPS_SCALER, bps * (RATE_SCALE / BPS_SCALER));
    assert bps * RATE_SCALE == bps * (RATE_SCALE / BPS_SCALER) * BPS_SCALER;
  }

  /** A year's growth of debt or index, rounded down. */
  function Grown(x: nat, bps: u16): nat {
    Share(bps * (RATE_SCALE / BPS_SCALER), x, RATE_SCALE);
    x + bps * (RATE_SCALE / BPS_SCALER) * x / RATE_SCALE
  }

  lemma GrownTwice(x: nat)
    ensures Grown(x, 10_000) == 2 * x
  {
    WholeShare(RATE_SCALE, x);
  }

  lemma GrowsAtMostTwice(x: nat, bps: u16)
    requires bps <= BPS_SCALER
    ensures x <= Grown(x, bps) <= 2 * x
  {
    var rate := bps * (RATE_SCALE / BPS_SCALER);
    Mono(rate, RATE_SCALE, x);
    DivMono(rate * x, RATE_SCALE * x, RATE_SCALE);
    WholeShare(RATE_SCALE, x);
  }

  /** The largest power of two whose growth by a whole still fits. */
  const LARGEST_INDEX: int := 0x1_0000_0000_0000 * RATE_SCALE

  /** What a year makes of a reserve. */
  function YearOn(r: ReserveData, bps: u16, fee: u16): ReserveData
    requires bps <= BPS_SCALER && fee <= MAX_PROTOCOL_FEE_BPS
    requires r.borrowed <= U64_MAX && r.fees <= U64_MAX && r.index <= LARGEST_INDEX
    requires r.lastUpdateSlot + SLOTS_PER_YEAR <= U64_MAX
  {
    GrowsAtMostTwice(r.borrowed, bps);
    GrowsAtMostTwice(r.index, bps);
    Share(Grown(r.borrowed, bps) - r.borrowed, fee, BPS_SCALER);
    r.(borrowed := Grown(r.borrowed, bps), index := Grown(r.index, bps),
       fees := r.fees + (Grown(r.borrowed, bps) - r.borrowed) * fee / BPS_SCALER,
       lastUpdateSlot := r.lastUpdateSlot + SLOTS_PER_YEAR)
  }

  lemma YearPasses(r: ReserveData, bps: u16, fee: u16)
    requires 0 < bps <= BPS_SCALER && fee <= MAX_PROTOCOL_FEE_BPS && r.config == Flat(bps, fee) && ReserveInv(r)
    requires r.borrowed <= U64_MAX && r.fees <= U64_MAX && r.index <= LARGEST_INDEX
    requires r.lastUpdateSlot + SLOTS_PER_YEAR <= U64_MAX && 0 < r.price <= I64_MAX && r.priceTime == 0
    ensures I.RefreshReserve(r, Quoted(r.price), r.lastUpdateSlot + SLOTS_PER_YEAR, 0) == Ok(YearOn(r, bps, fee))
  {
    hide ReserveData.CurrentBorrowRate, PeriodRate, ReadPrice;
    QuotedIsStored(r.price);
    FlatRate(r, bps, fee);
    FlatPeriod(bps);
    var rate: u128 := bps * (RATE_SCALE / BPS_SCALER);
    GrowsAtMostTwice(r.borrowed, bps);
    GrowsAtMostTwice(r.index, bps);
    var debt: u128, growth: u128 := Grown(r.borrowed, bps) - r.borrowed, Grown(r.index, bps) - r.index;
    Mono(rate, RATE_SCALE, r.borrowed);
    Mono(0, rate, r.borrowed);
    assert MulDiv(rate, r.borrowed, RATE_SCALE) == Ok(debt);
    Mono(rate, RATE_SCALE, r.index);
    Mono(0, rate, r.index);
    assert MulDiv(rate, r.index, RATE_SCALE) == Ok(growth);
    Share(debt, fee, BPS_SCALER);
    Mono(fee, BPS_SCALER, debt);
    Mono(0, fee, debt);
    assert MulDiv(debt, fee, BPS_SCALER) == Ok(debt * fee / BPS_SCALER);
  }

  // ---- Lending on the other asset -------------------------------------------------------------

  /** A first deposit of `n` into an empty reserve mints `n`. */
  lemma FirstMints(c: ReserveConfig, n: u64)
    requires c.Validated() && c.IsActive() && c.depositLimit == U64_MAX && 0 < n
    ensures I.Deposit(NewReserve(0, c), n, 0) == Ok((NewReserve(0, c).(available := n, ctokens := n), n))
  {
  }

  /** A lender's reserve of `n` tokens at price 1. */
  function Lender(n: u64, bps: u16, fee: u16): ReserveData
    requires fee <= MAX_PROTOCOL_FEE_BPS
  {
    NewReserve(0, Flat(bps, fee)).(available := n, ctokens := n, price := 1)
  }

  /** A reserve of `m` tokens that serve as collateral at price `p`. */
  function Backing(m: u64, p: u64): ReserveData {
    NewReserve(0, Flat(1, 0)).(available := m, ctokens := m, price := p)
  }

  /** The value of `m` cTokens of the collateral, at 80%. */
  function BackingValue(m: u64, p: u64): nat {
    Mono(0, m, p);
    m * p * 80 / 100
  }

  lemma BackingIsValued(m: u64, p: u64)
    requires 0 < m && m * p * 80 <= U128_MAX
    ensures BackingValue(m, p) <= U64_MAX * U64_MAX
    ensures I.DepositValue(m, Backing(m, p)) == Ok(BackingValue(m, p))
  {
    FitsIn128(m, p);
    FitsIn128(m, m);
    WholeShare(m, m);
    assert MulDiv(m, m, m) == Ok(m);
    assert Backing(m, p).TotalSupply() == Ok(m);
    Share(m * p, 80, 100);
  }

  /** Bob's deposit of `n` is lent to Alice against `m` of the other asset. */
  function Lent(n: u64, m: u64, p: u64, bps: u16, fee: u16): Scene
    requires fee <= MAX_PROTOCOL_FEE_BPS && n * RATE_SCALE <= U128_MAX && BackingValue(m, p) <= U128_MAX
  {
    Scene(0, Side(Lender(n, bps, fee).(available := 0, borrowed := n), 0), Side(Backing(m, p), m),
          Actor(Pos(DepositSlot(TWO, m, BackingValue(m, p)), NOTHING, BorrowSlot(ONE, n * RATE_SCALE, RATE_SCALE, 0),
            0), n, 0, 0, 0),
          Newcomer().(ca := n))
  }

  lemma Lends(n: u64, m: u64, p: u64, bps: u16, fee: u16)
    requires fee <= MAX_PROTOCOL_FEE_BPS && 0 < n && 0 < m && 0 < p <= I64_MAX && m * p * 80 <= U128_MAX
      && n <= BackingValue(m, p)
    ensures n * RATE_SCALE <= U128_MAX && BackingValue(m, p) <= U128_MAX
    ensures Reachable(Lent(n, m, p, bps, fee))
  {
    hide I.Deposit, I.RefreshReserve, I.DepositCollateral, I.RefreshObligation, I.Borrow, I.DepositValue, Reachable,
      Leads, Pos, Flat, BackingValue, NewObligation;
    BackingIsValued(m, p);
    var one, two := Flat(bps, fee), Flat(1, 0);
    var x0 := Opening(one, two);
    var x1 := x0.(bob := x0.bob.(a := n));
    var x2 := x1.(one := Side(NewReserve(0, one).(available := n, ctokens := n), 0), bob := x0.bob.(ca := n));
    var x3 := x2.(alice := x0.alice.(b := m));
    var x4 := x2.(two := Side(NewReserve(0, two).(available := m, ctokens := m), 0), alice := x0.alice.(cb := m));
    var x5 := x4.(one := Side(Lender(n, bps, fee), 0));
    var x6 := x5.(two := Side(Backing(m, p), 0));
    var slot := DepositSlot(TWO, m, 0);
    var x7 := x6.(two := Side(Backing(m, p), m), alice := Actor(Pos(slot, NOTHING, NO_LOAN, 0), 0, 0, 0, 0));
    var valued := slot.(value := BackingValue(m, p));
    var x8 := x7.(alice := Actor(Pos(valued, NOTHING, NO_LOAN, 0), 0, 0, 0, 0));
    Opens(one, two);
    ThenFund(x0, 1, ONE, n, x1);
    FirstMints(one, n);
    ThenDeposit(x1, 1, ONE, n, x2);
    ThenFund(x2, 0, TWO, m, x3);
    FirstMints(two, m);
    ThenDeposit(x3, 0, TWO, m, x4);
    Prices(one, n, 1);
    ThenPrice(x4, ONE, 1, x5);
    Prices(two, m, p);
    ThenPrice(x5, TWO, p, x6);
    LockNew(Backing(m, p), TWO, m);
    ThenLock(x6, 0, TWO, m, x7);
    ValuesBacking(x7.Known(), m, p);
    RefreshPos(slot, NOTHING, NO_LOAN, 0, x7.Known(), 0);
    ThenRefresh(x7, 0, x8);
    BorrowPos(Lender(n, bps, fee), valued, NO_LOAN, ONE, n, 0);
    ThenBorrow(x8, 0, ONE, n, Lent(n, m, p, bps, fee));
  }

  lemma Prices(c: ReserveConfig, n: u64, p: u64)
    requires 0 < p <= I64_MAX && c.pythOracle == FEED
    ensures I.RefreshReserve(NewReserve(0, c).(available := n, ctokens := n), Quoted(p), 0, 0)
         == Ok(NewReserve(0, c).(available := n, ctokens := n, price := p))
  {
    hide ReadPrice;
    QuotedIsStored(p);
  }

  lemma ValuesBacking(reserves: I.Reserves, m: u64, p: u64)
    requires TWO in reserves && reserves[TWO] == Backing(m, p)
    requires 0 < m && 0 < p && m * p * 80 <= U128_MAX && BackingValue(m, p) <= U128_MAX
    ensures I.PriceDeposit(DepositSlot(TWO, m, 0), reserves) == Ok(DepositSlot(TWO, m, BackingValue(m, p)))
  {
    hide I.DepositValue, BackingValue;
    BackingIsValued(m, p);
  }

  /** A year goes by and the first reserve is refreshed at its old price. */
  function YearLater(x: Scene, bps: u16, fee: u16): Scene
    requires bps <= BPS_SCALER && fee <= MAX_PROTOCOL_FEE_BPS && x.slot == x.one.reserve.lastUpdateSlot
    requires x.one.reserve.borrowed <= U64_MAX && x.one.reserve.fees <= U64_MAX && x.one.reserve.index <= LARGEST_INDEX
    requires x.slot + SLOTS_PER_YEAR <= U64_MAX
  {
    x.(slot := x.slot + SLOTS_PER_YEAR, one := x.one.(reserve := YearOn(x.one.reserve, bps, fee)))
  }

  lemma Waits(x: Scene, bps: u16, fee: u16)
    requires 0 < bps <= BPS_SCALER && fee <= MAX_PROTOCOL_FEE_BPS && x.slot == x.one.reserve.lastUpdateSlot
    requires x.one.reserve.borrowed <= U64_MAX && x.one.reserve.fees <= U64_MAX && x.one.reserve.index <= LARGEST_INDEX
    requires x.slot + SLOTS_PER_YEAR <= U64_MAX && 0 < x.one.reserve.price <= I64_MAX && x.one.reserve.priceTime == 0
    requires Reachable(x) && x.one.reserve.config == Flat(bps, fee) && ReserveInv(x.one.reserve)
    ensures Reachable(YearLater(x, bps, fee))
  {
    hide I.RefreshReserve, Reachable, Leads, YearOn, Flat, ReserveInv;
    YearPasses(x.one.reserve, bps, fee);
    var y := x.(slot := x.slot + SLOTS_PER_YEAR);
    ThenAdvance(x, SLOTS_PER_YEAR, y);
    ThenPrice(y, ONE, x.one.reserve.price, YearLater(x, bps, fee));
  }
}
