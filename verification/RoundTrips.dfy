/** Deposits and redemptions back to back. */
module RoundTrips {
  import opened Arithmetic
  import opened Numeric
  import opened ReserveModel
  import opened ReserveProperties
  import opened ObligationModel
  import opened Market
  import opened MarketInvariant
  import opened ReserveFlows

  // ---- Quotes ---------------------------------------------------------------------------------

  /** What a holder of `amount` cTokens is quoted. */
  function Quote(r: ReserveData, amount: u64): Result<u64> {
    r.CollateralExchangeRate().CollateralToLiquidity(amount)
  }

  /** The same without machine widths: the rounded-down share of the depositors' claim. */
  function Worth(r: ReserveData, amount: u64): nat
    requires ReserveInv(r) && 0 < r.ctokens
  {
    Mono(0, r.Supply(), amount);
    Floor(amount * r.Supply(), r.ctokens);
    amount * r.Supply() / r.ctokens
  }

  /** The share can be computed in 128 bits and stated in 64. */
  predicate Fits(r: ReserveData, amount: u64)
    requires ReserveInv(r) && 0 < r.ctokens
  {
    amount * r.Supply() <= U128_MAX && Worth(r, amount) <= U64_MAX
  }

  lemma Converts(rate: ExchangeRate, amount: u64)
    requires 0 < rate.collateralSupply
    ensures rate.CollateralToLiquidity(amount)
         == if amount * rate.totalLiquidity <= U128_MAX
            then Ok(amount * rate.totalLiquidity / rate.collateralSupply % U64_MODULUS) else Err(MathOverflow)
  {
    Mono(0, rate.totalLiquidity, amount);
  }

  lemma CastKeepsIff(n: nat)
    ensures n % U64_MODULUS == n <==> n <= U64_MAX
    ensures 0 <= n % U64_MODULUS <= n
  {
  }

  /** A quote is the share reduced to 64 bits, or refused when the product leaves 128. */
  lemma QuoteIs(r: ReserveData, amount: u64)
    requires ReserveInv(r) && 0 < r.ctokens
    ensures Quote(r, amount)
         == if amount * r.Supply() <= U128_MAX then Ok(Worth(r, amount) % U64_MODULUS) else Err(MathOverflow)
  {
    hide ReserveData.CollateralExchangeRate, ExchangeRate.CollateralToLiquidity, Worth;
    ExchangeRateUsed(r);
    Converts(r.CollateralExchangeRate(), amount);
    ShareIsWorth(r, amount);
  }

  /** The quote is the share exactly while it fits; beyond that the product overflows or the cast wraps. */
  lemma QuoteIsWorthIff(r: ReserveData, amount: u64)
    requires ReserveInv(r) && 0 < r.ctokens
    ensures Quote(r, amount).Ok? && Quote(r, amount).value == Worth(r, amount) <==> Fits(r, amount)
  {
    hide Quote, Worth;
    QuoteIs(r, amount);
    CastKeepsIff(Worth(r, amount));
  }

  lemma ShareIsWorth(r: ReserveData, amount: u64)
    requires ReserveInv(r) && 0 < r.ctokens
    ensures amount * r.Supply() / r.ctokens == Worth(r, amount)
    ensures amount <= Worth(r, amount)
  {
    Mono(r.ctokens, r.Supply(), amount);
    Greatest(amount, amount * r.Supply(), r.ctokens);
  }

  // ---- Depositing and redeeming ---------------------------------------------------------------

  /** What a deposit of `amount` followed by a redemption of everything it minted pays back. */
  function PaidBack(r: ReserveData, amount: u64): Result<u64> {
    var (s, minted) :- r.DepositLiquidity(amount);
    var (_, paid) :- s.RedeemCollateral(minted);
    Ok(paid)
  }

  /** Back at the new rate, minted shares are worth at most the amount they were minted for. */
  lemma SharesWorth(amount: nat, minted: nat, ctokens: nat, supply: nat)
    requires minted * supply <= ctokens * amount && 0 < ctokens + minted
    ensures 0 <= minted * (supply + amount) / (ctokens + minted) <= amount
  {
    var worth, shares := minted * (supply + amount), ctokens + minted;
    Mono(0, supply + amount, minted);
    Floor(worth, shares);
    assert worth == minted * supply + minted * amount;
    assert amount * shares == ctokens * amount + minted * amount;
    Cancel(worth / shares, amount, shares);
  }

  /** A redemption burns what it names and pays the share reduced to 64 bits. It is accepted exactly when the product
   *  fits 128 bits, the cTokens exist and the idle liquidity covers that remainder; past 64 bits the holder loses the
   *  difference between the share and its remainder.
   */
  lemma RedeemIs(r: ReserveData, amount: u64)
    requires ReserveInv(r) && 0 < r.ctokens
    ensures r.RedeemCollateral(amount).Ok? <==>
      amount * r.Supply() <= U128_MAX && amount <= r.ctokens && Worth(r, amount) % U64_MODULUS <= r.available
    ensures r.RedeemCollateral(amount).Ok? ==>
      var paid := Worth(r, amount) % U64_MODULUS;
      && r.RedeemCollateral(amount).value == (r.(available := r.available - paid, ctokens := r.ctokens - amount), paid)
      && paid <= Worth(r, amount) && (paid == Worth(r, amount) <==> Worth(r, amount) <= U64_MAX)
  {
    hide Worth, ReserveData.CollateralExchangeRate, ExchangeRate.CollateralToLiquidity;
    QuoteIs(r, amount);
    CastKeepsIff(Worth(r, amount));
  }

  /** A claim of 64 bits makes every share fit. */
  lemma SmallClaimFits(r: ReserveData, amount: u64)
    requires ReserveInv(r) && 0 < r.ctokens && r.Supply() <= U64_MAX && amount <= r.ctokens
    ensures Fits(r, amount)
  {
    FitsIn128(amount, r.Supply());
    Share(r.Supply(), amount, r.ctokens);
  }

  lemma DepositWithinLimit(r: ReserveData, amount: u64)
    requires ReserveInv(r) && r.DepositLiquidity(amount).Ok?
    ensures r.Supply() + amount <= U64_MAX
  {
    hide ReserveData.CollateralExchangeRate;
  }

  lemma PaidBackIs(r: ReserveData, amount: u64)
    requires ReserveInv(r) && r.DepositLiquidity(amount).Ok? && 0 < r.ctokens
    ensures var minted := r.DepositLiquidity(amount).value.1;
      && minted * r.Supply() <= r.ctokens * amount < (minted + 1) * r.Supply()
      && 0 < r.ctokens + minted
      && PaidBack(r, amount) == Ok(minted * (r.Supply() + amount) / (r.ctokens + minted))
  {
    hide ReserveData.DepositLiquidity, ReserveData.RedeemCollateral;
    var (s, minted) := r.DepositLiquidity(amount).value;
    DepositMints(r, amount);
    DepositEffect(r, amount);
    DepositWithinLimit(r, amount);
    SharesWorth(amount, minted, r.ctokens, r.Supply());
    SmallClaimFits(s, minted);
    CastKeepsIff(Worth(s, minted));
    RedeemIs(s, minted);
  }

  lemma LessThanARate(amount: nat, paid: nat, minted: nat, ctokens: nat, supply: nat)
    requires ctokens * amount < (minted + 1) * supply && 0 < ctokens
    requires paid == minted * (supply + amount) / (ctokens + minted) && paid <= amount
    ensures (amount - paid) * ctokens < supply + ctokens
  {
    var shares, lost := ctokens + minted, amount - paid;
    Floor(minted * (supply + amount), shares);
    assert minted * (supply + amount) == minted * supply + minted * amount;
    assert amount * shares == ctokens * amount + minted * amount;
    LostPerShare(lost, shares, ctokens, supply, amount, paid);
  }

  lemma LostPerShare(lost: nat, shares: nat, ctokens: nat, supply: nat, amount: nat, paid: nat)
    requires lost == amount - paid && 0 < ctokens <= shares && amount * shares < paid * shares + supply + shares
    ensures lost * ctokens < supply + ctokens
  {
    assert lost * shares == amount * shares - paid * shares;
    if 0 < lost {
      Mono(ctokens, shares, lost - 1);
      assert (lost - 1) * shares == lost * shares - shares;
      assert (lost - 1) * ctokens == lost * ctokens - ctokens;
    }
  }

  /** While cTokens are outstanding, a deposit redeemed at once always succeeds, never gains, and loses less than
   *  one cToken's worth at the old rate plus one token.
   */
  lemma RoundTripLosesLittle(r: ReserveData, amount: u64)
    requires ReserveInv(r) && r.DepositLiquidity(amount).Ok? && 0 < r.ctokens
    ensures PaidBack(r, amount).Ok? && PaidBack(r, amount).value <= amount
    ensures (amount - PaidBack(r, amount).value) * r.ctokens < r.Supply() + r.ctokens
  {
    hide PaidBack, ReserveData.DepositLiquidity;
    PaidBackIs(r, amount);
    var minted := r.DepositLiquidity(amount).value.1;
    SharesWorth(amount, minted, r.ctokens, r.Supply());
    LessThanARate(amount, PaidBack(r, amount).value, minted, r.ctokens, r.Supply());
  }

  lemma FirstDeposit(r: ReserveData, amount: u64)
    requires ReserveInv(r) && r.DepositLiquidity(amount).Ok? && r.ctokens == 0 && 0 < amount
    ensures PaidBack(r, amount).Ok? <==> r.Supply() <= r.available
    ensures PaidBack(r, amount).Ok? ==> PaidBack(r, amount).value == r.Supply() + amount
  {
    hide ReserveData.DepositLiquidity, ReserveData.RedeemCollateral;
    var (s, minted) := r.DepositLiquidity(amount).value;
    DepositMints(r, amount);
    DepositEffect(r, amount);
    DepositWithinLimit(r, amount);
    SmallClaimFits(s, minted);
    CastKeepsIff(Worth(s, minted));
    RedeemIs(s, minted);
    WholeShare(amount, s.Supply());
  }

  /** A round trip gains exactly when it is the first deposit into a pool that still holds something: the first
   *  cTokens are minted one to one and own what was left behind.
   */
  lemma RoundTripGainsIff(r: ReserveData, amount: u64)
    requires ReserveInv(r) && 0 < amount
    requires PaidBack(r, amount).Ok?
    ensures PaidBack(r, amount).value > amount <==> r.ctokens == 0 && 0 < r.Supply()
  {
    assert r.DepositLiquidity(amount).Ok?;
    if 0 < r.ctokens {
      RoundTripLosesLittle(r, amount);
    } else {
      FirstDeposit(r, amount);
    }
  }

  // ---- Splitting ------------------------------------------------------------------------------

  /** What two deposits in a row mint together. */
  function MintedInTwo(r: ReserveData, first: u64, second: u64): Result<int> {
    var (s, a) :- r.DepositLiquidity(first);
    var (_, b) :- s.DepositLiquidity(second);
    Ok(a + b)
  }

  lemma MintedIs(r: ReserveData, amount: u64)
    requires ReserveInv(r) && r.DepositLiquidity(amount).Ok?
    ensures r.DepositLiquidity(amount).value.1 == if r.ctokens == 0 then amount else amount * r.ctokens / r.Supply()
  {
    DepositMints(r, amount);
    ExchangeRateUsed(r);
    if 0 < r.ctokens {
      Share(amount, r.ctokens, r.Supply());
    }
  }

  lemma SplitShares(a: nat, b: nat, x: nat, y: nat, ctokens: nat, supply: nat)
    requires 0 < ctokens && 0 < supply
    requires x == a * ctokens / supply && y == b * (ctokens + x) / (supply + a)
    ensures x + y <= (a + b) * ctokens / supply
  {
    Mono(0, ctokens, a);
    Floor(a * ctokens, supply);
    Mono(0, ctokens + x, b);
    Floor(b * (ctokens + x), supply + a);
    assert (ctokens + x) * supply == ctokens * supply + x * supply;
    assert ctokens * (supply + a) == ctokens * supply + a * ctokens;
    RatioTransitive(y, b, ctokens + x, supply + a, ctokens, supply);
    assert (x + y) * supply == x * supply + y * supply;
    assert (a + b) * ctokens == a * ctokens + b * ctokens;
    Greatest(x + y, (a + b) * ctokens, supply);
  }

  /** Splitting a deposit in two never mints more than making it at once. */
  lemma SplitDepositMintsNoMore(r: ReserveData, first: u64, second: u64)
    requires ReserveInv(r) && first + second <= U64_MAX
    requires MintedInTwo(r, first, second).Ok? && r.DepositLiquidity(first + second).Ok?
    ensures MintedInTwo(r, first, second).value <= r.DepositLiquidity(first + second).value.1
  {
    hide ReserveData.DepositLiquidity;
    var (s, x) := r.DepositLiquidity(first).value;
    DepositEffect(r, first);
    MintedIs(r, first);
    MintedIs(s, second);
    DepositMints(s, second);
    MintedIs(r, first + second);
    if 0 < r.ctokens {
      SplitShares(first, second, x, s.DepositLiquidity(second).value.1, r.ctokens, r.Supply());
    }
  }

  /** What two redemptions in a row pay together. */
  function PaidInTwo(r: ReserveData, first: u64, second: u64): Result<int> {
    var (s, a) :- r.RedeemCollateral(first);
    var (_, b) :- s.RedeemCollateral(second);
    Ok(a + b)
  }

  lemma PayoutProducts(c: int, d: int, x: int, y: int, left: int, supply: int)
    ensures (d * (supply - x)) * (left + c) == d * (supply * (left + c)) - d * (x * (left + c))
    ensures ((x + y) * (left + c)) * left == (x * (left + c)) * left + (y * left) * (left + c)
    ensures (c * supply) * (left - d) + d * (supply * (left + c)) == ((c + d) * supply) * left
  {
  }

  lemma SplitPayout(c: nat, d: nat, x: nat, y: nat, ctokens: nat, supply: nat)
    requires 0 < ctokens && c + d <= ctokens && x * ctokens <= c * supply
    requires y * (ctokens - c) <= d * (supply - x) && (d == 0 ==> y == 0)
    ensures (x + y) * ctokens <= (c + d) * supply
  {
    if d > 0 {
      var left, paid := ctokens - c, x * ctokens;
      PayoutProducts(c, d, x, y, left, supply);
      Mono(y * left, d * (supply - x), ctokens);
      assert paid * left == paid * (left - d) + d * paid;
      Mono(paid, c * supply, left - d);
      Cancel((x + y) * ctokens, (c + d) * supply, left);
    }
  }

  /** Splitting a redemption in two never pays more than the share of both together, which one redemption pays as
   *  long as it fits 64 bits.
   */
  lemma SplitRedemptionPaysNoMore(r: ReserveData, first: u64, second: u64)
    requires ReserveInv(r) && first + second <= U64_MAX && 0 < r.ctokens
    requires PaidInTwo(r, first, second).Ok?
    ensures PaidInTwo(r, first, second).value <= Worth(r, first + second)
    ensures r.RedeemCollateral(first + second).Ok? && Worth(r, first + second) <= U64_MAX ==>
      PaidInTwo(r, first, second).value <= r.RedeemCollateral(first + second).value.1
  {
    hide ReserveData.RedeemCollateral, Worth;
    RedeemBounded(r, first);
    var (s, x) := r.RedeemCollateral(first).value;
    RedeemEffect(r, first);
    RedeemPays(r, first);
    RedeemBounded(s, second);
    RedeemPays(s, second);
    var y := s.RedeemCollateral(second).value.1;
    if second == 0 {
      NothingForNothing(s);
    }
    SplitPayout(first, second, x, y, r.ctokens, r.Supply());
    RedeemIs(r, first + second);
    ShareIsWorth(r, first + second);
    Greatest(x + y, (first + second) * r.Supply(), r.ctokens);
  }

  lemma RedeemBounded(r: ReserveData, amount: u64)
    requires r.RedeemCollateral(amount).Ok?
    ensures amount <= r.ctokens
  {
  }

  lemma NothingForNothing(r: ReserveData)
    requires r.RedeemCollateral(0).Ok?
    ensures r.RedeemCollateral(0).value.1 == 0
  {
  }

  // ---- Holders ------------------------------------------------------------------------------

  /** An exchange rate that has not fallen leaves every holder's share worth as much, and quoted as much if it fits. */
  lemma QuoteKept(r: ReserveData, q: ReserveData, amount: u64)
    requires ReserveInv(r) && ReserveInv(q) && RateKept(r, q) && 0 < r.ctokens && 0 < q.ctokens
    ensures amount <= Worth(r, amount) <= Worth(q, amount)
    ensures Fits(q, amount) && Quote(r, amount).Ok? ==>
      Quote(q, amount).Ok? && Quote(r, amount).value <= Quote(q, amount).value
  {
    hide Quote, Worth;
    QuoteIs(r, amount);
    QuoteIs(q, amount);
    CastKeepsIff(Worth(r, amount));
    CastKeepsIff(Worth(q, amount));
    ShareIsWorth(r, amount);
    ShareIsWorth(q, amount);
    RatioFloors(amount, r.Supply(), r.ctokens, q.Supply(), q.ctokens);
  }

  lemma RatioFloors(amount: nat, a: nat, b: nat, c: nat, d: nat)
    requires 0 < b && 0 < d && RatioLe(a, b, c, d)
    ensures amount * a / b <= amount * c / d
  {
    var x := amount * a / b;
    Mono(0, a, amount);
    Floor(amount * a, b);
    RatioTransitive(x, amount, a, b, c, d);
    Greatest(x, amount * c, d);
  }

  /** Over any run that leaves cTokens outstanding no holder's share loses worth, whoever acts first; nor does its
   *  quote as long as the share still fits.
   */
  lemma HoldersQuoteNeverFalls(s: State, ixs: seq<Instruction>, key: Pubkey, amount: u64)
    requires Inv(s) && key in s.pools && Outstanding(s, ixs, key)
    ensures var r, q := s.pools[key].reserve, Run(s, ixs).pools[key].reserve;
      && ReserveInv(r) && 0 < r.ctokens && ReserveInv(q)
      && amount <= Worth(r, amount) <= Worth(q, amount)
      && (Fits(q, amount) && Quote(r, amount).Ok? ==>
            Quote(q, amount).Ok? && Quote(r, amount).value <= Quote(q, amount).value)
  {
    hide Inv, Exec, Quote, Worth, Fits, RateKept, ReserveInv;
    RunKeepsInv(s, ixs);
    PoolOk(s, key);
    PoolOk(Run(s, ixs), key);
    OutstandingAtStart(s, ixs, key);
    ExchangeRateNeverFalls(s, ixs, key);
    QuoteKept(s.pools[key].reserve, Run(s, ixs).pools[key].reserve, amount);
  }

  lemma {:induction false} OutstandingAtStart(s: State, ixs: seq<Instruction>, key: Pubkey)
    requires Outstanding(s, ixs, key)
    ensures key in s.pools && 0 < s.pools[key].reserve.ctokens
  {
    if |ixs| == 0 {
    } else {
      OutstandingAtStart(s, ixs[..|ixs| - 1], key);
    }
  }
}
