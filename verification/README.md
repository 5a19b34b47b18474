# VeilVault lending engine: a verified model

VeilVault is a lending program for Solana. Depositors put tokens into a reserve and receive cTokens; cTokens can be
locked in an obligation as collateral, against which the owner borrows from any reserve; unhealthy obligations can be
liquidated by anyone. Two books record every loan, the reserve's (in raw tokens) and the obligation's (scaled by
RATE_SCALE), and each is rounded down on its own. This project models the reserve, the obligation, the instruction
handlers that drive both, and the arithmetic of the confidential health check, and proves what they keep.

In the table S is RATE_SCALE, R a reserve's debt, C its cumulative index, T its `total_supply`, s its cToken supply,
D an obligation's debt, p a price and t a liquidation threshold.

## How it is built

- `Numeric` holds machine integers, errors and checked arithmetic; `Arithmetic` the facts about floors and ratios.
  A `checked_*` call that overflows is `MathOverflow`, an unchecked operator that aborts is `Panic`, an `as` cast a
  remainder.
- `ReserveModel`, `ObligationModel` and `InstructionModel` say what each operation computes as functions on values,
  error for error. They are the specification; everything proved about runs is proved about them.
- `ReserveAccount`, `ObligationAccount` and `Handlers` are the program in its own form: classes whose methods update
  fields and slot arrays in place, loops over slots, handlers that call them in the program's order and move tokens
  between accounts. Each method is proved to end as its specification says, in the same state or with the same error.
  Handlers are proved to simulate the steps of the state machine.
- `Market` is the program as a state machine with any number of users and reserves. `Exec` is one instruction,
  `Step` one that leaves no trace when refused, `Run` a sequence of them. `MarketInvariant`, `MarketSteps`,
  `ReserveFlows`, `LoanFlows` and `TokenFlows` prove what every step keeps; `TwoLedgers`, `LoanSafety`, `LoanLife`,
  `CachedValues`, `SeizurePricing`, `RoundTrips` and `Parking` what follows for whole runs.
- `ReserveProperties`, `RateCurve`, `Accruals`, `CatchUps`, `ObligationProperties`, `RefreshProperties`,
  `InstructionProperties`, `Health` and `BorrowCheck` are about single operations and short sequences of them.
- `Guards`, `HealthGuards`, `Refreshes` and `Listings` say exactly when an operation is accepted and with what result,
  what refusing it protects and what is let through; `Acceptance` lifts this to whole instructions in a market, and
  `Refusals` says with which error each is refused. `Balances` and `Stamps` say whose accounts, obligations and reserves
  an instruction touches, and what only a refresh does.
- `HealthCircuit` is the confidential health check as integer arithmetic.
- `PriceOracle` is the reading of a Pyth price.
- `Scenes`, `Positions` and `Lending` describe concrete markets and prove that playing on them is playing on the state
  machine; `Rehearsal` and `Departures` are runs from the empty market on them: a loan's whole life, and one run for each
  way in which the program departs from what one would expect.

`dafny verify dfyconfig.toml` checks everything.

## Reading the model

- A refused instruction leaves the state unchanged, because the runtime rolls it back; methods may have changed fields
  by then, as `redeem_collateral` does.
- Addresses are natural numbers, zero being the default key. Users are indices; each has one obligation and, for each
  reserve, a balance of its asset and of its cTokens. Any user may issue any instruction, so what is proved holds a
  fortiori when only owners may.
- Slots, the time and price accounts arrive as parameters; whether a price account can be parsed and is fully verified
  is a flag of it. A configuration is stored only if it passes `validate`.
- A transfer debits and credits exactly its amount. A loan, and the cTokens seized by a liquidation, go wherever the
  caller says: to any user's account or back into the vault they come from; an account outside the market, such as the
  fee vault, counts as some user's. Other instructions pay accounts that the caller owns, which no vault is. No reserve
  lends another reserve's cTokens.
- Each pool carries a history of what was sent back into its vaults; no instruction reads it.
- Tokens reach users from outside through `Fund`, and cTokens pass between users through `SendCTokens`.

## Where the code departs from its own words

Each is stated exactly; the runs named here get there from the empty market.

- Borrowed tokens and seized cTokens may land in the vault they come from, which then holds more than any record says,
  for good: `Parking.VaultsMatchRecordsIff` has the exact condition under which vaults equal their records;
  `Rehearsal.LoanIsLentBack`, `Rehearsal.CollateralIsSeizedBack`.
- `health_factor` is documented as scaled by RATE_SCALE but is a plain quotient that is then compared with RATE_SCALE.
  `Health.HealthyIff` states what is decided and `Health.HealthAsDocumentedIff` exactly when that is the documented
  meaning. A consequence is in `BorrowCheck.BorrowCheckIsExact`: a borrow the inline check admits leaves a position that
  the very next refresh declares unhealthy unless it is covered RATE_SCALE times; the position liquidated in
  `Rehearsal.LivesToTheEnd` was covered four times.
- The inline check of a borrow reads cached values, which no borrow updates. Several borrows in one slot are together
  covered exactly if `BorrowCheck.BorrowsAfterRefresh` says so, and collateral can be withdrawn after them against the
  cached debt alone (`BorrowCheck.WithdrawalAfterBorrows`): `Rehearsal.BorrowsTwice`, `Rehearsal.BorrowsAndUnlocks`.
- Catching a loan up multiplies before it divides. A loan whose debt times the index leaves 128 bits can never be
  repaid, extended or liquidated again: `LoanLife.StuckForever`, `Departures.LargeLoanGetsStuck`.
- The reserve's record of the debt can fall behind the loans, and a repayment is refused beyond it:
  `LoanLife.RepayAcceptedIff`, `Departures.RecordFallsBehind`; by how much the two can part is in `TwoLedgers`.
- `collateral_to_liquidity` casts its result to 64 bits silently: `RoundTrips.RedeemIs`, `RoundTrips.QuoteIsWorthIff`,
  `Departures.QuoteWraps`.
- The first deposit after all cTokens are redeemed is minted one to one even when the pool still holds something, which
  its depositor then owns: `RoundTrips.RoundTripGainsIff`, `Departures.FirstDepositorGains`.
- Once idle liquidity no longer covers the fees, debt can exceed the depositors' claim, and the curve is then read beyond
  full utilization: `RateCurve.UtilizationFullIff`, `RateCurve.RangeIff`, `Departures.ChargesBeyondMaximum`.
- Utilization in basis points is cast to 16 bits before the curve is read, so that from 656% on an over-lent pool is
  charged as if it were nearly idle: `RateCurve.ReadIsTrueIff`, `Departures.OverLentChargesNothing`. When the charged
  rate is between its bounds and when it rises with utilization, casts included, is in `RateCurve.ChargedRateInRangeIff`
  and `RateCurve.ChargedRateMonotoneIff`.
- A new configuration takes effect on slots gone by, because interest is not booked first:
  `Listings.UpdateConfigAcceptedIff`, `Departures.NewRateReachesBack`.
- A reserve whose interest no longer fits 128 bits refuses everything that needs it booked, for good:
  `Accruals.AccrueAcceptedIff`, `Guards.StalledRefuses`, `Guards.StalledForever`, `Departures.ReserveStalls`.
- A closed slot leaves a hole while the valuation loops scan only the first `count` slots: `Health.TotalsSeeAllIff`,
  `Health.WithdrawKeepsCompactIff`, `Health.RepayKeepsCompactIff`. Collateral behind a hole carries no loan
  (`Departures.HoleHidesCollateral`); a loan behind one is neither liquidated nor holds any collateral:
  `HealthGuards.UnseenDebtIsNotLiquidated`, `HealthGuards.UnseenDebtHoldsNothing`, `HealthGuards.BlindForever`,
  `Departures.HoleHidesDebt`.
- A liquidation lowers a deposit without revaluing it; `CachedValues.CachedValueStaysCovered` bounds the stale value by
  what was seized, and `Rehearsal.SeizureLeavesStaleValue` has one. `liquidation_bonus_pct` is in basis points.
- A positive price can be stored as zero: `PriceOracle.StoredPrice`, `PriceOracle.TinyPriceIsZero`.

## Model

| member | source | states |
|---|---|---|
| ReserveAccount.Reserve.constructor | programs/veilvault/src/instructions/add_reserve.rs:105-122 | A reserve just created has nothing, is at index RATE_SCALE, without a price, stamped with the current slot, and not yet validly configured, field by field. |
| ReserveAccount.Reserve.Configure | programs/veilvault/src/state/reserve.rs:191-207 | The parameters are written first; they are accepted exactly when the threshold, the rate bounds, the optimal utilization and the fee are in order, else InvalidConfig. |
| ReserveAccount.Reserve.AddLiquidity | programs/veilvault/src/state/reserve.rs:351-357 | Adds to the idle liquidity, or refuses exactly when it would leave 64 bits. |
| ReserveAccount.Reserve.TakeLiquidity | programs/veilvault/src/state/reserve.rs:391-403 | Takes idle liquidity, or refuses exactly when there is too little. |
| ReserveAccount.Reserve.Mint | programs/veilvault/src/state/reserve.rs:513-519 | Raises the recorded cToken supply, or refuses exactly on 64-bit overflow. |
| ReserveAccount.Reserve.Burn | programs/veilvault/src/state/reserve.rs:521-531 | Lowers the recorded cToken supply, or refuses exactly when too few are recorded. |
| ReserveAccount.Reserve.DepositLiquidity | programs/veilvault/src/state/reserve.rs:73-87 | In place, error for error, the deposit that `DepositEffect`, `DepositMints` and the round-trip theorems are about. |
| ReserveAccount.Reserve.RedeemCollateral | programs/veilvault/src/state/reserve.rs:89-97 | In place, error for error, the redemption that `RedeemEffect` and `RedeemPays` are about; also that a redemption refused for lack of idle liquidity has already burned. |
| ReserveAccount.Reserve.Borrow | programs/veilvault/src/state/reserve.rs:99-105 | Moves tokens from idle to lent; the limit is tested on the debt before the borrow. |
| ReserveAccount.Reserve.Repay | programs/veilvault/src/state/reserve.rs:107-109 | Moves tokens from lent to idle, refused when more is repaid than the reserve records. |
| ReserveAccount.Reserve.BookInterest | programs/veilvault/src/state/reserve.rs:405-452 | Books interest, fee and index growth in the order of the program, overflow errors included. |
| ReserveAccount.Reserve.AccrueInterest | programs/veilvault/src/state/reserve.rs:111-128 | In place, error for error, the accrual that `AccrueEffect` and `AccrualIsProRata` are about. |
| ObligationAccount.Obligation.constructor | programs/veilvault/src/state/obligation.rs:140-145 | A new obligation has eight empty slots in each table and both counts at zero. |
| ObligationAccount.Obligation.PositionOfDeposit | programs/veilvault/src/state/obligation.rs:307-314 | The loop finds the first slot of the key, and none exactly when no slot has it. |
| ObligationAccount.Obligation.PositionOfBorrow | programs/veilvault/src/state/obligation.rs:323-331 | The loop finds the first borrow slot of the key, and none exactly when no slot has it. |
| ObligationAccount.Obligation.FindDeposit | programs/veilvault/src/state/obligation.rs:340-345 | The first deposit slot of the key, or DepositNotFound. |
| ObligationAccount.Obligation.FindBorrow | programs/veilvault/src/state/obligation.rs:347-352 | The first borrow slot of the key, or BorrowNotFound. |
| ObligationAccount.Obligation.FindOrAddDeposit | programs/veilvault/src/state/obligation.rs:307-321 | The key's slot, else the first free one, else ObligationDepositsFull. |
| ObligationAccount.Obligation.FindOrAddBorrow | programs/veilvault/src/state/obligation.rs:323-338 | The key's slot, else the first free one, else ObligationBorrowsFull. |
| ObligationAccount.Obligation.Deposit | programs/veilvault/src/state/obligation.rs:147-163 | In place on the arrays, error for error, the deposit that `DepositRefines` and `DepositAccepted` are about. |
| ObligationAccount.Obligation.Withdraw | programs/veilvault/src/state/obligation.rs:165-186 | In place, error for error, the withdrawal that `WithdrawRefines` is about. |
| ObligationAccount.Obligation.Borrow | programs/veilvault/src/state/obligation.rs:188-213 | In place, error for error, the borrow that `BorrowRefines` and `BorrowAccepted` are about. |
| ObligationAccount.Obligation.Repay | programs/veilvault/src/state/obligation.rs:215-242 | In place, error for error, the repayment that `RepayRefines` is about. |
| ObligationAccount.Obligation.AccrueInterest | programs/veilvault/src/state/obligation.rs:244-275 | In place, error for error, the catch-up that `AccrueRefines` and `TwoStepCatchUp` are about. |
| ObligationAccount.Obligation.SumBorrows | programs/veilvault/src/state/obligation.rs:281-284 | The fold over the first `count` borrow slots is their saturating sum; a count past the table aborts. |
| ObligationAccount.Obligation.SumDeposits | programs/veilvault/src/state/obligation.rs:290-293 | The fold over the first `count` deposit slots is their saturating sum; a count past the table aborts. |
| ObligationAccount.Obligation.HealthFactor | programs/veilvault/src/state/obligation.rs:280-297 | In place, the factor that `HealthyIff` characterises. |
| ObligationAccount.Obligation.IsHealthy | programs/veilvault/src/state/obligation.rs:300-305 | In place, the verdict that `HealthyIff` characterises. |
| Handlers.Deposit | programs/veilvault/src/instructions/deposit.rs:67-121 | Run on accounts that hold a market state, the handler ends in accounts that hold the state after the deposit step, or with exactly that step's error. |
| Handlers.Withdraw | programs/veilvault/src/instructions/withdraw.rs:63-115 | Simulates the withdraw step: accounts that held the state before it hold the state after it, or the handler fails with exactly its error. |
| Handlers.DepositCollateral | programs/veilvault/src/instructions/deposit_collateral.rs:63-96 | Simulates the step that locks cTokens in an obligation, error for error. |
| Handlers.ReleaseCollateral | programs/veilvault/src/instructions/withdraw_collateral.rs:75-104 | The obligation's part of a collateral withdrawal: pro-rata cut, withdrawal and health test in this order, error for error. |
| Handlers.WithdrawCollateral | programs/veilvault/src/instructions/withdraw_collateral.rs:63-129 | Simulates the step that releases locked cTokens, error for error. |
| Handlers.CheckBorrow | programs/veilvault/src/instructions/borrow.rs:101-126 | The inline check, loops included, decides and fails as its value-level form does; `BorrowCheckIsExact` says what that means. |
| Handlers.TakeLoan | programs/veilvault/src/instructions/borrow.rs:89-93 | Catches an existing loan up with the index, then adds the new debt. |
| Handlers.TakeOut | programs/veilvault/src/instructions/borrow.rs:56-127 | Everything a borrow does before tokens move, in the program's order, error for error. |
| Handlers.Borrow | programs/veilvault/src/instructions/borrow.rs:56-152 | Simulates the borrow step on reserve, obligation, vault and whatever account receives the loan, another user's or the vault itself, error for error. |
| Handlers.Repay | programs/veilvault/src/instructions/repay.rs:54-96 | Simulates the repay step on reserve, obligation, vault and user account, error for error. |
| Handlers.Prepare | programs/veilvault/src/instructions/liquidate.rs:99-121 | Status, accrual and price test of a reserve taking part in a liquidation. |
| Handlers.Seize | programs/veilvault/src/instructions/liquidate.rs:124-181 | The obligation's part of a liquidation: staleness, health, catch-up, close factor, pricing, cap and both table updates, error for error. |
| Handlers.Relieve | programs/veilvault/src/instructions/liquidate.rs:98-187 | The whole of a liquidation before tokens move, also when both reserves are one account. |
| Handlers.Liquidate | programs/veilvault/src/instructions/liquidate.rs:87-230 | Simulates the liquidation step, error for error, whether the two reserves are one account or two, whoever liquidates, and also when the seized cTokens are sent to the vault they are locked in. |
| Handlers.PriceBorrowSlot | programs/veilvault/src/instructions/refresh_obligation.rs:48-79 | One turn of the borrow loop: find the account, catch up, value; slots without a price are left as they are. |
| Handlers.PriceDepositSlot | programs/veilvault/src/instructions/refresh_obligation.rs:82-119 | One turn of the deposit loop: find the account, convert, weigh. |
| Handlers.RefreshObligation | programs/veilvault/src/instructions/refresh_obligation.rs:43-127 | Both in-place loops do what the slotwise characterisations `BorrowLoop` and `DepositLoop` describe, error for error, and the obligation is stamped with slot and time. |
| Handlers.RefreshReserve | programs/veilvault/src/instructions/refresh_reserve.rs:29-53 | Simulates the price refresh, error for error: the oracle account must be the configured one, interest is accrued, then the price is validated, scaled and stored with its publish time. |
| Handlers.AddReserve | programs/veilvault/src/instructions/add_reserve.rs:92-128 | Simulates the listing step, error for error: unpaused only, fresh empty accounts, validated configuration. |
| Handlers.UpdateReserveConfig | programs/veilvault/src/instructions/update_reserve_config.rs:28-34 | Simulates the step that replaces a configuration, error for error. |
| PriceOracle.PriceAcceptedIff | programs/veilvault/src/utils/prices.rs:12-65 | A price is accepted exactly when it is verified, at most a minute old, positive, known to two percent, and its scaling fits the widths. |
| PriceOracle.StoredPrice | programs/veilvault/src/utils/prices.rs:49-65 | The stored price is the price scaled by RATE_SCALE, rounded down; it is zero exactly when the price is below 10^-12, which needs an exponent of at most -13. |
| PriceOracle.TinyPriceIsZero | programs/veilvault/src/utils/prices.rs:39-58 | A price that passes the test for a positive price and is stored as zero. |
| ReserveProperties.AccrualIsProRata | programs/veilvault/src/state/reserve.rs:405-452 | Interest and index growth are the current yearly rate for exactly the elapsed slots, short by less than one unit and one part in RATE_SCALE; the fee is the configured part of the interest, rounded down. |
| ReserveProperties.AccruedInterestEffect | programs/veilvault/src/state/reserve.rs:405-452 | A positive rate over elapsed slots strictly raises the index, and debt and index grow by one rate up to R\*C' <= C\*R' + C and R'\*C <= R\*(C' + 1). |
| ReserveProperties.AccrueEffect | programs/veilvault/src/state/reserve.rs:111-128 | An accrual keeps the reserve invariant and stamps the slot. |
| ReserveProperties.AccrueKeepsBound | programs/veilvault/src/state/reserve.rs:461-470 | Debt stays far below 128 bits: past the point where the unchecked product of the utilization rate aborts nothing accrues, and a pool that got there has no cTokens and takes no deposits. |
| Accruals.AccrueAcceptedIff | programs/veilvault/src/state/reserve.rs:111-128 | Interest is booked exactly when utilization, interest on the debt and growth of the index fit 128 bits; debt, fees and the protocol's share then fit by themselves. |
| ReserveProperties.ExchangeRateUsed | programs/veilvault/src/state/reserve.rs:454-459 | Under the reserve invariant total_supply never fails, and the 1:1 rate is used exactly while no cTokens are outstanding. |
| ReserveProperties.DepositMints | programs/veilvault/src/state/reserve.rs:564-570 | A deposit mints the pro-rata number rounded down, at most one cToken per token, and nothing is lost to the cast. |
| ReserveProperties.DepositEffect | programs/veilvault/src/state/reserve.rs:73-87 | A deposit changes the idle liquidity and the supply by what it took and minted, keeps the invariant and does not lower the exchange rate. |
| ReserveProperties.RedeemPays | programs/veilvault/src/state/reserve.rs:556-562 | A redemption never pays more than the pro-rata share. |
| ReserveProperties.RedeemEffect | programs/veilvault/src/state/reserve.rs:89-97 | A redemption changes the idle liquidity and the supply by what it paid and burned, keeps the invariant and does not lower the exchange rate. |
| RateCurve.CurveMonotone | programs/veilvault/src/state/reserve.rs:223-262 | On validated configurations the kinked curve never falls as utilization rises, at any 16-bit utilization. |
| RateCurve.CurveIsKinked | programs/veilvault/src/state/reserve.rs:223-262 | A validated curve starts at the minimum, passes the optimal rate at the kink and reaches the maximum at full utilization, and is everywhere the straight line between these points, and beyond the last, rounded down once. |
| RateCurve.RangeIff | programs/veilvault/src/state/reserve.rs:223-262 | Every validated curve stays within its minimum and maximum at a utilization if and only if the utilization is at most 10000. |
| RateCurve.UtilizationFullIff | programs/veilvault/src/state/reserve.rs:461-470 | Reported utilization is at most full exactly while debt is below 101% of the depositors' claim; fees covered by idle liquidity imply it. |
| RateCurve.ReadIsTrueIff | programs/veilvault/src/state/reserve.rs:60-63 | The cast of the utilization to 16 bits is harmless exactly while debt is below 656% of the depositors' claim. |
| RateCurve.ChargedRateInRangeIff | programs/veilvault/src/state/reserve.rs:60-63 | Whatever the configuration, the charged rate is between its bounds if and only if the utilization in basis points, reduced to 16 bits, is at most full. |
| RateCurve.ChargedRateMonotoneIff | programs/veilvault/src/state/reserve.rs:60-63 | Whatever the configuration, one reserve is charged at least as much as another if and only if both are read at one utilization, or it at a higher one that is at most full. |
| RateCurve.ChargedRateInRange | programs/veilvault/src/state/reserve.rs:60-63 | With fees covered by idle liquidity the charged rate is the curve at the reported utilization, untruncated and between the bounds. |
| RateCurve.ChargedRateMonotone | programs/veilvault/src/state/reserve.rs:60-63 | On equal claims more debt never means a lower charged rate while fees are covered by idle liquidity. |
| RoundTrips.RoundTripLosesLittle | programs/veilvault/src/state/reserve.rs:73-97 | With cTokens outstanding, a deposit redeemed at once succeeds, returns no more than was paid and loses less than one cToken's worth at the old rate plus one token. |
| RoundTrips.RoundTripGainsIff | programs/veilvault/src/state/reserve.rs:533-545 | A round trip returns more than was paid exactly when it is the first deposit into a pool that still holds something. |
| RoundTrips.SplitDepositMintsNoMore | programs/veilvault/src/state/reserve.rs:564-570 | Two deposits never mint more than one of the same total. |
| RoundTrips.RedeemIs | programs/veilvault/src/state/reserve.rs:89-97 | A redemption is accepted exactly when the product fits 128 bits, the cTokens exist and the idle liquidity covers the share reduced to 64 bits, which is what it pays; past 64 bits the holder loses the difference. |
| RoundTrips.SplitRedemptionPaysNoMore | programs/veilvault/src/state/reserve.rs:556-562 | Two redemptions never pay more than the share of both, nor than one redemption of the same total whose share fits 64 bits. |
| RoundTrips.QuoteIsWorthIff | programs/veilvault/src/state/reserve.rs:556-562 | A quote is the holder's rounded-down share exactly while the product fits 128 bits and the share 64 bits. |
| RoundTrips.HoldersQuoteNeverFalls | programs/veilvault/src/state/reserve.rs:556-562 | Over any run that leaves cTokens outstanding no holder's share loses worth or is worth less than one token per cToken, and no quote falls whose later share fits the widths. |
| MarketSteps.ExecKeepsInv | programs/veilvault/src/lib.rs:38-99 | Every instruction, by whomever, keeps the market invariant. |
| ReserveFlows.ReachableReserve | programs/veilvault/src/instructions/deposit.rs:78-118 | In every reachable market each vault holds what the program records and what was sent back into it, each mint exactly what is recorded, over any number of users; every cToken is backed by a token, total_supply never fails and the 1:1 fallback is never used while cTokens are outstanding. |
| Parking.VaultsMatchRecordsIff | programs/veilvault/src/instructions/borrow.rs:46-51 | Over any run from the empty market a liquidity vault holds the idle amount plus what the run lent back into it, a collateral vault the locked cTokens plus what was seized back into it; each equals its record if and only if no step of the run sent anything back. |
| ReserveFlows.ReachableLoan | programs/veilvault/src/state/obligation.rs:255-272 | In every reachable market each open loan owes at least one token and has RATE_SCALE <= index <= its reserve's index. |
| ReserveFlows.ReserveStep | programs/veilvault/src/state/reserve.rs:73-128 | Each instruction moves each reserve by exactly its booked interest and its own flow. |
| ReserveFlows.RunConserves | programs/veilvault/src/state/reserve.rs:351-452 | Over any run available + borrowed equals the start plus deposits minus redemptions plus booked interest; fees are at most a tenth of it; the index never falls. |
| ReserveFlows.ExchangeRateNeverFalls | programs/veilvault/src/state/reserve.rs:533-545 | Over any run that leaves cTokens outstanding the exchange rate never falls. |
| Listings.AddReserveAcceptedIff | programs/veilvault/src/instructions/add_reserve.rs:92-128 | Exactly when a reserve is listed: unpaused, new address, configuration in order; it then holds nothing, at index RATE_SCALE, without a price, stamped with the slot of its listing, and no other pool or user changes. |
| Listings.UpdateConfigAcceptedIff | programs/veilvault/src/instructions/update_reserve_config.rs:28-34 | Exactly when a configuration is replaced, and that nothing else changes, the slot stamp included, so that slots gone by are charged at the new rate. |
| Listings.InitObligationOpens | programs/veilvault/src/state/obligation.rs:140-145 | Obligations can always be opened; a new one has eight empty slots of either kind and has never been refreshed. |
| Listings.NoTimeNoInterest | programs/veilvault/src/state/reserve.rs:111-128 | Over any run in which the slot stands still no interest is booked on a reserve that is up to date and its index stays. |
| Listings.ListedWithoutBacklog | programs/veilvault/src/instructions/add_reserve.rs:105-122 | Whatever the slot of its listing, over any run within that slot a reserve keeps its first index, accruals change nothing, and a first deposit mints one to one. |
| TokenFlows.TokensConserved | programs/veilvault/src/instructions/withdraw.rs:86-112 | Over any run the tokens of an asset in users' accounts and its vault change only by what comes in from outside. |
| Balances.BalancesMove | programs/veilvault/src/instructions/liquidate.rs:189-230 | Every user's tokens and cTokens move by exactly what each instruction names: the payer pays, the receiver receives, nobody else and no other asset. |
| Balances.OnlyNamedChange | programs/veilvault/src/lib.rs:38-99 | No instruction touches an obligation it does not act on or a pool it does not name; slot, pause flag, users and pools change by their own instructions alone. |
| Balances.BystanderKeepsAll | programs/veilvault/src/lib.rs:38-99 | Over any run that does not name a user, that user keeps every token, every cToken and the obligation to the letter. |
| Stamps.OnlyRefreshRevalues | programs/veilvault/src/instructions/refresh_obligation.rs:75-126 | Nothing but a refresh of an obligation stamps it or gives a loan of it another cached value. |
| Stamps.StampsMove | programs/veilvault/src/state/reserve.rs:111-128 | A reserve is stamped exactly by the instructions that book its interest, and its price dated exactly by a price refresh. |
| Stamps.StaleUntilRefreshed | programs/veilvault/src/instructions/borrow.rs:80-88 | Over any run without a refresh of it, an obligation from an earlier slot gets no loan, gives up no collateral and is not liquidated. |
| TwoLedgers.LedgersStayClose | programs/veilvault/src/state/reserve.rs:405-452 | Over any run by any number of users the users' debts and the reserve's record, per unit of index, part by at most one token per accrual one way and by the stated rounding the other. |
| TwoLedgers.BorrowersOweAtMost | programs/veilvault/src/state/obligation.rs:244-275 | From a reserve's listing on, all borrowers together, caught up, owe at most the recorded debt plus one indexed token per accrual. |
| TwoLedgers.RecordExceedsAtMost | programs/veilvault/src/state/reserve.rs:405-452 | The other side: S\*R exceeds what all borrowers owe by at most one scaled unit per open loan and, times the index, the accrued-on debt and the catch-ups over S and one token per loan ever closed. |
| CatchUps.TwoStepCatchUp | programs/veilvault/src/state/obligation.rs:244-275 | Catching up in two steps charges no more than at once and less than C2/C1 + 1 scaled units less; no step lowers the debt. |
| CatchUps.IndexOverDebt | programs/veilvault/src/state/reserve.rs:405-452 | Over n accruals R0\*Cn <= C0\*Rn + n\*Cn. |
| CatchUps.SoleBorrower | programs/veilvault/src/state/obligation.rs:244-275 | A sole borrower owes D with D\*C0 <= S\*(C0\*Rn + n\*Cn) after n accruals, and S\*R1 <= D + R0 after one. |
| LoanSafety.RateNeverDecreases | programs/veilvault/src/state/obligation.rs:255-258 | In a reachable market no instruction is ever refused with BorrowRateDecreased. |
| LoanSafety.LoanSurvives | programs/veilvault/src/instructions/liquidate.rs:133-178 | Without a repayment by its owner a loan stays open, loses at most half of its caught-up debt to a liquidation and nothing otherwise. |
| LoanSafety.LiquidationsNeverClose | programs/veilvault/src/instructions/liquidate.rs:139-142 | Over any run without such repayments k liquidations leave 2^k\*Dk >= D0 and the loan open. |
| LoanLife.PrincipalIsRepaid | programs/veilvault/src/state/obligation.rs:188-242 | Over any run an open loan owes at least what was borrowed less what was repaid; a closed one has had at least its principal repaid. |
| LoanLife.ClosingForgivesDust | programs/veilvault/src/state/obligation.rs:234-239 | Only a charge on the loan closes it, and it forgives less than one token. |
| LoanLife.RepayAcceptedIff | programs/veilvault/src/instructions/repay.rs:63-78 | A repayment is accepted exactly when interest can be booked, the loan can be caught up, both the loan and the reserve's record cover it and the idle liquidity has room. |
| LoanLife.StuckForever | programs/veilvault/src/state/obligation.rs:262-270 | A loan whose debt times the index leaves 128 bits while the index has moved past it is never changed again by any run. |
| LoanLife.StuckIsNeverFresh | programs/veilvault/src/instructions/refresh_obligation.rs:57-71 | Nor can an obligation whose scan reaches such a loan be refreshed while the reserve has a price. |
| Departures.LargeLoanGetsStuck | programs/veilvault/src/state/obligation.rs:262-270 | A run after which a loan of 10^15 raw units is stuck: within a year at 100% its catch-up overflows. |
| Departures.RecordFallsBehind | programs/veilvault/src/state/reserve.rs:377-382 | A run after which a borrower owes 2.56 tokens and the reserve records one: one can be repaid, two cannot, and after that none. |
| Departures.QuoteWraps | programs/veilvault/src/state/reserve.rs:561 | A run over which a lender's quote falls from 2^63 to nothing, and redeeming everything pays nothing. |
| Departures.FirstDepositorGains | programs/veilvault/src/state/reserve.rs:533-545 | A run to a pool without cTokens but with a claim of 90, in which the next depositor of 10 redeems 100. |
| Departures.ChargesBeyondMaximum | programs/veilvault/src/state/reserve.rs:60-63 | A run after which a curve that ends at one basis point charges 501, because debt exceeds the depositors' claim. |
| Departures.NewRateReachesBack | programs/veilvault/src/instructions/update_reserve_config.rs:28-34 | A run after which a year is free of interest or doubles the debt, depending on whether it is booked before or after the rate is raised. |
| Departures.OverLentChargesNothing | programs/veilvault/src/state/reserve.rs:60-63 | A run to a pool at 714% utilization, read as 58.64%, which a steep curve charges nothing; after a repayment of 85 it is at 107% and charged 701. |
| Departures.HoleHidesCollateral | programs/veilvault/src/instructions/borrow.rs:101-106 | A run after which collateral worth 4000 is out of the scan's sight and no loan of any size is admitted against it. |
| Departures.HoleHidesDebt | programs/veilvault/src/state/obligation.rs:236-239 | A run in which repaying a small loan leaves a hole before one of 400 tokens: the scan no longer sees the debt, the position counts as healthy, and in the same slot all of its collateral is released with the loan open. |
| Departures.ReserveStalls | programs/veilvault/src/state/reserve.rs:429-449 | A run after which a reserve without deposits, forty-nine years at 100%, can never book interest again under its configuration. |
| ObligationProperties.TablesAreMaps | programs/veilvault/src/state/obligation.rs:307-352 | Well-formed tables are maps of at most eight keys: a deposit is present exactly with a positive amount, a loan exactly with at least a token of debt, and the counts are the sizes. |
| ObligationProperties.SlotFor | programs/veilvault/src/state/obligation.rs:307-338 | A slot to add to is found exactly when the key is present or fewer than eight slots are used. |
| ObligationProperties.DepositRefines | programs/veilvault/src/state/obligation.rs:147-163 | A deposit raises that key's amount and no other and keeps the tables well formed. |
| ObligationProperties.DepositAccepted | programs/veilvault/src/state/obligation.rs:147-163 | Exactly when a deposit is accepted. |
| ObligationProperties.WithdrawRefines | programs/veilvault/src/state/obligation.rs:165-186 | A withdrawal is accepted exactly up to the locked amount, lowers that key's and no other. |
| ObligationProperties.BorrowRefines | programs/veilvault/src/state/obligation.rs:188-213 | A borrow adds scaled tokens to that key's debt; a new loan starts at the given index. |
| ObligationProperties.BorrowAccepted | programs/veilvault/src/state/obligation.rs:188-213 | Exactly when a borrow is accepted. |
| ObligationProperties.RepayRefines | programs/veilvault/src/state/obligation.rs:215-242 | A repayment is accepted exactly up to the debt, and drops the loan exactly when less than a token is left. |
| ObligationProperties.AccrueRefines | programs/veilvault/src/state/obligation.rs:244-275 | Accruing a slot catches that key's loan up with the index, rounded down, and changes no other. |
| Health.HealthyIff | programs/veilvault/src/state/obligation.rs:280-305 | Healthy means no borrow value, or deposits of at least RATE_SCALE times the borrows, as saturating sums over the first slots. |
| Health.HealthAsDocumentedIff | programs/veilvault/src/state/obligation.rs:277-305 | The documented meaning, deposits of at least the borrows, is what is decided except exactly for positive borrows between deposits / RATE_SCALE and deposits. |
| Health.HealthCounterexample | programs/veilvault/src/state/obligation.rs:295-305 | A position with a hundredfold collateral that is called unhealthy. |
| Health.TotalsSeeAllIff | programs/veilvault/src/state/obligation.rs:281-293 | The scans see the full cached value exactly when no slot past the count has any; compact tables qualify. |
| Health.WithdrawKeepsCompactIff | programs/veilvault/src/state/obligation.rs:180-183 | A withdrawal keeps a compact table compact exactly when it leaves something or closes the last slot. |
| Health.RepayKeepsCompactIff | programs/veilvault/src/state/obligation.rs:236-239 | A repayment keeps a compact borrow table compact exactly when at least a token stays owed or it closes the last slot. |
| Health.BorrowKeepsCompact | programs/veilvault/src/state/obligation.rs:196-201 | Adding debt keeps a compact borrow table compact. |
| Health.WithdrawalLeavesCover | programs/veilvault/src/instructions/withdraw_collateral.rs:84-103 | After a collateral withdrawal all cached collateral is worth at least RATE_SCALE times the cached debt the scan reaches, and without a hole among the loans that is all debt, whatever holes the deposits have and however sums saturate. |
| RefreshProperties.BorrowLoop | programs/veilvault/src/instructions/refresh_obligation.rs:48-79 | The borrow loop succeeds exactly when every scanned slot can be priced, and prices each independently. |
| RefreshProperties.DepositLoop | programs/veilvault/src/instructions/refresh_obligation.rs:82-119 | The deposit loop succeeds exactly when every scanned slot can be valued, and values each independently. |
| RefreshProperties.RefreshKeeps | programs/veilvault/src/instructions/refresh_obligation.rs:43-127 | A refresh keeps the tables well formed, moves no collateral and changes a loan only by catching it up with its reserve. |
| Refreshes.PriceBorrowIff | programs/veilvault/src/instructions/refresh_obligation.rs:48-79 | A loan is valued exactly when its reserve is passed along and, at a price, the catch-up and the product fit; it is then caught up and worth the price of its whole tokens, whatever the reserve's status. |
| Refreshes.PriceDepositIff | programs/veilvault/src/instructions/refresh_obligation.rs:82-119 | A deposit is valued exactly when its reserve is passed along and, at a price, the conversion and both products fit; its value is then the threshold's percentage of its tokens' price, rounded down, whatever the reserve's status. |
| Refreshes.RefreshObligationAcceptedIff | programs/veilvault/src/instructions/refresh_obligation.rs:43-127 | An obligation is refreshed exactly when every slot in sight can be valued; just those slots are, and it is stamped. |
| Refreshes.ObligationRefreshIff | programs/veilvault/src/instructions/refresh_obligation.rs:43-127 | The same in a market, paused or not, against exactly the accounts passed along; no other user and no pool changes. |
| Refreshes.RefreshReserveAcceptedIff | programs/veilvault/src/instructions/refresh_reserve.rs:29-53 | A price is stored exactly when it comes from the configured account, passes every test of a price, and the interest can be booked; the result is the accrued reserve at that price, rounded down, with its time. |
| Refreshes.PriceRefreshIff | programs/veilvault/src/instructions/refresh_reserve.rs:29-53 | The same in a market, paused or not, of any listed reserve; nothing else changes. |
| BorrowCheck.RefreshAgain | programs/veilvault/src/instructions/refresh_obligation.rs:43-127 | A second refresh against the same valuations changes nothing. |
| BorrowCheck.BorrowCheckIsExact | programs/veilvault/src/instructions/borrow.rs:66-126 | Refresh, borrow, refresh, without holes and with the reserve accrued: the second refresh succeeds, finds exactly the totals compared, collateral covers debt, and the position counts as healthy only if it covers it RATE_SCALE times. |
| BorrowCheck.RefreshFinds | programs/veilvault/src/instructions/refresh_obligation.rs:43-127 | With loans caught up and collateral valued, a refresh finds exactly what is due at the current prices, or fails because a slot's value leaves 128 bits. |
| BorrowCheck.BorrowsInARow | programs/veilvault/src/instructions/borrow.rs:96-126 | After any number of borrows in a slot the cached totals are still those of the refresh while the debt due has grown by the worth of all; the last was admitted against the cached debt and its own worth alone. |
| BorrowCheck.BorrowsAfterRefresh | programs/veilvault/src/instructions/borrow.rs:96-126 | Refresh, any number of borrows, refresh: the second finds cached debt plus the worth of every borrow, so the position is covered exactly if that worth is at most collateral less cached debt. |
| BorrowCheck.WithdrawalAfterBorrows | programs/veilvault/src/instructions/withdraw_collateral.rs:75-104 | A withdrawal after such borrows leaves collateral of at least RATE_SCALE times the debt without them. |
| CachedValues.CachedValueStaysCovered | programs/veilvault/src/instructions/withdraw_collateral.rs:84-98 | From a refresh on, over any run by anyone short of another price or threshold, value\*100\*s <= (cTokens + seized)\*T\*p\*t, where seized counts the cTokens liquidated from the slot since it was last valued. |
| CachedValues.RefreshCovers | programs/veilvault/src/instructions/refresh_obligation.rs:103-118 | A refresh whose scan reaches the slot at a positive price establishes that bound. |
| CachedValues.CompactIsScanned | programs/veilvault/src/state/obligation.rs:281-293 | A refresh of a table without holes reaches every open deposit, so that `RefreshCovers` applies to each. |
| CachedValues.CachedValueIsClose | programs/veilvault/src/instructions/withdraw_collateral.rs:90-96 | Hence the cached value exceeds the program's own valuation of cTokens and seized ones by less than p\*t/100 + 1. |
| InstructionProperties.BorrowEffect | programs/veilvault/src/instructions/borrow.rs:66-126 | A borrow lowers idle liquidity and raises both debt records by the amount, on the accrued reserve and the caught-up loan. |
| InstructionProperties.RepayEffect | programs/veilvault/src/instructions/repay.rs:63-78 | A repayment lowers both debt records by the amount and raises idle liquidity. |
| InstructionProperties.WithdrawCollateralEffect | programs/veilvault/src/instructions/withdraw_collateral.rs:75-104 | Releasing collateral lowers that key's amount by exactly what is released and touches no loan. |
| InstructionProperties.CapIsHalf | programs/veilvault/src/instructions/liquidate.rs:137-142 | One liquidation may repay at most half of the debt, and every whole token of that half as long as 64 bits can count them. |
| InstructionProperties.SeizeEffect | programs/veilvault/src/instructions/liquidate.rs:124-181 | A liquidation lowers that loan by what is repaid and that collateral by what is seized, and nothing else. |
| SeizurePricing.SeizedWithinBonus | programs/veilvault/src/instructions/liquidate.rs:144-175 | Through three nested floors seized\*T\*p_w\*10000 <= repaid\*p_r\*(10000 + bonus)\*s; short of the whole deposit the shortfall is less than one unit per floor. |
| SeizurePricing.LiquidationsWithinBonus | programs/veilvault/src/instructions/liquidate.rs:144-175 | Every liquidation that succeeds in a reachable market is priced within those bounds. |
| Guards.DepositAcceptedIff | programs/veilvault/src/instructions/deposit.rs:67-83 | Exactly when a deposit is accepted: positive, active reserve, interest bookable, within the limit and the widths; minting itself never overflows. |
| Guards.WithdrawAcceptedIff | programs/veilvault/src/instructions/withdraw.rs:63-79 | Exactly when a withdrawal is accepted, interest being bookable included, and that it pays the share reduced to 64 bits. |
| Guards.BorrowAcceptedIff | programs/veilvault/src/instructions/borrow.rs:56-127 | Exactly when a borrow is accepted, whatever holes the tables have: bookable interest, limit before the borrow, idle liquidity, price, freshness, a slot, a loan that can be caught up, width, and scanned collateral covering scanned debt plus the new debt. |
| Guards.OnlyUncoveredAreLiquidated | programs/veilvault/src/instructions/liquidate.rs:88-131 | A liquidation succeeds only unpaused, on active and priced reserves, after a refresh in the same slot by which RATE_SCALE times the debt exceeds the collateral. |
| Acceptance.DepositCollateralAcceptedIff | programs/veilvault/src/instructions/deposit_collateral.rs:63-78 | Exactly when collateral can be locked: positive, active reserve, a slot, width, whatever the obligation owes and however stale it is; loans, cached values and stamps are not touched. |
| Acceptance.LockIff | programs/veilvault/src/instructions/deposit_collateral.rs:63-96 | In a market: the same, unpaused, with the cTokens at hand; the vault always has room. |
| Acceptance.ReleaseIff | programs/veilvault/src/instructions/withdraw_collateral.rs:63-129 | In a market: exactly when locked cTokens are released; the vault always has them and the owner's account always has room. |
| Acceptance.DepositIff | programs/veilvault/src/instructions/deposit.rs:67-121 | In a market: exactly when a deposit is accepted, tokens at hand and room in the vault included; minting never fails. |
| Acceptance.WithdrawIff | programs/veilvault/src/instructions/withdraw.rs:63-115 | In a market: exactly when a redemption is accepted; burning never fails, and the vault always has what the reserve's idle amount covers. |
| Acceptance.BorrowIff | programs/veilvault/src/instructions/borrow.rs:56-152 | In a market: exactly when a borrow is accepted, wherever it is paid to. |
| Acceptance.RepayIff | programs/veilvault/src/instructions/repay.rs:54-96 | In a market, paused or not: exactly when a repayment is accepted. |
| Acceptance.LiquidateIff | programs/veilvault/src/instructions/liquidate.rs:87-230 | In a market: exactly when a liquidation is accepted, by whomever and wherever the cTokens go; handing them over never fails. |
| Guards.PausedMarketHoldsEverything | programs/veilvault/src/instructions/withdraw.rs:14-19 | Over any run without unpausing, a paused market lets no token leave a vault and no cToken be minted, burned, locked or released. |
| Guards.FrozenReserveStaysPut | programs/veilvault/src/state/reserve.rs:215-217 | Over any run that keeps its configuration, nothing enters or leaves the liquidity of a reserve that is not active, and its debt only grows by interest. |
| Guards.StalledRefuses | programs/veilvault/src/state/reserve.rs:111-128 | A reserve whose interest cannot be booked refuses every deposit, withdrawal, borrow, repayment, price refresh and liquidation on either side. |
| Guards.StalledForever | programs/veilvault/src/state/reserve.rs:111-128 | No run changes such a reserve again, short of another configuration. |
| HealthGuards.WithdrawCollateralAcceptedIff | programs/veilvault/src/instructions/withdraw_collateral.rs:63-104 | Exactly when locked cTokens are released, whatever holes the tables have: fresh, positive, at most what is locked, the cut of the cached value fits 128 bits, and what is then scanned covers RATE_SCALE times the scanned debt or no debt is scanned. |
| HealthGuards.LiquidateAcceptedIff | programs/veilvault/src/instructions/liquidate.rs:88-187 | Exactly when a liquidation is accepted, whatever holes the tables have: both reserves active, bookable and priced, a fresh obligation whose scanned debt times RATE_SCALE exceeds its scanned collateral, a loan that can be caught up, something left to repay and to seize after close factor, floors and cap, products within the widths, and a record of the reserve that covers what is repaid; and that exactly these amounts are repaid and seized. |
| HealthGuards.UnseenDebtIsNotLiquidated | programs/veilvault/src/instructions/liquidate.rs:124-131 | No liquidation of an obligation whose scan sees no debt ever succeeds, whatever it owes. |
| HealthGuards.UnseenDebtHoldsNothing | programs/veilvault/src/instructions/withdraw_collateral.rs:84-103 | From such an obligation a withdrawal of collateral succeeds exactly if unpaused, fresh, positive, of at most what is locked, and the cut of the cached value fits 128 bits. |
| HealthGuards.BlindForever | programs/veilvault/src/state/obligation.rs:281-284 | Over any run in which the owner neither borrows nor repays, loans out of the scan's reach stay exactly as they are and every liquidation of the obligation is refused. |
| Refusals.DepositRefused | programs/veilvault/src/instructions/deposit.rs:67-83 | The error of a refused deposit is that of the first test it fails, each test in terms of the reserve's claim and limits. |
| Refusals.WithdrawRefused | programs/veilvault/src/instructions/withdraw.rs:63-79 | The error of a refused redemption, likewise. |
| Refusals.DepositCollateralRefused | programs/veilvault/src/instructions/deposit_collateral.rs:63-78 | The error of a refused locking of collateral, likewise. |
| Refusals.WithdrawCollateralRefused | programs/veilvault/src/instructions/withdraw_collateral.rs:63-104 | The error of a refused release, likewise: stale before missing, missing before short, short before too wide, and unhealthy last. |
| Refusals.BorrowRefused | programs/veilvault/src/instructions/borrow.rs:56-127 | The error of a refused borrow, likewise, down to which of the inline check's sums aborts. |
| Refusals.RepayRefused | programs/veilvault/src/instructions/repay.rs:54-78 | The error of a refused repayment, likewise: the reserve's record is tested before the loan. |
| Refusals.LiquidateRefused | programs/veilvault/src/instructions/liquidate.rs:88-187 | The error of a refused liquidation, likewise, through both reserves, the obligation and the record. |
| Refusals.PriceRefused | programs/veilvault/src/utils/prices.rs:12-65 | The error of a refused price, likewise. |
| Refusals.RefreshReserveRefused | programs/veilvault/src/instructions/refresh_reserve.rs:29-53 | The error of a refused price refresh: the oracle account is tested first, interest booked second, the price read last. |
| Refusals.RefreshObligationRefused | programs/veilvault/src/instructions/refresh_obligation.rs:43-127 | A refused refresh names the first slot in sight that cannot be valued, loans before deposits. |
| Rehearsal.LivesToTheEnd | programs/veilvault/src/lib.rs:38-99 | A run from the empty market through supplying, locking, borrowing, a year's interest, a liquidation, repayment and withdrawal succeeds with these amounts. |
| Rehearsal.SeizureLeavesStaleValue | programs/veilvault/src/instructions/liquidate.rs:170-178 | A run after which 4000 are cached for collateral that a refresh would value at 3592. |
| Rehearsal.BorrowsTwice | programs/veilvault/src/instructions/borrow.rs:96-126 | A run in which two borrows in one slot are admitted and the refresh finds 6000 of debt on 4000 of collateral. |
| Rehearsal.BorrowsAndUnlocks | programs/veilvault/src/instructions/withdraw_collateral.rs:75-104 | A run in which all collateral is taken out in the slot of a borrow. |
| Rehearsal.LoanIsLentBack | programs/veilvault/src/instructions/borrow.rs:46-51 | A run after which a vault holds 1000 where the reserve records 900, because 100 were lent into it. |
| Rehearsal.CollateralIsSeizedBack | programs/veilvault/src/instructions/liquidate.rs:77-82 | A run after which a collateral vault holds 500 where obligations have locked 449, because 51 were seized into it. |
| HealthCircuit.VerdictIsConservative | encrypted-ixs/src/lib.rs:118-133 | A positive verdict is never wrong; a negative one is wrong only by less than one collateral token's price. |
| HealthCircuit.VerdictIsExactIff | encrypted-ixs/src/lib.rs:127-132 | The verdict is exact for every debt precisely when what the division drops is worth less than a cent. |
| HealthCircuit.NoOverflow | encrypted-ixs/src/lib.rs:9-16 | Within the stated caps no intermediate value leaves 64 bits. |
| HealthCircuit.PositionTracksTotals | encrypted-ixs/src/lib.rs:43-102 | After any updates the position lies between net and gross totals; collateral and debt each equal the net exactly when no removal of it was cut off. |
| HealthCircuit.PositionIsLargestNet | encrypted-ixs/src/lib.rs:43-102 | Both sides of the position are the largest net total of any final stretch of the updates, the empty one included: an excessive removal leaves nothing and wipes out what came before it. |
| HealthCircuit.CheckAfterUpdates | encrypted-ixs/src/lib.rs:118-133 | After any capped updates a check fits in 64 bits, and a positive verdict covers the net debt unless a removal of collateral was cut off; repayments that were cut off do no harm. |

## Left out

- Account validation, seeds, signers, zero-copy layout: who may call is not modelled, only what a call does.
- SPL Token and Token-2022 internals, transfer-fee mints, direct transfers to or from vaults, external burns.
- Parsing of Pyth accounts, beyond the flag that it succeeds.
- Arcium queueing, callbacks, encryption and the private instructions, so runs contain none of them; the private
  borrow, deposit and liquidation repeat the updates of the public ones behind another gate. `HealthCircuit` covers only
  the arithmetic of the circuits, in unbounded integers shown to fit 64 bits within the stated caps, and is not tied to
  the public obligation.
- Market initialization, authority transfer, the fee vault and withdrawal of fees (there is none in the program).
- Token account identity beyond one account per user and asset, and reserves whose asset is another reserve's cToken.
- Handlers.RefreshObligation: is proved against the value-level refresh, not against a market state, because the
  accounts passed along are an arbitrary list of reserves.
- RoundTrips.HoldersQuoteNeverFalls: is unconditional for the worth of a share; for the quote it asks that the later
  share fits the code's widths, since beyond them the quote can fall (Departures.QuoteWraps).
