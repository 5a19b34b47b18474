/** Facts about floor division and products, stated on plain integers. */
module Arithmetic {
  lemma DivLe(a: int, b: int)
    requires 0 <= a && 0 < b
    ensures 0 <= a / b <= a
  {
    Floor(a, b);
    if a / b > a {
      Mono(1, b, a / b);
    }
  }

  /** The two bounds that define a floor. */
  lemma Floor(n: int, d: int)
    requires 0 < d
    ensures (n / d) * d <= n < (n / d) * d + d
    ensures 0 <= n ==> 0 <= n / d
  {
  }

  lemma Mono(a: int, b: int, c: int)
    requires a <= b && 0 <= c
    ensures a * c <= b * c && c * a <= c * b
  {
  }

  /** A positive factor cancels from an inequality. */
  lemma Cancel(a: int, b: int, c: int)
    requires 0 < c && a * c <= b * c
    ensures a <= b
  {
    if b < a {
      Mono(b + 1, a, c);
    }
  }

  lemma CancelStrict(a: int, b: int, c: int)
    requires 0 < c && a * c < b * c
    ensures a < b
  {
    if b <= a {
      Mono(b, a, c);
    }
  }

  /** The floor is the greatest integer below the quotient. */
  lemma Greatest(q: int, n: int, d: int)
    requires 0 < d && q * d <= n
    ensures q <= n / d
  {
    Floor(n, d);
    CancelStrict(q, n / d + 1, d);
  }

  /** The share of the whole. */
  lemma WholeShare(a: nat, b: nat)
    requires 0 < a
    ensures a * b / a == b
  {
    Floor(a * b, a);
    Greatest(b, a * b, a);
    Cancel(a * b / a, b, a);
  }

  /** `a : b` is at most `c : d`. */
  predicate RatioLe(a: int, b: int, c: int, d: int) {
    a * d <= c * b
  }

  lemma RatioTransitive(a: int, b: int, c: int, d: int, e: int, f: int)
    requires 0 < d && 0 <= b && 0 <= f
    requires RatioLe(a, b, c, d) && RatioLe(c, d, e, f)
    ensures RatioLe(a, b, e, f)
  {
    calc {
      (a * f) * d;
      (a * d) * f;
    <= { Mono(a * d, c * b, f); }
      (c * b) * f;
      (c * f) * b;
    <= { Mono(c * f, e * d, b); }
      (e * d) * b;
      (e * b) * d;
    }
    Cancel(a * f, e * b, d);
  }

  /** The rounded-down share `amount * part / whole`. */
  lemma Share(amount: int, part: int, whole: int)
    requires 0 <= amount && 0 <= part && 0 < whole
    ensures RatioLe(amount * part / whole, amount, part, whole)
    ensures part * amount < (amount * part / whole + 1) * whole
    ensures 0 <= amount * part / whole
    ensures part <= whole ==> amount * part / whole <= amount
  {
    var q := amount * part / whole;
    Mono(0, part, amount);
    Floor(amount * part, whole);
    if part <= whole {
      Mono(part, whole, amount);
      Cancel(q, amount, whole);
    }
  }

  /** Adding `minted` for `amount` below the going ratio does not lower the ratio. */
  lemma Dilution(supply: int, ctokens: int, amount: int, minted: int)
    requires minted * supply <= ctokens * amount
    ensures RatioLe(supply, ctokens, supply + amount, ctokens + minted)
  {
    calc {
      supply * (ctokens + minted);
      supply * ctokens + minted * supply;
    <=
      supply * ctokens + ctokens * amount;
      (supply + amount) * ctokens;
    }
  }

  /** Taking `paid` for `burned` below the going ratio does not lower the ratio. */
  lemma Redemption(supply: int, ctokens: int, paid: int, burned: int)
    requires 0 <= ctokens <= supply && 0 <= burned <= ctokens && paid * ctokens <= supply * burned
    ensures RatioLe(supply, ctokens, supply - paid, ctokens - burned)
    ensures 0 <= paid && ctokens > 0 ==> ctokens - burned <= supply - paid
  {
    assert burned * supply == supply * burned;
    calc {
      supply * (ctokens - burned);
      supply * ctokens - supply * burned;
    <=
      supply * ctokens - paid * ctokens;
      (supply - paid) * ctokens;
    }
    if ctokens > 0 {
      Mono(ctokens, supply, ctokens - burned);
      Cancel(ctokens - burned, supply - paid, ctokens);
    }
  }

  lemma DivMono(a: int, b: int, d: int)
    requires a <= b && 0 < d
    ensures a / d <= b / d
  {
    Floor(a, d);
    Greatest(a / d, b, d);
  }
}

/** Machine integers, errors and checked arithmetic of the lending program.
 *
 *  A value of a Rust integer type is an `int` confined to the type's range. A `checked_*` call that
 *  yields `None` becomes `Err(MathOverflow)`; an unchecked operator that aborts under the
 *  release profile's overflow checks becomes `Err(Panic)`; an `as` cast is a remainder.
 */
module Numeric {
  import opened Arithmetic

  const U16_MODULUS: int := 0x1_0000
  const U64_MAX: int := 0xFFFF_FFFF_FFFF_FFFF
  const U64_MODULUS: int := 0x1_0000_0000_0000_0000
  const U128_MAX: int := 0xFFFF_FFFF_FFFF_FFFF_FFFF_FFFF_FFFF_FFFF

  type u8 = n: int | 0 <= n <= 0xFF
  type u16 = n: int | 0 <= n <= 0xFFFF
  type u64 = n: int | 0 <= n <= 0xFFFF_FFFF_FFFF_FFFF
  type u128 = n: int | 0 <= n <= 0xFFFF_FFFF_FFFF_FFFF_FFFF_FFFF_FFFF_FFFF

  type i32 = n: int | -0x8000_0000 <= n <= 0x7FFF_FFFF
  type i64 = n: int | -0x8000_0000_0000_0000 <= n <= 0x7FFF_FFFF_FFFF_FFFF

  // Constants of the program.
  const BPS_SCALER: int := 10_000
  const PERCENT_SCALER: int := 100
  const MAX_PROTOCOL_FEE_BPS: int := 1_000
  const SLOTS_PER_YEAR: int := 63_072_000
  const RATE_SCALE: int := 1_000_000_000_000
  const MAX_LIQUIDATION_THRESHOLD_PCT: int := 100
  const MAX_UTILIZATION_BPS: int := 10_000
  const MAX_LIQUIDATION_CLOSE_FACTOR_PCT: int := 50

  datatype LendingError =
    | MathOverflow
    | InsufficientLiquidity
    | BorrowRateZeroFound
    | ZeroSlotsElapsed
    | InvalidConfig
    | DepositLimitExceeded
    | BorrowLimitExceeded
    | InsufficientCollateral
    | ObligationDepositsFull
    | ObligationBorrowsFull
    | DepositNotFound
    | BorrowNotFound
    | BorrowRateDecreased
    | InvalidAmount
    | PriceStale
    | PriceNotValid
    | PriceConfidenceTooWide
    | UnhealthyObligation
    | ObligationStale
    | ObligationHealthy
    | AccountMissing   // the runtime finds no such account
    | TokenTransfer    // the token program refuses a transfer, mint or burn
    | Panic            // an unchecked operation aborts

  datatype Option<+T> = None | Some(value: T)

  datatype Result<+T> = Ok(value: T) | Err(error: LendingError) {
    predicate IsFailure() {
      Err?
    }

    function PropagateFailure<U>(): Result<U>
      requires Err?
    {
      Err(error)
    }

    function Extract(): T
      requires Ok?
    {
      value
    }

    function GetOr(default: T): T {
      if Ok? then value else default
    }
  }

  /** `require!` */
  function Require(condition: bool, error: LendingError): Result<()> {
    if condition then Ok(()) else Err(error)
  }

  function Add64(a: u64, b: u64): Result<u64> {
    if a + b <= U64_MAX then Ok(a + b) else Err(MathOverflow)
  }

  function Add128(a: u128, b: u128): Result<u128> {
    if a + b <= U128_MAX then Ok(a + b) else Err(MathOverflow)
  }

  function Sub(a: u128, b: u128): Result<u128> {
    if b <= a then Ok(a - b) else Err(MathOverflow)
  }

  function Mul128(a: u128, b: u128): (r: Result<u128>) {
    if 0 <= a * b <= U128_MAX then Ok(a * b) else Err(MathOverflow)
  }

  function Div128(a: u128, b: u128): (r: Result<u128>) {
    if b == 0 then
      Err(MathOverflow)
    else
      DivLe(a, b);
      Ok(a / b)
  }

  lemma FitsIn128(a: nat, b: nat)
    requires a <= U64_MAX && b <= U64_MAX
    ensures 0 <= a * b <= U128_MAX
  {
    Mono(a, U64_MAX, b);
    Mono(b, U64_MAX, U64_MAX);
  }

  /** `a.checked_mul(b)` followed by `checked_div(c)`. */
  function MulDiv(a: u128, b: u128, c: u128): Result<u128> {
    var product :- Mul128(a, b);
    Div128(product, c)
  }
}
