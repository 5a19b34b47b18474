/** Reading a Pyth price: what is accepted and how it is scaled. */
module PriceOracle {
  import opened Arithmetic
  import opened Numeric

  const CONFIDENCE_FACTOR: int := 50
  const MAX_AGE_SECONDS: int := 60
  const I64_MAX: int := 0x7FFF_FFFF_FFFF_FFFF

  /** A price account: `price * 10^exponent` USD, give or take `conf * 10^exponent`. `verified` stands for an account
   *  that can be parsed and carries full verification.
   */
  datatype PriceUpdate = PriceUpdate(account: nat, verified: bool, price: i64, conf: u64,
    exponent: i32, publishTime: i64)

  function Pow10(n: nat): (r: nat)
    ensures 0 < r
  {
    if n == 0 then 1 else 10 * Pow10(n - 1)
  }

  /** `unsigned_abs` */
  function Magnitude(n: i32): nat {
    if n < 0 then 0 - n else n
  }

  /** `10u128.pow(n)`, which aborts on overflow. */
  function Power(n: nat): Result<u128> {
    if Pow10(n) <= U128_MAX then Ok(Pow10(n)) else Err(Panic)
  }

  /** A difference of two times that saturates at 64 bits. */
  function Age(now: i64, published: i64): i64 {
    var age := now - published;
    if age > I64_MAX then I64_MAX else if age < -I64_MAX - 1 then -I64_MAX - 1 else age
  }

  function SaturatingMul(a: u64, b: u64): u64 {
    Mono(0, a, b);
    if a * b <= U64_MAX then a * b else U64_MAX
  }

  /** USD per token scaled by RATE_SCALE. */
  function ScaledPrice(price: u64, exponent: i32): Result<u128> {
    var scaled :- Mul128(price, RATE_SCALE);
    var power :- Power(Magnitude(exponent));
    if exponent < 0 then Div128(scaled, power) else Mul128(scaled, power)
  }

  function ReadPrice(update: PriceUpdate, now: i64): Result<u128> {
    var _ :- Require(update.verified, PriceNotValid);
    var _ :- Require(Age(now, update.publishTime) <= MAX_AGE_SECONDS, PriceStale);
    var _ :- Require(update.price > 0, PriceNotValid);
    var _ :- Require(SaturatingMul(update.conf, CONFIDENCE_FACTOR) <= update.price, PriceConfidenceTooWide);
    ScaledPrice(update.price, update.exponent)
  }

  // ---- What is accepted -----------------------------------------------------------------------

  lemma {:induction false} PowersGrow(n: nat, m: nat)
    requires n <= m
    ensures Pow10(n) <= Pow10(m)
  {
    if n == m {
    } else {
      PowersGrow(n, m - 1);
    }
  }

  lemma {:induction false} PowersAdd(n: nat, m: nat)
    ensures Pow10(n + m) == Pow10(n) * Pow10(m)
  {
    if n == 0 {
    } else {
      PowersAdd(n - 1, m);
    }
  }

  lemma PowerValues()
    ensures Pow10(12) == RATE_SCALE && Pow10(13) == 10 * RATE_SCALE
    ensures Pow10(38) == 100_000_000_000_000_000_000_000_000_000_000_000_000 && Pow10(39) == 10 * Pow10(38)
  {
    assert Pow10(3) == 1_000;
    PowersAdd(3, 3);
    PowersAdd(6, 6);
    PowersAdd(12, 12);
    PowersAdd(24, 12);
    assert Pow10(2) == 100;
    PowersAdd(36, 2);
  }

  lemma PowerFitsIff(n: nat)
    ensures Pow10(n) <= U128_MAX <==> n <= 38
  {
    hide Pow10;
    PowerValues();
    if n <= 38 {
      PowersGrow(n, 38);
    } else {
      PowersGrow(39, n);
    }
  }

  /** A price is accepted exactly when it is verified, at most a minute old, positive, known to two percent, and its
   *  scaling fits the widths.
   */
  lemma PriceAcceptedIff(update: PriceUpdate, now: i64)
    ensures ReadPrice(update, now).Ok? <==>
      && update.verified && now - update.publishTime <= MAX_AGE_SECONDS
      && 0 < update.price && update.conf * CONFIDENCE_FACTOR <= update.price
      && -38 <= update.exponent <= 38
      && (0 <= update.exponent ==> update.price * RATE_SCALE * Pow10(update.exponent) <= U128_MAX)
  {
    hide Pow10;
    PowerFitsIff(Magnitude(update.exponent));
    if 0 < update.price && 0 <= update.exponent {
      Mono(0, update.price * RATE_SCALE, Pow10(update.exponent));
    }
  }

  lemma FloorOrNothing(exact: nat, power: nat)
    requires 0 < power
    ensures var q := exact / power; 0 <= q && q * power <= exact < (q + 1) * power && (q == 0 <==> exact < power)
  {
    Floor(exact, power);
    if power <= exact {
      Greatest(1, exact, power);
    } else {
      CancelStrict(exact / power, 1, power);
    }
  }

  lemma ScaledDown(exact: nat, e: nat)
    ensures var stored := exact / Pow10(e);
      && stored * Pow10(e) <= exact < (stored + 1) * Pow10(e) && (stored == 0 <==> exact < Pow10(e))
      && (RATE_SCALE <= exact && stored == 0 ==> 13 <= e)
  {
    hide Pow10;
    FloorOrNothing(exact, Pow10(e));
    if e <= 12 {
      PowerValues();
      PowersGrow(e, 12);
    }
  }

  /** An accepted price is stored rounded down to a 10^12th of a dollar. It is stored as nothing exactly when it is
   *  below that, which the test for a positive price does not prevent.
   */
  lemma StoredPrice(update: PriceUpdate, now: i64)
    requires ReadPrice(update, now).Ok?
    ensures var stored, exact, e := ReadPrice(update, now).value, update.price * RATE_SCALE, Magnitude(update.exponent);
      && (0 <= update.exponent ==> stored == exact * Pow10(e) && 0 < stored)
      && (update.exponent < 0 ==>
            stored * Pow10(e) <= exact < (stored + 1) * Pow10(e) && (stored == 0 <==> exact < Pow10(e)))
      && (stored == 0 ==> update.exponent <= -13)
  {
    hide Pow10;
    var exact, e := update.price * RATE_SCALE, Magnitude(update.exponent);
    if update.exponent < 0 {
      ScaledDown(exact, e);
    } else {
      Mono(1, Pow10(e), exact);
    }
  }

  /** A tenth of a millionth of a millionth of a dollar is accepted as a positive price and stored as zero. */
  lemma TinyPriceIsZero()
    ensures ReadPrice(PriceUpdate(0, true, 1, 0, -13, 0), 0) == Ok(0)
  {
    hide Pow10;
    PowerValues();
  }
}
