/** The confidential position circuits as plain integer arithmetic.
 *
 *  Amounts are whole tokens, prices are cents, rates and thresholds are basis points. Arithmetic is unbounded here;
 *  `NoOverflow` shows that within the stated caps the 64-bit circuit computes the same.
 */
module HealthCircuit {
  import opened Arithmetic
  import opened Numeric

  datatype Position = Position(collateral: nat, borrowed: nat)

  datatype Update =
    | AddCollateral(amount: nat)
    | RemoveCollateral(amount: nat)
    | AddBorrow(amount: nat)
    | RemoveBorrow(amount: nat)

  const EMPTY_POSITION := Position(0, 0)

  function Minus(a: nat, b: nat): nat {
    if b <= a then a - b else 0
  }

  function Apply(p: Position, u: Update): Position {
    match u
    case AddCollateral(n) => p.(collateral := p.collateral + n)
    case RemoveCollateral(n) => p.(collateral := Minus(p.collateral, n))
    case AddBorrow(n) => p.(borrowed := p.borrowed + n)
    case RemoveBorrow(n) => p.(borrowed := Minus(p.borrowed, n))
  }

  function ApplyAll(us: seq<Update>): Position {
    if |us| == 0 then EMPTY_POSITION else Apply(ApplyAll(us[..|us| - 1]), us[|us| - 1])
  }

  const TOKEN_CAP: nat := 1_000_000_000
  const EXCHANGE_RATE_CAP: nat := 20_000
  const PRICE_CAP: nat := 1_000_000
  const BPS_SQUARED: nat := 100_000_000

  /** The public inputs of a health check. */
  datatype Quote = Quote(exchangeRate: nat, collateralPrice: nat, borrowPrice: nat, threshold: nat) {
    predicate Capped() {
      exchangeRate <= EXCHANGE_RATE_CAP && collateralPrice <= PRICE_CAP && borrowPrice <= PRICE_CAP
        && threshold <= BPS_SCALER
    }
  }

  /** Tokens of collateral that count, rounded down. */
  function AdjustedCollateral(p: Position, q: Quote): nat {
    p.collateral * q.exchangeRate * q.threshold / BPS_SQUARED
  }

  predicate CheckHealth(p: Position, q: Quote) {
    AdjustedCollateral(p, q) * q.collateralPrice >= p.borrowed * q.borrowPrice
  }

  /** Collateral value against debt value without any rounding, both scaled by BPS_SQUARED. */
  function ExactCollateral(p: Position, q: Quote): nat {
    p.collateral * q.exchangeRate * q.threshold * q.collateralPrice
  }

  function ExactDebt(p: Position, q: Quote): nat {
    p.borrowed * q.borrowPrice * BPS_SQUARED
  }

  /** A positive verdict is never wrong; a negative one is wrong only when the collateral exceeds the debt by less
   *  than one collateral token's price.
   */
  lemma VerdictIsConservative(p: Position, q: Quote)
    ensures CheckHealth(p, q) ==> ExactDebt(p, q) <= ExactCollateral(p, q)
    ensures !CheckHealth(p, q) ==> ExactCollateral(p, q) < ExactDebt(p, q) + q.collateralPrice * BPS_SQUARED
  {
    var worth, adjusted := p.collateral * q.exchangeRate * q.threshold, AdjustedCollateral(p, q);
    Floor(worth, BPS_SQUARED);
    Mono(adjusted * BPS_SQUARED, worth, q.collateralPrice);
    Mono(worth, (adjusted + 1) * BPS_SQUARED, q.collateralPrice);
    Spread(adjusted, q.collateralPrice);
    if !CheckHealth(p, q) {
      WorthBelow(worth, adjusted, q.collateralPrice);
    }
  }

  lemma Spread(a: nat, price: nat)
    ensures (a * BPS_SQUARED) * price == (a * price) * BPS_SQUARED
    ensures ((a + 1) * BPS_SQUARED) * price == (a * price) * BPS_SQUARED + price * BPS_SQUARED
  {
  }

  lemma WorthBelow(worth: nat, a: nat, price: nat)
    requires worth < (a + 1) * BPS_SQUARED
    ensures worth * price <= (a * price) * BPS_SQUARED + price * BPS_SQUARED
  {
    Mono(worth, (a + 1) * BPS_SQUARED, price);
    Spread(a, price);
  }

  predicate Exact(p: Position, q: Quote) {
    CheckHealth(p, q) <==> ExactDebt(p, q) <= ExactCollateral(p, q)
  }

  ghost predicate ExactForEveryDebt(collateral: nat, q: Quote) {
    forall borrowed: nat, price: nat :: Exact(Position(collateral, borrowed), q.(borrowPrice := price))
  }

  /** The part of a collateral token that the division drops. */
  function Dropped(collateral: nat, q: Quote): nat {
    collateral * q.exchangeRate * q.threshold % BPS_SQUARED
  }

  /** The verdict is exact whatever is owed precisely when what the division drops is worth less than a cent. */
  lemma VerdictIsExactIff(collateral: nat, q: Quote)
    ensures ExactForEveryDebt(collateral, q) <==> Dropped(collateral, q) * q.collateralPrice < BPS_SQUARED
  {
    var worth, m := collateral * q.exchangeRate * q.threshold, Dropped(collateral, q);
    var a := worth / BPS_SQUARED;
    assert worth * q.collateralPrice == (a * q.collateralPrice) * BPS_SQUARED + m * q.collateralPrice;
    if m * q.collateralPrice < BPS_SQUARED {
      forall borrowed: nat, price: nat ensures Exact(Position(collateral, borrowed), q.(borrowPrice := price)) {
        VerdictIsConservative(Position(collateral, borrowed), q.(borrowPrice := price));
      }
    } else {
      assert !Exact(Position(collateral, a * q.collateralPrice + 1), q.(borrowPrice := 1));
    }
  }

  lemma Product(a: nat, b: nat, x: nat, y: nat)
    requires a <= x && b <= y
    ensures a * b <= x * y
  {
    Mono(a, x, b);
    Mono(b, y, x);
  }

  /** Within the caps no product or quotient of the check leaves 64 bits. */
  lemma NoOverflow(p: Position, q: Quote)
    requires p.collateral <= TOKEN_CAP && p.borrowed <= TOKEN_CAP && q.Capped()
    ensures p.collateral * q.exchangeRate <= U64_MAX
    ensures p.collateral * q.exchangeRate * q.threshold <= U64_MAX
    ensures AdjustedCollateral(p, q) <= 2 * TOKEN_CAP
    ensures AdjustedCollateral(p, q) * q.collateralPrice <= U64_MAX
    ensures p.borrowed * q.borrowPrice <= U64_MAX
  {
    Product(p.collateral, q.exchangeRate, TOKEN_CAP, EXCHANGE_RATE_CAP);
    Product(p.collateral * q.exchangeRate, q.threshold, TOKEN_CAP * EXCHANGE_RATE_CAP, BPS_SCALER);
    DivMono(p.collateral * q.exchangeRate * q.threshold, TOKEN_CAP * EXCHANGE_RATE_CAP * BPS_SCALER, BPS_SQUARED);
    Product(AdjustedCollateral(p, q), q.collateralPrice, 2 * TOKEN_CAP, PRICE_CAP);
    Product(p.borrowed, q.borrowPrice, TOKEN_CAP, PRICE_CAP);
  }

  // ---- Any sequence of updates ----------------------------------------------------------------

  datatype Totals = Totals(added: nat, removed: nat, lent: nat, repaid: nat)

  function TotalsOf(us: seq<Update>): Totals {
    if |us| == 0 then Totals(0, 0, 0, 0)
    else
      var t := TotalsOf(us[..|us| - 1]);
      match us[|us| - 1]
      case AddCollateral(n) => t.(added := t.added + n)
      case RemoveCollateral(n) => t.(removed := t.removed + n)
      case AddBorrow(n) => t.(lent := t.lent + n)
      case RemoveBorrow(n) => t.(repaid := t.repaid + n)
  }

  /** No collateral was ever taken out that was not there. */
  predicate NeverShort(us: seq<Update>) {
    |us| == 0
    || (NeverShort(us[..|us| - 1])
        && var last := us[|us| - 1];
           last.RemoveCollateral? ==> last.amount <= ApplyAll(us[..|us| - 1]).collateral)
  }

  /** No more was ever repaid than was owed. */
  predicate NeverOverpaid(us: seq<Update>) {
    |us| == 0
    || (NeverOverpaid(us[..|us| - 1])
        && var last := us[|us| - 1];
           last.RemoveBorrow? ==> last.amount <= ApplyAll(us[..|us| - 1]).borrowed)
  }

  /** The position lies between the net and the gross totals; either is the net exactly when no removal of
   *  it was cut off. */
  lemma {:induction false} PositionTracksTotals(us: seq<Update>)
    ensures var p, t := ApplyAll(us), TotalsOf(us);
      && t.added - t.removed <= p.collateral <= t.added
      && t.lent - t.repaid <= p.borrowed <= t.lent
      && (NeverShort(us) <==> p.collateral == t.added - t.removed)
      && (NeverOverpaid(us) <==> p.borrowed == t.lent - t.repaid)
  {
    if |us| == 0 {
    } else {
      PositionTracksTotals(us[..|us| - 1]);
    }
  }

  function NetCollateral(us: seq<Update>): int {
    TotalsOf(us).added - TotalsOf(us).removed
  }

  function NetDebt(us: seq<Update>): int {
    TotalsOf(us).lent - TotalsOf(us).repaid
  }

  function CollateralOf(u: Update): int {
    match u
    case AddCollateral(n) => n
    case RemoveCollateral(n) => 0 - n
    case _ => 0
  }

  function DebtOf(u: Update): int {
    match u
    case AddBorrow(n) => n
    case RemoveBorrow(n) => 0 - n
    case _ => 0
  }

  lemma NetOfStretch(us: seq<Update>, k: nat)
    requires k < |us|
    ensures var earlier := us[..|us| - 1];
      && NetCollateral(us[k..]) == NetCollateral(earlier[k..]) + CollateralOf(us[|us| - 1])
      && NetDebt(us[k..]) == NetDebt(earlier[k..]) + DebtOf(us[|us| - 1])
  {
    assert us[k..][..|us| - 1 - k] == us[..|us| - 1][k..];
  }

  lemma OneMore(p: Position, u: Update)
    ensures var q, c, b := Apply(p, u), p.collateral + CollateralOf(u), p.borrowed + DebtOf(u);
      && q.collateral == (if c < 0 then 0 else c)
      && q.borrowed == (if b < 0 then 0 else b)
  {
  }

  /** A removal that exceeds what is there leaves nothing, and what came before is forgotten: both sides of the position
   *  are the largest net total that any final stretch of the updates adds up to, the empty stretch included.
   */
  lemma {:induction false} PositionIsLargestNet(us: seq<Update>)
    ensures forall k :: 0 <= k <= |us| ==>
      NetCollateral(us[k..]) <= ApplyAll(us).collateral && NetDebt(us[k..]) <= ApplyAll(us).borrowed
    ensures exists k :: 0 <= k <= |us| && NetCollateral(us[k..]) == ApplyAll(us).collateral
    ensures exists k :: 0 <= k <= |us| && NetDebt(us[k..]) == ApplyAll(us).borrowed
  {
    hide NetCollateral, NetDebt, CollateralOf, DebtOf, Apply;
    assert us[|us|..] == [];
    NetOfNothing();
    if |us| == 0 {
    } else {
      var earlier, last := us[..|us| - 1], us[|us| - 1];
      PositionIsLargestNet(earlier);
      OneMore(ApplyAll(earlier), last);
      forall k | 0 <= k < |us|
        ensures NetCollateral(us[k..]) == NetCollateral(earlier[k..]) + CollateralOf(last)
        ensures NetDebt(us[k..]) == NetDebt(earlier[k..]) + DebtOf(last)
      {
        NetOfStretch(us, k);
      }
      var i :| 0 <= i <= |earlier| && NetCollateral(earlier[i..]) == ApplyAll(earlier).collateral;
      var j :| 0 <= j <= |earlier| && NetDebt(earlier[j..]) == ApplyAll(earlier).borrowed;
      assert NetCollateral(us[i..]) == ApplyAll(us).collateral || NetCollateral(us[|us|..]) == ApplyAll(us).collateral;
      assert NetDebt(us[j..]) == ApplyAll(us).borrowed || NetDebt(us[|us|..]) == ApplyAll(us).borrowed;
    }
  }

  lemma NetOfNothing()
    ensures NetCollateral([]) == 0 && NetDebt([]) == 0
  {
  }

  /** As long as what was ever added stays within the caps, a health check after any updates fits in 64 bits, and a
   *  positive verdict covers the net debt by the net collateral unless a removal of collateral was cut off; repayments
   *  that were cut off do no harm.
   */
  lemma CheckAfterUpdates(us: seq<Update>, q: Quote)
    requires TotalsOf(us).added <= TOKEN_CAP && TotalsOf(us).lent <= TOKEN_CAP && q.Capped()
    ensures AdjustedCollateral(ApplyAll(us), q) * q.collateralPrice <= U64_MAX
    ensures ApplyAll(us).borrowed * q.borrowPrice <= U64_MAX
    ensures NeverShort(us) && CheckHealth(ApplyAll(us), q) ==>
      NetDebt(us) * q.borrowPrice * BPS_SQUARED
      <= NetCollateral(us) * q.exchangeRate * q.threshold * q.collateralPrice
  {
    PositionTracksTotals(us);
    NoOverflow(ApplyAll(us), q);
    if NeverShort(us) && CheckHealth(ApplyAll(us), q) {
      var p := ApplyAll(us);
      var net := TotalsOf(us).lent - TotalsOf(us).repaid;
      VerdictIsConservative(p, q);
      LessDebt(net, p.borrowed, q.borrowPrice);
      assert p.collateral == TotalsOf(us).added - TotalsOf(us).removed;
    }
  }

  lemma LessDebt(net: int, owed: nat, price: nat)
    requires net <= owed
    ensures net * price * BPS_SQUARED <= owed * price * BPS_SQUARED
  {
    assert (owed - net) * price == owed * price - net * price;
  }
}
