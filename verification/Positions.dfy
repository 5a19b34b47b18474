/** Small obligations, with at most two deposits and one loan, and what the operations make of them. */
module Positions {
  import opened Numeric
  import opened ReserveModel
  import opened ObligationModel
  import opened ObligationProperties
  import RefreshProperties
  import I = InstructionModel

  const NOTHING := EMPTY_DEPOSIT
  const NO_LOAN := EMPTY_BORROW

  function Used(b: bool): u8 {
    if b then 1 else 0
  }

  /** Deposits `d` and `e` and loans `b` and `c` in the first two slots; inactive slots are empty. */
  function Table(d: DepositSlot, e: DepositSlot, b: BorrowSlot, c: BorrowSlot, slot: u64): ObligationData {
    var n, m := EMPTY_DEPOSIT, EMPTY_BORROW;
    ObligationData([d, e, n, n, n, n, n, n], [b, c, m, m, m, m, m, m],
                   Used(d.IsActive()) + Used(e.IsActive()), Used(b.IsActive()) + Used(c.IsActive()), slot, 0)
  }

  /** With one loan at most. */
  function Pos(d: DepositSlot, e: DepositSlot, b: BorrowSlot, slot: u64): ObligationData {
    Table(d, e, b, EMPTY_BORROW, slot)
  }

  predicate Proper(d: DepositSlot, e: DepositSlot, b: BorrowSlot) {
    && (d.IsActive() || d == EMPTY_DEPOSIT) && (e.IsActive() || e == EMPTY_DEPOSIT)
      && (b.IsActive() || b == EMPTY_BORROW)
    && (d.IsActive() && e.IsActive() ==> d.reserve != e.reserve)
  }

  predicate ProperLoans(b: BorrowSlot, c: BorrowSlot) {
    && (b.IsActive() || b == EMPTY_BORROW) && (c.IsActive() || c == EMPTY_BORROW)
    && (b.IsActive() && c.IsActive() ==> b.reserve != c.reserve)
  }

  lemma NewIsPos()
    ensures NewObligation() == Pos(EMPTY_DEPOSIT, EMPTY_DEPOSIT, EMPTY_BORROW, 0)
  {
  }

  lemma DepositKeysOf(d: DepositSlot, e: DepositSlot, b: BorrowSlot, c: BorrowSlot, slot: u64, key: Pubkey)
    requires Proper(d, e, EMPTY_BORROW) && key != DEFAULT_PUBKEY
    ensures var keys := DepositKeys(Table(d, e, b, c, slot).deposits);
      && Position(keys, key) == (if d.reserve == key then Some(0) else if e.reserve == key then Some(1) else None)
      && (!d.IsActive() ==> Position(keys, DEFAULT_PUBKEY) == Some(0))
      && (d.IsActive() && !e.IsActive() ==> Position(keys, DEFAULT_PUBKEY) == Some(1))
  {
    var keys := DepositKeys(Table(d, e, b, c, slot).deposits);
    assert keys[0] == d.reserve && keys[1] == e.reserve;
    assert forall i :: 2 <= i < MAX_SLOTS ==> keys[i] == DEFAULT_PUBKEY;
  }

  lemma LoanKeysOf(d: DepositSlot, e: DepositSlot, b: BorrowSlot, c: BorrowSlot, slot: u64, key: Pubkey)
    requires ProperLoans(b, c) && key != DEFAULT_PUBKEY
    ensures var keys := BorrowKeys(Table(d, e, b, c, slot).borrows);
      && Position(keys, key) == (if b.reserve == key then Some(0) else if c.reserve == key then Some(1) else None)
      && (!b.IsActive() ==> Position(keys, DEFAULT_PUBKEY) == Some(0))
      && (b.IsActive() && !c.IsActive() ==> Position(keys, DEFAULT_PUBKEY) == Some(1))
  {
    var keys := BorrowKeys(Table(d, e, b, c, slot).borrows);
    assert keys[0] == b.reserve && keys[1] == c.reserve;
    assert forall i :: 2 <= i < MAX_SLOTS ==> keys[i] == DEFAULT_PUBKEY;
  }

  lemma PosKeys(d: DepositSlot, e: DepositSlot, b: BorrowSlot, slot: u64, key: Pubkey)
    requires Proper(d, e, b) && key != DEFAULT_PUBKEY
    ensures var o := Pos(d, e, b, slot);
      && Position(DepositKeys(o.deposits), key)
         == (if d.reserve == key then Some(0) else if e.reserve == key then Some(1) else None)
      && Position(BorrowKeys(o.borrows), key) == (if b.reserve == key then Some(0) else None)
      && (!b.IsActive() ==> Position(BorrowKeys(o.borrows), DEFAULT_PUBKEY) == Some(0))
      && (!d.IsActive() ==> Position(DepositKeys(o.deposits), DEFAULT_PUBKEY) == Some(0))
      && (d.IsActive() && !e.IsActive() ==> Position(DepositKeys(o.deposits), DEFAULT_PUBKEY) == Some(1))
  {
    DepositKeysOf(d, e, b, EMPTY_BORROW, slot, key);
    LoanKeysOf(d, e, b, EMPTY_BORROW, slot, key);
  }

  /** What such a table locks and owes. */
  lemma LockedOfPos(d: DepositSlot, b: BorrowSlot, slot: u64)
    requires Proper(d, NOTHING, b) && d.IsActive()
    ensures Locked(Pos(d, NOTHING, b, slot).deposits, d.reserve) == d.amount
  {
    PosKeys(d, NOTHING, b, slot, d.reserve);
  }

  lemma LoanOfPos(d: DepositSlot, b: BorrowSlot, slot: u64)
    requires Proper(d, NOTHING, b) && b.IsActive()
    ensures LoanOf(Pos(d, NOTHING, b, slot).borrows, b.reserve) == Some(Loan(b.debt, b.index))
  {
    PosKeys(d, NOTHING, b, slot, b.reserve);
  }

  /** Locking cTokens in the first slot, opening it if need be. */
  lemma LockFirst(d: DepositSlot, b: BorrowSlot, slot: u64, key: Pubkey, n: u64)
    requires Proper(d, EMPTY_DEPOSIT, b) && key != DEFAULT_PUBKEY && 0 < n && d.amount + n <= U64_MAX
    requires d.IsActive() ==> d.reserve == key
    ensures Pos(d, EMPTY_DEPOSIT, b, slot).Deposit(key, n)
         == Ok(Pos(d.(reserve := key, amount := d.amount + n), EMPTY_DEPOSIT, b, slot))
  {
    var o, p := Pos(d, EMPTY_DEPOSIT, b, slot), Pos(d.(reserve := key, amount := d.amount + n), EMPTY_DEPOSIT, b, slot);
    PosKeys(d, EMPTY_DEPOSIT, b, slot, key);
    assert o.deposits[0 := p.deposits[0]] == p.deposits && o.borrows == p.borrows;
  }

  /** Locking cTokens in a new obligation, and then those of another reserve. */
  lemma LockNew(r: ReserveData, key: Pubkey, n: u64)
    requires r.config.IsActive() && key != DEFAULT_PUBKEY && 0 < n
    ensures I.DepositCollateral(r, NewObligation(), key, n) == Ok(Pos(DepositSlot(key, n, 0), NOTHING, NO_LOAN, 0))
  {
    hide Pos, ObligationData.Deposit, NewObligation;
    NewIsPos();
    LockFirst(NOTHING, NO_LOAN, 0, key, n);
  }

  lemma LockNext(r: ReserveData, d: DepositSlot, key: Pubkey, n: u64)
    requires r.config.IsActive() && d.IsActive() && d.reserve != key && key != DEFAULT_PUBKEY && 0 < n
    ensures I.DepositCollateral(r, Pos(d, NOTHING, NO_LOAN, 0), key, n)
      == Ok(Pos(d, DepositSlot(key, n, 0), NO_LOAN, 0))
  {
    hide Pos, ObligationData.Deposit;
    LockSecond(d, NO_LOAN, 0, key, n);
  }

  lemma LockSecond(d: DepositSlot, b: BorrowSlot, slot: u64, key: Pubkey, n: u64)
    requires Proper(d, EMPTY_DEPOSIT, b) && d.IsActive() && d.reserve != key && key != DEFAULT_PUBKEY && 0 < n
    ensures Pos(d, EMPTY_DEPOSIT, b, slot).Deposit(key, n) == Ok(Pos(d, DepositSlot(key, n, 0), b, slot))
  {
    var o, p := Pos(d, EMPTY_DEPOSIT, b, slot), Pos(d, DepositSlot(key, n, 0), b, slot);
    PosKeys(d, EMPTY_DEPOSIT, b, slot, key);
    assert o.deposits[1 := p.deposits[1]] == p.deposits && o.borrows == p.borrows;
  }

  /** A refresh prices the slots it reaches. */
  lemma RefreshTable(d: DepositSlot, e: DepositSlot, b: BorrowSlot, c: BorrowSlot, slot: u64, reserves: I.Reserves,
                     now: u64)
    requires Proper(d, e, EMPTY_BORROW) && ProperLoans(b, c) && (e.IsActive() ==> d.IsActive())
      && (c.IsActive() ==> b.IsActive())
    requires I.PriceDeposit(d, reserves).Ok? && I.PriceDeposit(e, reserves).Ok?
    requires I.PriceBorrow(b, reserves).Ok? && I.PriceBorrow(c, reserves).Ok?
    ensures I.RefreshObligation(Table(d, e, b, c, slot), reserves, now)
         == Ok(Table(I.PriceDeposit(d, reserves).value, I.PriceDeposit(e, reserves).value,
                     I.PriceBorrow(b, reserves).value, I.PriceBorrow(c, reserves).value, now))
    ensures I.RefreshObligation(Table(d, e, b, c, slot), reserves, now).value.lastUpdateTime == 0
  {
    hide I.PriceDeposit, I.PriceBorrow;
    var o := Table(d, e, b, c, slot);
    KeepsKeys(d, e, b, reserves);
    KeepsKeys(d, e, c, reserves);
    var p := Table(I.PriceDeposit(d, reserves).value, I.PriceDeposit(e, reserves).value,
                   I.PriceBorrow(b, reserves).value, I.PriceBorrow(c, reserves).value, now);
    RefreshProperties.BorrowLoop(o.borrows, reserves, 0, o.borrowsCount);
    RefreshProperties.DepositLoop(o.deposits, reserves, 0, o.depositsCount);
    var q := I.RefreshObligation(o, reserves, now).value;
    assert q.borrows == p.borrows;
    assert q.deposits == p.deposits;
  }

  lemma RefreshPos(d: DepositSlot, e: DepositSlot, b: BorrowSlot, slot: u64, reserves: I.Reserves, now: u64)
    requires Proper(d, e, b) && (e.IsActive() ==> d.IsActive())
    requires I.PriceDeposit(d, reserves).Ok? && I.PriceDeposit(e, reserves).Ok? && I.PriceBorrow(b, reserves).Ok?
    ensures I.RefreshObligation(Pos(d, e, b, slot), reserves, now)
         == Ok(Pos(I.PriceDeposit(d, reserves).value, I.PriceDeposit(e, reserves).value,
           I.PriceBorrow(b, reserves).value, now))
    ensures I.RefreshObligation(Pos(d, e, b, slot), reserves, now).value.lastUpdateTime == 0
  {
    hide I.PriceDeposit, Table;
    RefreshTable(d, e, b, EMPTY_BORROW, slot, reserves, now);
  }

  lemma KeepsKeys(d: DepositSlot, e: DepositSlot, b: BorrowSlot, reserves: I.Reserves)
    requires I.PriceDeposit(d, reserves).Ok? && I.PriceDeposit(e, reserves).Ok? && I.PriceBorrow(b, reserves).Ok?
    ensures I.PriceDeposit(d, reserves).value.reserve == d.reserve
      && I.PriceDeposit(e, reserves).value.reserve == e.reserve
    ensures I.PriceBorrow(b, reserves).value.reserve == b.reserve
    ensures !d.IsActive() ==> I.PriceDeposit(d, reserves).value == d
    ensures !e.IsActive() ==> I.PriceDeposit(e, reserves).value == e
    ensures !b.IsActive() ==> I.PriceBorrow(b, reserves).value == b
  {
  }

  /** What the scans of one deposit and one loan sum up to. */
  lemma SumsOfPos(d: DepositSlot, b: BorrowSlot, slot: u64)
    requires Proper(d, EMPTY_DEPOSIT, b)
    ensures var o := Pos(d, EMPTY_DEPOSIT, b, slot);
      var deposits, borrows := DepositValues(o.deposits)[..o.depositsCount], BorrowValues(o.borrows)[..o.borrowsCount];
      && Sum(deposits) == SaturatingSum(deposits) == d.value
      && Sum(borrows) == SaturatingSum(borrows) == b.value
  {
    var o := Pos(d, EMPTY_DEPOSIT, b, slot);
    if d.IsActive() {
      assert DepositValues(o.deposits)[..1] == [d.value];
      SumsOfOne(d.value);
    }
    if b.IsActive() {
      assert BorrowValues(o.borrows)[..1] == [b.value];
      SumsOfOne(b.value);
    }
  }

  lemma SumsOfOne(x: u128)
    ensures Sum([x]) == SaturatingSum([x]) == x
  {
    assert [x][..0] == [];
  }

  /** A loan taken or added to in the first slot. */
  lemma LoanPos(d: DepositSlot, b: BorrowSlot, key: Pubkey, n: u64, index: u128, slot: u64)
    requires Proper(d, EMPTY_DEPOSIT, b) && key != DEFAULT_PUBKEY && 0 < n
    requires b.IsActive() ==> b.reserve == key && b.index == index
    requires b.debt + n * RATE_SCALE <= U128_MAX
    ensures var o := Pos(d, EMPTY_DEPOSIT, b, slot);
      && I.CatchUp(o, key, index) == Ok(o)
      && o.Borrow(key, n, index)
         == Ok(Pos(d, EMPTY_DEPOSIT, BorrowSlot(key, b.debt + n * RATE_SCALE, index, b.value), slot))
  {
    var o, c := Pos(d, EMPTY_DEPOSIT, b, slot), BorrowSlot(key, b.debt + n * RATE_SCALE, index, b.value);
    var p := Pos(d, EMPTY_DEPOSIT, c, slot);
    PosKeys(d, EMPTY_DEPOSIT, b, slot, key);
    assert o.borrows[0 := o.borrows[0]] == o.borrows;
    assert o.borrows[0 := c] == p.borrows && o.deposits == p.deposits;
  }

  /** A borrow of `key` on one deposit and at most one loan, which is of `key` and caught up. */
  lemma BorrowPos(r: ReserveData, d: DepositSlot, b: BorrowSlot, key: Pubkey, n: u64, slot: u64)
    requires Proper(d, EMPTY_DEPOSIT, b) && key != DEFAULT_PUBKEY && 0 < n
    requires r.config.IsActive() && 0 < r.price && slot <= r.lastUpdateSlot
    requires r.borrowed < r.config.borrowLimit && n <= r.available
    requires b.IsActive() ==> b.reserve == key && b.index == r.index
    requires b.debt + n * RATE_SCALE <= U128_MAX && b.value + n * r.price <= d.value
    ensures I.Borrow(r, Pos(d, EMPTY_DEPOSIT, b, slot), key, n, slot)
         == Ok((r.(available := r.available - n, borrowed := r.borrowed + n),
                Pos(d, EMPTY_DEPOSIT, BorrowSlot(key, b.debt + n * RATE_SCALE, r.index, b.value), slot)))
  {
    hide ReserveData.CurrentBorrowRate, Sum, I.CatchUp, ObligationData.Borrow, I.CheckBorrow;
    var c := BorrowSlot(key, b.debt + n * RATE_SCALE, r.index, b.value);
    LoanPos(d, b, key, n, r.index, slot);
    SumsOfPos(d, c, slot);
    CheckPos(Pos(d, EMPTY_DEPOSIT, c, slot), n, r.price);
  }

  /** A borrow of another asset on one deposit and one loan. */
  lemma BorrowSecond(r: ReserveData, d: DepositSlot, b: BorrowSlot, key: Pubkey, n: u64, slot: u64)
    requires Proper(d, EMPTY_DEPOSIT, b) && b.IsActive() && b.reserve != key && key != DEFAULT_PUBKEY && 0 < n
    requires r.config.IsActive() && 0 < r.price && slot <= r.lastUpdateSlot
    requires r.borrowed < r.config.borrowLimit && n <= r.available
    requires n * RATE_SCALE <= U128_MAX && b.value + n * r.price <= d.value
    ensures I.Borrow(r, Pos(d, EMPTY_DEPOSIT, b, slot), key, n, slot)
         == Ok((r.(available := r.available - n, borrowed := r.borrowed + n),
                Table(d, EMPTY_DEPOSIT, b, BorrowSlot(key, n * RATE_SCALE, r.index, 0), slot)))
  {
    hide ReserveData.CurrentBorrowRate, Sum;
    var o, c := Pos(d, EMPTY_DEPOSIT, b, slot), BorrowSlot(key, n * RATE_SCALE, r.index, 0);
    var p := Table(d, EMPTY_DEPOSIT, b, c, slot);
    LoanKeysOf(d, EMPTY_DEPOSIT, b, EMPTY_BORROW, slot, key);
    assert I.CatchUp(o, key, r.index) == Ok(o);
    assert o.borrows[1 := c] == p.borrows && o.deposits == p.deposits;
    assert o.Borrow(key, n, r.index) == Ok(p);
    SumsOfPos(d, EMPTY_BORROW, slot);
    SumsOfPair(b, c, p);
    CheckPos(p, n, r.price);
  }

  lemma SumsOfPair(b: BorrowSlot, c: BorrowSlot, p: ObligationData)
    requires b.IsActive() && c.IsActive() && p.borrowsCount == 2 && p.borrows[..2] == [b, c]
    ensures Sum(BorrowValues(p.borrows)[..2]) == b.value + c.value
  {
    var values := BorrowValues(p.borrows)[..2];
    assert p.borrows[0] == p.borrows[..2][0] && p.borrows[1] == p.borrows[..2][1];
    assert values == [b.value, c.value] && values[..1] == [b.value];
    SumsOfOne(b.value);
  }

  lemma CheckPos(p: ObligationData, n: u64, price: u128)
    requires p.depositsCount <= MAX_SLOTS && p.borrowsCount <= MAX_SLOTS
    requires var collateral, debt := Sum(DepositValues(p.deposits)[..p.depositsCount]),
      Sum(BorrowValues(p.borrows)[..p.borrowsCount]);
      0 <= n * price && debt + n * price <= collateral <= U128_MAX
    ensures I.CheckBorrow(p, n, price).Ok?
  {
  }

  /** A repayment that leaves at least a token owed, or closes the first loan. */
  lemma RepayTable(r: ReserveData, d: DepositSlot, b: BorrowSlot, c: BorrowSlot, n: u64, slot: u64, now: u64,
                   debt: u128)
    requires Proper(d, EMPTY_DEPOSIT, EMPTY_BORROW) && ProperLoans(b, c) && b.IsActive() && 0 < n
    requires r.config.IsActive() && now <= r.lastUpdateSlot && n <= r.borrowed && r.available + n <= U64_MAX
    requires b.Accrue(r.index) == Ok(b.(debt := debt, index := r.index)) && n * RATE_SCALE <= debt
    ensures I.Repay(r, Table(d, EMPTY_DEPOSIT, b, c, slot), b.reserve, n, now)
         == Ok((r.(available := r.available + n, borrowed := r.borrowed - n),
                Table(d, EMPTY_DEPOSIT,
                      if debt - n * RATE_SCALE < RATE_SCALE then EMPTY_BORROW
                      else b.(debt := debt - n * RATE_SCALE, index := r.index), c, slot)))
  {
    hide ReserveData.CurrentBorrowRate;
    var current := b.(debt := debt, index := r.index);
    var left := if debt - n * RATE_SCALE < RATE_SCALE then EMPTY_BORROW
      else b.(debt := debt - n * RATE_SCALE, index := r.index);
    var o, m := Table(d, EMPTY_DEPOSIT, b, c, slot), Table(d, EMPTY_DEPOSIT, current, c, slot);
    var p := Table(d, EMPTY_DEPOSIT, left, c, slot);
    LoanKeysOf(d, EMPTY_DEPOSIT, b, c, slot, b.reserve);
    LoanKeysOf(d, EMPTY_DEPOSIT, current, c, slot, b.reserve);
    assert o.borrows[0 := current] == m.borrows && o.deposits == m.deposits;
    assert o.AccrueInterest(0, r.index) == Ok(m);
    assert m.borrows[0 := left] == p.borrows && m.deposits == p.deposits;
  }

  lemma RepayPos(r: ReserveData, d: DepositSlot, b: BorrowSlot, key: Pubkey, n: u64, slot: u64, now: u64, debt: u128)
    requires Proper(d, EMPTY_DEPOSIT, b) && b.reserve == key != DEFAULT_PUBKEY && 0 < n
    requires r.config.IsActive() && now <= r.lastUpdateSlot && n <= r.borrowed && r.available + n <= U64_MAX
    requires b.Accrue(r.index) == Ok(b.(debt := debt, index := r.index)) && n * RATE_SCALE <= debt
    ensures I.Repay(r, Pos(d, EMPTY_DEPOSIT, b, slot), key, n, now)
         == Ok((r.(available := r.available + n, borrowed := r.borrowed - n),
                Pos(d, EMPTY_DEPOSIT,
                    if debt - n * RATE_SCALE < RATE_SCALE then EMPTY_BORROW
                    else b.(debt := debt - n * RATE_SCALE, index := r.index), slot)))
  {
    hide I.Repay, Table;
    RepayTable(r, d, b, EMPTY_BORROW, n, slot, now, debt);
  }

  /** Releasing all of the first deposit while the scan sees no debt. */
  lemma ReleaseTable(d: DepositSlot, e: DepositSlot, b: BorrowSlot, c: BorrowSlot, slot: u64)
    requires Proper(d, e, EMPTY_BORROW) && d.IsActive() && 0 < d.amount
    requires b.value == 0 && Used(b.IsActive()) + Used(c.IsActive()) <= 1
    ensures I.WithdrawCollateral(Table(d, e, b, c, slot), d.reserve, d.amount, slot)
      == Ok(Table(EMPTY_DEPOSIT, e, b, c, slot))
  {
    var o, cut, p := Table(d, e, b, c, slot), Table(d.(value := 0), e, b, c, slot), Table(EMPTY_DEPOSIT, e, b, c, slot);
    DepositKeysOf(d, e, b, c, slot, d.reserve);
    DepositKeysOf(d.(value := 0), e, b, c, slot, d.reserve);
    assert o.deposits[0 := d.(value := 0)] == cut.deposits && o.borrows == cut.borrows;
    assert cut.deposits[0 := EMPTY_DEPOSIT] == p.deposits && cut.borrows == p.borrows;
    assert cut.Withdraw(d.reserve, d.amount) == Ok(p);
    NoDebtSeen(p);
  }

  lemma ReleaseAll(d: DepositSlot, e: DepositSlot, b: BorrowSlot, slot: u64)
    requires Proper(d, e, b) && d.IsActive() && 0 < d.amount && b.value == 0
    ensures I.WithdrawCollateral(Pos(d, e, b, slot), d.reserve, d.amount, slot) == Ok(Pos(EMPTY_DEPOSIT, e, b, slot))
  {
    hide I.WithdrawCollateral, Table;
    ReleaseTable(d, e, b, EMPTY_BORROW, slot);
  }

  lemma NoDebtSeen(p: ObligationData)
    requires p.borrowsCount <= 1 && p.borrows[0].value == 0
    ensures p.HealthFactor() == Ok(None)
  {
    var seen := BorrowValues(p.borrows)[..p.borrowsCount];
    if p.borrowsCount == 1 {
      assert seen == [0];
      SumsOfOne(0);
    }
  }
}
