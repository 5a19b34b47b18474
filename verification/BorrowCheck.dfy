/** The inline check of `borrow` against a full recomputation, after one borrow and after several. */
module BorrowCheck {
  import opened Arithmetic
  import opened Numeric
  import opened ReserveModel
  import opened ObligationModel
  import opened ObligationProperties
  import opened RefreshProperties
  import opened InstructionModel
  import opened Health
  import InstructionProperties

  // ---- Refreshing again -----------------------------------------------------------------------

  /** Nothing a valuation reads differs between `r` and `s`. */
  predicate SameValuation(r: ReserveData, s: ReserveData) {
    && s.TotalSupply() == r.TotalSupply()
    && s.ctokens == r.ctokens && s.price == r.price && s.index == r.index && s.config == r.config
  }

  ghost predicate SameValuations(reserves: Reserves, later: Reserves) {
    forall k :: k in reserves ==> k in later && SameValuation(reserves[k], later[k])
  }

  lemma RepriceBorrow(b: BorrowSlot, reserves: Reserves, later: Reserves)
    requires SameValuations(reserves, later) && PriceBorrow(b, reserves).Ok?
    ensures PriceBorrow(PriceBorrow(b, reserves).value, later) == PriceBorrow(b, reserves)
  {
  }

  lemma RepriceDeposit(d: DepositSlot, reserves: Reserves, later: Reserves)
    requires SameValuations(reserves, later) && PriceDeposit(d, reserves).Ok?
    ensures PriceDeposit(PriceDeposit(d, reserves).value, later) == PriceDeposit(d, reserves)
  {
  }

  /** A second refresh against the same valuations changes nothing. */
  lemma RefreshAgain(o: ObligationData, reserves: Reserves, later: Reserves, slot: u64)
    requires SameValuations(reserves, later) && RefreshObligation(o, reserves, slot).Ok?
    ensures RefreshObligation(RefreshObligation(o, reserves, slot).value, later, slot)
      == RefreshObligation(o, reserves, slot)
  {
    hide PriceBorrow, PriceDeposit, SameValuations;
    var p := RefreshObligation(o, reserves, slot).value;
    BorrowLoop(o.borrows, reserves, 0, o.borrowsCount);
    DepositLoop(o.deposits, reserves, 0, o.depositsCount);
    forall i | 0 <= i < o.borrowsCount ensures PriceBorrow(p.borrows[i], later) == Ok(p.borrows[i]) {
      RepriceBorrow(o.borrows[i], reserves, later);
    }
    forall i | 0 <= i < o.depositsCount ensures PriceDeposit(p.deposits[i], later) == Ok(p.deposits[i]) {
      RepriceDeposit(o.deposits[i], reserves, later);
    }
    BorrowLoop(p.borrows, later, 0, o.borrowsCount);
    DepositLoop(p.deposits, later, 0, o.depositsCount);
    assert PriceBorrows(p.borrows, later, 0, o.borrowsCount).value == p.borrows;
    assert PriceDeposits(p.deposits, later, 0, o.depositsCount).value == p.deposits;
  }

  lemma RefreshKeepsKeys(o: ObligationData, reserves: Reserves, slot: u64)
    requires RefreshObligation(o, reserves, slot).Ok?
    ensures var p := RefreshObligation(o, reserves, slot).value;
      && BorrowKeys(p.borrows) == BorrowKeys(o.borrows) && p.borrowsCount == o.borrowsCount
      && DepositKeys(p.deposits) == DepositKeys(o.deposits) && p.depositsCount == o.depositsCount
  {
    BorrowLoop(o.borrows, reserves, 0, o.borrowsCount);
    DepositLoop(o.deposits, reserves, 0, o.depositsCount);
  }

  // ---- What is due ----------------------------------------------------------------------------

  /** What a refresh would value the slot at, without machine widths: nothing is due while no price is known. */
  function Due(b: BorrowSlot, reserves: Reserves): nat {
    if !b.IsActive() then 0
    else if b.reserve !in reserves || reserves[b.reserve].price == 0 then b.value
    else
      Floor(b.debt, RATE_SCALE);
      Mono(0, b.debt / RATE_SCALE, reserves[b.reserve].price);
      b.debt / RATE_SCALE * reserves[b.reserve].price
  }

  function Dues(slots: seq<BorrowSlot>, reserves: Reserves): (dues: seq<nat>)
    ensures |dues| == |slots|
  {
    seq(|slots|, i requires 0 <= i < |slots| => Due(slots[i], reserves))
  }

  /** No hole among the loans, all of them caught up with their priced reserves, and deposits as a refresh
   *  leaves them. */
  ghost predicate Current(o: ObligationData, reserves: Reserves) {
    && Wf(o) && Compact(BorrowKeys(o.borrows), o.borrowsCount)
    && (forall i :: 0 <= i < MAX_SLOTS && o.borrows[i].IsActive() ==> SlotCurrent(o.borrows[i], reserves))
    && PriceDeposits(o.deposits, reserves, 0, o.depositsCount) == Ok(o.deposits)
  }

  predicate SlotCurrent(b: BorrowSlot, reserves: Reserves) {
    && b.reserve in reserves && reserves[b.reserve].TotalSupply().Ok?
    && (0 < reserves[b.reserve].price ==> b.index == reserves[b.reserve].index)
  }

  lemma SlotFindsDue(b: BorrowSlot, reserves: Reserves)
    requires b.IsActive() ==> SlotCurrent(b, reserves)
    ensures PriceBorrow(b, reserves).Ok? <==> Due(b, reserves) <= U128_MAX
    ensures PriceBorrow(b, reserves).Ok? ==>
      PriceBorrow(b, reserves).value == if b.IsActive() then b.(value := Due(b, reserves)) else b
  {
  }

  /** A refresh of a current obligation finds exactly what is due, and fails exactly when a slot's due leaves
   *  128 bits. */
  lemma RefreshFinds(o: ObligationData, reserves: Reserves, slot: u64)
    requires Current(o, reserves)
    ensures RefreshObligation(o, reserves, slot).Ok? <==>
      forall i :: 0 <= i < MAX_SLOTS ==> Dues(o.borrows, reserves)[i] <= U128_MAX
    ensures RefreshObligation(o, reserves, slot).Ok? ==>
      var q := RefreshObligation(o, reserves, slot).value;
      BorrowValues(q.borrows) == Dues(o.borrows, reserves) && q == o.(borrows := q.borrows, lastUpdateSlot := slot)
  {
    hide PriceBorrow, PriceDeposit, SlotCurrent, Due;
    TablesAreMaps(o);
    BorrowLoop(o.borrows, reserves, 0, o.borrowsCount);
    forall i | 0 <= i < MAX_SLOTS
      ensures PriceBorrow(o.borrows[i], reserves).Ok? <==> Due(o.borrows[i], reserves) <= U128_MAX
      ensures PriceBorrow(o.borrows[i], reserves).Ok? ==>
        PriceBorrow(o.borrows[i], reserves).value
        == if o.borrows[i].IsActive() then o.borrows[i].(value := Due(o.borrows[i], reserves)) else o.borrows[i]
      ensures o.borrows[i].IsActive() <==> i < o.borrowsCount
      ensures !o.borrows[i].IsActive() ==> Due(o.borrows[i], reserves) == 0
    {
      SlotFindsDue(o.borrows[i], reserves);
      NothingDue(o.borrows[i], reserves);
    }
    var dues := Dues(o.borrows, reserves);
    assert forall i :: 0 <= i < MAX_SLOTS ==> dues[i] == Due(o.borrows[i], reserves);
    if RefreshObligation(o, reserves, slot).Ok? {
      assert forall i :: 0 <= i < o.borrowsCount ==> PriceBorrow(o.borrows[i], reserves).Ok?;
    } else {
      var i :| 0 <= i < o.borrowsCount && PriceBorrow(o.borrows[i], reserves).Err?;
      assert dues[i] > U128_MAX;
    }
  }

  lemma NothingDue(b: BorrowSlot, reserves: Reserves)
    ensures !b.IsActive() ==> Due(b, reserves) == 0
  {
  }

  lemma PricedIsCurrent(b: BorrowSlot, reserves: Reserves)
    requires b.IsActive() && PriceBorrow(b, reserves).Ok?
    ensures var c := PriceBorrow(b, reserves).value;
      c.reserve == b.reserve && SlotCurrent(c, reserves) && Due(c, reserves) == c.value
  {
  }

  /** Right after a refresh everything is current and what is cached is what is due. */
  lemma RefreshMakesCurrent(start: ObligationData, reserves: Reserves, slot: u64)
    requires Wf(start) && Compact(BorrowKeys(start.borrows), start.borrowsCount)
    requires RefreshObligation(start, reserves, slot).Ok?
    ensures var o := RefreshObligation(start, reserves, slot).value;
      Current(o, reserves) && Dues(o.borrows, reserves) == BorrowValues(o.borrows)
  {
    hide PriceBorrow, PriceDeposit, SlotCurrent, Due;
    var o := RefreshObligation(start, reserves, slot).value;
    RefreshKeeps(start, reserves, slot);
    RefreshKeepsKeys(start, reserves, slot);
    BorrowLoop(start.borrows, reserves, 0, start.borrowsCount);
    forall i | 0 <= i < MAX_SLOTS
      ensures o.borrows[i].IsActive() ==>
        SlotCurrent(o.borrows[i], reserves) && Due(o.borrows[i], reserves) == o.borrows[i].value
      ensures !o.borrows[i].IsActive() ==> Due(o.borrows[i], reserves) == 0
    {
      NothingDue(o.borrows[i], reserves);
      assert BorrowKeys(o.borrows)[i] == BorrowKeys(start.borrows)[i];
      if o.borrows[i].IsActive() {
        PricedIsCurrent(start.borrows[i], reserves);
      }
    }
    SameAsItself(reserves);
    RefreshAgain(start, reserves, reserves, slot);
  }

  lemma SameAsItself(reserves: Reserves)
    ensures SameValuations(reserves, reserves)
  {
  }

  // ---- One borrow -----------------------------------------------------------------------------

  /** Borrowing adds exactly the new debt's value to what is due in a slot that is caught up. */
  lemma DueAdded(b: BorrowSlot, amount: u64, reserves: Reserves)
    requires b.IsActive() && b.reserve in reserves && 0 < reserves[b.reserve].price
      && b.debt + amount * RATE_SCALE <= U128_MAX
    ensures Due(b.(debt := b.debt + amount * RATE_SCALE), reserves)
      == Due(b, reserves) + amount * reserves[b.reserve].price
  {
    assert (b.debt + amount * RATE_SCALE) / RATE_SCALE == b.debt / RATE_SCALE + amount;
    Split(b.debt / RATE_SCALE, amount, reserves[b.reserve].price);
  }

  lemma Split(a: int, b: int, c: int)
    ensures (a + b) * c == a * c + b * c
  {
  }

  /** The slot a borrow writes: the key's own, caught up already, or the next one, opened at the reserve's index. */
  lemma BorrowWrites(o: ObligationData, reserves: Reserves, key: Pubkey, amount: u64, slot: u64,
                     lent: ReserveData, p: ObligationData)
    returns (i: nat, b: BorrowSlot)
    requires Current(o, reserves)
    requires key in reserves && key != DEFAULT_PUBKEY && slot <= reserves[key].lastUpdateSlot
    requires Borrow(reserves[key], o, key, amount, slot) == Ok((lent, p))
    ensures i < MAX_SLOTS && b.reserve == key && b.index == reserves[key].index
      && b.debt + amount * RATE_SCALE <= U128_MAX
    ensures if i < o.borrowsCount then o.borrows[i] == b
            else i == o.borrowsCount && !o.borrows[i].IsActive() && b == EMPTY_BORROW.(reserve := key, index := b.index)
    ensures p == o.(borrows := o.borrows[i := b.(debt := b.debt + amount * RATE_SCALE)],
                    borrowsCount := if i < o.borrowsCount then o.borrowsCount else i + 1)
    ensures p.borrowsCount <= MAX_SLOTS
  {
    hide RefreshObligation, CheckBorrow, PriceDeposits;
    var r, keys := reserves[key], BorrowKeys(o.borrows);
    TablesAreMaps(o);
    if Position(keys, key).Some? {
      i := Position(keys, key).value;
      b := o.borrows[i];
      assert SlotCurrent(b, reserves);
      assert o.AccrueInterest(i, r.index) == Ok(o) by {
        assert o.borrows[i := b] == o.borrows;
      }
    } else {
      i, b := o.borrowsCount, EMPTY_BORROW.(reserve := key, index := r.index);
      CompactOpensNext(keys, i, key, ObligationBorrowsFull);
    }
  }

  /** Borrowing changes nothing a valuation reads. */
  lemma LendingKeepsValuation(r: ReserveData, o: ObligationData, key: Pubkey, amount: u64, slot: u64,
                              lent: ReserveData, p: ObligationData)
    requires Borrow(r, o, key, amount, slot) == Ok((lent, p)) && slot <= r.lastUpdateSlot && ReserveInv(r)
    ensures lent.TotalSupply().Ok? && SameValuation(r, lent) && 0 < r.price
    ensures lent.lastUpdateSlot == r.lastUpdateSlot && ReserveInv(lent) && o.lastUpdateSlot == slot
    ensures CheckBorrow(p, amount, r.price).Ok?
  {
  }

  lemma DueSame(b: BorrowSlot, reserves: Reserves, later: Reserves)
    requires SameValuations(reserves, later) && (b.IsActive() ==> SlotCurrent(b, reserves))
    ensures Due(b, later) == Due(b, reserves) && (b.IsActive() ==> SlotCurrent(b, later))
  {
  }

  lemma DuesAfterWrite(o: ObligationData, p: ObligationData, i: nat, b: BorrowSlot, amount: u64,
                       reserves: Reserves, later: Reserves)
    requires Current(o, reserves) && SameValuations(reserves, later)
    requires b.reserve in reserves && b.IsActive() && 0 < reserves[b.reserve].price
    requires i < MAX_SLOTS && b.debt + amount * RATE_SCALE <= U128_MAX
    requires if i < o.borrowsCount then o.borrows[i] == b else !o.borrows[i].IsActive() && b.debt == 0
    requires p.borrows == o.borrows[i := b.(debt := b.debt + amount * RATE_SCALE)]
    ensures Sum(Dues(p.borrows, later)) == Sum(Dues(o.borrows, reserves)) + amount * reserves[b.reserve].price
  {
    hide Due, SlotCurrent, Wf, PriceDeposits;
    var before, added := Dues(o.borrows, reserves), amount * reserves[b.reserve].price;
    var c := b.(debt := b.debt + amount * RATE_SCALE);
    forall j | 0 <= j < MAX_SLOTS && j != i ensures Due(p.borrows[j], later) == before[j] {
      DueSame(o.borrows[j], reserves, later);
    }
    DueAdded(b, amount, later);
    DueOfEmpty(b, later);
    NothingDue(o.borrows[i], reserves);
    if i < o.borrowsCount {
      DueSame(b, reserves, later);
    }
    Mono(0, amount, reserves[b.reserve].price);
    assert Dues(p.borrows, later) == before[i := before[i] + added];
    SumUpdate(before, i, before[i] + added);
  }

  lemma DueOfEmpty(b: BorrowSlot, reserves: Reserves)
    requires b.reserve in reserves && 0 < reserves[b.reserve].price
    ensures b.debt == 0 ==> Due(b, reserves) == 0
  {
  }

  /** The debt total of the check, on the table it was taken from. */
  lemma CheckedTotals(p: ObligationData, amount: u64, price: u128)
    requires CheckBorrow(p, amount, price).Ok?
    ensures p.depositsCount <= MAX_SLOTS && p.borrowsCount <= MAX_SLOTS
    ensures var (collateral, debt) := CheckBorrow(p, amount, price).value;
      && collateral == Sum(DepositValues(p.deposits)[..p.depositsCount])
      && debt == Sum(BorrowValues(p.borrows)[..p.borrowsCount]) + amount * price
      && debt <= collateral <= U128_MAX
  {
  }

  lemma SameValues(slots: BorrowTable, i: nat, b: BorrowSlot)
    requires i < MAX_SLOTS && (if b.IsActive() then b.value else 0) == BorrowValues(slots)[i]
    ensures BorrowValues(slots[i := b]) == BorrowValues(slots)
  {
  }

  lemma CatchUpKeepsValues(o: ObligationData, key: Pubkey, index: u128)
    requires CatchUp(o, key, index).Ok?
    ensures var p := CatchUp(o, key, index).value;
      BorrowValues(p.borrows) == BorrowValues(o.borrows) && p.deposits == o.deposits
  {
    var p := Position(BorrowKeys(o.borrows), key);
    if p.Some? {
      SameValues(o.borrows, p.value, o.borrows[p.value].Accrue(index).value);
    }
  }

  /** A borrow leaves every cached value as it was. */
  lemma BorrowLeavesCache(r: ReserveData, o: ObligationData, key: Pubkey, amount: u64, slot: u64)
    requires key != DEFAULT_PUBKEY && Borrow(r, o, key, amount, slot).Ok?
    ensures var p := Borrow(r, o, key, amount, slot).value.1;
      BorrowValues(p.borrows) == BorrowValues(o.borrows) && p.deposits == o.deposits
  {
    hide CheckBorrow, CatchUp;
    var (lent, p) := Borrow(r, o, key, amount, slot).value;
    CatchUpKeepsValues(o, key, lent.index);
    var current := CatchUp(o, key, lent.index).value;
    var i := FindOrAdd(BorrowKeys(current.borrows), key, ObligationBorrowsFull).value;
    SameValues(current.borrows, i, p.borrows[i]);
  }

  lemma DepositsStayCurrent(o: ObligationData, reserves: Reserves, later: Reserves)
    requires PriceDeposits(o.deposits, reserves, 0, o.depositsCount) == Ok(o.deposits)
      && SameValuations(reserves, later)
    ensures PriceDeposits(o.deposits, later, 0, o.depositsCount) == Ok(o.deposits)
  {
    hide PriceDeposit, SameValuations;
    DepositLoop(o.deposits, reserves, 0, o.depositsCount);
    forall i | 0 <= i < o.depositsCount && i < MAX_SLOTS
      ensures PriceDeposit(o.deposits[i], later) == Ok(o.deposits[i])
    {
      RepriceDeposit(o.deposits[i], reserves, later);
    }
    DepositLoop(o.deposits, later, 0, o.depositsCount);
    assert PriceDeposits(o.deposits, later, 0, o.depositsCount).value == o.deposits;
  }

  lemma CurrentAfterWrite(o: ObligationData, p: ObligationData, i: nat, b: BorrowSlot, reserves: Reserves,
                          later: Reserves)
    requires Current(o, reserves) && SameValuations(reserves, later) && Wf(p)
    requires i < MAX_SLOTS && b.IsActive() && SlotCurrent(b, later)
    requires if i < o.borrowsCount then o.borrows[i].reserve == b.reserve
      else i == o.borrowsCount && !o.borrows[i].IsActive()
    requires p == o.(borrows := o.borrows[i := b], borrowsCount := if i < o.borrowsCount then o.borrowsCount else i + 1)
    ensures Current(p, later)
  {
    hide SlotCurrent, Wf, PriceDeposits;
    forall j | 0 <= j < MAX_SLOTS && p.borrows[j].IsActive() ensures SlotCurrent(p.borrows[j], later) {
      if j != i {
        DueSame(o.borrows[j], reserves, later);
      }
    }
    DepositsStayCurrent(o, reserves, later);
  }

  /** One borrow: what is due grows by the new debt's value, what is cached does not move, and the check compares the
   *  cached totals with the new debt on top.
   */
  lemma BorrowStep(o: ObligationData, reserves: Reserves, key: Pubkey, amount: u64, slot: u64,
                   lent: ReserveData, p: ObligationData)
    requires Current(o, reserves)
    requires key in reserves && key != DEFAULT_PUBKEY && slot <= reserves[key].lastUpdateSlot
      && ReserveInv(reserves[key])
    requires Borrow(reserves[key], o, key, amount, slot) == Ok((lent, p))
    ensures SameValuations(reserves, reserves[key := lent]) && Current(p, reserves[key := lent])
    ensures lent.lastUpdateSlot == reserves[key].lastUpdateSlot && ReserveInv(lent)
    ensures Sum(Dues(p.borrows, reserves[key := lent])) == Sum(Dues(o.borrows, reserves)) + amount * lent.price
    ensures BorrowValues(p.borrows) == BorrowValues(o.borrows)
    ensures p.deposits == o.deposits && p.depositsCount == o.depositsCount <= MAX_SLOTS && p.borrowsCount <= MAX_SLOTS
    ensures CheckBorrow(p, amount, lent.price)
         == Ok((Sum(DepositValues(o.deposits)[..o.depositsCount]), Sum(BorrowValues(o.borrows)) + amount * lent.price))
    ensures Sum(BorrowValues(o.borrows)) + amount * lent.price <= Sum(DepositValues(o.deposits)[..o.depositsCount])
  {
    hide Borrow, CheckBorrow, PriceDeposits, Due, Wf, Compact, InstructionProperties.Charged;
    var r, later := reserves[key], reserves[key := lent];
    var i, b := BorrowWrites(o, reserves, key, amount, slot, lent, p);
    LendingKeepsValuation(r, o, key, amount, slot, lent, p);
    assert SameValuations(reserves, later) by { SameAsItself(reserves); }
    WrittenIsWf(r, o, key, amount, slot);
    CurrentAfterWrite(o, p, i, b.(debt := b.debt + amount * RATE_SCALE), reserves, later);
    DuesAfterWrite(o, p, i, b, amount, reserves, later);
    BorrowLeavesCache(r, o, key, amount, slot);
    ComparedTotals(p, amount, lent.price);
  }

  lemma ComparedTotals(p: ObligationData, amount: u64, price: u128)
    requires CheckBorrow(p, amount, price).Ok? && Compact(BorrowKeys(p.borrows), p.borrowsCount)
    ensures p.depositsCount <= MAX_SLOTS && p.borrowsCount <= MAX_SLOTS
    ensures CheckBorrow(p, amount, price)
         == Ok((Sum(DepositValues(p.deposits)[..p.depositsCount]), Sum(BorrowValues(p.borrows)) + amount * price))
    ensures Sum(BorrowValues(p.borrows)) + amount * price <= Sum(DepositValues(p.deposits)[..p.depositsCount])
  {
    hide CheckBorrow, Compact;
    CheckedTotals(p, amount, price);
    TotalsSeeAllIff(p);
    var (collateral, debt) := CheckBorrow(p, amount, price).value;
  }

  lemma WrittenIsWf(r: ReserveData, o: ObligationData, key: Pubkey, amount: u64, slot: u64)
    requires ReserveInv(r) && Wf(o) && key != DEFAULT_PUBKEY && Borrow(r, o, key, amount, slot).Ok?
    ensures Wf(Borrow(r, o, key, amount, slot).value.1)
  {
    hide Borrow, Wf;
    InstructionProperties.BorrowEffect(r, o, key, amount, slot);
  }

  // ---- Any number of borrows ------------------------------------------------------------------

  datatype Order = Order(key: Pubkey, amount: u64)

  /** Borrows in a row by one user in one slot, with nothing in between. */
  function BorrowAll(o: ObligationData, reserves: Reserves, orders: seq<Order>, slot: u64)
    : Result<(Reserves, ObligationData)>
  {
    if |orders| == 0 then Ok((reserves, o))
    else
      var last := orders[|orders| - 1];
      var (rs, p) :- BorrowAll(o, reserves, orders[..|orders| - 1], slot);
      var _ :- Require(last.key in rs, AccountMissing);
      var (lent, q) :- Borrow(rs[last.key], p, last.key, last.amount, slot);
      Ok((rs[last.key := lent], q))
  }

  /** What the borrows are worth together. */
  function Worth(reserves: Reserves, orders: seq<Order>): nat {
    if |orders| == 0 then 0
    else
      var last := orders[|orders| - 1];
      Worth(reserves, orders[..|orders| - 1])
      + if last.key in reserves then OrderValue(last.amount, reserves[last.key].price) else 0
  }

  function OrderValue(amount: u64, price: u128): nat {
    Mono(0, amount, price);
    amount * price
  }

  /** The reserves of `keys` are sound and accrued in this slot. */
  ghost predicate Ready(reserves: Reserves, keys: set<Pubkey>, slot: u64) {
    forall k :: k in keys && k in reserves ==>
      k != DEFAULT_PUBKEY && slot <= reserves[k].lastUpdateSlot && ReserveInv(reserves[k])
  }

  lemma ValuationsTransitive(a: Reserves, b: Reserves, c: Reserves)
    requires SameValuations(a, b) && SameValuations(b, c)
    ensures SameValuations(a, c)
  {
  }

  /** After any number of borrows the cached totals are still those of the refresh, while what is due has grown by the
   *  worth of all of them; each was admitted against the cached debt and its own value alone.
   */
  lemma {:induction false} BorrowsInARow(o: ObligationData, reserves: Reserves, orders: seq<Order>, keys: set<Pubkey>,
                                         slot: u64)
    requires Current(o, reserves) && Ready(reserves, keys, slot)
    requires forall order :: order in orders ==> order.key in keys
    requires BorrowAll(o, reserves, orders, slot).Ok?
    ensures var (later, p) := BorrowAll(o, reserves, orders, slot).value;
      && later.Keys == reserves.Keys
      && SameValuations(reserves, later) && Ready(later, keys, slot) && Current(p, later)
      && Sum(Dues(p.borrows, later)) == Sum(Dues(o.borrows, reserves)) + Worth(reserves, orders)
      && BorrowValues(p.borrows) == BorrowValues(o.borrows)
      && p.deposits == o.deposits && p.depositsCount == o.depositsCount
    ensures |orders| > 0 ==>
      var last := orders[|orders| - 1];
      && last.key in reserves && o.depositsCount <= MAX_SLOTS
      && Sum(BorrowValues(o.borrows)) + last.amount * reserves[last.key].price
         <= Sum(DepositValues(o.deposits)[..o.depositsCount])
  {
    hide Borrow, Current, Dues, ReserveInv, DepositValues, BorrowValues, Sum;
    if |orders| == 0 {
      SameAsItself(reserves);
    } else {
      var n := |orders| - 1;
      var last := orders[n];
      var (rs, p) := BorrowAll(o, reserves, orders[..n], slot).value;
      BorrowsInARow(o, reserves, orders[..n], keys, slot);
      var (lent, q) := Borrow(rs[last.key], p, last.key, last.amount, slot).value;
      assert last.key in keys;
      BorrowStep(p, rs, last.key, last.amount, slot, lent, q);
      ValuationsTransitive(reserves, rs, rs[last.key := lent]);
      assert SameValuation(reserves[last.key], rs[last.key]) && SameValuation(rs[last.key], lent);
    }
  }

  /** Refresh, borrow any number of times, refresh: without a hole among the loans the second refresh finds the cached
   *  debt and the worth of every borrow, or fails because a slot's value leaves 128 bits. The position is then covered
   *  exactly if the borrows together are worth no more than collateral exceeded cached debt, which no check tested.
   */
  lemma BorrowsAfterRefresh(start: ObligationData, reserves: Reserves, orders: seq<Order>, keys: set<Pubkey>, slot: u64)
    requires Wf(start) && Compact(BorrowKeys(start.borrows), start.borrowsCount)
    requires Ready(reserves, keys, slot) && forall order :: order in orders ==> order.key in keys
    requires RefreshObligation(start, reserves, slot).Ok?
    requires BorrowAll(RefreshObligation(start, reserves, slot).value, reserves, orders, slot).Ok?
    ensures var o := RefreshObligation(start, reserves, slot).value;
      var (later, p) := BorrowAll(o, reserves, orders, slot).value;
      && p.depositsCount <= MAX_SLOTS
      && (RefreshObligation(p, later, slot).Ok? <==>
            forall i :: 0 <= i < MAX_SLOTS ==> Dues(p.borrows, later)[i] <= U128_MAX)
      && (RefreshObligation(p, later, slot).Ok? ==>
            var q := RefreshObligation(p, later, slot).value;
            var cached, collateral := Sum(BorrowValues(o.borrows)), Sum(DepositValues(o.deposits)[..p.depositsCount]);
            && q.deposits == o.deposits
            && Sum(BorrowValues(q.borrows)) == cached + Worth(reserves, orders)
            && (Sum(BorrowValues(q.borrows)) <= collateral <==> Worth(reserves, orders) <= collateral - cached))
  {
    hide RefreshObligation, BorrowAll, Current, Dues, Wf, Ready, Worth;
    var o := RefreshObligation(start, reserves, slot).value;
    RefreshMakesCurrent(start, reserves, slot);
    BorrowsInARow(o, reserves, orders, keys, slot);
    var (later, p) := BorrowAll(o, reserves, orders, slot).value;
    RefreshFinds(p, later, slot);
    CurrentCounts(p, later);
  }

  lemma CurrentCounts(o: ObligationData, reserves: Reserves)
    requires Current(o, reserves)
    ensures o.depositsCount <= MAX_SLOTS && o.borrowsCount <= MAX_SLOTS
    ensures Compact(BorrowKeys(o.borrows), o.borrowsCount) && Wf(o)
  {
    TablesAreMaps(o);
  }

  /** A withdrawal of collateral after such borrows tests only the cached debt: what it leaves covers RATE_SCALE times
   *  the debt without the borrows, whose worth is not covered by anything.
   */
  lemma WithdrawalAfterBorrows(start: ObligationData, reserves: Reserves, orders: seq<Order>, keys: set<Pubkey>,
                               key: Pubkey, amount: u64, slot: u64)
    requires Wf(start) && Compact(BorrowKeys(start.borrows), start.borrowsCount) && key != DEFAULT_PUBKEY
    requires Ready(reserves, keys, slot) && forall order :: order in orders ==> order.key in keys
    requires RefreshObligation(start, reserves, slot).Ok?
    requires BorrowAll(RefreshObligation(start, reserves, slot).value, reserves, orders, slot).Ok?
    requires WithdrawCollateral(BorrowAll(RefreshObligation(start, reserves, slot).value,
      reserves, orders, slot).value.1,
                                key, amount, slot).Ok?
    ensures var o := RefreshObligation(start, reserves, slot).value;
      var (later, p) := BorrowAll(o, reserves, orders, slot).value;
      var left := WithdrawCollateral(p, key, amount, slot).value;
      && Sum(Dues(left.borrows, later)) == Sum(BorrowValues(o.borrows)) + Worth(reserves, orders)
      && RATE_SCALE * (Sum(Dues(left.borrows, later)) - Worth(reserves, orders)) <= Sum(DepositValues(left.deposits))
  {
    hide RefreshObligation, BorrowAll, Current, Dues, Wf, Ready, Worth, WithdrawCollateral;
    var o := RefreshObligation(start, reserves, slot).value;
    RefreshMakesCurrent(start, reserves, slot);
    BorrowsInARow(o, reserves, orders, keys, slot);
    var (later, p) := BorrowAll(o, reserves, orders, slot).value;
    CurrentCounts(p, later);
    WithdrawalLeavesCover(p, key, amount, slot);
    InstructionProperties.WithdrawCollateralEffect(p, key, amount, slot);
  }

  /** The first borrow after a refresh is checked exactly: the second refresh succeeds, finds the totals the borrow
   *  compared and sees every loan there is. So the recomputed collateral covers the recomputed debt, and the obligation
   *  can be liquidated at once unless it covers it RATE_SCALE times.
   */
  lemma BorrowCheckIsExact(start: ObligationData, reserves: Reserves, key: Pubkey, amount: u64, slot: u64)
    requires Wf(start) && Compact(BorrowKeys(start.borrows), start.borrowsCount)
    requires key in reserves && key != DEFAULT_PUBKEY
    requires slot <= reserves[key].lastUpdateSlot && ReserveInv(reserves[key])
    requires RefreshObligation(start, reserves, slot).Ok?
    requires Borrow(reserves[key], RefreshObligation(start, reserves, slot).value, key, amount, slot).Ok?
    ensures var o := RefreshObligation(start, reserves, slot).value;
      var (lent, p) := Borrow(reserves[key], o, key, amount, slot).value;
      && CheckBorrow(p, amount, lent.price).Ok?
      && RefreshObligation(p, reserves[key := lent], slot).Ok?
      && var (collateral, debt) := CheckBorrow(p, amount, lent.price).value;
      var q := RefreshObligation(p, reserves[key := lent], slot).value;
      && debt == Sum(BorrowValues(q.borrows))
      && debt <= collateral <= Sum(DepositValues(q.deposits))
      && (Compact(DepositKeys(start.deposits), start.depositsCount) ==> collateral == Sum(DepositValues(q.deposits)))
      && q.IsHealthy() == Ok(RATE_SCALE * debt <= collateral)
  {
    hide Borrow, RefreshObligation, CheckBorrow, Current, Dues, Wf, Compact;
    var o := RefreshObligation(start, reserves, slot).value;
    var (lent, p) := Borrow(reserves[key], o, key, amount, slot).value;
    var later := reserves[key := lent];
    RefreshMakesCurrent(start, reserves, slot);
    RefreshKeepsKeys(start, reserves, slot);
    BorrowStep(o, reserves, key, amount, slot, lent, p);
    CurrentCounts(p, later);
    RefreshFinds(p, later, slot);
    forall i | 0 <= i < MAX_SLOTS ensures Dues(p.borrows, later)[i] <= U128_MAX {
      ElementBelowSum(Dues(p.borrows, later), i);
    }
    var q := RefreshObligation(p, later, slot).value;
    RefreshKeepsKeys(p, later, slot);
    CheckedTotals(p, amount, lent.price);
    TotalsSeeAllIff(q);
    SumPrefix(DepositValues(q.deposits), q.depositsCount);
    SaturatingIsMin(BorrowValues(q.borrows)[..q.borrowsCount]);
    SaturatingIsMin(DepositValues(q.deposits)[..q.depositsCount]);
    HealthyIff(q);
  }

  lemma ElementBelowSum(xs: seq<nat>, i: nat)
    requires i < |xs|
    ensures xs[i] <= Sum(xs)
  {
    SumUpdate(xs, i, 0);
  }
}
