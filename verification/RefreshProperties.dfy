/** What `refresh_obligation` does to an obligation, slot by slot. */
module RefreshProperties {
  import opened Numeric
  import opened ReserveModel
  import opened ObligationModel
  import opened ObligationProperties
  import opened InstructionModel

  /** The loop over borrow slots treats the first `count` slots independently and leaves the others alone. */
  lemma {:induction false} BorrowLoop(slots: BorrowTable, reserves: Reserves, from: nat, count: nat)
    ensures PriceBorrows(slots, reserves, from, count).Ok? <==>
      from >= count || (count <= MAX_SLOTS && forall i :: from <= i < count ==> PriceBorrow(slots[i], reserves).Ok?)
    ensures PriceBorrows(slots, reserves, from, count).Ok? ==>
      var t := PriceBorrows(slots, reserves, from, count).value;
      forall i :: 0 <= i < MAX_SLOTS ==>
        t[i] == if from <= i < count then PriceBorrow(slots[i], reserves).value else slots[i]
    decreases count - from
  {
    if from >= count {
    } else if from < MAX_SLOTS && PriceBorrow(slots[from], reserves).Ok? {
      var next := slots[from := PriceBorrow(slots[from], reserves).value];
      assert forall i :: from < i < MAX_SLOTS ==> next[i] == slots[i];
      BorrowLoop(next, reserves, from + 1, count);
    }
  }

  lemma {:induction false} DepositLoop(slots: DepositTable, reserves: Reserves, from: nat, count: nat)
    ensures PriceDeposits(slots, reserves, from, count).Ok? <==>
      from >= count || (count <= MAX_SLOTS && forall i :: from <= i < count ==> PriceDeposit(slots[i], reserves).Ok?)
    ensures PriceDeposits(slots, reserves, from, count).Ok? ==>
      var t := PriceDeposits(slots, reserves, from, count).value;
      forall i :: 0 <= i < MAX_SLOTS ==>
        t[i] == if from <= i < count then PriceDeposit(slots[i], reserves).value else slots[i]
    decreases count - from
  {
    if from >= count {
    } else if from < MAX_SLOTS && PriceDeposit(slots[from], reserves).Ok? {
      var next := slots[from := PriceDeposit(slots[from], reserves).value];
      assert forall i :: from < i < MAX_SLOTS ==> next[i] == slots[i];
      DepositLoop(next, reserves, from + 1, count);
    }
  }

  /** Each loan is unchanged or caught up with the index of its reserve. */
  ghost predicate LoansFollow(before: BorrowTable, after: BorrowTable, reserves: Reserves) {
    forall k :: LoanOf(after, k) == LoanOf(before, k)
      || (k in reserves && LoanOf(before, k).Some? && LoanOf(after, k).Some?
          && LoanOf(after, k).value.index == reserves[k].index
          && CaughtUp(LoanOf(before, k).value, LoanOf(after, k).value)
          && Computable(LoanOf(before, k).value, reserves[k].index))
  }

  lemma BorrowsRefreshed(slots: BorrowTable, reserves: Reserves, count: nat)
    requires BorrowsWf(slots, count) && PriceBorrows(slots, reserves, 0, count).Ok?
    ensures var t := PriceBorrows(slots, reserves, 0, count).value;
      BorrowsWf(t, count) && LoansFollow(slots, t, reserves)
  {
    var t := PriceBorrows(slots, reserves, 0, count).value;
    BorrowLoop(slots, reserves, 0, count);
    forall i | 0 <= i < MAX_SLOTS ensures SlotFollows(slots[i], t[i], reserves) {
      if i < count {
        PricedSlot(slots[i], reserves);
      }
    }
    FollowingSlots(slots, t, count, reserves);
  }

  lemma DepositsRefreshed(slots: DepositTable, reserves: Reserves, count: nat)
    requires DepositsWf(slots, count) && PriceDeposits(slots, reserves, 0, count).Ok?
    ensures var t := PriceDeposits(slots, reserves, 0, count).value;
      DepositsWf(t, count) && forall k :: Locked(t, k) == Locked(slots, k)
  {
    DepositLoop(slots, reserves, 0, count);
    assert DepositKeys(PriceDeposits(slots, reserves, 0, count).value) == DepositKeys(slots);
  }

  /** Refreshing re-values an obligation and catches its loans up; it moves no collateral and forgives no debt. */
  lemma RefreshKeeps(o: ObligationData, reserves: Reserves, slot: u64)
    requires Wf(o) && RefreshObligation(o, reserves, slot).Ok?
    ensures var p := RefreshObligation(o, reserves, slot).value;
      && Wf(p)
      && (forall k :: Locked(p.deposits, k) == Locked(o.deposits, k))
      && LoansFollow(o.borrows, p.borrows, reserves)
  {
    BorrowsRefreshed(o.borrows, reserves, o.borrowsCount);
    DepositsRefreshed(o.deposits, reserves, o.depositsCount);
  }

  predicate SlotFollows(b: BorrowSlot, c: BorrowSlot, reserves: Reserves) {
    && BorrowSlotOk(c) && c.reserve == b.reserve
    && (LoanIn(c) == LoanIn(b)
        || (b.reserve in reserves && c.index == reserves[b.reserve].index && CaughtUp(LoanIn(b), LoanIn(c))
            && Computable(LoanIn(b), reserves[b.reserve].index)))
  }

  lemma FollowingSlots(before: BorrowTable, after: BorrowTable, count: int, reserves: Reserves)
    requires BorrowsWf(before, count)
    requires forall i :: 0 <= i < MAX_SLOTS ==> SlotFollows(before[i], after[i], reserves)
    ensures BorrowsWf(after, count) && LoansFollow(before, after, reserves)
  {
    assert BorrowKeys(after) == BorrowKeys(before);
  }

  lemma PricedSlot(b: BorrowSlot, reserves: Reserves)
    requires BorrowSlotOk(b) && PriceBorrow(b, reserves).Ok?
    ensures SlotFollows(b, PriceBorrow(b, reserves).value, reserves)
  {
    if b.IsActive() && reserves[b.reserve].price > 0 {
      CatchUpSlot(b, reserves[b.reserve].index);
    }
  }
}
