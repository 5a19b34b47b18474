/** Interest on one loan: in one step or several, and against the reserve's own record. */
module CatchUps {
  import opened Arithmetic
  import opened Numeric
  import opened ReserveModel
  import opened ReserveProperties
  import opened ObligationModel
  import opened ObligationProperties

  // ---- Two steps or one -----------------------------------------------------------------------

  lemma Between(n: nat, d: nat)
    requires 0 < d
    ensures n / d * d <= n < (n / d + 1) * d
  {
    Floor(n, d);
  }

  lemma LostInTwo(d1: nat, d2: nat, direct: nat, c1: nat, c2: nat)
    requires direct * c1 <= (d1 + 1) * c2 && d1 * c2 < (d2 + 1) * c1
    ensures (direct - d2) * c1 < c2 + c1
  {
    assert (d1 + 1) * c2 == d1 * c2 + c2;
    assert (d2 + 1) * c1 == d2 * c1 + c1;
    assert (direct - d2) * c1 == direct * c1 - d2 * c1;
  }

  lemma TwoFloors(debt: nat, c0: nat, c1: nat, c2: nat, d1: nat, d2: nat, direct: nat)
    requires 0 < c0 && 0 < c1
    requires d1 == debt * c1 / c0 && d2 == d1 * c2 / c1 && direct == debt * c2 / c0
    ensures d2 <= direct && (direct - d2) * c1 < c2 + c1
  {
    Between(debt * c1, c0);
    Between(d1 * c2, c1);
    Between(debt * c2, c0);
    StepsBelow(debt, c0, c1, c2, d1, d2);
    Greatest(d2, debt * c2, c0);
    DirectAbove(debt, c0, c1, c2, d1, direct);
    LostInTwo(d1, d2, direct, c1, c2);
  }

  lemma StepsBelow(debt: nat, c0: nat, c1: nat, c2: nat, d1: nat, d2: nat)
    requires 0 < c0 && 0 < c1 && d1 * c0 <= debt * c1 && d2 * c1 <= d1 * c2
    ensures d2 * c0 <= debt * c2
  {
    RatioTransitive(d2, c2, d1, c1, debt, c0);
  }

  lemma DirectAbove(debt: nat, c0: nat, c1: nat, c2: nat, d1: nat, direct: nat)
    requires 0 < c0 && direct * c0 <= debt * c2 && debt * c1 <= (d1 + 1) * c0
    ensures direct * c1 <= (d1 + 1) * c2
  {
    RatioTransitive(direct, c2, debt, c0, d1 + 1, c1);
  }

  /** Catching a loan up in two steps never charges more than catching it up at once, and less than
   *  c2 / c1 + 1 scaled units less; no step lowers the debt.
   */
  lemma TwoStepCatchUp(b: BorrowSlot, c1: u128, c2: u128)
    requires BorrowSlotOk(b) && b.IsActive() && c1 <= c2
    requires b.Accrue(c1).Ok? && b.Accrue(c1).value.Accrue(c2).Ok? && b.Accrue(c2).Ok?
    ensures var twice, once := b.Accrue(c1).value.Accrue(c2).value, b.Accrue(c2).value;
      && twice == once.(debt := twice.debt)
      && b.debt <= b.Accrue(c1).value.debt <= twice.debt <= once.debt
      && (once.debt - twice.debt) * c1 < c2 + c1
  {
    var mid := b.Accrue(c1).value;
    CatchUpSlot(b, c1);
    CatchUpSlot(mid, c2);
    CatchUpSlot(b, c2);
    if b.index < c1 < c2 {
      TwoFloors(b.debt, b.index, c1, c2, mid.debt, mid.Accrue(c2).value.debt, b.Accrue(c2).value.debt);
    }
  }

  // ---- The sole borrower ----------------------------------------------------------------------

  /** The reserve after accruals at each of `slots`, with nothing in between. */
  function AccrueAll(r: ReserveData, slots: seq<u64>): Result<ReserveData> {
    if |slots| == 0 then Ok(r)
    else
      var earlier :- AccrueAll(r, slots[..|slots| - 1]);
      earlier.Accrue(slots[|slots| - 1])
  }

  lemma OneMoreAccrual(r0: nat, c0: nat, r: nat, c: nat, n: nat, r': nat, c': nat)
    requires 0 < c && c0 <= c'
    requires r0 * c <= c0 * r + n * c && r * c' <= c * r' + c
    ensures r0 * c' <= c0 * r' + (n + 1) * c'
  {
    RatioTransitive(r0 - n, c0, r, c, r' + 1, c');
  }

  /** Over n accruals the index outgrows the reserve's debt by at most one token per accrual. */
  lemma {:induction false} IndexOverDebt(r: ReserveData, slots: seq<u64>)
    requires ReserveInv(r) && AccrueAll(r, slots).Ok?
    ensures var q := AccrueAll(r, slots).value;
      && ReserveInv(q) && r.index <= q.index
      && r.borrowed * q.index <= r.index * q.borrowed + |slots| * q.index
  {
    if |slots| == 0 {
    } else {
      var n := |slots| - 1;
      var m, q := AccrueAll(r, slots[..n]).value, AccrueAll(r, slots).value;
      IndexOverDebt(r, slots[..n]);
      AccrueEffect(m, slots[n]);
      OneMoreAccrual(r.borrowed, r.index, m.borrowed, m.index, n, q.borrowed, q.index);
    }
  }

  /** A borrower who owes all of a reserve's debt and catches up once after n accruals owes at most one indexed
   *  token per accrual beyond the reserve's record; after a single accrual the record is at most the
   *  old number of tokens, in scaled units, ahead of the borrower.
   */
  lemma SoleBorrower(r: ReserveData, slots: seq<u64>)
    requires ReserveInv(r) && AccrueAll(r, slots).Ok?
    ensures var q := AccrueAll(r, slots).value;
      var debt := DebtAt(Some(Loan(RATE_SCALE * r.borrowed, r.index)), q.index);
      && debt * r.index <= RATE_SCALE * (r.index * q.borrowed + |slots| * q.index)
      && (|slots| == 1 ==> RATE_SCALE * q.borrowed <= debt + r.borrowed)
  {
    hide DebtAt, AccrueAll;
    var q := AccrueAll(r, slots).value;
    var loan := Loan(RATE_SCALE * r.borrowed, r.index);
    var debt := DebtAt(Some(loan), q.index);
    IndexOverDebt(r, slots);
    DebtAtCatchesUp(loan, q.index);
    ManyAccruals(r.borrowed, r.index, q.borrowed, q.index, |slots| * q.index, debt);
    if |slots| == 1 {
      SingleAccrual(r, slots);
      OneAccrual(r.borrowed, r.index, q.borrowed, q.index, debt);
    }
  }

  lemma SingleAccrual(r: ReserveData, slots: seq<u64>)
    requires ReserveInv(r) && |slots| == 1 && AccrueAll(r, slots).Ok?
    ensures Accrued(r, AccrueAll(r, slots).value)
  {
    assert AccrueAll(r, slots[..0]) == Ok(r);
    AccrueEffect(r, slots[0]);
  }

  lemma ManyAccruals(r: nat, c: nat, r': nat, c': nat, slack: nat, debt: nat)
    requires debt * c <= c' * (RATE_SCALE * r) && r * c' <= c * r' + slack
    ensures debt * c <= RATE_SCALE * (c * r' + slack)
  {
    assert c' * (RATE_SCALE * r) == RATE_SCALE * (r * c');
  }

  lemma OneAccrual(r: nat, c: nat, r': nat, c': nat, debt: nat)
    requires RATE_SCALE <= c && r' * c <= r * (c' + 1) && c' * (RATE_SCALE * r) < (debt + 1) * c
    ensures RATE_SCALE * r' <= debt + r
  {
    assert RATE_SCALE * (r * (c' + 1)) == c' * (RATE_SCALE * r) + RATE_SCALE * r;
    Mono(RATE_SCALE, c, r);
    assert (debt + 1) * c + c * r == (debt + 1 + r) * c;
    CancelStrict(RATE_SCALE * r', debt + 1 + r, c);
  }
}
