/** The slot tables of an obligation refine two finite maps of at most eight keys. */
module ObligationProperties {
  import opened Arithmetic
  import opened Numeric
  import opened ObligationModel

  // ---- Keys -----------------------------------------------------------------------------------

  predicate Distinct(keys: seq<Pubkey>) {
    forall i, j :: 0 <= i < j < |keys| && keys[i] == keys[j] ==> keys[i] == DEFAULT_PUBKEY
  }

  function ActiveCount(keys: seq<Pubkey>): (n: nat)
    ensures n <= |keys|
  {
    if |keys| == 0 then 0
    else ActiveCount(keys[..|keys| - 1]) + (if keys[|keys| - 1] != DEFAULT_PUBKEY then 1 else 0)
  }

  function Used(key: Pubkey): nat {
    if key != DEFAULT_PUBKEY then 1 else 0
  }

  lemma {:induction false} ActiveCountUpdate(keys: seq<Pubkey>, i: nat, key: Pubkey)
    requires i < |keys|
    ensures ActiveCount(keys[i := key]) == ActiveCount(keys) - Used(keys[i]) + Used(key)
  {
    var n := |keys| - 1;
    if i < n {
      assert keys[i := key][..n] == keys[..n][i := key];
      ActiveCountUpdate(keys[..n], i, key);
    } else {
      assert keys[i := key][..n] == keys[..n];
    }
  }

  lemma {:induction false} NoKeys(keys: seq<Pubkey>)
    requires forall i :: 0 <= i < |keys| ==> keys[i] == DEFAULT_PUBKEY
    ensures ActiveCount(keys) == 0
  {
    if |keys| == 0 {
    } else {
      NoKeys(keys[..|keys| - 1]);
    }
  }

  /** The table is full exactly when no slot carries the default key. */
  lemma {:induction false} FullIffNoDefault(keys: seq<Pubkey>)
    ensures ActiveCount(keys) == |keys| <==> DEFAULT_PUBKEY !in keys
  {
    if |keys| == 0 {
    } else {
      var n := |keys| - 1;
      assert keys == keys[..n] + [keys[n]];
      FullIffNoDefault(keys[..n]);
    }
  }

  function KeySet(keys: seq<Pubkey>): set<Pubkey> {
    set k | k in keys && k != DEFAULT_PUBKEY
  }

  lemma {:induction false} KeySetSize(keys: seq<Pubkey>)
    requires Distinct(keys)
    ensures |KeySet(keys)| == ActiveCount(keys)
  {
    if |keys| == 0 {
    } else {
      var n := |keys| - 1;
      assert keys == keys[..n] + [keys[n]];
      KeySetSize(keys[..n]);
      if keys[n] != DEFAULT_PUBKEY {
        assert keys[n] !in keys[..n];
        assert KeySet(keys) == KeySet(keys[..n]) + {keys[n]};
      } else {
        assert KeySet(keys) == KeySet(keys[..n]);
      }
    }
  }

  lemma PositionOf(keys: seq<Pubkey>, i: nat)
    requires Distinct(keys) && i < |keys| && keys[i] != DEFAULT_PUBKEY
    ensures Position(keys, keys[i]) == Some(i)
  {
  }

  /** Rewriting one key moves no other key. */
  lemma KeysWrite(keys: seq<Pubkey>, i: nat, key: Pubkey, k: Pubkey)
    requires Distinct(keys) && i < |keys| && k != DEFAULT_PUBKEY
    requires key == keys[i] || key == DEFAULT_PUBKEY || Position(keys, key).None?
    ensures Distinct(keys[i := key])
    ensures Position(keys[i := key], k) == if k == key then Some(i) else if k == keys[i] then None
      else Position(keys, k)
  {
    var w := keys[i := key];
    var p, q := Position(keys, k), Position(w, k);
    assert w[i] == key;
    if q.Some? && q.value != i {
      assert keys[q.value] == k;
    }
    if p.Some? && p.value != i {
      assert w[p.value] == k;
    }
  }

  // ---- Invariant and abstraction --------------------------------------------------------------

  predicate DepositSlotOk(d: DepositSlot) {
    if d.IsActive() then d.amount > 0 else d == EMPTY_DEPOSIT
  }

  predicate BorrowSlotOk(b: BorrowSlot) {
    if b.IsActive() then RATE_SCALE <= b.debt && RATE_SCALE <= b.index else b == EMPTY_BORROW
  }

  predicate DepositsWf(slots: DepositTable, count: int) {
    && Distinct(DepositKeys(slots))
    && count == ActiveCount(DepositKeys(slots))
    && forall i :: 0 <= i < MAX_SLOTS ==> DepositSlotOk(slots[i])
  }

  predicate BorrowsWf(slots: BorrowTable, count: int) {
    && Distinct(BorrowKeys(slots))
    && count == ActiveCount(BorrowKeys(slots))
    && forall i :: 0 <= i < MAX_SLOTS ==> BorrowSlotOk(slots[i])
  }

  predicate Wf(o: ObligationData) {
    DepositsWf(o.deposits, o.depositsCount) && BorrowsWf(o.borrows, o.borrowsCount)
  }

  /** The slot that holds `key`, or an empty one. */
  function DepositAt(slots: DepositTable, key: Pubkey): DepositSlot {
    var p := Position(DepositKeys(slots), key);
    if key == DEFAULT_PUBKEY || p.None? then EMPTY_DEPOSIT else slots[p.value]
  }

  /** The cTokens locked for `key`; zero when there is no slot. */
  function Locked(slots: DepositTable, key: Pubkey): u64 {
    DepositAt(slots, key).amount
  }

  datatype Loan = Loan(debt: nat, index: nat)

  /** The debt to `key`, up to date for `index`; nothing when there is no slot. */
  function LoanOf(slots: BorrowTable, key: Pubkey): Option<Loan> {
    var p := Position(BorrowKeys(slots), key);
    if key == DEFAULT_PUBKEY || p.None? then None else Some(Loan(slots[p.value].debt, slots[p.value].index))
  }

  function Owed(slots: BorrowTable, key: Pubkey): nat {
    var loan := LoanOf(slots, key);
    if loan.Some? then loan.value.debt else 0
  }

  /** The tables as maps: a key is present exactly when its amount, or its loan, is; the counts are the sizes. */
  lemma TablesAreMaps(o: ObligationData)
    requires Wf(o)
    ensures forall k :: k in KeySet(DepositKeys(o.deposits)) <==> Locked(o.deposits, k) > 0
    ensures forall k :: k in KeySet(BorrowKeys(o.borrows)) <==> LoanOf(o.borrows, k).Some?
    ensures forall k :: k in KeySet(BorrowKeys(o.borrows)) <==> Owed(o.borrows, k) >= RATE_SCALE
    ensures |KeySet(DepositKeys(o.deposits))| == o.depositsCount <= MAX_SLOTS
    ensures |KeySet(BorrowKeys(o.borrows))| == o.borrowsCount <= MAX_SLOTS
  {
    KeySetSize(DepositKeys(o.deposits));
    KeySetSize(BorrowKeys(o.borrows));
  }

  // ---- Writing one slot -----------------------------------------------------------------------

  lemma SlotAfterWrite(slots: DepositTable, i: nat, d: DepositSlot, k: Pubkey)
    requires Distinct(DepositKeys(slots)) && i < MAX_SLOTS
    requires d.reserve == slots[i].reserve || !d.IsActive() || Position(DepositKeys(slots), d.reserve).None?
    ensures Distinct(DepositKeys(slots[i := d]))
    ensures DepositAt(slots[i := d], k)
         == if k == DEFAULT_PUBKEY then EMPTY_DEPOSIT
            else if k == d.reserve then d
            else if k == slots[i].reserve then EMPTY_DEPOSIT
            else DepositAt(slots, k)
  {
    var keys, t := DepositKeys(slots), slots[i := d];
    assert DepositKeys(t) == keys[i := d.reserve];
    KeysWrite(keys, i, d.reserve, if k == DEFAULT_PUBKEY then 1 else k);
    if k == d.reserve && k != DEFAULT_PUBKEY {
      assert Position(DepositKeys(t), k).value == i;
      assert t[i] == d;
    }
  }

  lemma LockedAfterWrite(slots: DepositTable, i: nat, d: DepositSlot, k: Pubkey)
    requires Distinct(DepositKeys(slots)) && i < MAX_SLOTS && (d.IsActive() || d.amount == 0)
    requires d.reserve == slots[i].reserve || !d.IsActive() || Position(DepositKeys(slots), d.reserve).None?
    ensures Locked(slots[i := d], k)
         == if k == d.reserve then d.amount else if k == slots[i].reserve then 0 else Locked(slots, k)
  {
    SlotAfterWrite(slots, i, d, k);
  }

  lemma WriteDeposit(slots: DepositTable, i: nat, d: DepositSlot, count: int)
    requires DepositsWf(slots, count) && i < MAX_SLOTS && DepositSlotOk(d)
    requires d.reserve == slots[i].reserve || !d.IsActive() || Position(DepositKeys(slots), d.reserve).None?
    ensures DepositsWf(slots[i := d], count - Used(slots[i].reserve) + Used(d.reserve))
    ensures forall k :: Locked(slots[i := d], k)
                     == if k == d.reserve then d.amount
                        else if k == slots[i].reserve then 0
                        else Locked(slots, k)
  {
    assert DepositKeys(slots[i := d]) == DepositKeys(slots)[i := d.reserve];
    ActiveCountUpdate(DepositKeys(slots), i, d.reserve);
    forall k {
      LockedAfterWrite(slots, i, d, k);
    }
  }

  lemma LoanAfterWrite(slots: BorrowTable, i: nat, b: BorrowSlot, k: Pubkey)
    requires Distinct(BorrowKeys(slots)) && i < MAX_SLOTS
    requires b.reserve == slots[i].reserve || !b.IsActive() || Position(BorrowKeys(slots), b.reserve).None?
    ensures Distinct(BorrowKeys(slots[i := b]))
    ensures LoanOf(slots[i := b], k)
         == if k == DEFAULT_PUBKEY then None
            else if k == b.reserve then Some(Loan(b.debt, b.index))
            else if k == slots[i].reserve then None
            else LoanOf(slots, k)
  {
    var keys, t := BorrowKeys(slots), slots[i := b];
    assert BorrowKeys(t) == keys[i := b.reserve];
    KeysWrite(keys, i, b.reserve, if k == DEFAULT_PUBKEY then 1 else k);
    if k == b.reserve && k != DEFAULT_PUBKEY {
      assert Position(BorrowKeys(t), k).value == i;
      assert t[i] == b;
    }
  }

  lemma WriteLoan(slots: BorrowTable, i: nat, b: BorrowSlot, count: int)
    requires BorrowsWf(slots, count) && i < MAX_SLOTS && BorrowSlotOk(b)
    requires b.reserve == slots[i].reserve || !b.IsActive() || Position(BorrowKeys(slots), b.reserve).None?
    ensures BorrowsWf(slots[i := b], count - Used(slots[i].reserve) + Used(b.reserve))
    ensures forall k :: LoanOf(slots[i := b], k)
                     == if k == DEFAULT_PUBKEY then None
                        else if k == b.reserve then Some(Loan(b.debt, b.index))
                        else if k == slots[i].reserve then None
                        else LoanOf(slots, k)
  {
    assert BorrowKeys(slots[i := b]) == BorrowKeys(slots)[i := b.reserve];
    ActiveCountUpdate(BorrowKeys(slots), i, b.reserve);
    forall k {
      LoanAfterWrite(slots, i, b, k);
    }
  }

  // ---- The operations refine the maps ---------------------------------------------------------

  /** A slot to add to exists exactly when the key is present or fewer than eight slots are used. */
  lemma SlotFor(keys: seq<Pubkey>, key: Pubkey, full: LendingError)
    requires Distinct(keys) && key != DEFAULT_PUBKEY
    ensures FindOrAdd(keys, key, full).Ok? <==> key in KeySet(keys) || ActiveCount(keys) < |keys|
    ensures FindOrAdd(keys, key, full).Ok? ==>
      keys[FindOrAdd(keys, key, full).value] == if key in KeySet(keys) then key else DEFAULT_PUBKEY
    ensures key in KeySet(keys) <==> Position(keys, key).Some?
  {
    FullIffNoDefault(keys);
  }

  lemma DepositRefines(o: ObligationData, key: Pubkey, amount: u64)
    requires Wf(o) && key != DEFAULT_PUBKEY && o.Deposit(key, amount).Ok?
    ensures var p := o.Deposit(key, amount).value;
      && Wf(p)
      && p.borrows == o.borrows
      && forall k :: Locked(p.deposits, k) == Locked(o.deposits, k) + if k == key then amount else 0
  {
    var keys := DepositKeys(o.deposits);
    SlotFor(keys, key, ObligationDepositsFull);
    var i := FindOrAdd(keys, key, ObligationDepositsFull).value;
    var p := o.Deposit(key, amount).value;
    WriteDeposit(o.deposits, i, p.deposits[i], o.depositsCount);
  }

  /** A deposit succeeds exactly when the amount is positive, a slot is available and the total fits. */
  lemma DepositAccepted(o: ObligationData, key: Pubkey, amount: u64)
    requires Wf(o) && key != DEFAULT_PUBKEY
    ensures o.Deposit(key, amount).Ok? <==>
      && amount > 0
      && (Locked(o.deposits, key) > 0 || o.depositsCount < MAX_SLOTS)
      && Locked(o.deposits, key) + amount <= U64_MAX
  {
    SlotFor(DepositKeys(o.deposits), key, ObligationDepositsFull);
    TablesAreMaps(o);
  }

  /** A withdrawal takes exactly what it names and needs nothing but that much locked. */
  lemma WithdrawRefines(o: ObligationData, key: Pubkey, amount: u64)
    requires Wf(o) && key != DEFAULT_PUBKEY
    ensures o.Withdraw(key, amount).Ok? <==> 0 < amount <= Locked(o.deposits, key)
    ensures o.Withdraw(key, amount).Ok? ==>
      var p := o.Withdraw(key, amount).value;
      && Wf(p)
      && p.borrows == o.borrows
      && forall k :: Locked(p.deposits, k) == Locked(o.deposits, k) - if k == key then amount else 0
  {
    if o.Withdraw(key, amount).Ok? {
      var i := Position(DepositKeys(o.deposits), key).value;
      var p := o.Withdraw(key, amount).value;
      WriteDeposit(o.deposits, i, p.deposits[i], o.depositsCount);
    }
  }

  /** A borrow adds scaled tokens to the key's debt; a new loan starts at the given index. */
  lemma BorrowRefines(o: ObligationData, key: Pubkey, amount: u128, index: u128)
    requires Wf(o) && key != DEFAULT_PUBKEY && RATE_SCALE <= index && o.Borrow(key, amount, index).Ok?
    ensures Owed(o.borrows, key) + amount * RATE_SCALE <= U128_MAX
    ensures var p := o.Borrow(key, amount, index).value;
      var before := LoanOf(o.borrows, key);
      var since := if before.Some? then before.value.index else index;
      && Wf(p)
      && p.deposits == o.deposits
      && forall k :: LoanOf(p.borrows, k)
           == if k == key then Some(Loan(Owed(o.borrows, key) + amount * RATE_SCALE, since))
              else LoanOf(o.borrows, k)
  {
    var keys := BorrowKeys(o.borrows);
    SlotFor(keys, key, ObligationBorrowsFull);
    var i := FindOrAdd(keys, key, ObligationBorrowsFull).value;
    var p := o.Borrow(key, amount, index).value;
    WriteLoan(o.borrows, i, p.borrows[i], o.borrowsCount);
  }

  /** A borrow succeeds exactly when the amount is positive, a slot is available and the scaled debt fits. */
  lemma BorrowAccepted(o: ObligationData, key: Pubkey, amount: u128, index: u128)
    requires Wf(o) && key != DEFAULT_PUBKEY
    ensures o.Borrow(key, amount, index).Ok? <==>
      && amount > 0
      && (LoanOf(o.borrows, key).Some? || o.borrowsCount < MAX_SLOTS)
      && Owed(o.borrows, key) + amount * RATE_SCALE <= U128_MAX
  {
    SlotFor(BorrowKeys(o.borrows), key, ObligationBorrowsFull);
    TablesAreMaps(o);
  }

  /** A repayment may not exceed the debt; the loan is dropped, dust and all, when less than a token is left. */
  lemma RepayRefines(o: ObligationData, key: Pubkey, amount: u128)
    requires Wf(o) && key != DEFAULT_PUBKEY
    ensures o.Repay(key, amount).Ok? <==> amount > 0 && amount * RATE_SCALE <= Owed(o.borrows, key)
    ensures o.Repay(key, amount).Ok? ==>
      var p := o.Repay(key, amount).value;
      var left := Owed(o.borrows, key) - amount * RATE_SCALE;
      && Wf(p)
      && p.deposits == o.deposits
      && forall k :: LoanOf(p.borrows, k)
           == if k != key then LoanOf(o.borrows, k)
              else if left < RATE_SCALE then None
              else Some(Loan(left, LoanOf(o.borrows, key).value.index))
  {
    if o.Repay(key, amount).Ok? {
      var i := Position(BorrowKeys(o.borrows), key).value;
      var p := o.Repay(key, amount).value;
      WriteLoan(o.borrows, i, p.borrows[i], o.borrowsCount);
    }
  }

  // ---- Catching debt up -----------------------------------------------------------------------

  /** `y` is what `x` has become at a later index: scaled by the ratio of the indices and rounded down. */
  predicate CaughtUp(x: Loan, y: Loan) {
    && x.index <= y.index && x.debt <= y.debt
    && RatioLe(y.debt, x.debt, y.index, x.index)
    && y.index * x.debt < (y.debt + 1) * x.index
  }

  /** What a loan amounts to once caught up with `index`. */
  function DebtAt(loan: Option<Loan>, index: nat): nat
    requires loan.Some? ==> 0 < loan.value.index
  {
    if loan.None? then 0
    else if index <= loan.value.index then loan.value.debt
    else
      Share(loan.value.debt, index, loan.value.index);
      loan.value.debt * index / loan.value.index
  }

  lemma DebtAtCatchesUp(loan: Loan, index: nat)
    requires 0 < loan.index <= index
    ensures CaughtUp(loan, Loan(DebtAt(Some(loan), index), index))
  {
    if loan.index < index {
      Share(loan.debt, index, loan.index);
      Mono(loan.index, index, loan.debt);
      Greatest(loan.debt, loan.debt * index, loan.index);
    }
  }

  function LoanIn(b: BorrowSlot): Loan {
    Loan(b.debt, b.index)
  }

  /** The product that catching up divides fits 128 bits; at an unchanged index nothing is multiplied. */
  predicate Computable(loan: Loan, index: nat) {
    loan.index == index || loan.debt * index <= U128_MAX
  }

  lemma CatchUpSlot(b: BorrowSlot, index: u128)
    requires BorrowSlotOk(b) && b.Accrue(index).Ok?
    ensures b.IsActive() ==> Computable(LoanIn(b), index)
    ensures var c := b.Accrue(index).value;
      && BorrowSlotOk(c) && c == b.(debt := c.debt, index := c.index)
      && (b.IsActive() ==> LoanIn(c) == Loan(DebtAt(Some(LoanIn(b)), index), index) && CaughtUp(LoanIn(b), LoanIn(c)))
      && (!b.IsActive() ==> c == b)
  {
    if b.IsActive() {
      DebtAtCatchesUp(LoanIn(b), index);
    }
  }

  /** Accruing one slot catches up its key's loan and changes no other. */
  lemma AccrueRefines(o: ObligationData, i: nat, index: u128)
    requires Wf(o) && i < MAX_SLOTS && o.borrows[i].IsActive() && o.AccrueInterest(i, index).Ok?
    ensures var p := o.AccrueInterest(i, index).value;
      var key := o.borrows[i].reserve;
      var before := LoanOf(o.borrows, key);
      && Wf(p)
      && p.deposits == o.deposits
      && p.borrows[i].reserve == key
      && before == Some(LoanIn(o.borrows[i])) && before.value.index <= index && Computable(before.value, index)
      && LoanOf(p.borrows, key) == Some(LoanIn(p.borrows[i])) == Some(Loan(DebtAt(before, index), index))
      && forall k :: k != key ==> LoanOf(p.borrows, k) == LoanOf(o.borrows, k)
  {
    var p := o.AccrueInterest(i, index).value;
    CatchUpSlot(o.borrows[i], index);
    PositionOf(BorrowKeys(o.borrows), i);
    WriteLoan(o.borrows, i, p.borrows[i], o.borrowsCount);
  }
}
