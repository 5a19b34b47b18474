/** Cached values, their totals, and the checks made on them. */
module Health {
  import opened Arithmetic
  import opened Numeric
  import opened ObligationModel
  import opened ObligationProperties
  import opened InstructionProperties
  import I = InstructionModel

  // ---- Sums -----------------------------------------------------------------------------------

  lemma {:induction false} SaturatingIsMin(xs: seq<u128>)
    ensures SaturatingSum(xs) == if Sum(xs) <= U128_MAX then Sum(xs) else U128_MAX
  {
    if |xs| == 0 {
    } else {
      SaturatingIsMin(xs[..|xs| - 1]);
    }
  }

  lemma {:induction false} SumPrefix(xs: seq<nat>, n: nat)
    requires n <= |xs|
    ensures Sum(xs[..n]) <= Sum(xs)
  {
    if n == |xs| {
      assert xs[..n] == xs;
    } else {
      SumPrefix(xs[..|xs| - 1], n);
      assert xs[..|xs| - 1][..n] == xs[..n];
    }
  }

  lemma {:induction false} SumUpdate(xs: seq<nat>, i: nat, x: nat)
    requires i < |xs|
    ensures Sum(xs[i := x]) == Sum(xs) - xs[i] + x
  {
    var n := |xs| - 1;
    if i < n {
      assert xs[i := x][..n] == xs[..n][i := x];
      SumUpdate(xs[..n], i, x);
    } else {
      assert xs[i := x][..n] == xs[..n];
    }
  }

  lemma {:induction false} SumZeroTail(xs: seq<nat>, n: nat)
    requires n <= |xs| && forall i :: n <= i < |xs| ==> xs[i] == 0
    ensures Sum(xs[..n]) == Sum(xs)
  {
    if n == |xs| {
      assert xs[..n] == xs;
    } else {
      SumZeroTail(xs[..|xs| - 1], n);
      assert xs[..|xs| - 1][..n] == xs[..n];
    }
  }

  /** A prefix holds the whole sum exactly when nothing after it counts. */
  lemma {:induction false} PrefixIsAll(xs: seq<nat>, n: nat)
    requires n <= |xs|
    ensures Sum(xs[..n]) == Sum(xs) <==> forall i :: n <= i < |xs| ==> xs[i] == 0
  {
    if forall i :: n <= i < |xs| ==> xs[i] == 0 {
      SumZeroTail(xs, n);
    } else {
      var i :| n <= i < |xs| && xs[i] != 0;
      SumUpdate(xs, i, 0);
      SumPrefix(xs[i := 0], n);
      assert xs[i := 0][..n] == xs[..n];
    }
  }

  // ---- The health factor ----------------------------------------------------------------------

  /** The totals `health_factor` compares: saturating sums over the first `count` slots. */
  function SeenDeposits(o: ObligationData): u128
    requires o.depositsCount <= MAX_SLOTS
  {
    SaturatingSum(DepositValues(o.deposits)[..o.depositsCount])
  }

  function SeenBorrows(o: ObligationData): u128
    requires o.borrowsCount <= MAX_SLOTS
  {
    SaturatingSum(BorrowValues(o.borrows)[..o.borrowsCount])
  }

  /** As coded, healthy means no borrow value or deposits of at least RATE_SCALE times the borrows. */
  lemma HealthyIff(o: ObligationData)
    requires o.depositsCount <= MAX_SLOTS && o.borrowsCount <= MAX_SLOTS
    ensures o.IsHealthy() == Ok(SeenBorrows(o) == 0 || RATE_SCALE * SeenBorrows(o) <= SeenDeposits(o))
  {
    var d, b := SeenDeposits(o), SeenBorrows(o);
    if b > 0 {
      Floor(d, b);
      if RATE_SCALE * b <= d {
        Greatest(RATE_SCALE, d, b);
      } else if RATE_SCALE <= d / b {
        Mono(RATE_SCALE, d / b, b);
      }
    }
  }

  /** The documented meaning, deposits of at least the borrows, is what the code decides except when the
   *  borrows are positive and lie between the deposits divided by RATE_SCALE and the deposits.
   */
  lemma HealthAsDocumentedIff(o: ObligationData)
    requires o.depositsCount <= MAX_SLOTS && o.borrowsCount <= MAX_SLOTS
    ensures o.IsHealthy() == Ok(SeenBorrows(o) <= SeenDeposits(o))
       <==> !(0 < SeenBorrows(o) <= SeenDeposits(o) < RATE_SCALE * SeenBorrows(o))
  {
    HealthyIff(o);
  }

  /** One deposit worth 100 and one loan worth 1. */
  function Hundredfold(): ObligationData {
    var d, b := EMPTY_DEPOSIT, EMPTY_BORROW;
    ObligationData([DepositSlot(1, 1, 100), d, d, d, d, d, d, d],
                   [BorrowSlot(2, RATE_SCALE, RATE_SCALE, 1), b, b, b, b, b, b, b], 1, 1, 0, 0)
  }

  lemma HundredfoldWf()
    ensures Wf(Hundredfold())
  {
    CountOne(DepositKeys(Hundredfold().deposits));
    CountOne(BorrowKeys(Hundredfold().borrows));
  }

  lemma SumOfOne(xs: seq<u128>, x: u128)
    requires xs == [x]
    ensures SaturatingSum(xs) == x
  {
    assert xs[..0] == [];
  }

  /** A position with a hundred times more collateral than debt is called unhealthy. */
  lemma HealthCounterexample()
    ensures var o := Hundredfold();
      && Wf(o) && o.depositsCount == o.borrowsCount == 1
      && SeenDeposits(o) == 100 && SeenBorrows(o) == 1 && o.IsHealthy() == Ok(false)
  {
    hide Wf, SaturatingSum;
    var o := Hundredfold();
    HundredfoldWf();
    SumOfOne(DepositValues(o.deposits)[..1], 100);
    SumOfOne(BorrowValues(o.borrows)[..1], 1);
    HealthyIff(o);
  }

  lemma CountOne(keys: seq<Pubkey>)
    requires |keys| == MAX_SLOTS && keys[0] != DEFAULT_PUBKEY
    requires forall i :: 1 <= i < MAX_SLOTS ==> keys[i] == DEFAULT_PUBKEY
    ensures ActiveCount(keys) == 1
  {
    var none := keys[0 := DEFAULT_PUBKEY];
    ActiveCountUpdate(keys, 0, DEFAULT_PUBKEY);
    NoKeys(none);
  }

  // ---- Holes ----------------------------------------------------------------------------------

  /** The active slots are exactly those below the count. */
  predicate Compact(keys: seq<Pubkey>, count: int) {
    forall i :: 0 <= i < |keys| ==> (keys[i] != DEFAULT_PUBKEY <==> i < count)
  }

  /** The valuation loops see the whole table exactly when every slot past the count is worth nothing. */
  lemma TotalsSeeAllIff(o: ObligationData)
    requires o.depositsCount <= MAX_SLOTS && o.borrowsCount <= MAX_SLOTS
    ensures Sum(DepositValues(o.deposits)[..o.depositsCount]) == Sum(DepositValues(o.deposits))
      <==> forall i :: o.depositsCount <= i < MAX_SLOTS ==> DepositValues(o.deposits)[i] == 0
    ensures Sum(BorrowValues(o.borrows)[..o.borrowsCount]) == Sum(BorrowValues(o.borrows))
      <==> forall i :: o.borrowsCount <= i < MAX_SLOTS ==> BorrowValues(o.borrows)[i] == 0
    ensures Compact(DepositKeys(o.deposits), o.depositsCount) ==>
      Sum(DepositValues(o.deposits)[..o.depositsCount]) == Sum(DepositValues(o.deposits))
    ensures Compact(BorrowKeys(o.borrows), o.borrowsCount) ==>
      Sum(BorrowValues(o.borrows)[..o.borrowsCount]) == Sum(BorrowValues(o.borrows))
  {
    PrefixIsAll(DepositValues(o.deposits), o.depositsCount);
    PrefixIsAll(BorrowValues(o.borrows), o.borrowsCount);
  }

  /** In a compact table the slot to open is the one just past the count. */
  lemma CompactOpensNext(keys: seq<Pubkey>, count: nat, key: Pubkey, full: LendingError)
    requires Compact(keys, count) && count <= |keys| && key != DEFAULT_PUBKEY
    requires Position(keys, key).None? && FindOrAdd(keys, key, full).Ok?
    ensures FindOrAdd(keys, key, full) == Ok(count)
  {
    var p := Position(keys, DEFAULT_PUBKEY);
    if count < |keys| {
      assert keys[count] == DEFAULT_PUBKEY;
    }
    assert p.Some? && !(p.value < count);
  }

  /** Adding debt never makes a hole. */
  lemma BorrowKeepsCompact(o: ObligationData, key: Pubkey, amount: u128, index: u128)
    requires Wf(o) && Compact(BorrowKeys(o.borrows), o.borrowsCount) && key != DEFAULT_PUBKEY
    requires o.Borrow(key, amount, index).Ok?
    ensures var p := o.Borrow(key, amount, index).value;
      Compact(BorrowKeys(p.borrows), p.borrowsCount) && p.borrowsCount <= MAX_SLOTS
  {
    TablesAreMaps(o);
    var keys := BorrowKeys(o.borrows);
    var i := FindOrAdd(keys, key, ObligationBorrowsFull).value;
    var p := o.Borrow(key, amount, index).value;
    if Position(keys, key).Some? {
      assert BorrowKeys(p.borrows) == keys;
    } else {
      CompactOpensNext(keys, o.borrowsCount, key, ObligationBorrowsFull);
      assert BorrowKeys(p.borrows) == keys[i := key];
    }
  }

  /** Closing a slot keeps a compact table compact exactly when it is the last one. */
  lemma ClosingKeepsCompactIff(keys: seq<Pubkey>, count: nat, i: nat)
    requires Compact(keys, count) && i < count <= |keys|
    ensures Compact(keys[i := DEFAULT_PUBKEY], count - 1) <==> i == count - 1
  {
    if i < count - 1 {
      assert keys[i := DEFAULT_PUBKEY][i] == DEFAULT_PUBKEY;
    }
  }

  lemma WithdrawKeepsCompactIff(o: ObligationData, key: Pubkey, amount: u64)
    requires Wf(o) && Compact(DepositKeys(o.deposits), o.depositsCount) && key != DEFAULT_PUBKEY
    requires o.Withdraw(key, amount).Ok?
    ensures var p := o.Withdraw(key, amount).value;
      Compact(DepositKeys(p.deposits), p.depositsCount)
      <==> amount < Locked(o.deposits, key) || o.deposits[o.depositsCount - 1].reserve == key
  {
    var keys := DepositKeys(o.deposits);
    var i := Position(keys, key).value;
    var p := o.Withdraw(key, amount).value;
    PositionOf(keys, o.depositsCount - 1);
    if amount == o.deposits[i].amount {
      ClosingKeepsCompactIff(keys, o.depositsCount, i);
      assert DepositKeys(p.deposits) == keys[i := DEFAULT_PUBKEY];
    } else {
      assert DepositKeys(p.deposits) == keys;
    }
  }

  lemma RepayKeepsCompactIff(o: ObligationData, key: Pubkey, amount: u128)
    requires Wf(o) && Compact(BorrowKeys(o.borrows), o.borrowsCount) && key != DEFAULT_PUBKEY
    requires o.Repay(key, amount).Ok?
    ensures var p := o.Repay(key, amount).value;
      Compact(BorrowKeys(p.borrows), p.borrowsCount)
      <==> RATE_SCALE <= Owed(o.borrows, key) - amount * RATE_SCALE || o.borrows[o.borrowsCount - 1].reserve == key
  {
    var keys := BorrowKeys(o.borrows);
    var i := Position(keys, key).value;
    var p := o.Repay(key, amount).value;
    PositionOf(keys, o.borrowsCount - 1);
    if o.borrows[i].debt - amount * RATE_SCALE < RATE_SCALE {
      ClosingKeepsCompactIff(keys, o.borrowsCount, i);
      assert BorrowKeys(p.borrows) == keys[i := DEFAULT_PUBKEY];
    } else {
      assert BorrowKeys(p.borrows) == keys;
    }
  }

  // ---- The check after a withdrawal -----------------------------------------------------------

  /** Collateral left after a withdrawal is worth RATE_SCALE times the debt the scan reaches, as cached, and with no
   *  hole among the borrows that is all debt; saturation and holes among the deposits only make the check stricter. */
  lemma WithdrawalLeavesCover(o: ObligationData, key: Pubkey, amount: u64, slot: u64)
    requires Wf(o) && key != DEFAULT_PUBKEY
    requires I.WithdrawCollateral(o, key, amount, slot).Ok?
    ensures var p := I.WithdrawCollateral(o, key, amount, slot).value;
      && p.borrowsCount <= MAX_SLOTS
      && RATE_SCALE * Sum(BorrowValues(p.borrows)[..p.borrowsCount]) <= Sum(DepositValues(p.deposits))
      && (Compact(BorrowKeys(o.borrows), o.borrowsCount) ==>
            RATE_SCALE * Sum(BorrowValues(p.borrows)) <= Sum(DepositValues(p.deposits)))
  {
    var p := I.WithdrawCollateral(o, key, amount, slot).value;
    WithdrawCollateralEffect(o, key, amount, slot);
    WithdrawalChecked(o, key, amount, slot);
    TablesAreMaps(p);
    HealthyIff(p);
    TotalsSeeAllIff(p);
    SaturatingIsMin(BorrowValues(p.borrows)[..p.borrowsCount]);
    SaturatingIsMin(DepositValues(p.deposits)[..p.depositsCount]);
    SumPrefix(DepositValues(p.deposits), p.depositsCount);
  }

  lemma WithdrawalChecked(o: ObligationData, key: Pubkey, amount: u64, slot: u64)
    requires I.WithdrawCollateral(o, key, amount, slot).Ok?
    ensures var p := I.WithdrawCollateral(o, key, amount, slot).value;
      p.IsHealthy() == Ok(true) && p.borrowsCount == o.borrowsCount
  {
  }
}
