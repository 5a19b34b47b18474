/** The obligation account as the program updates it: two arrays of slots, searched and written in place. */
module ObligationAccount {
  import opened Numeric
  import opened ObligationModel
  import Arithmetic

  /** A method's outcome against the value it should leave behind; after an error the runtime restores the account. */
  ghost predicate Matches(r: Result<()>, expected: Result<ObligationData>, after: ObligationData) {
    match r
    case Ok(_) => expected == Ok(after)
    case Err(e) => expected == Err(e)
  }

  class Obligation {
    const deposits: array<DepositSlot>
    const borrows: array<BorrowSlot>
    var depositsCount: u8
    var borrowsCount: u8
    var lastUpdateSlot: u64
    var lastUpdateTime: i64

    predicate Valid() {
      deposits.Length == MAX_SLOTS && borrows.Length == MAX_SLOTS
    }

    function Data(): ObligationData
      requires Valid()
      reads this, deposits, borrows
    {
      ObligationData(deposits[..], borrows[..], depositsCount, borrowsCount, lastUpdateSlot, lastUpdateTime)
    }

    constructor ()
      ensures Valid() && fresh(deposits) && fresh(borrows) && Data() == NewObligation()
    {
      deposits := new DepositSlot[MAX_SLOTS](_ => EMPTY_DEPOSIT);
      borrows := new BorrowSlot[MAX_SLOTS](_ => EMPTY_BORROW);
      depositsCount, borrowsCount, lastUpdateSlot, lastUpdateTime := 0, 0, 0, 0;
      new;
      assert deposits[..] == NewObligation().deposits;
      assert borrows[..] == NewObligation().borrows;
    }

    // ---- Searching ----------------------------------------------------------------------------

    method PositionOfDeposit(key: Pubkey) returns (p: Option<nat>)
      requires Valid()
      ensures p == Position(DepositKeys(deposits[..]), key)
    {
      ghost var keys := DepositKeys(deposits[..]);
      for i := 0 to deposits.Length
        invariant Position(keys, key) == PositionFrom(keys, key, i)
      {
        if deposits[i].reserve == key {
          return Some(i);
        }
      }
      return None;
    }

    method PositionOfBorrow(key: Pubkey) returns (p: Option<nat>)
      requires Valid()
      ensures p == Position(BorrowKeys(borrows[..]), key)
    {
      ghost var keys := BorrowKeys(borrows[..]);
      for i := 0 to borrows.Length
        invariant Position(keys, key) == PositionFrom(keys, key, i)
      {
        if borrows[i].reserve == key {
          return Some(i);
        }
      }
      return None;
    }

    method FindDeposit(key: Pubkey) returns (r: Result<nat>)
      requires Valid()
      ensures r == Find(DepositKeys(deposits[..]), key, DepositNotFound)
    {
      var p := PositionOfDeposit(key);
      return if p.Some? then Ok(p.value) else Err(DepositNotFound);
    }

    method FindBorrow(key: Pubkey) returns (r: Result<nat>)
      requires Valid()
      ensures r == Find(BorrowKeys(borrows[..]), key, BorrowNotFound)
    {
      var p := PositionOfBorrow(key);
      return if p.Some? then Ok(p.value) else Err(BorrowNotFound);
    }

    method FindOrAddDeposit(key: Pubkey) returns (r: Result<nat>)
      requires Valid()
      ensures r == FindOrAdd(DepositKeys(deposits[..]), key, ObligationDepositsFull)
    {
      var p := PositionOfDeposit(key);
      if p.Some? {
        return Ok(p.value);
      }
      var free := PositionOfDeposit(DEFAULT_PUBKEY);
      return if free.Some? then Ok(free.value) else Err(ObligationDepositsFull);
    }

    method FindOrAddBorrow(key: Pubkey) returns (r: Result<nat>)
      requires Valid()
      ensures r == FindOrAdd(BorrowKeys(borrows[..]), key, ObligationBorrowsFull)
    {
      var p := PositionOfBorrow(key);
      if p.Some? {
        return Ok(p.value);
      }
      var free := PositionOfBorrow(DEFAULT_PUBKEY);
      return if free.Some? then Ok(free.value) else Err(ObligationBorrowsFull);
    }

    // ---- Operations ---------------------------------------------------------------------------

    method Deposit(key: Pubkey, amount: u64) returns (r: Result<()>)
      requires Valid()
      modifies this, deposits
      ensures Matches(r, old(Data()).Deposit(key, amount), Data())
    {
      var _ :- Require(amount > 0, InvalidAmount);
      var i :- FindOrAddDeposit(key);
      if !deposits[i].IsActive() {
        deposits[i] := EMPTY_DEPOSIT.(reserve := key);
        depositsCount := SaturatingInc(depositsCount);
      }
      var newAmount :- Add64(deposits[i].amount, amount);
      deposits[i] := deposits[i].(amount := newAmount);
      assert deposits[..] == old(deposits[..])[i := deposits[i]];
      return Ok(());
    }

    method Withdraw(key: Pubkey, amount: u64) returns (r: Result<()>)
      requires Valid()
      modifies this, deposits
      ensures Matches(r, old(Data()).Withdraw(key, amount), Data())
    {
      var _ :- Require(amount > 0, InvalidAmount);
      var i :- FindDeposit(key);
      var _ :- Require(amount <= deposits[i].amount, InsufficientCollateral);
      deposits[i] := deposits[i].(amount := deposits[i].amount - amount);
      if deposits[i].amount == 0 {
        deposits[i] := EMPTY_DEPOSIT;
        depositsCount := SaturatingDec(depositsCount);
      }
      assert deposits[..] == old(deposits[..])[i := deposits[i]];
      return Ok(());
    }

    method Borrow(key: Pubkey, amount: u128, index: u128) returns (r: Result<()>)
      requires Valid()
      modifies this, borrows
      ensures Matches(r, old(Data()).Borrow(key, amount, index), Data())
    {
      var _ :- Require(amount > 0, InvalidAmount);
      var i :- FindOrAddBorrow(key);
      if !borrows[i].IsActive() {
        borrows[i] := EMPTY_BORROW.(reserve := key, index := index);
        borrowsCount := SaturatingInc(borrowsCount);
      }
      var scaled :- Mul128(amount, RATE_SCALE);
      var newDebt :- Add128(borrows[i].debt, scaled);
      borrows[i] := borrows[i].(debt := newDebt);
      assert borrows[..] == old(borrows[..])[i := borrows[i]];
      return Ok(());
    }

    method Repay(key: Pubkey, amount: u128) returns (r: Result<()>)
      requires Valid()
      modifies this, borrows
      ensures Matches(r, old(Data()).Repay(key, amount), Data())
    {
      var _ :- Require(amount > 0, InvalidAmount);
      var i :- FindBorrow(key);
      var scaled :- Mul128(amount, RATE_SCALE);
      var _ :- Require(scaled <= borrows[i].debt, InvalidAmount);
      borrows[i] := borrows[i].(debt := borrows[i].debt - scaled);
      if borrows[i].debt < RATE_SCALE {
        borrows[i] := EMPTY_BORROW;
        borrowsCount := SaturatingDec(borrowsCount);
      }
      assert borrows[..] == old(borrows[..])[i := borrows[i]];
      return Ok(());
    }

    method AccrueInterest(i: nat, currentIndex: u128) returns (r: Result<()>)
      requires Valid() && i < MAX_SLOTS
      modifies borrows
      ensures Matches(r, old(Data()).AccrueInterest(i, currentIndex), Data())
    {
      if !borrows[i].IsActive() {
        assert borrows[..][i := borrows[i]] == borrows[..];
        return Ok(());
      }
      var _ :- Require(currentIndex >= borrows[i].index, BorrowRateDecreased);
      if currentIndex == borrows[i].index {
        assert borrows[..][i := borrows[i]] == borrows[..];
        return Ok(());
      }
      var newDebt :- MulDiv(borrows[i].debt, currentIndex, borrows[i].index);
      borrows[i] := borrows[i].(debt := newDebt);
      borrows[i] := borrows[i].(index := currentIndex);
      assert borrows[..] == old(borrows[..])[i := borrows[i]];
      return Ok(());
    }

    // ---- Health -------------------------------------------------------------------------------

    method SumBorrows() returns (r: Result<u128>)
      requires Valid()
      ensures r == if borrowsCount <= MAX_SLOTS then Ok(SaturatingSum(BorrowValues(borrows[..])[..borrowsCount]))
        else Err(Panic)
    {
      if borrowsCount > MAX_SLOTS {
        return Err(Panic);
      }
      ghost var values := BorrowValues(borrows[..]);
      var total: u128 := 0;
      for i := 0 to borrowsCount
        invariant total == SaturatingSum(values[..i])
      {
        assert values[..i + 1][..i] == values[..i];
        if borrows[i].IsActive() {
          total := if total + borrows[i].value <= U128_MAX then total + borrows[i].value else U128_MAX;
        }
      }
      return Ok(total);
    }

    method SumDeposits() returns (r: Result<u128>)
      requires Valid()
      ensures r == if depositsCount <= MAX_SLOTS then Ok(SaturatingSum(DepositValues(deposits[..])[..depositsCount]))
        else Err(Panic)
    {
      if depositsCount > MAX_SLOTS {
        return Err(Panic);
      }
      ghost var values := DepositValues(deposits[..]);
      var total: u128 := 0;
      for i := 0 to depositsCount
        invariant total == SaturatingSum(values[..i])
      {
        assert values[..i + 1][..i] == values[..i];
        if deposits[i].IsActive() {
          total := if total + deposits[i].value <= U128_MAX then total + deposits[i].value else U128_MAX;
        }
      }
      return Ok(total);
    }

    method HealthFactor() returns (r: Result<Option<u128>>)
      requires Valid()
      ensures r == Data().HealthFactor()
    {
      var borrowValue :- SumBorrows();
      if borrowValue == 0 {
        return Ok(None);
      }
      var depositValue :- SumDeposits();
      Arithmetic.DivLe(depositValue, borrowValue);
      return Ok(Some(depositValue / borrowValue));
    }

    method IsHealthy() returns (r: Result<bool>)
      requires Valid()
      ensures r == Data().IsHealthy()
    {
      var factor :- HealthFactor();
      return Ok(factor.None? || factor.value >= RATE_SCALE);
    }
  }
}
