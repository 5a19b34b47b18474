/** The obligation as a value: two tables of eight slots and what each method of `Obligation` computes. */
module ObligationModel {
  import opened Numeric
  import Arithmetic

  const MAX_SLOTS: int := 8

  /** An account address; the default address marks an unused slot. */
  type Pubkey = nat
  const DEFAULT_PUBKEY: Pubkey := 0

  /** `amount` is in cTokens, `value` in USD scaled by RATE_SCALE and already cut by the liquidation threshold. */
  datatype DepositSlot = DepositSlot(reserve: Pubkey, amount: u64, value: u128) {
    predicate IsActive() {
      reserve != DEFAULT_PUBKEY
    }
  }

  /** `debt` is in tokens scaled by RATE_SCALE, brought up to date for the reserve index `index`. */
  datatype BorrowSlot = BorrowSlot(reserve: Pubkey, debt: u128, index: u128, value: u128) {
    predicate IsActive() {
      reserve != DEFAULT_PUBKEY
    }

    function Accrue(currentIndex: u128): Result<BorrowSlot> {
      if !IsActive() then Ok(this)
      else if currentIndex < index then Err(BorrowRateDecreased)
      else if currentIndex == index then Ok(this)
      else
        var newDebt :- MulDiv(debt, currentIndex, index);
        Ok(this.(debt := newDebt, index := currentIndex))
    }
  }

  const EMPTY_DEPOSIT := DepositSlot(DEFAULT_PUBKEY, 0, 0)
  const EMPTY_BORROW := BorrowSlot(DEFAULT_PUBKEY, 0, RATE_SCALE, 0)

  type DepositTable = s: seq<DepositSlot> | |s| == MAX_SLOTS witness seq(MAX_SLOTS, _ => EMPTY_DEPOSIT)
  type BorrowTable = s: seq<BorrowSlot> | |s| == MAX_SLOTS witness seq(MAX_SLOTS, _ => EMPTY_BORROW)

  function DepositKeys(slots: seq<DepositSlot>): (keys: seq<Pubkey>)
    ensures |keys| == |slots| && forall i :: 0 <= i < |keys| ==> keys[i] == slots[i].reserve
  {
    seq(|slots|, i requires 0 <= i < |slots| => slots[i].reserve)
  }

  function BorrowKeys(slots: seq<BorrowSlot>): (keys: seq<Pubkey>)
    ensures |keys| == |slots| && forall i :: 0 <= i < |keys| ==> keys[i] == slots[i].reserve
  {
    seq(|slots|, i requires 0 <= i < |slots| => slots[i].reserve)
  }

  /** The first position of `key` at or after `from`. */
  function PositionFrom(keys: seq<Pubkey>, key: Pubkey, from: nat): (p: Option<nat>)
    requires from <= |keys|
    ensures p.Some? ==> from <= p.value < |keys| && keys[p.value] == key
    ensures p.Some? ==> forall j :: from <= j < p.value ==> keys[j] != key
    ensures p.None? ==> forall j :: from <= j < |keys| ==> keys[j] != key
    decreases |keys| - from
  {
    if from == |keys| then None
    else if keys[from] == key then Some(from)
    else PositionFrom(keys, key, from + 1)
  }

  function Position(keys: seq<Pubkey>, key: Pubkey): Option<nat> {
    PositionFrom(keys, key, 0)
  }

  function Find(keys: seq<Pubkey>, key: Pubkey, missing: LendingError): (r: Result<nat>)
    ensures r.Ok? ==> r.value < |keys|
  {
    match Position(keys, key)
    case Some(i) => Ok(i)
    case None => Err(missing)
  }

  function FindOrAdd(keys: seq<Pubkey>, key: Pubkey, full: LendingError): (r: Result<nat>)
    ensures r.Ok? ==> r.value < |keys|
  {
    if Position(keys, key).Some? then Find(keys, key, full) else Find(keys, DEFAULT_PUBKEY, full)
  }

  function SaturatingInc(n: u8): u8 {
    if n == 0xFF then n else n + 1
  }

  function SaturatingDec(n: u8): u8 {
    if n == 0 then n else n - 1
  }

  /** The cached values of a table, inactive slots counting zero. */
  function DepositValues(slots: seq<DepositSlot>): (values: seq<u128>)
    ensures |values| == |slots|
  {
    seq(|slots|, i requires 0 <= i < |slots| => if slots[i].IsActive() then slots[i].value else 0)
  }

  function BorrowValues(slots: seq<BorrowSlot>): (values: seq<u128>)
    ensures |values| == |slots|
  {
    seq(|slots|, i requires 0 <= i < |slots| => if slots[i].IsActive() then slots[i].value else 0)
  }

  function Sum(xs: seq<nat>): nat {
    if |xs| == 0 then 0 else Sum(xs[..|xs| - 1]) + xs[|xs| - 1]
  }

  function SaturatingSum(xs: seq<u128>): u128 {
    if |xs| == 0 then 0
    else
      var total := SaturatingSum(xs[..|xs| - 1]) + xs[|xs| - 1];
      if total <= U128_MAX then total else U128_MAX
  }

  /** Iterator `sum()`: aborts on overflow. */
  function CheckedSum(xs: seq<u128>): Result<u128> {
    if Sum(xs) <= U128_MAX then Ok(Sum(xs)) else Err(Panic)
  }

  /** The slice `xs[..count]`, which aborts when `count` is past the end. */
  function Slice<T>(xs: seq<T>, count: nat): (r: Result<seq<T>>)
    ensures r.Ok? ==> count <= |xs| && r.value == xs[..count]
  {
    if count <= |xs| then Ok(xs[..count]) else Err(Panic)
  }

  datatype ObligationData = ObligationData(
    deposits: DepositTable,
    borrows: BorrowTable,
    depositsCount: u8,
    borrowsCount: u8,
    lastUpdateSlot: u64,
    lastUpdateTime: i64)
  {
    function Deposit(reserve: Pubkey, amount: u64): Result<ObligationData> {
      var _ :- Require(amount > 0, InvalidAmount);
      var i :- FindOrAdd(DepositKeys(deposits), reserve, ObligationDepositsFull);
      var isNew := !deposits[i].IsActive();
      var slot := if isNew then EMPTY_DEPOSIT.(reserve := reserve) else deposits[i];
      var newAmount :- Add64(slot.amount, amount);
      Ok(this.(deposits := deposits[i := slot.(amount := newAmount)],
               depositsCount := if isNew then SaturatingInc(depositsCount) else depositsCount))
    }

    function Withdraw(reserve: Pubkey, amount: u64): Result<ObligationData> {
      var _ :- Require(amount > 0, InvalidAmount);
      var i :- Find(DepositKeys(deposits), reserve, DepositNotFound);
      var _ :- Require(amount <= deposits[i].amount, InsufficientCollateral);
      if amount == deposits[i].amount then
        Ok(this.(deposits := deposits[i := EMPTY_DEPOSIT], depositsCount := SaturatingDec(depositsCount)))
      else
        Ok(this.(deposits := deposits[i := deposits[i].(amount := deposits[i].amount - amount)]))
    }

    function Borrow(reserve: Pubkey, amount: u128, index: u128): Result<ObligationData> {
      var _ :- Require(amount > 0, InvalidAmount);
      var i :- FindOrAdd(BorrowKeys(borrows), reserve, ObligationBorrowsFull);
      var isNew := !borrows[i].IsActive();
      var slot := if isNew then EMPTY_BORROW.(reserve := reserve, index := index) else borrows[i];
      var scaled :- Mul128(amount, RATE_SCALE);
      var newDebt :- Add128(slot.debt, scaled);
      Ok(this.(borrows := borrows[i := slot.(debt := newDebt)],
               borrowsCount := if isNew then SaturatingInc(borrowsCount) else borrowsCount))
    }

    function Repay(reserve: Pubkey, amount: u128): Result<ObligationData> {
      var _ :- Require(amount > 0, InvalidAmount);
      var i :- Find(BorrowKeys(borrows), reserve, BorrowNotFound);
      var scaled :- Mul128(amount, RATE_SCALE);
      var _ :- Require(scaled <= borrows[i].debt, InvalidAmount);
      if borrows[i].debt - scaled < RATE_SCALE then
        Ok(this.(borrows := borrows[i := EMPTY_BORROW], borrowsCount := SaturatingDec(borrowsCount)))
      else
        Ok(this.(borrows := borrows[i := borrows[i].(debt := borrows[i].debt - scaled)]))
    }

    function AccrueInterest(i: nat, currentIndex: u128): Result<ObligationData>
      requires i < MAX_SLOTS
    {
      var slot :- borrows[i].Accrue(currentIndex);
      Ok(this.(borrows := borrows[i := slot]))
    }

    /** `None` when no borrow value is cached. */
    function HealthFactor(): Result<Option<u128>> {
      var borrowed :- Slice(BorrowValues(borrows), borrowsCount);
      var borrowValue := SaturatingSum(borrowed);
      if borrowValue == 0 then Ok(None)
      else
        var deposited :- Slice(DepositValues(deposits), depositsCount);
        Arithmetic.DivLe(SaturatingSum(deposited), borrowValue);
        Ok(Some(SaturatingSum(deposited) / borrowValue))
    }

    function IsHealthy(): Result<bool> {
      var factor :- HealthFactor();
      Ok(factor.None? || factor.value >= RATE_SCALE)
    }
  }

  function NewObligation(): ObligationData {
    var d, b := EMPTY_DEPOSIT, EMPTY_BORROW;
    ObligationData([d, d, d, d, d, d, d, d], [b, b, b, b, b, b, b, b], 0, 0, 0, 0)
  }
}
