/** A cached collateral value never outruns the collateral's present worth, whoever acts in the meantime. */
module CachedValues {
  import opened Arithmetic
  import opened Numeric
  import opened ReserveModel
  import opened ReserveProperties
  import opened ObligationModel
  import opened ObligationProperties
  import opened RefreshProperties
  import InstructionProperties
  import opened Health
  import opened Market
  import opened MarketInvariant
  import opened MarketSteps
  import opened ReserveFlows
  import opened SeizurePricing
  import I = InstructionModel

  // ---- The slot of a key ----------------------------------------------------------------------

  lemma DepositSlotMoves(o: ObligationData, key: Pubkey, amount: u64, k: Pubkey)
    requires Wf(o) && key != DEFAULT_PUBKEY && o.Deposit(key, amount).Ok?
    ensures var before, after := DepositAt(o.deposits, k), DepositAt(o.Deposit(key, amount).value.deposits, k);
      && (k != key ==> after == before)
      && (k == key ==> after.value == before.value && after.amount == before.amount + amount)
  {
    var keys := DepositKeys(o.deposits);
    SlotFor(keys, key, ObligationDepositsFull);
    var i := FindOrAdd(keys, key, ObligationDepositsFull).value;
    SlotAfterWrite(o.deposits, i, o.Deposit(key, amount).value.deposits[i], k);
  }

  lemma WithdrawSlotMoves(o: ObligationData, key: Pubkey, amount: u64, k: Pubkey)
    requires Wf(o) && key != DEFAULT_PUBKEY && o.Withdraw(key, amount).Ok?
    ensures var before, after := DepositAt(o.deposits, k), DepositAt(o.Withdraw(key, amount).value.deposits, k);
      && (k != key ==> after == before)
      && (k == key ==> 0 < amount <= before.amount)
      && (k == key ==> after == if amount == before.amount then EMPTY_DEPOSIT
        else before.(amount := before.amount - amount))
  {
    var i := Position(DepositKeys(o.deposits), key).value;
    SlotAfterWrite(o.deposits, i, o.Withdraw(key, amount).value.deposits[i], k);
  }

  /** A withdrawal of collateral first cuts the cached value pro rata. */
  lemma WithdrawCollateralSlotMoves(o: ObligationData, key: Pubkey, amount: u64, slot: u64, k: Pubkey)
    requires Wf(o) && key != DEFAULT_PUBKEY && I.WithdrawCollateral(o, key, amount, slot).Ok?
    ensures var before, after := DepositAt(o.deposits, k),
      DepositAt(I.WithdrawCollateral(o, key, amount, slot).value.deposits, k);
      && (k != key ==> after == before)
      && (k == key ==>
            && 0 < amount <= before.amount
            && (after == EMPTY_DEPOSIT
                || (after.amount == before.amount - amount
                    && after.value == before.value * (before.amount - amount) / before.amount)))
  {
    hide ObligationData.HealthFactor, BorrowsWf;
    var i := Position(DepositKeys(o.deposits), key).value;
    var before := o.deposits[i].amount;
    var newValue := MulDiv(o.deposits[i].value, before - amount, if before > 1 then before else 1).value;
    var d := o.deposits[i].(value := newValue);
    InstructionProperties.RevalueKeeps(o, i, newValue);
    SlotAfterWrite(o.deposits, i, d, k);
    WithdrawSlotMoves(o.(deposits := o.deposits[i := d]), key, amount, k);
  }

  /** The valuation loop reaches the slot of `key`, if there is one; in a compact table it always does. */
  predicate Scanned(o: ObligationData, key: Pubkey) {
    var p := Position(DepositKeys(o.deposits), key);
    p.Some? ==> p.value < o.depositsCount
  }

  lemma CompactIsScanned(o: ObligationData, key: Pubkey)
    requires Compact(DepositKeys(o.deposits), o.depositsCount) && key != DEFAULT_PUBKEY
    ensures Scanned(o, key)
  {
  }

  lemma RefreshSlotMoves(o: ObligationData, reserves: I.Reserves, slot: u64, k: Pubkey)
    requires Wf(o) && I.RefreshObligation(o, reserves, slot).Ok?
    ensures var before, after := DepositAt(o.deposits, k),
      DepositAt(I.RefreshObligation(o, reserves, slot).value.deposits, k);
      after == before
      || (k in reserves && reserves[k].price > 0 && I.DepositValue(before.amount, reserves[k]).Ok?
          && before.amount > 0 && after == before.(value := I.DepositValue(before.amount, reserves[k]).value))
    ensures Scanned(o, k) && Locked(o.deposits, k) > 0 ==>
      var before, after := DepositAt(o.deposits, k),
        DepositAt(I.RefreshObligation(o, reserves, slot).value.deposits, k);
      && k in reserves
      && (reserves[k].price > 0 ==>
        I.DepositValue(before.amount, reserves[k]) == Ok(after.value) && after.amount == before.amount)
  {
    var p := I.RefreshObligation(o, reserves, slot).value;
    DepositLoop(o.deposits, reserves, 0, o.depositsCount);
    assert DepositKeys(p.deposits) == DepositKeys(o.deposits);
  }

  // ---- The bound ------------------------------------------------------------------------------

  /** USD per token, scaled, times the percentage of it that counts. */
  function Weight(r: ReserveData): nat {
    r.price * r.config.liquidationThreshold
  }

  /** `value` is at most what `amount` cTokens of `r` are worth without any rounding. */
  predicate Within(value: nat, amount: nat, r: ReserveData) {
    value * 100 * r.ctokens <= amount * r.Supply() * Weight(r)
  }

  lemma WithinValuation(amount: u64, r: ReserveData)
    requires ReserveInv(r) && 0 < r.ctokens && I.DepositValue(amount, r).Ok?
    ensures Within(I.DepositValue(amount, r).value, amount, r)
  {
    var units := amount * r.Supply() / r.ctokens;
    var value := I.DepositValue(amount, r).value;
    Mono(0, r.Supply(), amount);
    Floor(amount * r.Supply(), r.ctokens);
    Floor(units * r.price * r.config.liquidationThreshold, 100);
    assert units * r.price * r.config.liquidationThreshold == units * Weight(r);
    calc {
      value * 100 * r.ctokens;
    <= { Mono(value * 100, units * Weight(r), r.ctokens); }
      units * Weight(r) * r.ctokens;
      (units * r.ctokens) * Weight(r);
    <= { Mono(units * r.ctokens, amount * r.Supply(), Weight(r)); }
      amount * r.Supply() * Weight(r);
    }
  }

  /** The bound read as a comparison of ratios, in two ways. */
  lemma WithinIsRatio(value: nat, amount: nat, r: ReserveData)
    ensures Within(value, amount, r) <==> RatioLe(value * 100, amount * Weight(r), r.Supply(), r.ctokens)
    ensures Within(value, amount, r) <==> RatioLe(value, amount, r.Supply() * Weight(r), 100 * r.ctokens)
  {
    Rearranged(amount, r.Supply(), Weight(r));
  }

  lemma Rearranged(a: int, b: int, c: int)
    ensures b * (a * c) == a * b * c == (b * c) * a
  {
  }

  /** Cutting `amount` to `rest` pro rata keeps the bound, also when `gone` more cTokens still back the value. */
  lemma WithinProRata(value: nat, amount: nat, gone: nat, rest: nat, r: ReserveData)
    requires ReserveInv(r) && Within(value, amount + gone, r) && rest <= amount && 0 < amount
    ensures Within(value * rest / amount, rest + gone, r)
  {
    hide Within;
    var left := value * rest / amount;
    Share(value, rest, amount);
    assert left * (amount + gone) <= value * (rest + gone) by {
      Mono(left, value, gone);
    }
    WithinIsRatio(value, amount + gone, r);
    RatioTransitive(left, rest + gone, value, amount + gone, r.Supply() * Weight(r), 100 * r.ctokens);
    WithinIsRatio(left, rest + gone, r);
  }

  lemma WithinMore(value: nat, amount: nat, added: nat, r: ReserveData)
    requires ReserveInv(r) && Within(value, amount, r)
    ensures Within(value, amount + added, r)
  {
    Mono(amount, amount + added, r.Supply());
    Mono(amount * r.Supply(), (amount + added) * r.Supply(), Weight(r));
  }

  /** The bound follows the pool as long as the exchange rate does not fall. */
  lemma WithinLater(value: nat, amount: nat, r: ReserveData, q: ReserveData)
    requires Within(value, amount, r) && RateKept(r, q) && Weight(q) == Weight(r) && 0 < r.ctokens
    ensures Within(value, amount, q)
  {
    hide Within;
    WithinIsRatio(value, amount, r);
    RatioTransitive(value * 100, amount * Weight(r), r.Supply(), r.ctokens, q.Supply(), q.ctokens);
    WithinIsRatio(value, amount, q);
  }

  lemma NextUnit(v: int, s: int, worth: int, w: nat, units: int)
    requires 0 < s && v * s <= worth * w && worth < (units + 1) * s
    ensures v <= (units + 1) * w
  {
    Mono(worth, (units + 1) * s, w);
    assert ((units + 1) * s) * w == ((units + 1) * w) * s;
    Cancel(v, (units + 1) * w, s);
  }

  /** What a fresh valuation of `amount` cTokens comes to, without machine widths. */
  function Fresh(amount: nat, r: ReserveData): nat
    requires ReserveInv(r) && 0 < r.ctokens
  {
    Mono(0, r.Supply(), amount);
    Floor(amount * r.Supply(), r.ctokens);
    Mono(0, Weight(r), amount * r.Supply() / r.ctokens);
    amount * r.Supply() / r.ctokens * Weight(r) / 100
  }

  lemma FreshIsValuation(amount: u64, r: ReserveData)
    requires ReserveInv(r) && 0 < r.ctokens && I.DepositValue(amount, r).Ok?
    ensures I.DepositValue(amount, r).value == Fresh(amount, r)
  {
    var units := amount * r.Supply() / r.ctokens;
    assert units * r.price * r.config.liquidationThreshold == units * Weight(r);
  }

  /** Within the bound, a cached value exceeds a fresh valuation by less than `Weight / 100 + 1`. */
  lemma WithinMeansClose(value: nat, amount: nat, r: ReserveData)
    requires ReserveInv(r) && 0 < r.ctokens && Within(value, amount, r)
    ensures 100 * value < 100 * Fresh(amount, r) + Weight(r) + 100
  {
    var units, w := amount * r.Supply() / r.ctokens, Weight(r);
    Share(amount, r.Supply(), r.ctokens);
    Floor(units * w, 100);
    NextUnit(value * 100, r.ctokens, amount * r.Supply(), w, units);
    assert (units + 1) * w == units * w + w;
  }

  // ---- One instruction ------------------------------------------------------------------------

  /** The slot of user `i` for `key`. */
  function SlotOf(s: State, i: nat, key: Pubkey): DepositSlot
    requires i < |s.users|
  {
    DepositAt(s.users[i].obligation.deposits, key)
  }

  /** The cached value of that slot is within the worth of its cTokens and of the `gone` ones seized from under it. */
  predicate Covered(s: State, i: nat, key: Pubkey, gone: nat)
    requires i < |s.users| && key in s.pools
  {
    Within(SlotOf(s, i, key).value, SlotOf(s, i, key).amount + gone, s.pools[key].reserve)
  }

  /** The instruction sets another price or threshold for `key` than it has. */
  predicate Reweighs(s: State, ix: Instruction, key: Pubkey)
    requires key in s.pools
  {
    var r := s.pools[key].reserve;
    || PriceAfter(ix, key, r.price) != r.price
    || ConfigAfter(ix, key, r.config).liquidationThreshold != r.config.liquidationThreshold
  }

  /** cTokens of `key` that the instruction seizes from user `i`. */
  function Taken(s: State, ix: Instruction, i: nat, key: Pubkey): nat {
    if Exec(s, ix).Ok? && ix.Liquidate? && ix.user == i && ix.seizedReserve == key
    then I.Liquidate(Reserves(s.pools), s.users[i].obligation, ix.reserve, key, ix.amount, s.slot).value.seizure.seized
    else 0
  }

  /** The instruction values user `i`'s slot for `key` afresh. */
  predicate Revalues(s: State, ix: Instruction, i: nat, key: Pubkey)
    requires i < |s.users| && key in s.pools
  {
    && Exec(s, ix).Ok? && ix.RefreshObligation? && ix.user == i
    && 0 < s.pools[key].reserve.price && Scanned(s.users[i].obligation, key)
  }

  /** What an instruction that takes `taken` cTokens may do to a slot whose reserve is `r`. */
  predicate SlotMoves(before: DepositSlot, after: DepositSlot, r: ReserveData, taken: nat) {
    || after.value == 0
    || (after.value == before.value && before.amount <= after.amount + taken)
    || (after.amount <= before.amount && 0 < before.amount
      && after.value == before.value * after.amount / before.amount)
    || (0 < before.amount == after.amount && I.DepositValue(before.amount, r) == Ok(after.value))
  }

  /** The instruction changes user `i`'s slot for `key` in a way `SlotMoves` allows, and values it if it says so. */
  predicate StepMoves(s: State, ix: Instruction, i: nat, key: Pubkey)
    requires i < |s.users| && key in s.pools && Exec(s, ix).Ok?
  {
    && i < |Exec(s, ix).value.users|
    && var before, after, r := SlotOf(s, i, key), SlotOf(Exec(s, ix).value, i, key), s.pools[key].reserve;
    && SlotMoves(before, after, r, Taken(s, ix, i, key))
    && (Revalues(s, ix, i, key) && 0 < before.amount ==>
          after.amount == before.amount && I.DepositValue(before.amount, r) == Ok(after.value))
  }

  lemma CollateralSlot(s: State, ix: Instruction, i: nat, key: Pubkey)
    requires Inv(s) && i < |s.users| && key in s.pools && Exec(s, ix).Ok?
    requires ix.DepositCollateral? || ix.WithdrawCollateral?
    ensures StepMoves(s, ix, i, key)
  {
    hide Inv, Wf, DepositAt, Locked, I.DepositValue, I.WithdrawCollateral;
    UserOk(s, i);
    PoolOk(s, ix.reserve);
    if ix.user == i {
      if ix.DepositCollateral? {
        DepositSlotMoves(s.users[i].obligation, ix.reserve, ix.amount, key);
      } else {
        WithdrawCollateralSlotMoves(s.users[i].obligation, ix.reserve, ix.amount, s.slot, key);
      }
    }
  }

  lemma LoanSlot(s: State, ix: Instruction, i: nat, key: Pubkey)
    requires Inv(s) && i < |s.users| && key in s.pools && Exec(s, ix).Ok?
    requires ix.Borrow? || ix.Repay?
    ensures StepMoves(s, ix, i, key)
  {
    hide Inv, Wf, DepositAt, Locked, LoanOf, I.Borrow, I.Repay;
    UserOk(s, i);
    PoolOk(s, ix.reserve);
    if ix.user == i {
      if ix.Borrow? {
        InstructionProperties.BorrowEffect(s.pools[ix.reserve].reserve, s.users[i].obligation,
          ix.reserve, ix.amount, s.slot);
      } else {
        InstructionProperties.RepayEffect(s.pools[ix.reserve].reserve, s.users[i].obligation,
          ix.reserve, ix.amount, s.slot);
      }
    }
  }

  lemma RefreshedSlotStep(s: State, user: nat, accounts: set<Pubkey>, now: i64, i: nat, key: Pubkey)
    requires Inv(s) && i < |s.users| && key in s.pools && Exec(s, RefreshObligation(user, accounts, now)).Ok?
    ensures StepMoves(s, RefreshObligation(user, accounts, now), i, key)
  {
    hide Inv, Wf, DepositAt, Scanned, I.RefreshObligation, I.DepositValue;
    UserOk(s, i);
    if user == i {
      RefreshSlotMoves(s.users[i].obligation, Passed(s.pools, accounts), s.slot, key);
    }
  }

  lemma OtherSlot(s: State, ix: Instruction, i: nat, key: Pubkey)
    requires i < |s.users| && key in s.pools && Exec(s, ix).Ok?
    requires !ix.DepositCollateral? && !ix.WithdrawCollateral? && !ix.Borrow? && !ix.Repay?
    requires !ix.RefreshObligation? && !ix.Liquidate?
    ensures StepMoves(s, ix, i, key)
  {
    hide I.Deposit, I.Withdraw, I.RefreshReserve, DepositAt;
    assert SlotOf(Exec(s, ix).value, i, key) == SlotOf(s, i, key);
  }

  lemma SlotStep(s: State, ix: Instruction, i: nat, key: Pubkey)
    requires Inv(s) && i < |s.users| && key in s.pools && Exec(s, ix).Ok?
    ensures StepMoves(s, ix, i, key)
  {
    hide Inv, Exec, SlotOf;
    match ix
    case DepositCollateral(_, _, _) => CollateralSlot(s, ix, i, key);
    case WithdrawCollateral(_, _, _) => CollateralSlot(s, ix, i, key);
    case RefreshObligation(u, accounts, now) => RefreshedSlotStep(s, u, accounts, now, i, key);
    case Borrow(_, _, _, _) => LoanSlot(s, ix, i, key);
    case Repay(_, _, _) => LoanSlot(s, ix, i, key);
    case Liquidate(l, u, k, w, a, to) => SeizureStep(s, l, u, k, w, a, to, i, key);
    case _ => OtherSlot(s, ix, i, key);
  }

  lemma SeizureStep(s: State, l: nat, u: nat, k: Pubkey, w: Pubkey, amount: u64, to: Destination, i: nat, key: Pubkey)
    requires Inv(s) && i < |s.users| && key in s.pools && Exec(s, Liquidate(l, u, k, w, amount, to)).Ok?
    ensures StepMoves(s, Liquidate(l, u, k, w, amount, to), i, key)
  {
    hide Inv, Wf, DepositAt, Locked, I.Liquidate, LiquidateStep, I.Seize, I.DepositValue;
    PoolOk(s, k);
    PoolOk(s, w);
    LiquidateOutcome(s, l, u, k, w, amount, to);
    if u == i {
      UserOk(s, i);
      InstructionProperties.LiquidateEffect(Reserves(s.pools), s.users[i].obligation, k, w, amount, s.slot);
      var x := I.Liquidate(Reserves(s.pools), s.users[i].obligation, k, w, amount, s.slot).value;
      SeizedSlot(x.repay, x.withdraw, s.users[i].obligation, k, w, amount, s.slot, key);
    }
  }

  /** A seizure takes cTokens out of the slot and leaves its cached value alone, unless it empties the slot. */
  lemma SeizedSlot(repay: ReserveData, withdraw: ReserveData, o: ObligationData,
                   key: Pubkey, seizedKey: Pubkey, amount: u64, slot: u64, k: Pubkey)
    requires Wf(o) && key != DEFAULT_PUBKEY && seizedKey != DEFAULT_PUBKEY
    requires I.Seize(repay, withdraw, o, key, seizedKey, amount, slot).Ok?
    ensures var s := I.Seize(repay, withdraw, o, key, seizedKey, amount, slot).value;
      var before, after := DepositAt(o.deposits, k), DepositAt(s.obligation.deposits, k);
      && (k != seizedKey ==> after == before)
      && (k == seizedKey ==>
            after == EMPTY_DEPOSIT || (after.value == before.value && after.amount == before.amount - s.seized))
  {
    hide DepositAt, I.SeizeAmounts, ObligationData.IsHealthy, LoanOf;
    var s := I.Seize(repay, withdraw, o, key, seizedKey, amount, slot).value;
    var i := Position(BorrowKeys(o.borrows), key).value;
    InstructionProperties.ReliefEffect(o, i, s.repaid, repay.index);
    var relieved := o.AccrueInterest(i, repay.index).value.Repay(key, s.repaid).value;
    WithdrawSlotMoves(relieved, seizedKey, s.seized, k);
  }

  lemma WeightStep(s: State, ix: Instruction, key: Pubkey)
    requires Inv(s) && key in s.pools && Exec(s, ix).Ok? && !Reweighs(s, ix, key)
    ensures key in Exec(s, ix).value.pools
      && Weight(Exec(s, ix).value.pools[key].reserve) == Weight(s.pools[key].reserve)
  {
    hide Inv, Exec, WithInterest, FlowOf, Flowed;
    ReserveStep(s, ix, key);
  }

  lemma ZeroWithin(amount: nat, r: ReserveData)
    requires ReserveInv(r)
    ensures Within(0, amount, r)
  {
    Mono(0, r.Supply(), amount);
    Mono(0, amount * r.Supply(), Weight(r));
  }

  lemma NoValue(before: DepositSlot, after: DepositSlot, r: ReserveData, taken: nat)
    requires SlotMoves(before, after, r, taken) && before.amount == before.value == 0
    ensures after.value == 0
  {
  }

  lemma SlotMovesKeepWithin(before: DepositSlot, after: DepositSlot, r: ReserveData, gone: nat, taken: nat)
    requires ReserveInv(r) && SlotMoves(before, after, r, taken) && Within(before.value, before.amount + gone, r)
    requires 0 < before.amount ==> 0 < r.ctokens
    ensures Within(after.value, after.amount + gone + taken, r)
  {
    hide Within;
    if after.value == before.value && before.amount <= after.amount + taken {
      WithinMore(before.value, before.amount + gone, after.amount + taken - before.amount, r);
    } else if after.value == 0 {
      ZeroWithin(after.amount + gone + taken, r);
    } else if 0 < before.amount == after.amount && I.DepositValue(before.amount, r) == Ok(after.value) {
      WithinValuation(before.amount, r);
      WithinMore(after.value, after.amount, gone + taken, r);
    } else {
      WithinProRata(before.value, before.amount, gone, after.amount, r);
      WithinMore(after.value, after.amount + gone, taken, r);
    }
  }

  lemma NothingWithoutCTokens(s: State, i: nat, key: Pubkey)
    requires Inv(s) && i < |s.users| && key in s.pools
    ensures SlotOf(s, i, key).amount <= s.pools[key].reserve.ctokens
    ensures SlotOf(s, i, key).amount == 0 ==> SlotOf(s, i, key).value == 0
  {
    LockedAreIssued(s, i, key);
    UserOk(s, i);
  }

  /** cTokens of `key` seized from user `i` in the run since the slot was last valued. */
  function SeizedSince(s: State, ixs: seq<Instruction>, i: nat, key: Pubkey): nat {
    if |ixs| == 0 then 0
    else
      var earlier, ix := ixs[..|ixs| - 1], ixs[|ixs| - 1];
      AddTaken(SeizedSince(s, earlier, i, key), Run(s, earlier), ix, i, key)
  }

  function AddTaken(gone: nat, s: State, ix: Instruction, i: nat, key: Pubkey): nat {
    if i < |s.users| && key in s.pools && Revalues(s, ix, i, key) then 0 else gone + Taken(s, ix, i, key)
  }

  /** Nobody's instruction takes the cached value of a slot out of bounds, short of another price or threshold. */
  lemma StepKeepsCovered(s: State, ix: Instruction, i: nat, key: Pubkey, gone: nat)
    requires Inv(s) && i < |s.users| && key in s.pools && Exec(s, ix).Ok?
    requires !Reweighs(s, ix, key) && Covered(s, i, key, gone)
    ensures i < |Exec(s, ix).value.users| && key in Exec(s, ix).value.pools
    ensures Covered(Exec(s, ix).value, i, key, AddTaken(gone, s, ix, i, key))
  {
    hide Inv, Exec, SlotOf, SlotMoves, Within, Weight, RateKept, Revalues, Taken, I.DepositValue;
    var t, taken := Exec(s, ix).value, Taken(s, ix, i, key);
    PoolOk(s, key);
    NothingWithoutCTokens(s, i, key);
    SlotStep(s, ix, i, key);
    WeightStep(s, ix, key);
    var before, after := SlotOf(s, i, key), SlotOf(t, i, key);
    var now := AddTaken(gone, s, ix, i, key);
    SlotMovesKeepWithin(before, after, s.pools[key].reserve, gone, taken);
    if before.amount == 0 {
      ExecKeepsInv(s, ix);
      PoolOk(t, key);
      NoValue(before, after, s.pools[key].reserve, taken);
      ZeroWithin(after.amount + now, t.pools[key].reserve);
    } else {
      if Revalues(s, ix, i, key) {
        WithinValuation(before.amount, s.pools[key].reserve);
      }
      StepKeepsRate(s, ix, key);
      WithinLater(after.value, after.amount + now, s.pools[key].reserve, t.pools[key].reserve);
    }
  }

  /** A refresh that reaches and prices the slot brings it within bounds, whatever was cached before. */
  lemma RefreshCovers(s: State, i: nat, accounts: set<Pubkey>, now: i64, key: Pubkey)
    requires Inv(s) && i < |s.users| && key in s.pools && Exec(s, RefreshObligation(i, accounts, now)).Ok?
    requires Scanned(s.users[i].obligation, key) && 0 < s.pools[key].reserve.price
    ensures var t := Exec(s, RefreshObligation(i, accounts, now)).value;
      i < |t.users| && key in t.pools && Covered(t, i, key, 0)
  {
    hide Inv, Wf, Within, Weight, I.RefreshObligation, I.DepositValue, DepositAt, Scanned;
    PoolOk(s, key);
    UserOk(s, i);
    NothingWithoutCTokens(s, i, key);
    RefreshSlotMoves(s.users[i].obligation, Passed(s.pools, accounts), s.slot, key);
    if 0 < SlotOf(s, i, key).amount {
      WithinValuation(SlotOf(s, i, key).amount, s.pools[key].reserve);
    } else {
      ZeroWithin(SlotOf(s, i, key).amount, s.pools[key].reserve);
    }
  }

  /** No step of the run sets another price or threshold for `key`. */
  predicate Steady(s: State, ixs: seq<Instruction>, key: Pubkey) {
    if |ixs| == 0 then true
    else
      var earlier, ix := ixs[..|ixs| - 1], ixs[|ixs| - 1];
      Steady(s, earlier, key)
      && (key in Run(s, earlier).pools && Exec(Run(s, earlier), ix).Ok? ==> !Reweighs(Run(s, earlier), ix, key))
  }

  /** Whatever anyone does short of another price or threshold, the cached value stays within the worth of the slot's
   *  cTokens and of those seized since it was last valued.
   */
  lemma {:induction false} CachedValueStaysCovered(s: State, ixs: seq<Instruction>, i: nat, key: Pubkey)
    requires Inv(s) && i < |s.users| && key in s.pools && Covered(s, i, key, 0) && Steady(s, ixs, key)
    ensures i < |Run(s, ixs).users| && key in Run(s, ixs).pools
    ensures Covered(Run(s, ixs), i, key, SeizedSince(s, ixs, i, key))
  {
    hide Inv, Exec, Covered, Reweighs, Revalues, Taken;
    if |ixs| == 0 {
    } else {
      var earlier, ix := ixs[..|ixs| - 1], ixs[|ixs| - 1];
      CachedValueStaysCovered(s, earlier, i, key);
      RunKeepsInv(s, earlier);
      if Exec(Run(s, earlier), ix).Ok? {
        StepKeepsCovered(Run(s, earlier), ix, i, key, SeizedSince(s, earlier, i, key));
      } else {
        RefusedTakesNothing(SeizedSince(s, earlier, i, key), Run(s, earlier), ix, i, key);
      }
    }
  }

  lemma RefusedTakesNothing(gone: nat, s: State, ix: Instruction, i: nat, key: Pubkey)
    requires Exec(s, ix).Err?
    ensures AddTaken(gone, s, ix, i, key) == gone
  {
    hide Exec;
  }

  /** So the cache exceeds a fresh valuation of those cTokens by less than one token's weighted price and one unit. */
  lemma CachedValueIsClose(s: State, ixs: seq<Instruction>, i: nat, key: Pubkey)
    requires Inv(s) && i < |s.users| && key in s.pools && Covered(s, i, key, 0) && Steady(s, ixs, key)
    ensures i < |Run(s, ixs).users| && key in Run(s, ixs).pools && ReserveInv(Run(s, ixs).pools[key].reserve)
    ensures var d, r := SlotOf(Run(s, ixs), i, key), Run(s, ixs).pools[key].reserve;
      0 < d.value ==>
        && 0 < r.ctokens
        && var amount := d.amount + SeizedSince(s, ixs, i, key);
        && 100 * d.value < 100 * Fresh(amount, r) + Weight(r) + 100
        && (amount <= U64_MAX && I.DepositValue(amount, r).Ok? ==>
              100 * d.value < 100 * I.DepositValue(amount, r).value + Weight(r) + 100)
  {
    hide Inv, Exec, Within, Weight, Fresh, SlotOf, ReserveInv, I.DepositValue;
    CachedValueStaysCovered(s, ixs, i, key);
    RunKeepsInv(s, ixs);
    var t := Run(s, ixs);
    PoolOk(t, key);
    NothingWithoutCTokens(t, i, key);
    var d, r := SlotOf(t, i, key), t.pools[key].reserve;
    if 0 < d.value {
      var amount := d.amount + SeizedSince(s, ixs, i, key);
      WithinMeansClose(d.value, amount, r);
      if amount <= U64_MAX && I.DepositValue(amount, r).Ok? {
        FreshIsValuation(amount, r);
      }
    }
  }
}
