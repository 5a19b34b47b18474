/** Concrete markets of two reserves and two users, and a way to play instructions on them. */
module Scenes {
  import opened Numeric
  import opened ReserveModel
  import opened ObligationModel
  import opened PriceOracle
  import opened Market
  import Arithmetic
  import I = InstructionModel

  const ONE: Pubkey := 1
  const TWO: Pubkey := 2
  const BOTH: set<Pubkey> := {ONE, TWO}

  /** The account both reserves read their prices from. */
  const FEED: Pubkey := 3

  /** An update with which a whole number of 10^12ths of a dollar is stored as it is. */
  function Quoted(price: u64): PriceUpdate
    requires price <= I64_MAX
  {
    PriceUpdate(FEED, true, price, 0, -12, 0)
  }

  lemma QuotedIsStored(price: u64)
    requires 0 < price <= I64_MAX
    ensures ReadPrice(Quoted(price), 0) == Ok(price)
  {
    assert Pow10(12) == RATE_SCALE;
    Arithmetic.WholeShare(RATE_SCALE, price);
  }

  /** A reserve and the cTokens of it that are locked; its vault and mint hold what it records. */
  datatype Side = Side(reserve: ReserveData, locked: u64)

  /** A user with balances of both assets and of both kinds of cTokens. */
  datatype Actor = Actor(obligation: ObligationData, a: nat, b: nat, ca: nat, cb: nat) {
    function Tokens(key: Pubkey): nat {
      if key == ONE then a else b
    }

    function CTokens(key: Pubkey): nat {
      if key == ONE then ca else cb
    }

    function WithTokens(key: Pubkey, n: nat): Actor {
      if key == ONE then this.(a := n) else this.(b := n)
    }

    function WithCTokens(key: Pubkey, n: nat): Actor {
      if key == ONE then this.(ca := n) else this.(cb := n)
    }
  }

  datatype Scene = Scene(slot: u64, one: Side, two: Side, alice: Actor, bob: Actor) {
    function At(key: Pubkey): Side {
      if key == ONE then one else two
    }

    function With(key: Pubkey, side: Side): Scene {
      if key == ONE then this.(one := side) else this.(two := side)
    }

    function Who(user: nat): Actor {
      if user == 0 then alice else bob
    }

    function WithWho(user: nat, actor: Actor): Scene {
      if user == 0 then this.(alice := actor) else this.(bob := actor)
    }

    function Known(): I.Reserves {
      map[ONE := one.reserve, TWO := two.reserve]
    }
  }

  predicate Cast(user: nat, key: Pubkey) {
    user < 2 && (key == ONE || key == TWO)
  }

  // ---- Scenes show states ---------------------------------------------------------------------

  function PoolOf(side: Side): Pool {
    Pool(side.reserve, side.reserve.available, side.locked, side.reserve.ctokens, 0, 0)
  }

  predicate Plays(u: User, actor: Actor) {
    && u.obligation == actor.obligation
    && Balance(u.tokens, ONE) == actor.a && Balance(u.tokens, TWO) == actor.b
    && Balance(u.ctokens, ONE) == actor.ca && Balance(u.ctokens, TWO) == actor.cb
  }

  predicate Shows(s: State, x: Scene) {
    && !s.paused && s.slot == x.slot
    && s.pools.Keys == {ONE, TWO} && s.pools[ONE] == PoolOf(x.one) && s.pools[TWO] == PoolOf(x.two)
    && |s.users| == 2 && Plays(s.users[0], x.alice) && Plays(s.users[1], x.bob)
  }

  /** In every state the scene shows the instruction succeeds, and `y` shows the state it leads to. */
  ghost predicate Leads(x: Scene, ix: Instruction, y: Scene) {
    forall s | Shows(s, x) :: Exec(s, ix).Ok? && Shows(Exec(s, ix).value, y)
  }

  /** In every state the scene shows the instruction is refused. */
  ghost predicate Refuses(x: Scene, ix: Instruction) {
    forall s | Shows(s, x) :: Exec(s, ix).Err?
  }

  /** Some run from the empty market leads here. */
  ghost predicate Reachable(x: Scene) {
    exists ixs :: Shows(Run(GENESIS, ixs), x)
  }

  lemma AccrueMoves(r: ReserveData, slot: u64)
    requires r.Accrue(slot).Ok?
    ensures r.Accrue(slot).value.available == r.available && r.Accrue(slot).value.ctokens == r.ctokens
  {
  }

  /** What each handler does to the amounts that vaults and mints mirror. */
  lemma DepositMoves(r: ReserveData, n: u64, slot: u64)
    requires I.Deposit(r, n, slot).Ok?
    ensures var (q, minted) := I.Deposit(r, n, slot).value;
      q.available == r.available + n && q.ctokens == r.ctokens + minted
  {
    hide ReserveData.Accrue;
    AccrueMoves(r, slot);
  }

  lemma WithdrawMoves(r: ReserveData, n: u64, slot: u64)
    requires I.Withdraw(r, n, slot).Ok?
    ensures var (q, paid) := I.Withdraw(r, n, slot).value;
      q.available == r.available - paid && q.ctokens == r.ctokens - n
  {
    hide ReserveData.Accrue;
    AccrueMoves(r, slot);
  }

  lemma BorrowMoves(r: ReserveData, o: ObligationData, k: Pubkey, n: u64, slot: u64)
    requires I.Borrow(r, o, k, n, slot).Ok?
    ensures var (q, _) := I.Borrow(r, o, k, n, slot).value; q.available == r.available - n && q.ctokens == r.ctokens
  {
    hide ReserveData.Accrue;
    AccrueMoves(r, slot);
  }

  lemma RepayMoves(r: ReserveData, o: ObligationData, k: Pubkey, n: u64, slot: u64)
    requires I.Repay(r, o, k, n, slot).Ok?
    ensures var (q, _) := I.Repay(r, o, k, n, slot).value; q.available == r.available + n && q.ctokens == r.ctokens
  {
    hide ReserveData.Accrue;
    AccrueMoves(r, slot);
  }

  lemma KnownReserves(s: State, x: Scene)
    requires Shows(s, x)
    ensures Passed(s.pools, {ONE, TWO}) == Reserves(s.pools) == x.Known()
    ensures s.pools[ONE].reserve == x.one.reserve && s.pools[TWO].reserve == x.two.reserve
  {
  }

  /** What a scene says about the one pool and the one user an instruction works on. */
  lemma Looks(s: State, x: Scene, u: nat, k: Pubkey)
    requires Shows(s, x) && Cast(u, k)
    ensures Exists(s, u, k) && !s.paused && s.slot == x.slot
    ensures s.pools[k] == PoolOf(x.At(k)) && Plays(s.users[u], x.Who(u))
    ensures s.users[u].obligation == x.Who(u).obligation
    ensures Balance(s.users[u].tokens, k) == x.Who(u).Tokens(k) && Balance(s.users[u].ctokens, k) == x.Who(u).CTokens(k)
  {
  }

  lemma Patched(s: State, x: Scene, u: nat, k: Pubkey, side: Side, v: User, actor: Actor)
    requires Shows(s, x) && Cast(u, k) && Plays(v, actor) && u < |s.users|
    ensures Shows(WithUser(WithPool(s, k, PoolOf(side)), u, v), x.With(k, side).WithWho(u, actor))
  {
    hide Plays, PoolOf;
  }

  lemma PlaysOn(u: User, actor: Actor, k: Pubkey, tokens: nat, ctokens: nat, o: ObligationData)
    requires Plays(u, actor) && Cast(0, k)
    ensures Plays(u.(tokens := u.tokens[k := tokens], ctokens := u.ctokens[k := ctokens]),
                  actor.WithTokens(k, tokens).WithCTokens(k, ctokens))
    ensures Plays(u.(obligation := o, tokens := u.tokens[k := tokens]), actor.(obligation := o).WithTokens(k, tokens))
    ensures Plays(u.(obligation := o, ctokens := u.ctokens[k := ctokens]),
      actor.(obligation := o).WithCTokens(k, ctokens))
  {
  }

  /** A reachable scene stays reachable by any instruction that leads on from it. */
  lemma Then(x: Scene, ix: Instruction, y: Scene)
    requires Reachable(x) && Leads(x, ix, y)
    ensures Reachable(y)
  {
    hide Exec, Shows;
    var ixs :| Shows(Run(GENESIS, ixs), x);
    RunSnoc(ixs, ix);
    assert Shows(Run(GENESIS, ixs + [ix]), y);
  }

  lemma RunSnoc(ixs: seq<Instruction>, ix: Instruction)
    ensures Run(GENESIS, ixs + [ix]) == Step(Run(GENESIS, ixs), ix)
  {
    hide Exec;
    assert (ixs + [ix])[..|ixs|] == ixs;
  }

  lemma Reached(ixs: seq<Instruction>, x: Scene)
    requires Shows(Run(GENESIS, ixs), x)
    ensures Reachable(x)
  {
    hide Run, Shows;
  }

  lemma RunTo(x: Scene) returns (ixs: seq<Instruction>)
    requires Reachable(x)
    ensures Shows(Run(GENESIS, ixs), x)
  {
    ixs :| Shows(Run(GENESIS, ixs), x);
  }

  // ---- Where each instruction leads -----------------------------------------------------------

  lemma ThenDeposit(x: Scene, u: nat, k: Pubkey, n: u64, y: Scene)
    requires Reachable(x) && Cast(u, k) && I.Deposit(x.At(k).reserve, n, x.slot).Ok?
    requires var (q, minted) := I.Deposit(x.At(k).reserve, n, x.slot).value;
      var had, held := x.Who(u).Tokens(k), x.Who(u).CTokens(k);
      && n <= had && held + minted <= U64_MAX
      && y == x.With(k, x.At(k).(reserve := q))
        .WithWho(u, x.Who(u).WithTokens(k, had - n).WithCTokens(k, held + minted))
    ensures Leads(x, Deposit(u, k, n), y) && Reachable(y)
  {
    hide I.Deposit, Shows, Plays, Actor.Tokens, Actor.CTokens, Actor.WithTokens, Actor.WithCTokens, Scene.With,
      Scene.WithWho, Scene.At, Scene.Who, Reachable;
    var (q, minted) := I.Deposit(x.At(k).reserve, n, x.slot).value;
    var had, held := x.Who(u).Tokens(k), x.Who(u).CTokens(k);
    DepositMoves(x.At(k).reserve, n, x.slot);
    forall s | Shows(s, x) ensures Exec(s, Deposit(u, k, n)).Ok? && Shows(Exec(s, Deposit(u, k, n)).value, y) {
      Looks(s, x, u, k);
      PlaysOn(s.users[u], x.Who(u), k, had - n, held + minted, x.Who(u).obligation);
      Patched(s, x, u, k, x.At(k).(reserve := q), Exec(s, Deposit(u, k, n)).value.users[u],
              x.Who(u).WithTokens(k, had - n).WithCTokens(k, held + minted));
    }
    Then(x, Deposit(u, k, n), y);
  }

  lemma ThenWithdraw(x: Scene, u: nat, k: Pubkey, n: u64, y: Scene)
    requires Reachable(x) && Cast(u, k) && I.Withdraw(x.At(k).reserve, n, x.slot).Ok?
    requires var (q, paid) := I.Withdraw(x.At(k).reserve, n, x.slot).value;
      var had, held := x.Who(u).Tokens(k), x.Who(u).CTokens(k);
      && n <= held && had + paid <= U64_MAX
      && y == x.With(k, x.At(k).(reserve := q)).WithWho(u, x.Who(u).WithTokens(k, had + paid).WithCTokens(k, held - n))
    ensures Leads(x, Withdraw(u, k, n), y) && Reachable(y)
  {
    hide I.Withdraw, Shows, Plays, Actor.Tokens, Actor.CTokens, Actor.WithTokens, Actor.WithCTokens, Scene.With,
      Scene.WithWho, Scene.At, Scene.Who, Reachable;
    var (q, paid) := I.Withdraw(x.At(k).reserve, n, x.slot).value;
    var had, held := x.Who(u).Tokens(k), x.Who(u).CTokens(k);
    WithdrawMoves(x.At(k).reserve, n, x.slot);
    forall s | Shows(s, x) ensures Exec(s, Withdraw(u, k, n)).Ok? && Shows(Exec(s, Withdraw(u, k, n)).value, y) {
      Looks(s, x, u, k);
      PlaysOn(s.users[u], x.Who(u), k, had + paid, held - n, x.Who(u).obligation);
      Patched(s, x, u, k, x.At(k).(reserve := q), Exec(s, Withdraw(u, k, n)).value.users[u],
              x.Who(u).WithTokens(k, had + paid).WithCTokens(k, held - n));
    }
    Then(x, Withdraw(u, k, n), y);
  }

  /** The borrower receives the tokens. */
  lemma ThenBorrow(x: Scene, u: nat, k: Pubkey, n: u64, y: Scene)
    requires Reachable(x) && Cast(u, k) && I.Borrow(x.At(k).reserve, x.Who(u).obligation, k, n, x.slot).Ok?
    requires var (q, o) := I.Borrow(x.At(k).reserve, x.Who(u).obligation, k, n, x.slot).value;
      var had := x.Who(u).Tokens(k);
      && had + n <= U64_MAX
      && y == x.With(k, x.At(k).(reserve := q)).WithWho(u, x.Who(u).(obligation := o).WithTokens(k, had + n))
    ensures Leads(x, Borrow(u, k, n, ToUser(u)), y) && Reachable(y)
  {
    hide I.Borrow, Shows, Plays, Actor.Tokens, Actor.CTokens, Actor.WithTokens, Actor.WithCTokens, Scene.With,
      Scene.WithWho, Scene.At, Scene.Who, Reachable;
    var ix := Borrow(u, k, n, ToUser(u));
    var (q, o) := I.Borrow(x.At(k).reserve, x.Who(u).obligation, k, n, x.slot).value;
    var had := x.Who(u).Tokens(k);
    BorrowMoves(x.At(k).reserve, x.Who(u).obligation, k, n, x.slot);
    forall s | Shows(s, x) ensures Exec(s, ix).Ok? && Shows(Exec(s, ix).value, y) {
      Looks(s, x, u, k);
      var t := Exec(s, ix).value;
      PlaysOn(s.users[u], x.Who(u), k, had + n, 0, o);
      Patched(s, x, u, k, x.At(k).(reserve := q), t.users[u], x.Who(u).(obligation := o).WithTokens(k, had + n));
      assert t == WithUser(WithPool(s, k, t.pools[k]), u, t.users[u]);
    }
    Then(x, ix, y);
  }

  /** A loan the handler refuses is refused. */
  lemma RefusesBorrow(x: Scene, u: nat, k: Pubkey, n: u64)
    requires Cast(u, k) && I.Borrow(x.At(k).reserve, x.Who(u).obligation, k, n, x.slot).Err?
    ensures Refuses(x, Borrow(u, k, n, ToUser(u)))
  {
    hide I.Borrow, Shows, Plays, Scene.At, Scene.Who;
    forall s | Shows(s, x) ensures Exec(s, Borrow(u, k, n, ToUser(u))).Err? {
      Looks(s, x, u, k);
    }
  }

  lemma ThenRepay(x: Scene, u: nat, k: Pubkey, n: u64, y: Scene)
    requires Reachable(x) && Cast(u, k) && I.Repay(x.At(k).reserve, x.Who(u).obligation, k, n, x.slot).Ok?
    requires var (q, o) := I.Repay(x.At(k).reserve, x.Who(u).obligation, k, n, x.slot).value;
      var had := x.Who(u).Tokens(k);
      && n <= had
      && y == x.With(k, x.At(k).(reserve := q)).WithWho(u, x.Who(u).(obligation := o).WithTokens(k, had - n))
    ensures Leads(x, Repay(u, k, n), y) && Reachable(y)
  {
    hide I.Repay, Shows, Plays, Actor.Tokens, Actor.CTokens, Actor.WithTokens, Actor.WithCTokens, Scene.With,
      Scene.WithWho, Scene.At, Scene.Who, Reachable;
    var (q, o) := I.Repay(x.At(k).reserve, x.Who(u).obligation, k, n, x.slot).value;
    var had := x.Who(u).Tokens(k);
    RepayMoves(x.At(k).reserve, x.Who(u).obligation, k, n, x.slot);
    forall s | Shows(s, x) ensures Exec(s, Repay(u, k, n)).Ok? && Shows(Exec(s, Repay(u, k, n)).value, y) {
      Looks(s, x, u, k);
      PlaysOn(s.users[u], x.Who(u), k, had - n, 0, o);
      Patched(s, x, u, k, x.At(k).(reserve := q), Exec(s, Repay(u, k, n)).value.users[u],
              x.Who(u).(obligation := o).WithTokens(k, had - n));
    }
    Then(x, Repay(u, k, n), y);
  }

  /** A repayment the handler refuses is refused. */
  lemma RefusesRepay(x: Scene, u: nat, k: Pubkey, n: u64)
    requires Cast(u, k) && I.Repay(x.At(k).reserve, x.Who(u).obligation, k, n, x.slot).Err?
    ensures Refuses(x, Repay(u, k, n))
  {
    hide I.Repay, Shows, Plays, Scene.At, Scene.Who;
    forall s | Shows(s, x) ensures Exec(s, Repay(u, k, n)).Err? {
      Looks(s, x, u, k);
    }
  }

  lemma ThenLock(x: Scene, u: nat, k: Pubkey, n: u64, y: Scene)
    requires Reachable(x) && Cast(u, k) && I.DepositCollateral(x.At(k).reserve, x.Who(u).obligation, k, n).Ok?
    requires var o := I.DepositCollateral(x.At(k).reserve, x.Who(u).obligation, k, n).value;
      var side, held := x.At(k), x.Who(u).CTokens(k);
      && n <= held && side.locked + n <= U64_MAX
      && y == x.With(k, side.(locked := side.locked + n))
        .WithWho(u, x.Who(u).(obligation := o).WithCTokens(k, held - n))
    ensures Leads(x, DepositCollateral(u, k, n), y) && Reachable(y)
  {
    hide I.DepositCollateral, Shows, Plays, Actor.Tokens, Actor.CTokens, Actor.WithTokens, Actor.WithCTokens,
      Scene.With, Scene.WithWho, Scene.At, Scene.Who, Reachable;
    var ix := DepositCollateral(u, k, n);
    var o := I.DepositCollateral(x.At(k).reserve, x.Who(u).obligation, k, n).value;
    var side, held := x.At(k), x.Who(u).CTokens(k);
    forall s | Shows(s, x) ensures Exec(s, ix).Ok? && Shows(Exec(s, ix).value, y) {
      Looks(s, x, u, k);
      PlaysOn(s.users[u], x.Who(u), k, 0, held - n, o);
      Patched(s, x, u, k, side.(locked := side.locked + n), Exec(s, ix).value.users[u],
              x.Who(u).(obligation := o).WithCTokens(k, held - n));
    }
    Then(x, ix, y);
  }

  lemma ThenRelease(x: Scene, u: nat, k: Pubkey, n: u64, y: Scene)
    requires Reachable(x) && Cast(u, k) && I.WithdrawCollateral(x.Who(u).obligation, k, n, x.slot).Ok?
    requires var o := I.WithdrawCollateral(x.Who(u).obligation, k, n, x.slot).value;
      var side, held := x.At(k), x.Who(u).CTokens(k);
      && n <= side.locked && held + n <= U64_MAX
      && y == x.With(k, side.(locked := side.locked - n))
        .WithWho(u, x.Who(u).(obligation := o).WithCTokens(k, held + n))
    ensures Leads(x, WithdrawCollateral(u, k, n), y) && Reachable(y)
  {
    hide I.WithdrawCollateral, Shows, Plays, Actor.Tokens, Actor.CTokens, Actor.WithTokens, Actor.WithCTokens,
      Scene.With, Scene.WithWho, Scene.At, Scene.Who, Reachable;
    var ix := WithdrawCollateral(u, k, n);
    var o := I.WithdrawCollateral(x.Who(u).obligation, k, n, x.slot).value;
    var side, held := x.At(k), x.Who(u).CTokens(k);
    forall s | Shows(s, x) ensures Exec(s, ix).Ok? && Shows(Exec(s, ix).value, y) {
      Looks(s, x, u, k);
      PlaysOn(s.users[u], x.Who(u), k, 0, held + n, o);
      Patched(s, x, u, k, side.(locked := side.locked - n), Exec(s, ix).value.users[u],
              x.Who(u).(obligation := o).WithCTokens(k, held + n));
    }
    Then(x, ix, y);
  }

  lemma LiquidateMoves(reserves: I.Reserves, o: ObligationData, n: u64, slot: u64)
    requires ONE in reserves && I.Liquidate(reserves, o, ONE, ONE, n, slot).Ok?
    ensures var l := I.Liquidate(reserves, o, ONE, ONE, n, slot).value;
      && l.relieved.available == reserves[ONE].available + l.seizure.repaid
      && l.relieved.ctokens == reserves[ONE].ctokens
      && l.relieved.available <= U64_MAX
  {
    hide ReserveData.Accrue, I.Seize;
    AccrueMoves(reserves[ONE], slot);
    AccrueMoves(reserves[ONE].Accrue(slot).value, slot);
  }

  /** The second user liquidates the first and receives the cTokens; both sides are the first reserve. */
  lemma ThenLiquidate(x: Scene, n: u64, y: Scene)
    requires Reachable(x) && I.Liquidate(x.Known(), x.alice.obligation, ONE, ONE, n, x.slot).Ok?
    requires var l := I.Liquidate(x.Known(), x.alice.obligation, ONE, ONE, n, x.slot).value;
      && l.seizure.repaid <= x.bob.a && l.seizure.seized <= x.one.locked && x.bob.ca + l.seizure.seized <= U64_MAX
      && y == x.(one := Side(l.relieved, x.one.locked - l.seizure.seized),
                 alice := x.alice.(obligation := l.seizure.obligation),
                 bob := x.bob.(a := x.bob.a - l.seizure.repaid, ca := x.bob.ca + l.seizure.seized))
    ensures Leads(x, Liquidate(1, 0, ONE, ONE, n, ToUser(1)), y) && Reachable(y)
  {
    hide I.Liquidate, Reachable, Shows;
    var ix := Liquidate(1, 0, ONE, ONE, n, ToUser(1));
    LiquidateMoves(x.Known(), x.alice.obligation, n, x.slot);
    forall s | Shows(s, x) ensures Exec(s, ix).Ok? && Shows(Exec(s, ix).value, y) {
      LiquidatesTo(s, x, n, y);
    }
    Then(x, ix, y);
  }

  lemma LiquidatesTo(s: State, x: Scene, n: u64, y: Scene)
    requires Shows(s, x) && I.Liquidate(x.Known(), x.alice.obligation, ONE, ONE, n, x.slot).Ok?
    requires var l := I.Liquidate(x.Known(), x.alice.obligation, ONE, ONE, n, x.slot).value;
      && l.relieved.available == x.one.reserve.available + l.seizure.repaid
      && l.relieved.ctokens == x.one.reserve.ctokens
      && l.seizure.repaid <= x.bob.a && l.seizure.seized <= x.one.locked && x.bob.ca + l.seizure.seized <= U64_MAX
      && y == x.(one := Side(l.relieved, x.one.locked - l.seizure.seized),
                 alice := x.alice.(obligation := l.seizure.obligation),
                 bob := x.bob.(a := x.bob.a - l.seizure.repaid, ca := x.bob.ca + l.seizure.seized))
    ensures Exec(s, Liquidate(1, 0, ONE, ONE, n, ToUser(1))).Ok?
    ensures Shows(Exec(s, Liquidate(1, 0, ONE, ONE, n, ToUser(1))).value, y)
  {
    hide I.Liquidate;
    KnownReserves(s, x);
  }

  lemma ThenRefresh(x: Scene, u: nat, y: Scene)
    requires Reachable(x) && u < 2 && I.RefreshObligation(x.Who(u).obligation, x.Known(), x.slot).Ok?
    requires var o := I.RefreshObligation(x.Who(u).obligation, x.Known(), x.slot).value;
      o.lastUpdateTime == 0 && y == x.WithWho(u, x.Who(u).(obligation := o))
    ensures Leads(x, RefreshObligation(u, BOTH, 0), y) && Reachable(y)
  {
    hide I.RefreshObligation, PoolOf, Reachable;
    forall s | Shows(s, x)
      ensures Exec(s, RefreshObligation(u, BOTH, 0)).Ok? && Shows(Exec(s, RefreshObligation(u, BOTH, 0)).value, y)
    {
      KnownReserves(s, x);
    }
    Then(x, RefreshObligation(u, BOTH, 0), y);
  }

  lemma PriceMoves(r: ReserveData, update: PriceUpdate, slot: u64)
    requires I.RefreshReserve(r, update, slot, 0).Ok?
    ensures var q := I.RefreshReserve(r, update, slot, 0).value; q.available == r.available && q.ctokens == r.ctokens
  {
    hide ReadPrice, ReserveData.Accrue;
    AccrueMoves(r, slot);
  }

  lemma ThenPrice(x: Scene, k: Pubkey, price: u64, y: Scene)
    requires Reachable(x) && Cast(0, k) && price <= I64_MAX
      && I.RefreshReserve(x.At(k).reserve, Quoted(price), x.slot, 0).Ok?
    requires y == x.With(k, x.At(k).(reserve := I.RefreshReserve(x.At(k).reserve, Quoted(price), x.slot, 0).value))
    ensures Leads(x, RefreshReserve(k, Quoted(price), 0), y) && Reachable(y)
  {
    hide I.RefreshReserve, Plays, Reachable;
    var ix := RefreshReserve(k, Quoted(price), 0);
    PriceMoves(x.At(k).reserve, Quoted(price), x.slot);
    forall s | Shows(s, x) ensures Exec(s, ix).Ok? && Shows(Exec(s, ix).value, y) {
      KnownReserves(s, x);
    }
    Then(x, ix, y);
  }

  lemma UserPatched(s: State, x: Scene, u: nat, v: User, actor: Actor)
    requires Shows(s, x) && u < 2 && Plays(v, actor) && |s.users| == 2
    ensures Shows(WithUser(s, u, v), x.WithWho(u, actor))
  {
    hide Plays, PoolOf;
  }

  lemma ThenFund(x: Scene, u: nat, k: Pubkey, n: u64, y: Scene)
    requires Reachable(x) && Cast(u, k) && x.Who(u).Tokens(k) + n <= U64_MAX
    requires y == x.WithWho(u, x.Who(u).WithTokens(k, x.Who(u).Tokens(k) + n))
    ensures Leads(x, Fund(u, k, n), y) && Reachable(y)
  {
    hide PoolOf, Plays, Actor.Tokens, Actor.WithTokens, Scene.WithWho, Scene.Who, Reachable;
    forall s | Shows(s, x) ensures Exec(s, Fund(u, k, n)).Ok? && Shows(Exec(s, Fund(u, k, n)).value, y) {
      Looks(s, x, u, k);
      PlaysOn(s.users[u], x.Who(u), k, x.Who(u).Tokens(k) + n, 0, x.Who(u).obligation);
      UserPatched(s, x, u, Exec(s, Fund(u, k, n)).value.users[u],
                  x.Who(u).(obligation := x.Who(u).obligation).WithTokens(k, x.Who(u).Tokens(k) + n));
    }
    Then(x, Fund(u, k, n), y);
  }

  lemma ThenAdvance(x: Scene, n: u64, y: Scene)
    requires Reachable(x) && x.slot + n <= U64_MAX && y == x.(slot := x.slot + n)
    ensures Leads(x, AdvanceSlot(n), y) && Reachable(y)
  {
    hide PoolOf, Plays, Reachable;
    Then(x, AdvanceSlot(n), y);
  }

  function Newcomer(): Actor {
    Actor(NewObligation(), 0, 0, 0, 0)
  }

  /** Two reserves just listed, two users just arrived. */
  function Opening(one: ReserveConfig, two: ReserveConfig): Scene {
    Scene(0, Side(NewReserve(0, one), 0), Side(NewReserve(0, two), 0), Newcomer(), Newcomer())
  }

  lemma Opens(one: ReserveConfig, two: ReserveConfig)
    requires one.Validated() && two.Validated()
    ensures Reachable(Opening(one, two))
  {
    hide Run, NewObligation;
    var ixs := [AddReserve(ONE, one)] + [AddReserve(TWO, two)] + [InitObligation] + [InitObligation];
    EmptyRun();
    RunSnoc([], AddReserve(ONE, one));
    assert [] + [AddReserve(ONE, one)] == [AddReserve(ONE, one)];
    RunSnoc([AddReserve(ONE, one)], AddReserve(TWO, two));
    RunSnoc([AddReserve(ONE, one)] + [AddReserve(TWO, two)], InitObligation);
    RunSnoc([AddReserve(ONE, one)] + [AddReserve(TWO, two)] + [InitObligation], InitObligation);
    assert Shows(Run(GENESIS, ixs), Opening(one, two));
  }

  lemma EmptyRun()
    ensures Run(GENESIS, []) == GENESIS
  {
  }
}
