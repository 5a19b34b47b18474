/** What every reachable state of the market satisfies. */
module MarketInvariant {
  import opened Numeric
  import opened ReserveModel
  import opened ObligationModel
  import opened ObligationProperties
  import opened Market

  // ---- Totals over the users ------------------------------------------------------------------

  /** cTokens of reserve `key` locked in obligations. */
  function TotalLocked(users: seq<User>, key: Pubkey): nat {
    if |users| == 0 then 0
    else TotalLocked(users[..|users| - 1], key) + Locked(users[|users| - 1].obligation.deposits, key)
  }

  /** cTokens of reserve `key` in users' own accounts. */
  function TotalHeld(users: seq<User>, key: Pubkey): nat {
    if |users| == 0 then 0
    else TotalHeld(users[..|users| - 1], key) + Balance(users[|users| - 1].ctokens, key)
  }

  lemma {:induction false} TotalsUpdate(users: seq<User>, i: nat, u: User, key: Pubkey)
    requires i < |users|
    ensures TotalLocked(users[i := u], key)
         == TotalLocked(users, key) - Locked(users[i].obligation.deposits, key) + Locked(u.obligation.deposits, key)
    ensures TotalHeld(users[i := u], key)
      == TotalHeld(users, key) - Balance(users[i].ctokens, key) + Balance(u.ctokens, key)
  {
    var n := |users| - 1;
    if i < n {
      assert users[i := u][..n] == users[..n][i := u];
      TotalsUpdate(users[..n], i, u, key);
    } else {
      assert users[i := u][..n] == users[..n];
    }
  }

  lemma {:induction false} LockedBelowTotal(users: seq<User>, i: nat, key: Pubkey)
    requires i < |users|
    ensures Locked(users[i].obligation.deposits, key) <= TotalLocked(users, key)
  {
    if i == |users| - 1 {
    } else {
      LockedBelowTotal(users[..|users| - 1], i, key);
    }
  }

  // ---- The invariant --------------------------------------------------------------------------

  ghost predicate PoolInv(p: Pool, users: seq<User>, key: Pubkey) {
    && key != DEFAULT_PUBKEY
    && ReserveInv(p.reserve)
    && p.liquidityVault == p.reserve.available + p.parked
    && p.ctokenSupply == p.reserve.ctokens
    && p.collateralVault == TotalLocked(users, key) + p.parkedCTokens
    && p.ctokenSupply == p.collateralVault + TotalHeld(users, key)
  }

  /** The obligation's tables are well formed and refer to listed reserves; no loan is ahead of its reserve's index. */
  ghost predicate ObligationInv(o: ObligationData, pools: map<Pubkey, Pool>) {
    && Wf(o)
    && (forall k :: Locked(o.deposits, k) > 0 ==> k in pools)
    && (forall k :: LoanOf(o.borrows, k).Some? ==>
          k in pools && LoanOf(o.borrows, k).value.index <= pools[k].reserve.index)
  }

  ghost predicate UserInv(u: User, pools: map<Pubkey, Pool>) {
    && ObligationInv(u.obligation, pools)
    && forall k :: Balance(u.ctokens, k) > 0 ==> k in pools
  }

  ghost predicate Inv(s: State) {
    && (forall k :: k in s.pools ==> PoolInv(s.pools[k], s.users, k))
    && (forall i :: 0 <= i < |s.users| ==> UserInv(s.users[i], s.pools))
  }

  lemma PoolOk(s: State, key: Pubkey)
    requires Inv(s) && key in s.pools
    ensures PoolInv(s.pools[key], s.users, key) && ReserveInv(s.pools[key].reserve) && key != DEFAULT_PUBKEY
  {
  }

  lemma UserOk(s: State, i: nat)
    requires Inv(s) && i < |s.users|
    ensures ObligationInv(s.users[i].obligation, s.pools) && Wf(s.users[i].obligation)
  {
  }

  lemma IndexRises(o: ObligationData, pools: map<Pubkey, Pool>, key: Pubkey, q: Pool)
    requires ObligationInv(o, pools)
    requires key in pools ==> pools[key].reserve.index <= q.reserve.index
    ensures ObligationInv(o, pools[key := q])
  {
  }

  /** The token accounts of reserve `key` move exactly as user `u` becoming `v` accounts for. */
  ghost predicate Balanced(p: Pool, q: Pool, u: User, v: User, key: Pubkey) {
    && q.liquidityVault == q.reserve.available + q.parked && q.ctokenSupply == q.reserve.ctokens
    && (q.collateralVault - q.parkedCTokens) - (p.collateralVault - p.parkedCTokens)
       == Locked(v.obligation.deposits, key) - Locked(u.obligation.deposits, key)
    && q.ctokenSupply - p.ctokenSupply
       == q.collateralVault - p.collateralVault + Balance(v.ctokens, key) - Balance(u.ctokens, key)
    && (forall k :: k != key ==> Locked(v.obligation.deposits, k) == Locked(u.obligation.deposits, k))
    && (forall k :: k != key ==> Balance(v.ctokens, k) == Balance(u.ctokens, k))
  }

  lemma PatchPools(s: State, key: Pubkey, q: Pool, i: nat, v: User, k: Pubkey)
    requires Inv(s) && key in s.pools && i < |s.users|
    requires ReserveInv(q.reserve) && Balanced(s.pools[key], q, s.users[i], v, key)
    requires k in s.pools
    ensures PoolInv(if k == key then q else s.pools[k], s.users[i := v], k)
  {
    assert PoolInv(s.pools[k], s.users, k);
    TotalsUpdate(s.users, i, v, k);
  }

  /** A change to one pool and one user keeps the invariant when their own books agree. */
  lemma PatchKeepsInv(s: State, key: Pubkey, q: Pool, i: nat, v: User)
    requires Inv(s) && key in s.pools && i < |s.users|
    requires ReserveInv(q.reserve) && s.pools[key].reserve.index <= q.reserve.index
    requires Balanced(s.pools[key], q, s.users[i], v, key)
    requires ObligationInv(v.obligation, s.pools[key := q])
    ensures Inv(WithUser(WithPool(s, key, q), i, v))
  {
    hide PoolInv, ReserveInv, ObligationInv;
    forall k | k in s.pools ensures PoolInv(if k == key then q else s.pools[k], s.users[i := v], k) {
      PatchPools(s, key, q, i, v, k);
    }
    forall j | 0 <= j < |s.users| ensures UserInv(s.users[j], s.pools[key := q]) {
      IndexRises(s.users[j].obligation, s.pools, key, q);
    }
  }

  lemma PoolPatchKeepsInv(s: State, key: Pubkey, q: Pool)
    requires Inv(s) && key in s.pools
    requires ReserveInv(q.reserve) && s.pools[key].reserve.index <= q.reserve.index
    requires q.liquidityVault == q.reserve.available + q.parked && q.reserve.ctokens == s.pools[key].reserve.ctokens
    requires q == s.pools[key].(reserve := q.reserve, liquidityVault := q.liquidityVault)
    ensures Inv(WithPool(s, key, q))
  {
    forall j | 0 <= j < |s.users| ensures UserInv(s.users[j], s.pools[key := q]) {
      IndexRises(s.users[j].obligation, s.pools, key, q);
    }
  }

  lemma UserPatchKeepsInv(s: State, i: nat, v: User)
    requires Inv(s) && i < |s.users|
    requires forall k :: Locked(v.obligation.deposits, k) == Locked(s.users[i].obligation.deposits, k)
    requires forall k :: Balance(v.ctokens, k) == Balance(s.users[i].ctokens, k)
    requires ObligationInv(v.obligation, s.pools)
    ensures Inv(WithUser(s, i, v))
  {
    forall k | k in s.pools ensures PoolInv(s.pools[k], s.users[i := v], k) {
      TotalsUpdate(s.users, i, v, k);
    }
  }

  /** `v` and `w` together hold what users `i` and `j` held, and lock what they locked. */
  ghost predicate Transfer(users: seq<User>, i: nat, j: nat, v: User, w: User)
    requires i < |users| && j < |users|
  {
    && w.obligation == users[j].obligation && v.obligation == users[i].obligation
    && (i == j ==> forall k :: Balance(w.ctokens, k) == Balance(users[j].ctokens, k))
    && (i != j ==> forall k :: Balance(w.ctokens, k) + Balance(v.ctokens, k)
                            == Balance(users[j].ctokens, k) + Balance(users[i].ctokens, k))
  }

  lemma TransferTotals(users: seq<User>, i: nat, j: nat, v: User, w: User, key: Pubkey)
    requires i < |users| && j < |users| && Transfer(users, i, j, v, w)
    ensures TotalLocked(users[i := v][j := w], key) == TotalLocked(users, key)
    ensures TotalHeld(users[i := v][j := w], key) == TotalHeld(users, key)
  {
    TotalsUpdate(users, i, v, key);
    TotalsUpdate(users[i := v], j, w, key);
  }

  /** Moving cTokens between two users' accounts keeps the invariant. */
  lemma TransferKeepsInv(s: State, i: nat, j: nat, v: User, w: User)
    requires Inv(s) && i < |s.users| && j < |s.users| && Transfer(s.users, i, j, v, w)
    ensures Inv(WithUser(WithUser(s, i, v), j, w))
  {
    forall k | k in s.pools ensures PoolInv(s.pools[k], s.users[i := v][j := w], k) {
      TransferTotals(s.users, i, j, v, w, k);
    }
  }
}
