/** Defects of the Anchor draft. Each is shown on the handlers as written, and set beside a
    corrected definition that carries the property the code evidently means to have. The
    handlers and the ledger elsewhere in the model stay as written. */
module AnchorFindings {
  import opened Wrappers
  import opened Int
  import opened Borsh
  import opened Chain
  import opened AnchorState
  import opened AnchorContext
  import opened AnchorProgram
  import opened AnchorProperties

  // ------------------------------------------------------------------ unchecked accrual

  /** As written: one second at rate 2^32 on a principal of 2^32 earns 2^64 reward units,
      and the unchecked product wraps to 0, so nothing is accrued. */
  lemma AccrueWraps(record: UserStakeAccount, now: i64)
    requires record.amount == 0x1_0000_0000 && now == record.lastStakeTime + 1
    ensures Accrue(record, 0x1_0000_0000, now).pendingRewards == record.pendingRewards
  {
    ElapsedBits(now, record.lastStakeTime);
  }

  /** Corrected accrual: a clock that went back is refused, and every product and the
      sum are checked. */
  function AccrueChecked(record: UserStakeAccount, rate: u64, now: i64): Result<UserStakeAccount, AnchorError> {
    if now < record.lastStakeTime then Err(InvalidArgument)
    else
      var perUnit :- CheckedMul(now - record.lastStakeTime, rate).OkOr(ArithmeticOverflow);
      var rewards :- CheckedMul(perUnit, record.amount).OkOr(ArithmeticOverflow);
      var pending :- CheckedAdd(record.pendingRewards, rewards).OkOr(ArithmeticOverflow);
      Ok(record.(pendingRewards := pending))
  }

  /** The corrected accrual succeeds exactly when the clock has not gone back and neither
      product nor the new pending amount passes 2^64 - 1; it then adds the exact reward,
      and otherwise says which check failed. */
  lemma AccrueCheckedResult(record: UserStakeAccount, rate: u64, now: i64)
    ensures var r := AccrueChecked(record, rate, now);
      && (r.Ok? <==>
            && record.lastStakeTime <= now
            && (now - record.lastStakeTime) * rate < U64_LIMIT
            && (now - record.lastStakeTime) * rate * record.amount < U64_LIMIT
            && record.pendingRewards + (now - record.lastStakeTime) * rate * record.amount < U64_LIMIT)
      && (r.Ok? ==>
            r.value == record.(pendingRewards := record.pendingRewards + (now - record.lastStakeTime) * rate * record.amount))
      && (r.Err? ==> r.error == (if record.lastStakeTime <= now then ArithmeticOverflow else InvalidArgument))
  {
    if record.lastStakeTime <= now {
      var elapsed: u64 := now - record.lastStakeTime;
      var perUnit := CheckedMul(elapsed, rate);
      if perUnit.Some? {
        var rewards := CheckedMul(perUnit.value, record.amount);
        assert rewards.Some? <==> elapsed * rate * record.amount < U64_LIMIT;
      }
    }
  }

  /** Wherever the checked accrual succeeds, the written one gives the same record; the
      correction only turns the wrapping cases into errors. */
  lemma AccrueCheckedAgrees(record: UserStakeAccount, rate: u64, now: i64)
    requires AccrueChecked(record, rate, now).Ok?
    ensures AccrueChecked(record, rate, now).value == Accrue(record, rate, now)
  {
    AccrueExact(record, rate, now);
  }

  /** As written: a deposit that carries `total_stake` past 2^64 - 1 leaves it smaller than
      before, by the unchecked `+=`. */
  lemma StakeTotalWraps(rt: Runtime, poolKey: Pubkey, s: State, k: StakeKeys, signers: set<Pubkey>, amount: u64, now: i64)
    requires StakeSpec(rt, poolKey, s, k, signers, amount, now).Ok?
    requires s.pool.Some? && s.pool.value.totalStake + amount >= U64_LIMIT
    ensures var after := StakeSpec(rt, poolKey, s, k, signers, amount, now).value;
      && after.pool.Some?
      && after.pool.value.totalStake == s.pool.value.totalStake + amount - U64_LIMIT
      && after.pool.value.totalStake < s.pool.value.totalStake
  {
    StakeEffect(rt, poolKey, s, k, signers, amount, now);
  }

  // ------------------------------------------------------------------ pool seeds: mint at init, vault afterwards

  /** Pool addresses derived from two different keys differ, unless the derivation
      collides. */
  lemma PoolSeedsDiffer(rt: Runtime, a: Pubkey, b: Pubkey)
    requires a != b
    requires NoCollision(rt, Concat(PoolSeeds(a) + [[rt.canonicalBump(Concat(PoolSeeds(a)))]]),
                             Concat(PoolSeeds(b) + [[rt.canonicalBump(Concat(PoolSeeds(b)))]]))
    ensures FindPda(rt, PoolSeeds(a)).0 != FindPda(rt, PoolSeeds(b)).0
  {
    var tag := Label("staking_pool");
    var ba, bb := rt.canonicalBump(Concat(PoolSeeds(a))), rt.canonicalBump(Concat(PoolSeeds(b)));
    assert PoolSeeds(a) + [[ba]] == [tag, a, [ba]];
    assert PoolSeeds(b) + [[bb]] == [tag, b, [bb]];
    ConcatThree(tag, a, [ba]);
    ConcatThree(tag, b, [bb]);
    assert (tag + a + [ba])[12..44] == a;
    assert (tag + b + [bb])[12..44] == b;
  }

  /** As written: `initialize_pool` puts the pool at the address derived from the mint,
      while `stake`, `unstake` and `claim_rewards` look for it at the address derived from
      the vault. After a pool is created in a well-formed state, every later call of those
      three fails, whatever transactions ran in between: a vault other than the mint gives
      another address, and the mint itself is no token account. The pool cannot be used. */
  lemma InitializedPoolUnusable(rt: Runtime, poolKey: Pubkey, s: State, k: InitializePoolKeys, signers: set<Pubkey>,
                                rewardRate: u64, calls: seq<Call>, vault: Pubkey, sk: StakeKeys, uk: UnstakeKeys,
                                ck: ClaimRewardsKeys, signers2: set<Pubkey>, amount: u64, now: i64)
    requires WellFormed(s) && InitializePoolSpec(rt, poolKey, s, k, signers, rewardRate).Ok?
    requires sk.vault == vault && uk.vault == vault && ck.vault == vault
    requires NoCollision(rt, Concat(PoolSeeds(k.mint) + [[rt.canonicalBump(Concat(PoolSeeds(k.mint)))]]),
                             Concat(PoolSeeds(vault) + [[rt.canonicalBump(Concat(PoolSeeds(vault)))]]))
    ensures var t := Run(rt, poolKey, InitializePoolSpec(rt, poolKey, s, k, signers, rewardRate).value, calls);
      && StakeSpec(rt, poolKey, t, sk, signers2, amount, now).Err?
      && UnstakeSpec(rt, poolKey, t, uk, signers2, amount, now).Err?
      && ClaimRewardsSpec(rt, poolKey, t, ck, signers2).Err?
  {
    var t := Run(rt, poolKey, InitializePoolSpec(rt, poolKey, s, k, signers, rewardRate).value, calls);
    if vault == k.mint {
      assert vault in t.mints && WellFormed(t);
    } else {
      PoolSeedsDiffer(rt, k.mint, vault);
    }
  }

  // ------------------------------------------------------------------ unstake signs for the wrong address

  /** As written: whatever the bump, the `("vault", pool, bump)` seeds that `unstake` signs
      with derive an address other than the pool, which owns the vault: the two derivation
      inputs differ in length (38 and 45 bytes). */
  lemma UnstakeSignerIsNotPool(rt: Runtime, poolKey: Pubkey, vault: Pubkey, bump: u8)
    requires AtSeeds(rt, poolKey, PoolSeeds(vault))
    requires NoCollision(rt, Concat(UnstakeSignerSeeds(poolKey, bump)),
                             Concat(PoolSeeds(vault) + [[rt.canonicalBump(Concat(PoolSeeds(vault)))]]))
    ensures CreatePda(rt, UnstakeSignerSeeds(poolKey, bump)) != poolKey
  {
    var canonical := rt.canonicalBump(Concat(PoolSeeds(vault)));
    assert PoolSeeds(vault) + [[canonical]] == [Label("staking_pool"), vault, [canonical]];
    ConcatThree(Label("vault"), poolKey, [bump]);
    ConcatThree(Label("staking_pool"), vault, [canonical]);
  }

  /** As written, then: without the pool's own signature, which no transaction can carry,
      `unstake` always fails, and the staked tokens stay in the vault. */
  lemma UnstakeNeverPays(rt: Runtime, poolKey: Pubkey, s: State, k: UnstakeKeys, signers: set<Pubkey>, amount: u64, now: i64)
    requires s.pool.Some? && poolKey !in signers
    requires NoCollision(rt, Concat(UnstakeSignerSeeds(poolKey, s.pool.value.bump)),
                             Concat(PoolSeeds(k.vault) + [[rt.canonicalBump(Concat(PoolSeeds(k.vault)))]]))
    ensures UnstakeSpec(rt, poolKey, s, k, signers, amount, now).Err?
  {
    if UnstakeAccounts(rt, poolKey, s, k, signers).Ok? {
      UnstakeSignerIsNotPool(rt, poolKey, k.vault, s.pool.value.bump);
    }
  }

  // ------------------------------------------------------------------ the stored bump is 0

  /** As written: `initialize_pool` stores bump 0 (`InitializePoolEffect`), and the
      `("staking_pool", vault, 0)` seeds `claim_rewards` signs with derive an address other
      than the pool whenever the canonical bump is not 0. */
  lemma ClaimSignerIsNotPool(rt: Runtime, poolKey: Pubkey, vault: Pubkey)
    requires AtSeeds(rt, poolKey, PoolSeeds(vault))
    requires rt.canonicalBump(Concat(PoolSeeds(vault))) != 0
    requires NoCollision(rt, Concat(ClaimSignerSeeds(vault, 0)),
                             Concat(PoolSeeds(vault) + [[rt.canonicalBump(Concat(PoolSeeds(vault)))]]))
    ensures CreatePda(rt, ClaimSignerSeeds(vault, 0)) != poolKey
  {
    var canonical := rt.canonicalBump(Concat(PoolSeeds(vault)));
    ConcatBump(PoolSeeds(vault), 0);
    ConcatBump(PoolSeeds(vault), canonical);
    var written, derived := Concat(PoolSeeds(vault)) + [0], Concat(PoolSeeds(vault)) + [canonical];
    assert written[|written| - 1] != derived[|derived| - 1];
  }

  /** As written, then: a pool holding bump 0 can never sign the reward mint. */
  lemma ClaimNeverPays(rt: Runtime, poolKey: Pubkey, s: State, k: ClaimRewardsKeys, signers: set<Pubkey>)
    requires s.pool.Some? && s.pool.value.bump == 0 && poolKey !in signers
    requires rt.canonicalBump(Concat(PoolSeeds(k.vault))) != 0
    requires NoCollision(rt, Concat(ClaimSignerSeeds(k.vault, 0)),
                             Concat(PoolSeeds(k.vault) + [[rt.canonicalBump(Concat(PoolSeeds(k.vault)))]]))
    ensures ClaimRewardsSpec(rt, poolKey, s, k, signers).Err?
  {
    if ClaimRewardsAccounts(rt, poolKey, s, k, signers).Ok? {
      ClaimSignerIsNotPool(rt, poolKey, k.vault);
    }
  }

  // ------------------------------------------------------------------ a stake record is created once

  /** As written: `stake` creates the record with `init`, and no handler removes it, so
      after a user's first stake every later stake into the same record fails, after any
      sequence of transactions, even one that withdrew everything. The accrual branch of
      `stake` is therefore never taken. */
  lemma StakeOnlyOnce(rt: Runtime, poolKey: Pubkey, s: State, k: StakeKeys, signers: set<Pubkey>, amount: u64, now: i64,
                      calls: seq<Call>, k2: StakeKeys, signers2: set<Pubkey>, amount2: u64, now2: i64)
    requires StakeSpec(rt, poolKey, s, k, signers, amount, now).Ok?
    requires k2.userStake == k.userStake
    ensures var later := Run(rt, poolKey, StakeSpec(rt, poolKey, s, k, signers, amount, now).value, calls);
      StakeSpec(rt, poolKey, later, k2, signers2, amount2, now2).Err?
  {
    StakeEffect(rt, poolKey, s, k, signers, amount, now);
    RunKeepsRecords(rt, poolKey, StakeSpec(rt, poolKey, s, k, signers, amount, now).value, calls);
  }

  // ------------------------------------------------------------------ claim pays only what unstake accrued

  /** As written: `claim_rewards` pays `pending_rewards` and accrues nothing, and a fresh
      stake holds none, so claiming right after staking fails however much time passes;
      rewards reach a staker only through `unstake`. */
  lemma ClaimAfterStakeFails(rt: Runtime, poolKey: Pubkey, s: State, k: StakeKeys, signers: set<Pubkey>, amount: u64,
                             now: i64, ck: ClaimRewardsKeys, signers2: set<Pubkey>)
    requires StakeSpec(rt, poolKey, s, k, signers, amount, now).Ok?
    requires ck.userStake == k.userStake
    ensures ClaimRewardsSpec(rt, poolKey, StakeSpec(rt, poolKey, s, k, signers, amount, now).value, ck, signers2).Err?
  {
    StakeEffect(rt, poolKey, s, k, signers, amount, now);
  }

  // ------------------------------------------------------------------ the corrected handlers

  /** Corrected pool constraint for the handlers after init: the pool sits at the address
      derived from the mint of its vault, the same seeds `initialize_pool` uses. */
  predicate PoolOfVault(rt: Runtime, poolKey: Pubkey, s: State, vault: Pubkey) {
    vault in s.tokens && AtSeeds(rt, poolKey, PoolSeeds(s.tokens[vault].mint))
  }

  /** Corrected signer: the pool's own seeds with its stored bump. */
  function PoolSigner(rt: Runtime, mint: Pubkey, pool: StakingPool): Pubkey {
    CreatePda(rt, PoolSeeds(mint) + [[pool.bump]])
  }

  /** Corrected `initialize_pool`: the canonical bump found for the pool's address is
      stored. */
  function InitializePoolFixed(rt: Runtime, poolKey: Pubkey, s: State, k: InitializePoolKeys, signers: set<Pubkey>,
                               rewardRate: u64): Result<State, AnchorError>
  {
    var _ :- InitializePoolAccounts(rt, poolKey, s, k, signers);
    Ok(s.(pool := Some(StakingPool(k.authority, rewardRate, k.vault, 0, FindPda(rt, PoolSeeds(k.mint)).1))))
  }

  /** A pool created by the corrected `initialize_pool` is found by the corrected
      constraint from its vault, and its stored bump makes the corrected signer the pool
      itself: later handlers can use it and sign for its vault. */
  lemma InitializePoolFixedSigns(rt: Runtime, poolKey: Pubkey, s: State, k: InitializePoolKeys, signers: set<Pubkey>,
                                 rewardRate: u64)
    requires InitializePoolFixed(rt, poolKey, s, k, signers, rewardRate).Ok?
    ensures var after := InitializePoolFixed(rt, poolKey, s, k, signers, rewardRate).value;
      && after.pool.Some? && after.tokens == s.tokens
      && PoolOfVault(rt, poolKey, after, k.vault)
      && PoolSigner(rt, k.mint, after.pool.value) == poolKey
  {
  }

  /** Corrected `stake`: the record is created if needed (`init_if_needed`), an existing
      principal accrues first, and the principal and the total are added with checks. */
  function StakeFixed(rt: Runtime, poolKey: Pubkey, s: State, k: StakeKeys, signers: set<Pubkey>,
                      amount: u64, now: i64): Result<State, AnchorError>
  {
    var _ :- Need(k.user in signers, AccountNotSigner);
    var _ :- Need(k.userToken in s.tokens && k.vault in s.tokens && s.pool.Some? && k.mint in s.mints, AccountNotInitialized);
    var _ :- Need(PoolOfVault(rt, poolKey, s, k.vault), ConstraintSeeds);
    var _ :- Need(AtSeeds(rt, k.userStake, StakeSeeds(poolKey, k.user)), ConstraintSeeds);
    var pool, source := s.pool.value, s.tokens[k.userToken];
    var _ :- Need(source.owner == k.user, IllegalOwner);
    var _ :- Need(source.mint == k.mint, InvalidAccountData);
    var _ :- Need(s.tokens[k.vault].owner == poolKey, InvalidAccountData);
    var held := if k.userStake in s.stakes then s.stakes[k.userStake] else ZeroStake();
    var record :- if held.amount > 0 then AccrueChecked(held, pool.rewardRate, now) else Ok(held);
    var tokens :- Transfer(s.tokens, k.userToken, k.vault, k.user, k.user in signers, amount).MapErr(AsTokenFailure);
    var principal :- CheckedAdd(record.amount, amount).OkOr(ArithmeticOverflow);
    var total :- CheckedAdd(pool.totalStake, amount).OkOr(ArithmeticOverflow);
    Ok(s.(pool := Some(pool.(totalStake := total)),
          stakes := s.stakes[k.userStake := record.(amount := principal, lastStakeTime := now, owner := k.user)],
          tokens := tokens))
  }

  /** The corrected `stake` tops up an existing record: the principal grows by the
      deposit after the rewards earned so far are accrued, and the pool total grows by
      the same deposit, exactly. */
  lemma StakeFixedTopsUp(rt: Runtime, poolKey: Pubkey, s: State, k: StakeKeys, signers: set<Pubkey>, amount: u64, now: i64)
    requires StakeFixed(rt, poolKey, s, k, signers, amount, now).Ok?
    requires k.userStake in s.stakes
    ensures var held := s.stakes[k.userStake];
      var after := StakeFixed(rt, poolKey, s, k, signers, amount, now).value;
      var rate := s.pool.value.rewardRate;
      && s.pool.Some? && after.pool.Some?
      && after.pool.value.totalStake == s.pool.value.totalStake + amount
      && k.userStake in after.stakes
      && after.stakes[k.userStake].amount == held.amount + amount
      && after.stakes[k.userStake].lastStakeTime == now
      && (held.amount > 0 ==> after.stakes[k.userStake].pendingRewards
                               == held.pendingRewards + (now - held.lastStakeTime) * rate * held.amount)
  {
  }

  /** For every record, new or existing, the corrected `stake` adds the deposit to the
      principal and to the pool total exactly, and refuses a deposit that would carry
      either past 2^64 - 1. */
  lemma StakeFixedChecksTotals(rt: Runtime, poolKey: Pubkey, s: State, k: StakeKeys, signers: set<Pubkey>,
                               amount: u64, now: i64)
    ensures var r := StakeFixed(rt, poolKey, s, k, signers, amount, now);
      var held := if k.userStake in s.stakes then s.stakes[k.userStake].amount else 0;
      && (r.Ok? ==> && s.pool.Some? && r.value.pool.Some?
                    && r.value.pool.value.totalStake == s.pool.value.totalStake + amount
                    && k.userStake in r.value.stakes
                    && r.value.stakes[k.userStake].amount == held + amount)
      && (s.pool.Some? && s.pool.value.totalStake + amount >= U64_LIMIT ==> r.Err?)
      && (held + amount >= U64_LIMIT ==> r.Err?)
  {
  }

  /** Corrected `unstake`: the accrual and the pool total are checked, and the transfer is
      signed with the pool's own seeds and bump. */
  function UnstakeFixed(rt: Runtime, poolKey: Pubkey, s: State, k: UnstakeKeys, signers: set<Pubkey>,
                        amount: u64, now: i64): Result<State, AnchorError>
  {
    var _ :- Need(k.user in signers, AccountNotSigner);
    var _ :- Need(k.userToken in s.tokens && k.vault in s.tokens && s.pool.Some? && k.userStake in s.stakes, AccountNotInitialized);
    var _ :- Need(PoolOfVault(rt, poolKey, s, k.vault), ConstraintSeeds);
    var _ :- Need(AtSeeds(rt, k.userStake, StakeSeeds(poolKey, k.user)), ConstraintSeeds);
    var pool, record := s.pool.value, s.stakes[k.userStake];
    var _ :- Need(amount <= record.amount, InvalidArgument);
    var accrued :- AccrueChecked(record, pool.rewardRate, now);
    var _ :- Need(amount <= pool.totalStake, ArithmeticOverflow);
    var signer := PoolSigner(rt, s.tokens[k.vault].mint, pool);
    var tokens :- Transfer(s.tokens, k.vault, k.userToken, poolKey, poolKey in signers + {signer}, amount)
                    .MapErr(AsTokenFailure);
    Ok(s.(pool := Some(pool.(totalStake := pool.totalStake - amount)),
          stakes := s.stakes[k.userStake := accrued.(amount := accrued.amount - amount, lastStakeTime := now)],
          tokens := tokens))
  }

  /** With the bump the corrected `initialize_pool` stores, the corrected `unstake` signs
      for the vault: it succeeds exactly when the accounts pass, the amount is held, the
      arithmetic fits, and the vault can pay the user. */
  lemma UnstakeFixedPays(rt: Runtime, poolKey: Pubkey, s: State, k: UnstakeKeys, signers: set<Pubkey>, amount: u64, now: i64)
    requires k.userToken in s.tokens && k.vault in s.tokens && s.pool.Some? && k.userStake in s.stakes
    requires k.user in signers && PoolOfVault(rt, poolKey, s, k.vault) && AtSeeds(rt, k.userStake, StakeSeeds(poolKey, k.user))
    requires s.pool.value.bump == FindPda(rt, PoolSeeds(s.tokens[k.vault].mint)).1
    ensures UnstakeFixed(rt, poolKey, s, k, signers, amount, now).Ok? <==>
      && amount <= s.stakes[k.userStake].amount
      && AccrueChecked(s.stakes[k.userStake], s.pool.value.rewardRate, now).Ok?
      && amount <= s.pool.value.totalStake
      && Transfer(s.tokens, k.vault, k.userToken, poolKey, true, amount).Ok?
  {
  }

  /** Corrected `claim_rewards`: the rewards earned since the last accrual are added
      first (checked), and the whole owed amount is minted under the pool's own seeds. */
  function ClaimRewardsFixed(rt: Runtime, poolKey: Pubkey, s: State, k: ClaimRewardsKeys, signers: set<Pubkey>, now: i64)
    : Result<State, AnchorError>
  {
    var _ :- Need(k.user in signers, AccountNotSigner);
    var _ :- Need(k.userToken in s.tokens && k.mint in s.mints && k.vault in s.tokens && s.pool.Some? && k.userStake in s.stakes,
                  AccountNotInitialized);
    var _ :- Need(PoolOfVault(rt, poolKey, s, k.vault), ConstraintSeeds);
    var _ :- Need(AtSeeds(rt, k.userStake, StakeSeeds(poolKey, k.user)), ConstraintSeeds);
    var pool, record := s.pool.value, s.stakes[k.userStake];
    var accrued :- AccrueChecked(record, pool.rewardRate, now);
    var _ :- Need(accrued.pendingRewards != 0, InvalidArgument);
    var signer := PoolSigner(rt, s.tokens[k.vault].mint, pool);
    var minted :- MintTo(s.tokens, s.mints, k.mint, k.userToken, poolKey, poolKey in signers + {signer},
                         accrued.pendingRewards).MapErr(AsTokenFailure);
    Ok(s.(stakes := s.stakes[k.userStake := accrued.(pendingRewards := 0, lastStakeTime := now)],
          tokens := minted.0, mints := minted.1))
  }

  /** The corrected `claim_rewards` pays what was pending plus elapsed time × rate ×
      principal since the last accrual, then restarts the accrual clock with nothing
      pending; the principal and the pool are untouched. */
  lemma ClaimRewardsFixedPays(rt: Runtime, poolKey: Pubkey, s: State, k: ClaimRewardsKeys, signers: set<Pubkey>, now: i64)
    requires ClaimRewardsFixed(rt, poolKey, s, k, signers, now).Ok?
    ensures var after := ClaimRewardsFixed(rt, poolKey, s, k, signers, now).value;
      && s.pool.Some? && k.userStake in s.stakes && k.userToken in s.tokens
      && var record := s.stakes[k.userStake];
      var owed := record.pendingRewards + (now - record.lastStakeTime) * s.pool.value.rewardRate * record.amount;
      && owed > 0
      && k.userToken in after.tokens
      && after.tokens[k.userToken].amount == s.tokens[k.userToken].amount + owed
      && after.stakes == s.stakes[k.userStake := record.(pendingRewards := 0, lastStakeTime := now)]
      && after.pool == s.pool
  {
  }
}
