/** The four handlers of the Anchor draft. Each is a function from the pool's accounts to
    either their new contents or the error it returns: Anchor first checks the account
    context (`AnchorContext`), then the handler body runs on the loaded records, and when
    it returns `Ok` the records are written back. The token-program calls are the SPL
    `Transfer` and `MintTo` of `Chain`; a call made with `signer_seeds` counts as signed by
    the address those seeds derive. */
module AnchorProgram {
  import opened Wrappers
  import opened Int
  import opened Borsh
  import opened Chain
  import opened AnchorState
  import opened AnchorContext

  /** The reward accrual of `stake` and `unstake`: `(now - last_stake_time) as u64 *
      reward_rate * amount` is added to `pending_rewards`, every operator unchecked. Only
      `pending_rewards` changes. */
  function Accrue(record: UserStakeAccount, rate: u64, now: i64): (r: UserStakeAccount)
    ensures r.owner == record.owner && r.amount == record.amount && r.lastStakeTime == record.lastStakeTime
  {
    var elapsed := AsU64(WrappingSubI64(now, record.lastStakeTime));
    var rewards := WrappingMul(WrappingMul(elapsed, rate), record.amount);
    record.(pendingRewards := WrappingAdd(record.pendingRewards, rewards))
  }

  /** The seeds `unstake` signs the vault transfer with: `("vault", pool, bump)`. */
  function UnstakeSignerSeeds(poolKey: Pubkey, bump: u8): Seeds {
    [Label("vault"), poolKey, [bump]]
  }

  /** The seeds `claim_rewards` signs the mint with: `("staking_pool", vault, bump)`. */
  function ClaimSignerSeeds(vault: Pubkey, bump: u8): Seeds {
    PoolSeeds(vault) + [[bump]]
  }

  function AsTokenFailure(e: TokenError): AnchorError {
    TokenFailure(e)
  }

  // ------------------------------------------------------------------ handlers

  /** `initialize_pool`: the new pool record starts zeroed, and its `bump` field is read
      back from that zeroed record before the other fields are set. */
  function InitializePoolSpec(rt: Runtime, poolKey: Pubkey, s: State, k: InitializePoolKeys,
                              signers: set<Pubkey>, rewardRate: u64): (r: Result<State, AnchorError>)
    ensures r.Ok? <==> InitializePoolAccounts(rt, poolKey, s, k, signers).Ok?
    ensures r.Ok? ==> r.value.pool.Some? && r.value.stakes == s.stakes && r.value.tokens == s.tokens && r.value.mints == s.mints
  {
    var _ :- InitializePoolAccounts(rt, poolKey, s, k, signers);
    var pool := ZeroPool();
    var bump := pool.bump;
    Ok(s.(pool := Some(pool.(authority := k.authority, rewardRate := rewardRate, vault := k.vault,
                             totalStake := 0, bump := bump))))
  }

  /** `stake`: the three ownership checks, the accrual on an existing principal, the
      transfer from the user to the vault signed by the user, then the record and pool
      updates. The record is the one `init` has just created. */
  function StakeSpec(rt: Runtime, poolKey: Pubkey, s: State, k: StakeKeys, signers: set<Pubkey>,
                     amount: u64, now: i64): (r: Result<State, AnchorError>)
    ensures r.Ok? ==> StakeAccounts(rt, poolKey, s, k, signers).Ok? && k.user in signers
    ensures r.Ok? ==> && r.value.stakes.Keys == s.stakes.Keys + {k.userStake}
                      && r.value.stakes[k.userStake].owner == k.user
                      && r.value.mints == s.mints && r.value.pool.Some?
    ensures r.Ok? ==> r.value.tokens.Keys == s.tokens.Keys
  {
    var _ :- StakeAccounts(rt, poolKey, s, k, signers);
    var pool, source := s.pool.value, s.tokens[k.userToken];
    var _ :- Need(source.owner == k.user, IllegalOwner);
    var _ :- Need(source.mint == k.mint, InvalidAccountData);
    var _ :- Need(s.tokens[k.vault].owner == poolKey, InvalidAccountData);
    var created := ZeroStake();
    var record := if created.amount > 0 then Accrue(created, pool.rewardRate, now) else created;
    var tokens :- Transfer(s.tokens, k.userToken, k.vault, k.user, k.user in signers, amount).MapErr(AsTokenFailure);
    var record := record.(amount := WrappingAdd(record.amount, amount), lastStakeTime := now, owner := k.user);
    Ok(s.(pool := Some(pool.(totalStake := WrappingAdd(pool.totalStake, amount))),
          stakes := s.stakes[k.userStake := record],
          tokens := tokens))
  }

  /** `unstake`: the amount check, the accrual on the principal before the withdrawal, the
      record and pool updates, then the transfer from the vault to the user's account on
      the pool's authority, signed with the `("vault", pool, bump)` seeds. */
  function UnstakeSpec(rt: Runtime, poolKey: Pubkey, s: State, k: UnstakeKeys, signers: set<Pubkey>,
                       amount: u64, now: i64): (r: Result<State, AnchorError>)
    ensures r.Ok? ==> UnstakeAccounts(rt, poolKey, s, k, signers).Ok? && amount <= s.stakes[k.userStake].amount
    ensures r.Ok? ==> r.value.stakes.Keys == s.stakes.Keys && r.value.mints == s.mints && r.value.pool.Some?
    ensures r.Ok? ==> r.value.tokens.Keys == s.tokens.Keys
  {
    var _ :- UnstakeAccounts(rt, poolKey, s, k, signers);
    var pool, record := s.pool.value, s.stakes[k.userStake];
    var _ :- Need(amount <= record.amount, InvalidArgument);
    var accrued := Accrue(record, pool.rewardRate, now);
    var record := accrued.(amount := accrued.amount - amount, lastStakeTime := now);
    var pool := pool.(totalStake := WrappingSub(pool.totalStake, amount));
    var signer := CreatePda(rt, UnstakeSignerSeeds(poolKey, pool.bump));
    var tokens :- Transfer(s.tokens, k.vault, k.userToken, poolKey, poolKey in signers + {signer}, amount)
                    .MapErr(AsTokenFailure);
    Ok(s.(pool := Some(pool), stakes := s.stakes[k.userStake := record], tokens := tokens))
  }

  /** `claim_rewards`: refuses a record with nothing pending, mints the pending rewards
      to the user's account on the pool's authority, signed with the
      `("staking_pool", vault, bump)` seeds, and clears them. */
  function ClaimRewardsSpec(rt: Runtime, poolKey: Pubkey, s: State, k: ClaimRewardsKeys, signers: set<Pubkey>)
    : (r: Result<State, AnchorError>)
    ensures r.Ok? ==> ClaimRewardsAccounts(rt, poolKey, s, k, signers).Ok? && s.stakes[k.userStake].pendingRewards != 0
    ensures r.Ok? ==> && r.value.pool == s.pool && r.value.stakes.Keys == s.stakes.Keys
                      && r.value.stakes[k.userStake].pendingRewards == 0
    ensures r.Ok? ==> r.value.tokens.Keys == s.tokens.Keys && r.value.mints.Keys == s.mints.Keys
  {
    var _ :- ClaimRewardsAccounts(rt, poolKey, s, k, signers);
    var pool, record := s.pool.value, s.stakes[k.userStake];
    var _ :- Need(record.pendingRewards != 0, InvalidArgument);
    var signer := CreatePda(rt, ClaimSignerSeeds(k.vault, pool.bump));
    var minted :- MintTo(s.tokens, s.mints, k.mint, k.userToken, poolKey, poolKey in signers + {signer},
                         record.pendingRewards).MapErr(AsTokenFailure);
    Ok(s.(stakes := s.stakes[k.userStake := record.(pendingRewards := 0)], tokens := minted.0, mints := minted.1))
  }

  // ------------------------------------------------------------------ dispatch

  /** An instruction of the program with its accounts and arguments. */
  datatype Instruction =
    | InitializePool(initKeys: InitializePoolKeys, rewardRate: u64)
    | Stake(stakeKeys: StakeKeys, amount: u64)
    | Unstake(unstakeKeys: UnstakeKeys, amount: u64)
    | ClaimRewards(claimKeys: ClaimRewardsKeys)

  /** One transaction: the instruction, who signed it, and the clock's `unix_timestamp`. */
  datatype Call = Call(instruction: Instruction, signers: set<Pubkey>, now: i64)

  /** One transaction. Only `initialize_pool` can succeed before the pool exists, and a
      pool exists after every transaction that succeeds. No instruction creates or closes
      a token account or a mint. */
  function Execute(rt: Runtime, poolKey: Pubkey, s: State, c: Call): (r: Result<State, AnchorError>)
    ensures r.Ok? && !c.instruction.InitializePool? ==> s.pool.Some?
    ensures r.Ok? ==> r.value.pool.Some?
    ensures r.Ok? ==> r.value.tokens.Keys == s.tokens.Keys && r.value.mints.Keys == s.mints.Keys
  {
    match c.instruction
    case InitializePool(k, rate) => InitializePoolSpec(rt, poolKey, s, k, c.signers, rate)
    case Stake(k, amount) => StakeSpec(rt, poolKey, s, k, c.signers, amount, c.now)
    case Unstake(k, amount) => UnstakeSpec(rt, poolKey, s, k, c.signers, amount, c.now)
    case ClaimRewards(k) => ClaimRewardsSpec(rt, poolKey, s, k, c.signers)
  }

  /** The state after an instruction: its writes when it succeeded, the old state when
      it failed. */
  function Commit(s: State, result: Result<State, AnchorError>): (r: State)
    ensures result.Err? ==> r == s
    ensures result.Ok? ==> r == result.value
  {
    if result.Ok? then result.value else s
  }

  /** The state after a sequence of transactions, each applied to the state the previous
      one left. Once the pool exists, no run of transactions removes it, and the token
      accounts and mints stay the same set of keys, so a well-formed state stays so. */
  function Run(rt: Runtime, poolKey: Pubkey, s: State, calls: seq<Call>): (r: State)
    ensures s.pool.Some? ==> r.pool.Some?
    ensures r.tokens.Keys == s.tokens.Keys && r.mints.Keys == s.mints.Keys
    ensures WellFormed(s) ==> WellFormed(r)
    decreases |calls|
  {
    if calls == [] then s
    else Run(rt, poolKey, Commit(s, Execute(rt, poolKey, s, calls[0])), calls[1..])
  }
}
