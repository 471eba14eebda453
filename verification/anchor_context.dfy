/** The account constraints of the Anchor draft. Before a handler runs, Anchor loads each
    account of the instruction's context in declaration order (a `Signer` must have signed,
    an `Account<T>` must hold a `T`), then checks each account's constraints in the same
    order (`seeds` with `bump` demand the canonical derived address, `init` demands that no
    account exists there yet, `constraint = …` must hold). Each context below is one
    function from the instruction's accounts to the first violated constraint, if any. */
module AnchorContext {
  import opened Wrappers
  import opened Int
  import opened Borsh
  import opened Chain
  import opened AnchorState

  /** Anchor's own errors for violated account constraints, the `ProgramError` kinds the
      handlers return, and a failing token-program call. `ArithmeticOverflow` is returned
      only by the corrected definitions beside the findings. */
  datatype AnchorError =
    | AccountNotInitialized
    | AccountNotSigner
    | ConstraintSeeds
    | ConstraintRaw
    | AccountAlreadyInUse
    | IllegalOwner
    | InvalidAccountData
    | InvalidArgument
    | TokenFailure(token: TokenError)
    | ArithmeticOverflow

  /** The accounts of one pool as the program sees them: the pool record (none before
      `initialize_pool`), the stake records by their address, and the SPL token accounts
      and mints. */
  datatype State = State(
    pool: Option<StakingPool>,
    stakes: map<Pubkey, UserStakeAccount>,
    tokens: map<Pubkey, TokenAccount>,
    mints: map<Pubkey, Mint>)

  /** On chain one address holds one account, so no key is both a token account and a
      mint (their layouts differ: 165 bytes against 82). */
  predicate WellFormed(s: State) {
    s.tokens.Keys !! s.mints.Keys
  }

  /** Seeds of a pool account: `("staking_pool", key)`. */
  function PoolSeeds(key: Pubkey): Seeds {
    [Label("staking_pool"), key]
  }

  /** Seeds of a user's stake account in a pool: `("user_stake", pool, user)`. */
  function StakeSeeds(pool: Pubkey, user: Pubkey): Seeds {
    [Label("user_stake"), pool, user]
  }

  /** `seeds = …, bump`: the account must sit at the canonical address of the seeds. */
  predicate AtSeeds(rt: Runtime, key: Pubkey, seeds: Seeds) {
    key == FindPda(rt, seeds).0
  }

  /** The accounts of each instruction besides the pool itself, as its `#[derive(Accounts)]`
      struct names them; the program, rent and system accounts are left out. */
  datatype InitializePoolKeys = InitializePoolKeys(authority: Pubkey, vault: Pubkey, mint: Pubkey)
  datatype StakeKeys = StakeKeys(user: Pubkey, userToken: Pubkey, vault: Pubkey, userStake: Pubkey, mint: Pubkey)
  datatype UnstakeKeys = UnstakeKeys(user: Pubkey, userToken: Pubkey, vault: Pubkey, userStake: Pubkey)
  datatype ClaimRewardsKeys = ClaimRewardsKeys(user: Pubkey, userToken: Pubkey, mint: Pubkey, vault: Pubkey, userStake: Pubkey)

  /** `InitializePool`: the pool is `init` at the address derived from the mint, the
      authority signs, the vault holds tokens of the mint and belongs to the pool. */
  function InitializePoolAccounts(rt: Runtime, poolKey: Pubkey, s: State, k: InitializePoolKeys, signers: set<Pubkey>)
    : (r: Result<(), AnchorError>)
    ensures r.Ok? <==>
      && k.authority in signers && k.vault in s.tokens && k.mint in s.mints
      && AtSeeds(rt, poolKey, PoolSeeds(k.mint)) && s.pool.None?
      && s.tokens[k.vault].mint == k.mint && s.tokens[k.vault].owner == poolKey
  {
    var _ :- Need(k.authority in signers, AccountNotSigner);
    var _ :- Need(k.vault in s.tokens && k.mint in s.mints, AccountNotInitialized);
    var _ :- Need(AtSeeds(rt, poolKey, PoolSeeds(k.mint)), ConstraintSeeds);
    var _ :- Need(s.pool.None?, AnchorError.AccountAlreadyInUse);
    var _ :- Need(s.tokens[k.vault].mint == k.mint, ConstraintRaw);
    Need(s.tokens[k.vault].owner == poolKey, ConstraintRaw)
  }

  /** `Stake`: the user signs, the pool is at the address derived from the vault, and the
      stake account is `init` at the address derived from the pool and the user. */
  function StakeAccounts(rt: Runtime, poolKey: Pubkey, s: State, k: StakeKeys, signers: set<Pubkey>)
    : (r: Result<(), AnchorError>)
    ensures r.Ok? <==>
      && k.user in signers && k.userToken in s.tokens && k.vault in s.tokens && s.pool.Some? && k.mint in s.mints
      && AtSeeds(rt, poolKey, PoolSeeds(k.vault)) && AtSeeds(rt, k.userStake, StakeSeeds(poolKey, k.user))
      && k.userStake !in s.stakes
  {
    var _ :- Need(k.user in signers, AccountNotSigner);
    var _ :- Need(k.userToken in s.tokens && k.vault in s.tokens && s.pool.Some? && k.mint in s.mints, AccountNotInitialized);
    var _ :- Need(AtSeeds(rt, poolKey, PoolSeeds(k.vault)), ConstraintSeeds);
    var _ :- Need(AtSeeds(rt, k.userStake, StakeSeeds(poolKey, k.user)), ConstraintSeeds);
    Need(k.userStake !in s.stakes, AnchorError.AccountAlreadyInUse)
  }

  /** `Unstake`: as `Stake`, except that the stake account must already exist. */
  function UnstakeAccounts(rt: Runtime, poolKey: Pubkey, s: State, k: UnstakeKeys, signers: set<Pubkey>)
    : (r: Result<(), AnchorError>)
    ensures r.Ok? <==>
      && k.user in signers && k.userToken in s.tokens && k.vault in s.tokens && s.pool.Some? && k.userStake in s.stakes
      && AtSeeds(rt, poolKey, PoolSeeds(k.vault)) && AtSeeds(rt, k.userStake, StakeSeeds(poolKey, k.user))
  {
    var _ :- Need(k.user in signers, AccountNotSigner);
    var _ :- Need(k.userToken in s.tokens && k.vault in s.tokens && s.pool.Some? && k.userStake in s.stakes, AccountNotInitialized);
    var _ :- Need(AtSeeds(rt, poolKey, PoolSeeds(k.vault)), ConstraintSeeds);
    Need(AtSeeds(rt, k.userStake, StakeSeeds(poolKey, k.user)), ConstraintSeeds)
  }

  /** `ClaimRewards`: as `Unstake`, with the reward mint as well. */
  function ClaimRewardsAccounts(rt: Runtime, poolKey: Pubkey, s: State, k: ClaimRewardsKeys, signers: set<Pubkey>)
    : (r: Result<(), AnchorError>)
    ensures r.Ok? <==>
      && k.user in signers && k.userToken in s.tokens && k.mint in s.mints && k.vault in s.tokens
      && s.pool.Some? && k.userStake in s.stakes
      && AtSeeds(rt, poolKey, PoolSeeds(k.vault)) && AtSeeds(rt, k.userStake, StakeSeeds(poolKey, k.user))
  {
    var _ :- Need(k.user in signers, AccountNotSigner);
    var _ :- Need(k.userToken in s.tokens && k.mint in s.mints && k.vault in s.tokens && s.pool.Some? && k.userStake in s.stakes,
                  AccountNotInitialized);
    var _ :- Need(AtSeeds(rt, poolKey, PoolSeeds(k.vault)), ConstraintSeeds);
    Need(AtSeeds(rt, k.userStake, StakeSeeds(poolKey, k.user)), ConstraintSeeds)
  }

  /** Different users of one pool get different stake accounts, unless the address
      derivation collides on their seeds. */
  lemma StakeAccountsDistinct(rt: Runtime, pool: Pubkey, user1: Pubkey, user2: Pubkey)
    requires user1 != user2
    requires NoCollision(rt, Concat(StakeSeeds(pool, user1)) + [rt.canonicalBump(Concat(StakeSeeds(pool, user1)))],
                             Concat(StakeSeeds(pool, user2)) + [rt.canonicalBump(Concat(StakeSeeds(pool, user2)))])
    ensures FindPda(rt, StakeSeeds(pool, user1)).0 != FindPda(rt, StakeSeeds(pool, user2)).0
  {
    var seeds1, seeds2 := StakeSeeds(pool, user1), StakeSeeds(pool, user2);
    var b1, b2 := rt.canonicalBump(Concat(seeds1)), rt.canonicalBump(Concat(seeds2));
    ConcatBump(seeds1, b1);
    ConcatBump(seeds2, b2);
    var tag := Label("user_stake");
    assert Concat(seeds1) == tag + pool + user1 by { ConcatThree(tag, pool, user1); }
    assert Concat(seeds2) == tag + pool + user2 by { ConcatThree(tag, pool, user2); }
    var c1, c2 := tag + pool + user1 + [b1], tag + pool + user2 + [b2];
    assert c1[|tag| + 32..|tag| + 64] == user1;
    assert c2[|tag| + 32..|tag| + 64] == user2;
  }
}
