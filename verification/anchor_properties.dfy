/** What the Anchor handlers do, stated against their definitions: the records each one
    writes, the checks that make it fail, the accrual arithmetic, and the pool invariant
    that `total_stake` is the sum of the stake records' `amount` modulo 2^64, kept by
    every sequence of transactions. */
module AnchorProperties {
  import opened Wrappers
  import opened Int
  import opened Borsh
  import opened Chain
  import opened Sums
  import opened AnchorState
  import opened AnchorContext
  import opened AnchorProgram

  // ------------------------------------------------------------------ accrual

  /** `(now - last) as u64` is the elapsed time whenever the clock has not gone back. */
  lemma ElapsedBits(now: i64, last: i64)
    requires last <= now
    ensures AsU64(WrappingSubI64(now, last)) == now - last
  {
    var d := (now - last) % U64_LIMIT;
    assert d == now - last;
  }

  lemma MulAtLeast(x: nat, y: nat)
    requires y >= 1
    ensures x <= x * y
  {
  }

  /** Without overflow, the accrual adds exactly elapsed time × rate × principal. */
  lemma AccrueExact(record: UserStakeAccount, rate: u64, now: i64)
    requires record.lastStakeTime <= now
    requires record.pendingRewards + (now - record.lastStakeTime) * rate * record.amount < U64_LIMIT
    ensures Accrue(record, rate, now).pendingRewards
            == record.pendingRewards + (now - record.lastStakeTime) * rate * record.amount
  {
    var d := now - record.lastStakeTime;
    ElapsedBits(now, record.lastStakeTime);
    if record.amount > 0 {
      MulAtLeast(d * rate, record.amount);
    }
  }

  /** Accruing over `[t0, t1]` and then over `[t1, t2]` gives what one accrual over
      `[t0, t2]` gives, when the rate and the principal stay the same and nothing
      overflows. */
  lemma AccrueSegments(record: UserStakeAccount, rate: u64, t1: i64, t2: i64)
    requires record.lastStakeTime <= t1 <= t2
    requires record.pendingRewards + (t2 - record.lastStakeTime) * rate * record.amount < U64_LIMIT
    ensures Accrue(Accrue(record, rate, t1).(lastStakeTime := t1), rate, t2) == Accrue(record, rate, t2).(lastStakeTime := t1)
  {
    var t0 := record.lastStakeTime;
    Distribute(t1 - t0, t2 - t1, rate * record.amount);
    assert (t2 - t0) * rate * record.amount == (t1 - t0) * rate * record.amount + (t2 - t1) * rate * record.amount;
    AccrueExact(record, rate, t1);
    AccrueExact(Accrue(record, rate, t1).(lastStakeTime := t1), rate, t2);
    AccrueExact(record, rate, t2);
  }

  lemma Distribute(a: nat, b: nat, c: nat)
    ensures (a + b) * c == a * c + b * c
    ensures a * c >= 0 && b * c >= 0
  {
  }

  // ------------------------------------------------------------------ initialize_pool

  /** `initialize_pool` succeeds exactly when its accounts pass their constraints, and
      then creates the pool with the given authority, rate and vault, no stake, and bump 0:
      the value the freshly zeroed record held. Nothing else changes. */
  lemma InitializePoolEffect(rt: Runtime, poolKey: Pubkey, s: State, k: InitializePoolKeys,
                             signers: set<Pubkey>, rewardRate: u64)
    ensures InitializePoolSpec(rt, poolKey, s, k, signers, rewardRate).Ok?
            <==> InitializePoolAccounts(rt, poolKey, s, k, signers).Ok?
    ensures InitializePoolSpec(rt, poolKey, s, k, signers, rewardRate).Ok? ==>
      InitializePoolSpec(rt, poolKey, s, k, signers, rewardRate).value
        == s.(pool := Some(StakingPool(k.authority, rewardRate, k.vault, 0, 0)))
  {
  }

  /** A pool is created once: a second `initialize_pool` fails whatever its arguments. */
  lemma InitializePoolOnce(rt: Runtime, poolKey: Pubkey, s: State, k: InitializePoolKeys, signers: set<Pubkey>,
                           rewardRate: u64, k2: InitializePoolKeys, signers2: set<Pubkey>, rewardRate2: u64)
    requires InitializePoolSpec(rt, poolKey, s, k, signers, rewardRate).Ok?
    ensures var s1 := InitializePoolSpec(rt, poolKey, s, k, signers, rewardRate).value;
      InitializePoolSpec(rt, poolKey, s1, k2, signers2, rewardRate2).Err?
  {
    InitializePoolEffect(rt, poolKey, s, k, signers, rewardRate);
    var s1 := InitializePoolSpec(rt, poolKey, s, k, signers, rewardRate).value;
    InitializePoolEffect(rt, poolKey, s1, k2, signers2, rewardRate2);
  }

  /** The test's pool: a vault of the mint owned by the pool address derived from the
      mint, and a rate of 1_000_000. The pool then records the authority, the rate and
      the vault. */
  lemma InitializePoolScenario(rt: Runtime, s: State, authority: Pubkey, vault: Pubkey, mint: Pubkey)
    requires s.pool.None? && mint in s.mints && vault in s.tokens
    requires s.tokens[vault].mint == mint && s.tokens[vault].owner == FindPda(rt, PoolSeeds(mint)).0
    ensures var r := InitializePoolSpec(rt, FindPda(rt, PoolSeeds(mint)).0, s, InitializePoolKeys(authority, vault, mint),
                                        {authority}, 1_000_000);
      && r.Ok? && r.value.pool.Some?
      && r.value.pool.value.authority == authority
      && r.value.pool.value.rewardRate == 1_000_000
      && r.value.pool.value.vault == vault
  {
    InitializePoolEffect(rt, FindPda(rt, PoolSeeds(mint)).0, s, InitializePoolKeys(authority, vault, mint),
                         {authority}, 1_000_000);
  }

  // ------------------------------------------------------------------ stake

  /** `stake` succeeds exactly when its accounts pass, the source account belongs to the
      user and holds the mint's tokens, the vault belongs to the pool and the transfer
      goes through; the checks fail in that order. */
  lemma StakeChecks(rt: Runtime, poolKey: Pubkey, s: State, k: StakeKeys, signers: set<Pubkey>, amount: u64, now: i64)
    requires StakeAccounts(rt, poolKey, s, k, signers).Ok?
    ensures var r := StakeSpec(rt, poolKey, s, k, signers, amount, now);
      && (r.Ok? <==> s.tokens[k.userToken].owner == k.user && s.tokens[k.userToken].mint == k.mint
                     && s.tokens[k.vault].owner == poolKey
                     && Transfer(s.tokens, k.userToken, k.vault, k.user, true, amount).Ok?)
      && (s.tokens[k.userToken].owner != k.user ==> r == Err(IllegalOwner))
      && (s.tokens[k.userToken].owner == k.user && s.tokens[k.userToken].mint != k.mint ==> r == Err(InvalidAccountData))
      && (s.tokens[k.userToken].owner == k.user && s.tokens[k.vault].owner != poolKey ==> r == Err(InvalidAccountData))
  {
  }

  /** A successful `stake` creates the user's record holding the deposit, no pending
      rewards and the current time, adds the deposit to the pool total, and moves the
      tokens from the user's account to the vault. */
  lemma StakeEffect(rt: Runtime, poolKey: Pubkey, s: State, k: StakeKeys, signers: set<Pubkey>, amount: u64, now: i64)
    requires StakeSpec(rt, poolKey, s, k, signers, amount, now).Ok?
    ensures var after := StakeSpec(rt, poolKey, s, k, signers, amount, now).value;
      && k.userStake !in s.stakes && s.pool.Some?
      && after.stakes == s.stakes[k.userStake := UserStakeAccount(k.user, amount, 0, now)]
      && after.pool == Some(s.pool.value.(totalStake := WrappingAdd(s.pool.value.totalStake, amount)))
      && after.mints == s.mints
      && (k.userToken != k.vault ==>
            after.tokens == s.tokens[k.userToken := s.tokens[k.userToken].(amount := s.tokens[k.userToken].amount - amount)]
                                    [k.vault := s.tokens[k.vault].(amount := s.tokens[k.vault].amount + amount)])
  {
  }

  // ------------------------------------------------------------------ unstake

  /** Withdrawing more than the record holds fails. */
  lemma UnstakeTooMuch(rt: Runtime, poolKey: Pubkey, s: State, k: UnstakeKeys, signers: set<Pubkey>, amount: u64, now: i64)
    requires UnstakeAccounts(rt, poolKey, s, k, signers).Ok?
    requires amount > s.stakes[k.userStake].amount
    ensures UnstakeSpec(rt, poolKey, s, k, signers, amount, now) == Err(InvalidArgument)
  {
  }

  /** A successful `unstake` accrues on the principal held before it, lowers the
      principal and the pool total by the same amount, restarts the accrual clock, and
      moves the tokens from the vault to the user's account. */
  lemma UnstakeEffect(rt: Runtime, poolKey: Pubkey, s: State, k: UnstakeKeys, signers: set<Pubkey>, amount: u64, now: i64)
    requires UnstakeSpec(rt, poolKey, s, k, signers, amount, now).Ok?
    ensures var after := UnstakeSpec(rt, poolKey, s, k, signers, amount, now).value;
      && s.pool.Some? && k.userStake in s.stakes
      && var before := s.stakes[k.userStake];
      && amount <= before.amount
      && after.stakes == s.stakes[k.userStake := UserStakeAccount(before.owner, before.amount - amount,
                                                                 Accrue(before, s.pool.value.rewardRate, now).pendingRewards, now)]
      && after.pool == Some(s.pool.value.(totalStake := WrappingSub(s.pool.value.totalStake, amount)))
      && after.mints == s.mints
      && (k.userToken != k.vault ==>
            after.tokens == s.tokens[k.vault := s.tokens[k.vault].(amount := s.tokens[k.vault].amount - amount)]
                                    [k.userToken := s.tokens[k.userToken].(amount := s.tokens[k.userToken].amount + amount)])
  {
  }

  /** Staked 100 at t = 1000 at rate 2, unstaking 40 at t = 1100 leaves 60 staked and
      20000 pending. */
  lemma UnstakeScenario(rt: Runtime, poolKey: Pubkey, s: State, k: UnstakeKeys, signers: set<Pubkey>)
    requires UnstakeSpec(rt, poolKey, s, k, signers, 40, 1100).Ok?
    requires k.userStake in s.stakes && s.stakes[k.userStake] == UserStakeAccount(k.user, 100, 0, 1000)
    requires s.pool.Some? && s.pool.value.rewardRate == 2
    ensures UnstakeSpec(rt, poolKey, s, k, signers, 40, 1100).value.stakes[k.userStake]
            == UserStakeAccount(k.user, 60, 20000, 1100)
  {
    UnstakeEffect(rt, poolKey, s, k, signers, 40, 1100);
    AccrueExact(s.stakes[k.userStake], 2, 1100);
  }

  // ------------------------------------------------------------------ claim_rewards

  /** With nothing pending, `claim_rewards` fails. */
  lemma ClaimRewardsRejectsNothing(rt: Runtime, poolKey: Pubkey, s: State, k: ClaimRewardsKeys, signers: set<Pubkey>)
    requires ClaimRewardsAccounts(rt, poolKey, s, k, signers).Ok?
    requires s.stakes[k.userStake].pendingRewards == 0
    ensures ClaimRewardsSpec(rt, poolKey, s, k, signers) == Err(InvalidArgument)
  {
  }

  /** A successful `claim_rewards` mints exactly the pending rewards to the user's
      account, raising the mint's supply by the same, and clears them; the principal,
      the accrual clock and the pool are untouched. */
  lemma ClaimRewardsEffect(rt: Runtime, poolKey: Pubkey, s: State, k: ClaimRewardsKeys, signers: set<Pubkey>)
    requires ClaimRewardsSpec(rt, poolKey, s, k, signers).Ok?
    ensures var after := ClaimRewardsSpec(rt, poolKey, s, k, signers).value;
      && k.userStake in s.stakes && k.userToken in s.tokens && k.mint in s.mints
      && var record := s.stakes[k.userStake];
      && record.pendingRewards > 0
      && after.stakes == s.stakes[k.userStake := record.(pendingRewards := 0)]
      && after.pool == s.pool
      && after.tokens == s.tokens[k.userToken := s.tokens[k.userToken].(amount := s.tokens[k.userToken].amount + record.pendingRewards)]
      && after.mints == s.mints[k.mint := s.mints[k.mint].(supply := s.mints[k.mint].supply + record.pendingRewards)]
  {
  }

  // ------------------------------------------------------------------ the pool total

  function StakeAmount(r: UserStakeAccount): int { r.amount }

  /** The principal held by all stake records. */
  ghost function Staked(s: State): int {
    SumBy(s.stakes, StakeAmount)
  }

  /** Stake records exist only once the pool does, and the pool's `total_stake` is
      their principal summed with the wrap-around of the unchecked `+=` and `-=`. */
  ghost predicate Balanced(s: State) {
    && (s.pool.None? ==> s.stakes == map[])
    && (s.pool.Some? ==> s.pool.value.totalStake == Staked(s) % U64_LIMIT)
  }

  lemma ModUnique(x: int, p: int, r: int)
    requires 0 <= r < U64_LIMIT && x == p * U64_LIMIT + r
    ensures x % U64_LIMIT == r
  {
  }

  /** Reducing before adding `b` does not change the result modulo 2^64. */
  lemma ModShift(a: int, b: int)
    ensures (a % U64_LIMIT + b) % U64_LIMIT == (a + b) % U64_LIMIT
  {
    var x := a % U64_LIMIT + b;
    ModUnique(a + b, a / U64_LIMIT + x / U64_LIMIT, x % U64_LIMIT);
  }

  lemma InitializePoolKeepsBalanced(rt: Runtime, poolKey: Pubkey, s: State, k: InitializePoolKeys,
                                    signers: set<Pubkey>, rewardRate: u64)
    requires Balanced(s)
    ensures Balanced(Commit(s, InitializePoolSpec(rt, poolKey, s, k, signers, rewardRate)))
  {
    InitializePoolEffect(rt, poolKey, s, k, signers, rewardRate);
  }

  lemma StakeKeepsBalanced(rt: Runtime, poolKey: Pubkey, s: State, k: StakeKeys, signers: set<Pubkey>, amount: u64, now: i64)
    requires Balanced(s)
    ensures Balanced(Commit(s, StakeSpec(rt, poolKey, s, k, signers, amount, now)))
  {
    if StakeSpec(rt, poolKey, s, k, signers, amount, now).Ok? {
      StakeEffect(rt, poolKey, s, k, signers, amount, now);
      SumByUpdate(s.stakes, StakeAmount, k.userStake, UserStakeAccount(k.user, amount, 0, now));
      ModShift(Staked(s), amount);
    }
  }

  lemma UnstakeKeepsBalanced(rt: Runtime, poolKey: Pubkey, s: State, k: UnstakeKeys, signers: set<Pubkey>, amount: u64, now: i64)
    requires Balanced(s)
    ensures Balanced(Commit(s, UnstakeSpec(rt, poolKey, s, k, signers, amount, now)))
  {
    if UnstakeSpec(rt, poolKey, s, k, signers, amount, now).Ok? {
      UnstakeEffect(rt, poolKey, s, k, signers, amount, now);
      var before := s.stakes[k.userStake];
      var record := UserStakeAccount(before.owner, before.amount - amount,
                                     Accrue(before, s.pool.value.rewardRate, now).pendingRewards, now);
      SumByUpdate(s.stakes, StakeAmount, k.userStake, record);
      var withdrawn: int := amount;
      ModShift(Staked(s), -withdrawn);
    }
  }

  lemma ClaimRewardsKeepsBalanced(rt: Runtime, poolKey: Pubkey, s: State, k: ClaimRewardsKeys, signers: set<Pubkey>)
    requires Balanced(s)
    ensures Balanced(Commit(s, ClaimRewardsSpec(rt, poolKey, s, k, signers)))
  {
    if ClaimRewardsSpec(rt, poolKey, s, k, signers).Ok? {
      ClaimRewardsEffect(rt, poolKey, s, k, signers);
      var record := s.stakes[k.userStake];
      SumByUpdate(s.stakes, StakeAmount, k.userStake, record.(pendingRewards := 0));
    }
  }

  /** Every transaction keeps the pool total balanced, whether it succeeds or fails. */
  lemma ExecuteKeepsBalanced(rt: Runtime, poolKey: Pubkey, s: State, c: Call)
    requires Balanced(s)
    ensures Balanced(Commit(s, Execute(rt, poolKey, s, c)))
  {
    match c.instruction
    case InitializePool(k, rate) => InitializePoolKeepsBalanced(rt, poolKey, s, k, c.signers, rate);
    case Stake(k, amount) => StakeKeepsBalanced(rt, poolKey, s, k, c.signers, amount, c.now);
    case Unstake(k, amount) => UnstakeKeepsBalanced(rt, poolKey, s, k, c.signers, amount, c.now);
    case ClaimRewards(k) => ClaimRewardsKeepsBalanced(rt, poolKey, s, k, c.signers);
  }

  /** And so does every sequence of transactions. */
  lemma {:induction false} RunKeepsBalanced(rt: Runtime, poolKey: Pubkey, s: State, calls: seq<Call>)
    requires Balanced(s)
    ensures Balanced(Run(rt, poolKey, s, calls))
    decreases |calls|
  {
    if calls != [] {
      ExecuteKeepsBalanced(rt, poolKey, s, calls[0]);
      RunKeepsBalanced(rt, poolKey, Commit(s, Execute(rt, poolKey, s, calls[0])), calls[1..]);
    }
  }

  /** A run extended by one more transaction ends where that transaction, applied to the
      state the run left, ends. */
  lemma {:induction false} RunExtend(rt: Runtime, poolKey: Pubkey, s: State, calls: seq<Call>, c: Call)
    ensures var t := Run(rt, poolKey, s, calls);
      Run(rt, poolKey, s, calls + [c]) == Commit(t, Execute(rt, poolKey, t, c))
    decreases |calls|
  {
    if calls != [] {
      assert (calls + [c])[1..] == calls[1..] + [c];
      RunExtend(rt, poolKey, Commit(s, Execute(rt, poolKey, s, calls[0])), calls[1..], c);
    }
  }

  /** While the staked principal fits in a u64, the pool total is exactly that principal. */
  lemma TotalIsSum(s: State)
    requires Balanced(s) && s.pool.Some?
    requires Staked(s) < U64_LIMIT
    ensures s.pool.value.totalStake == Staked(s)
  {
    SumByNonNegative(s.stakes, StakeAmount);
  }

  /** From an empty pool, after any sequence of transactions whose stakes sum to less
      than 2^64, `total_stake` is the sum of the stake records' `amount`. */
  lemma RunTotalIsSum(rt: Runtime, poolKey: Pubkey, tokens: map<Pubkey, TokenAccount>, mints: map<Pubkey, Mint>,
                      calls: seq<Call>)
    requires var s := Run(rt, poolKey, State(None, map[], tokens, mints), calls);
      s.pool.Some? && Staked(s) < U64_LIMIT
    ensures var s := Run(rt, poolKey, State(None, map[], tokens, mints), calls);
      s.pool.value.totalStake == Staked(s)
  {
    RunKeepsBalanced(rt, poolKey, State(None, map[], tokens, mints), calls);
    TotalIsSum(Run(rt, poolKey, State(None, map[], tokens, mints), calls));
  }

  // ------------------------------------------------------------------ records persist

  /** No transaction removes a stake record. */
  lemma ExecuteKeepsRecords(rt: Runtime, poolKey: Pubkey, s: State, c: Call)
    ensures s.stakes.Keys <= Commit(s, Execute(rt, poolKey, s, c)).stakes.Keys
  {
    match c.instruction
    case InitializePool(k, rate) => InitializePoolEffect(rt, poolKey, s, k, c.signers, rate);
    case Stake(k, amount) =>
      if StakeSpec(rt, poolKey, s, k, c.signers, amount, c.now).Ok? {
        StakeEffect(rt, poolKey, s, k, c.signers, amount, c.now);
      }
    case Unstake(k, amount) =>
      if UnstakeSpec(rt, poolKey, s, k, c.signers, amount, c.now).Ok? {
        UnstakeEffect(rt, poolKey, s, k, c.signers, amount, c.now);
      }
    case ClaimRewards(k) =>
      if ClaimRewardsSpec(rt, poolKey, s, k, c.signers).Ok? {
        ClaimRewardsEffect(rt, poolKey, s, k, c.signers);
      }
  }

  lemma {:induction false} RunKeepsRecords(rt: Runtime, poolKey: Pubkey, s: State, calls: seq<Call>)
    ensures s.stakes.Keys <= Run(rt, poolKey, s, calls).stakes.Keys
    decreases |calls|
  {
    if calls != [] {
      ExecuteKeepsRecords(rt, poolKey, s, calls[0]);
      RunKeepsRecords(rt, poolKey, Commit(s, Execute(rt, poolKey, s, calls[0])), calls[1..]);
    }
  }
}
