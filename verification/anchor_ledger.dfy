/** The Anchor handlers as they run: the pool and stake records are loaded, changed one
    field at a time as `lib.rs` does through `&mut`, and written back when the handler
    returns `Ok`; an error leaves every account as it was. Each method is proved to end
    in the state the handler's function gives, and to keep the pool total balanced. */
module AnchorLedger {
  import opened Wrappers
  import opened Int
  import opened Chain
  import opened AnchorState
  import opened AnchorContext
  import opened AnchorProgram
  import opened AnchorProperties

  /** The accounts of one pool: its record at `poolKey`, the stake records, and the token
      accounts and mints the handlers touch. */
  class Ledger {
    const rt: Runtime
    const poolKey: Pubkey
    var pool: Option<StakingPool>
    var stakes: map<Pubkey, UserStakeAccount>
    var tokens: map<Pubkey, TokenAccount>
    var mints: map<Pubkey, Mint>

    /** A pool address with no pool yet, beside the given token accounts and mints. */
    constructor (rt: Runtime, poolKey: Pubkey, tokens: map<Pubkey, TokenAccount>, mints: map<Pubkey, Mint>)
      ensures Valid()
      ensures this.rt == rt && this.poolKey == poolKey
      ensures Snapshot() == State(None, map[], tokens, mints)
    {
      this.rt := rt;
      this.poolKey := poolKey;
      this.pool := None;
      this.stakes := map[];
      this.tokens := tokens;
      this.mints := mints;
    }

    function Snapshot(): State
      reads this
    {
      State(pool, stakes, tokens, mints)
    }

    ghost predicate Valid()
      reads this
    {
      Balanced(Snapshot())
    }

    method InitializePool(k: InitializePoolKeys, signers: set<Pubkey>, rewardRate: u64) returns (r: Result<(), AnchorError>)
      requires Valid()
      modifies this
      ensures Valid()
      ensures r == InitializePoolSpec(rt, poolKey, old(Snapshot()), k, signers, rewardRate).Status()
      ensures Snapshot() == Commit(old(Snapshot()), InitializePoolSpec(rt, poolKey, old(Snapshot()), k, signers, rewardRate))
    {
      InitializePoolKeepsBalanced(rt, poolKey, Snapshot(), k, signers, rewardRate);
      var _ :- InitializePoolAccounts(rt, poolKey, Snapshot(), k, signers);
      var created := ZeroPool();
      var bump := created.bump;
      created := created.(authority := k.authority);
      created := created.(rewardRate := rewardRate);
      created := created.(vault := k.vault);
      created := created.(totalStake := 0);
      created := created.(bump := bump);
      pool := Some(created);
      return Ok(());
    }

    method Stake(k: StakeKeys, signers: set<Pubkey>, amount: u64, now: i64) returns (r: Result<(), AnchorError>)
      requires Valid()
      modifies this
      ensures Valid()
      ensures r == StakeSpec(rt, poolKey, old(Snapshot()), k, signers, amount, now).Status()
      ensures Snapshot() == Commit(old(Snapshot()), StakeSpec(rt, poolKey, old(Snapshot()), k, signers, amount, now))
    {
      StakeKeepsBalanced(rt, poolKey, Snapshot(), k, signers, amount, now);
      var _ :- StakeAccounts(rt, poolKey, Snapshot(), k, signers);
      var source, vault := tokens[k.userToken], tokens[k.vault];
      if source.owner != k.user { return Err(IllegalOwner); }
      if source.mint != k.mint { return Err(InvalidAccountData); }
      if vault.owner != poolKey { return Err(InvalidAccountData); }
      var current := pool.value;
      var record := ZeroStake();
      if record.amount > 0 {
        record := Accrue(record, current.rewardRate, now);
      }
      var moved := Transfer(tokens, k.userToken, k.vault, k.user, k.user in signers, amount);
      if moved.Err? { return Err(TokenFailure(moved.error)); }
      record := record.(amount := WrappingAdd(record.amount, amount));
      record := record.(lastStakeTime := now);
      record := record.(owner := k.user);
      current := current.(totalStake := WrappingAdd(current.totalStake, amount));
      pool, stakes, tokens := Some(current), stakes[k.userStake := record], moved.value;
      return Ok(());
    }

    method Unstake(k: UnstakeKeys, signers: set<Pubkey>, amount: u64, now: i64) returns (r: Result<(), AnchorError>)
      requires Valid()
      modifies this
      ensures Valid()
      ensures r == UnstakeSpec(rt, poolKey, old(Snapshot()), k, signers, amount, now).Status()
      ensures Snapshot() == Commit(old(Snapshot()), UnstakeSpec(rt, poolKey, old(Snapshot()), k, signers, amount, now))
    {
      UnstakeKeepsBalanced(rt, poolKey, Snapshot(), k, signers, amount, now);
      var _ :- UnstakeAccounts(rt, poolKey, Snapshot(), k, signers);
      var current, record := pool.value, stakes[k.userStake];
      if amount > record.amount { return Err(InvalidArgument); }
      record := Accrue(record, current.rewardRate, now);
      record := record.(amount := record.amount - amount);
      current := current.(totalStake := WrappingSub(current.totalStake, amount));
      record := record.(lastStakeTime := now);
      var signer := CreatePda(rt, UnstakeSignerSeeds(poolKey, current.bump));
      var moved := Transfer(tokens, k.vault, k.userToken, poolKey, poolKey in signers + {signer}, amount);
      if moved.Err? { return Err(TokenFailure(moved.error)); }
      pool, stakes, tokens := Some(current), stakes[k.userStake := record], moved.value;
      return Ok(());
    }

    method ClaimRewards(k: ClaimRewardsKeys, signers: set<Pubkey>) returns (r: Result<(), AnchorError>)
      requires Valid()
      modifies this
      ensures Valid()
      ensures r == ClaimRewardsSpec(rt, poolKey, old(Snapshot()), k, signers).Status()
      ensures Snapshot() == Commit(old(Snapshot()), ClaimRewardsSpec(rt, poolKey, old(Snapshot()), k, signers))
    {
      ClaimRewardsKeepsBalanced(rt, poolKey, Snapshot(), k, signers);
      var _ :- ClaimRewardsAccounts(rt, poolKey, Snapshot(), k, signers);
      var record := stakes[k.userStake];
      if record.pendingRewards == 0 { return Err(InvalidArgument); }
      var signer := CreatePda(rt, ClaimSignerSeeds(k.vault, pool.value.bump));
      var owed := record.pendingRewards;
      var minted := MintTo(tokens, mints, k.mint, k.userToken, poolKey, poolKey in signers + {signer}, owed);
      if minted.Err? { return Err(TokenFailure(minted.error)); }
      record := record.(pendingRewards := 0);
      stakes, tokens, mints := stakes[k.userStake := record], minted.value.0, minted.value.1;
      return Ok(());
    }

    /** The program's dispatcher: one transaction against this pool. */
    method Process(c: Call) returns (r: Result<(), AnchorError>)
      requires Valid()
      modifies this
      ensures Valid()
      ensures r == Execute(rt, poolKey, old(Snapshot()), c).Status()
      ensures Snapshot() == Commit(old(Snapshot()), Execute(rt, poolKey, old(Snapshot()), c))
    {
      match c.instruction
      case InitializePool(k, rate) => r := InitializePool(k, c.signers, rate);
      case Stake(k, amount) => r := Stake(k, c.signers, amount, c.now);
      case Unstake(k, amount) => r := Unstake(k, c.signers, amount, c.now);
      case ClaimRewards(k) => r := ClaimRewards(k, c.signers);
    }

    /** A sequence of transactions, one after the other. The i-th status is the outcome
        of the i-th call on the state the calls before it left. */
    method ProcessAll(calls: seq<Call>) returns (statuses: seq<Result<(), AnchorError>>)
      requires Valid()
      modifies this
      ensures Valid()
      ensures |statuses| == |calls|
      ensures forall j :: 0 <= j < |calls| ==>
        statuses[j] == Execute(rt, poolKey, Run(rt, poolKey, old(Snapshot()), calls[..j]), calls[j]).Status()
      ensures Snapshot() == Run(rt, poolKey, old(Snapshot()), calls)
    {
      statuses := [];
      var i := 0;
      while i < |calls|
        invariant 0 <= i <= |calls| && |statuses| == i
        invariant Valid()
        invariant Snapshot() == Run(rt, poolKey, old(Snapshot()), calls[..i])
        invariant forall j :: 0 <= j < i ==>
          statuses[j] == Execute(rt, poolKey, Run(rt, poolKey, old(Snapshot()), calls[..j]), calls[j]).Status()
      {
        RunExtend(rt, poolKey, old(Snapshot()), calls[..i], calls[i]);
        assert calls[..i + 1] == calls[..i] + [calls[i]];
        var status := Process(calls[i]);
        statuses := statuses + [status];
        i := i + 1;
      }
      assert calls[..i] == calls;
    }
  }
}
