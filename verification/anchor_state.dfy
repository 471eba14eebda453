/** The two account records of the Anchor draft and their stored form. An Anchor account
    holds an 8-byte discriminator that names the record type, followed by the record's
    Borsh body; loading it checks the discriminator and reads the body from the front of
    what follows, ignoring any trailing bytes. The discriminator itself (a hash of the type
    name) is taken as a given tag. */
module AnchorState {
  import opened Wrappers
  import opened Int
  import opened Borsh

  /** `StakingPool`: `authority`, `reward_rate`, `vault`, `total_stake`, `bump`. */
  datatype StakingPool = StakingPool(authority: Bytes32, rewardRate: u64, vault: Bytes32, totalStake: u64, bump: u8)

  /** `UserStakeAccount`: `owner`, `amount`, `pending_rewards`, `last_stake_time` (signed). */
  datatype UserStakeAccount = UserStakeAccount(owner: Bytes32, amount: u64, pendingRewards: u64, lastStakeTime: i64)

  type Discriminator = b: Bytes | |b| == 8 witness seq(8, _ => 0)

  const DISCRIMINATOR_SIZE: nat := 8
  const POOL_BODY_SIZE: nat := 32 + 8 + 32 + 8 + 1
  const STAKE_BODY_SIZE: nat := 32 + 8 + 8 + 8

  /** `StakingPool::INIT_SPACE`, which counts the discriminator. */
  const POOL_INIT_SPACE: nat := 8 + 32 + 8 + 32 + 8 + 1
  /** `UserStakeAccount::INIT_SPACE`, which also counts the discriminator. */
  const STAKE_INIT_SPACE: nat := 8 + 32 + 8 + 8 + 8
  /** The `space` of the pool account at its `init`. */
  const POOL_ALLOCATED: nat := 8 + 32 + 8 + 32 + 8 + 1
  /** The `space` of a stake account at its `init`: `8 + UserStakeAccount::INIT_SPACE`. */
  const STAKE_ALLOCATED: nat := 8 + STAKE_INIT_SPACE

  // ------------------------------------------------------------------ record bodies

  function EncodePoolBody(p: StakingPool): (r: Bytes)
    ensures |r| == POOL_BODY_SIZE
    ensures r[..32] == p.authority && r[40..72] == p.vault && r[80] == p.bump
  {
    p.authority + EncodeU64(p.rewardRate) + p.vault + EncodeU64(p.totalStake) + [p.bump]
  }

  /** Reads a pool body from the first 81 bytes of `b`. */
  function DecodePoolBody(b: Bytes): (r: StakingPool)
    requires |b| >= POOL_BODY_SIZE
    ensures r.authority == b[..32] && r.vault == b[40..72] && r.bump == b[80]
  {
    StakingPool(b[..32], DecodeU64(b[32..40]), b[40..72], DecodeU64(b[72..80]), b[80])
  }

  function EncodeStakeBody(s: UserStakeAccount): (r: Bytes)
    ensures |r| == STAKE_BODY_SIZE
    ensures r[..32] == s.owner
  {
    s.owner + EncodeU64(s.amount) + EncodeU64(s.pendingRewards) + EncodeI64(s.lastStakeTime)
  }

  /** Reads a stake body from the first 56 bytes of `b`. */
  function DecodeStakeBody(b: Bytes): (r: UserStakeAccount)
    requires |b| >= STAKE_BODY_SIZE
    ensures r.owner == b[..32]
  {
    UserStakeAccount(b[..32], DecodeU64(b[32..40]), DecodeU64(b[40..48]), DecodeI64(b[48..56]))
  }

  lemma DecodeEncodePoolBody(p: StakingPool, rest: Bytes)
    ensures DecodePoolBody(EncodePoolBody(p) + rest) == p
  {
    var b := EncodePoolBody(p) + rest;
    assert b[32..40] == EncodeU64(p.rewardRate);
    assert b[72..80] == EncodeU64(p.totalStake);
    DecodeEncodeU64(p.rewardRate);
    DecodeEncodeU64(p.totalStake);
  }

  lemma EncodeDecodePoolBody(b: Bytes)
    requires |b| >= POOL_BODY_SIZE
    ensures EncodePoolBody(DecodePoolBody(b)) == b[..POOL_BODY_SIZE]
  {
    EncodeDecodeU64(b[32..40]);
    EncodeDecodeU64(b[72..80]);
    assert b[..POOL_BODY_SIZE] == b[..32] + b[32..40] + b[40..72] + b[72..80] + [b[80]];
  }

  lemma DecodeEncodeStakeBody(s: UserStakeAccount, rest: Bytes)
    ensures DecodeStakeBody(EncodeStakeBody(s) + rest) == s
  {
    var b := EncodeStakeBody(s) + rest;
    assert b[32..40] == EncodeU64(s.amount);
    assert b[40..48] == EncodeU64(s.pendingRewards);
    assert b[48..56] == EncodeI64(s.lastStakeTime);
    DecodeEncodeU64(s.amount);
    DecodeEncodeU64(s.pendingRewards);
    DecodeEncodeI64(s.lastStakeTime);
  }

  lemma EncodeDecodeStakeBody(b: Bytes)
    requires |b| >= STAKE_BODY_SIZE
    ensures EncodeStakeBody(DecodeStakeBody(b)) == b[..STAKE_BODY_SIZE]
  {
    EncodeDecodeU64(b[32..40]);
    EncodeDecodeU64(b[40..48]);
    EncodeDecodeI64(b[48..56]);
    assert b[..STAKE_BODY_SIZE] == b[..32] + b[32..40] + b[40..48] + b[48..56];
  }

  // ------------------------------------------------------------------ whole accounts

  /** What an account of the record holds: the discriminator, then the body. */
  function EncodePoolAccount(tag: Discriminator, p: StakingPool): (r: Bytes)
    ensures |r| == DISCRIMINATOR_SIZE + POOL_BODY_SIZE && r[..8] == tag
  {
    tag + EncodePoolBody(p)
  }

  /** `Account<StakingPool>` loading: the data must start with the tag and hold a whole
      body after it; bytes beyond the body are ignored. */
  function DecodePoolAccount(tag: Discriminator, data: Bytes): (r: Option<StakingPool>)
    ensures r.Some? <==> |data| >= DISCRIMINATOR_SIZE + POOL_BODY_SIZE && data[..8] == tag
  {
    if |data| < DISCRIMINATOR_SIZE + POOL_BODY_SIZE || data[..8] != tag then None
    else Some(DecodePoolBody(data[8..]))
  }

  function EncodeStakeAccount(tag: Discriminator, s: UserStakeAccount): (r: Bytes)
    ensures |r| == DISCRIMINATOR_SIZE + STAKE_BODY_SIZE && r[..8] == tag
  {
    tag + EncodeStakeBody(s)
  }

  function DecodeStakeAccount(tag: Discriminator, data: Bytes): (r: Option<UserStakeAccount>)
    ensures r.Some? <==> |data| >= DISCRIMINATOR_SIZE + STAKE_BODY_SIZE && data[..8] == tag
  {
    if |data| < DISCRIMINATOR_SIZE + STAKE_BODY_SIZE || data[..8] != tag then None
    else Some(DecodeStakeBody(data[8..]))
  }

  /** A stored pool reads back as itself, whatever follows it in the account. */
  lemma DecodeEncodePoolAccount(tag: Discriminator, p: StakingPool, rest: Bytes)
    ensures DecodePoolAccount(tag, EncodePoolAccount(tag, p) + rest) == Some(p)
  {
    var data := EncodePoolAccount(tag, p) + rest;
    assert data[..8] == tag;
    assert data[8..] == EncodePoolBody(p) + rest;
    DecodeEncodePoolBody(p, rest);
  }

  /** Whatever loads as a pool is the stored form of that pool, followed by ignored bytes. */
  lemma EncodeDecodePoolAccount(tag: Discriminator, data: Bytes)
    requires DecodePoolAccount(tag, data).Some?
    ensures EncodePoolAccount(tag, DecodePoolAccount(tag, data).value) == data[..DISCRIMINATOR_SIZE + POOL_BODY_SIZE]
  {
    EncodeDecodePoolBody(data[8..]);
    assert data[8..][..POOL_BODY_SIZE] == data[8..DISCRIMINATOR_SIZE + POOL_BODY_SIZE];
    assert data[..DISCRIMINATOR_SIZE + POOL_BODY_SIZE] == data[..8] + data[8..DISCRIMINATOR_SIZE + POOL_BODY_SIZE];
  }

  lemma DecodeEncodeStakeAccount(tag: Discriminator, s: UserStakeAccount, rest: Bytes)
    ensures DecodeStakeAccount(tag, EncodeStakeAccount(tag, s) + rest) == Some(s)
  {
    var data := EncodeStakeAccount(tag, s) + rest;
    assert data[..8] == tag;
    assert data[8..] == EncodeStakeBody(s) + rest;
    DecodeEncodeStakeBody(s, rest);
  }

  lemma EncodeDecodeStakeAccount(tag: Discriminator, data: Bytes)
    requires DecodeStakeAccount(tag, data).Some?
    ensures EncodeStakeAccount(tag, DecodeStakeAccount(tag, data).value) == data[..DISCRIMINATOR_SIZE + STAKE_BODY_SIZE]
  {
    EncodeDecodeStakeBody(data[8..]);
    assert data[8..][..STAKE_BODY_SIZE] == data[8..DISCRIMINATOR_SIZE + STAKE_BODY_SIZE];
    assert data[..DISCRIMINATOR_SIZE + STAKE_BODY_SIZE] == data[..8] + data[8..DISCRIMINATOR_SIZE + STAKE_BODY_SIZE];
  }

  // ------------------------------------------------------------------ space

  /** The pool's `INIT_SPACE` and its allocation are 89 bytes, exactly the discriminator
      and the 81-byte body, so a stored pool fills its account. */
  lemma PoolSpace(tag: Discriminator, p: StakingPool)
    ensures POOL_BODY_SIZE == 81 && POOL_INIT_SPACE == 89 && POOL_ALLOCATED == POOL_INIT_SPACE
    ensures |EncodePoolAccount(tag, p)| == POOL_ALLOCATED
  {
  }

  /** The stake record's `INIT_SPACE` (64) already counts the discriminator beside the
      56-byte body, so the allocation `8 + INIT_SPACE` = 72 leaves 8 unused bytes; a
      stored record still reads back from its zero-padded account. */
  lemma StakeSpace(tag: Discriminator, s: UserStakeAccount)
    ensures STAKE_BODY_SIZE == 56 && STAKE_INIT_SPACE == 64 && STAKE_ALLOCATED == 72
    ensures |EncodeStakeAccount(tag, s)| == STAKE_INIT_SPACE < STAKE_ALLOCATED
    ensures DecodeStakeAccount(tag, EncodeStakeAccount(tag, s) + Zeros(STAKE_ALLOCATED - STAKE_INIT_SPACE)) == Some(s)
  {
    DecodeEncodeStakeAccount(tag, s, Zeros(STAKE_ALLOCATED - STAKE_INIT_SPACE));
  }

  /** The record an `init` account holds before the handler writes it: `init` allocates
      zeroed data, which reads as all-zero fields. */
  function ZeroPool(): StakingPool {
    StakingPool(Zeros(32), 0, Zeros(32), 0, 0)
  }

  function ZeroStake(): UserStakeAccount {
    UserStakeAccount(Zeros(32), 0, 0, 0)
  }

  /** Zeroed data reads as the zero records; in particular a new pool's `bump` field is 0. */
  lemma ZeroBodies()
    ensures DecodePoolBody(Zeros(POOL_BODY_SIZE)) == ZeroPool()
    ensures DecodeStakeBody(Zeros(STAKE_BODY_SIZE)) == ZeroStake()
  {
    var z := Zeros(POOL_BODY_SIZE);
    assert z[32..40] == Zeros(8) && z[72..80] == Zeros(8) && z[..32] == Zeros(32) && z[40..72] == Zeros(32);
    var w := Zeros(STAKE_BODY_SIZE);
    assert w[32..40] == Zeros(8) && w[40..48] == Zeros(8) && w[48..56] == Zeros(8) && w[..32] == Zeros(32);
    FromLittleEndianZeros(8);
  }
}
