/** The two records of the native draft and their Borsh layout. Both are a 32-byte key
    followed by two `u64` fields, so both are 48 bytes; a record is read with
    `try_from_slice`, which fails unless the whole buffer is consumed. */
module NativeState {
  import opened Wrappers
  import opened Int
  import opened Borsh

  /** The pool record: `admin`, `reward_rate`, `total_staked`. */
  datatype StakingPool = StakingPool(admin: Bytes32, rewardRate: u64, totalStaked: u64)

  /** A user's stake record: `staker`, `amount`, `last_stake_time`. */
  datatype UserStakeInfo = UserStakeInfo(staker: Bytes32, amount: u64, lastStakeTime: u64)

  /** `size_of` of either record and the length of its encoding: 32 + 8 + 8, with no
      padding since the key's 32 bytes keep the two `u64`s 8-aligned. */
  const RECORD_SIZE: nat := 48

  /** The layout both records share: key bytes, then two little-endian `u64`s. */
  function EncodeKeyAndTwo(key: Bytes32, first: u64, second: u64): (r: Bytes)
    ensures |r| == RECORD_SIZE
    ensures r[..32] == key && r[32..40] == EncodeU64(first) && r[40..] == EncodeU64(second)
  {
    key + EncodeU64(first) + EncodeU64(second)
  }

  /** `try_from_slice` for that layout: exactly 48 bytes, or nothing. */
  function DecodeKeyAndTwo(b: Bytes): (r: Option<(Bytes32, u64, u64)>)
    ensures r.Some? <==> |b| == RECORD_SIZE
  {
    if |b| != RECORD_SIZE then None
    else Some((b[..32], DecodeU64(b[32..40]), DecodeU64(b[40..])))
  }

  lemma DecodeEncodeKeyAndTwo(key: Bytes32, first: u64, second: u64)
    ensures DecodeKeyAndTwo(EncodeKeyAndTwo(key, first, second)) == Some((key, first, second))
  {
    DecodeEncodeU64(first);
    DecodeEncodeU64(second);
  }

  lemma EncodeDecodeKeyAndTwo(b: Bytes)
    requires |b| == RECORD_SIZE
    ensures EncodeKeyAndTwo(DecodeKeyAndTwo(b).value.0, DecodeKeyAndTwo(b).value.1, DecodeKeyAndTwo(b).value.2) == b
  {
    EncodeDecodeU64(b[32..40]);
    EncodeDecodeU64(b[40..]);
    assert b == b[..32] + b[32..40] + b[40..];
  }

  function EncodePool(p: StakingPool): (r: Bytes)
    ensures |r| == RECORD_SIZE
    ensures r[..32] == p.admin
  {
    EncodeKeyAndTwo(p.admin, p.rewardRate, p.totalStaked)
  }

  function DecodePool(b: Bytes): (r: Option<StakingPool>)
    ensures r.Some? <==> |b| == RECORD_SIZE
  {
    match DecodeKeyAndTwo(b)
    case Some((admin, rate, total)) => Some(StakingPool(admin, rate, total))
    case None => None
  }

  function EncodeInfo(s: UserStakeInfo): (r: Bytes)
    ensures |r| == RECORD_SIZE
    ensures r[..32] == s.staker
  {
    EncodeKeyAndTwo(s.staker, s.amount, s.lastStakeTime)
  }

  function DecodeInfo(b: Bytes): (r: Option<UserStakeInfo>)
    ensures r.Some? <==> |b| == RECORD_SIZE
  {
    match DecodeKeyAndTwo(b)
    case Some((staker, amount, last)) => Some(UserStakeInfo(staker, amount, last))
    case None => None
  }

  /** The pool layout: admin bytes, then `reward_rate` and `total_staked` little-endian. */
  lemma PoolLayout(p: StakingPool)
    ensures EncodePool(p)[..32] == p.admin
    ensures DecodeU64(EncodePool(p)[32..40]) == p.rewardRate
    ensures DecodeU64(EncodePool(p)[40..48]) == p.totalStaked
  {
    DecodeEncodeU64(p.rewardRate);
    DecodeEncodeU64(p.totalStaked);
    assert EncodePool(p)[40..48] == EncodePool(p)[40..];
  }

  /** The stake-record layout: staker bytes, then `amount` and `last_stake_time`. */
  lemma InfoLayout(s: UserStakeInfo)
    ensures EncodeInfo(s)[..32] == s.staker
    ensures DecodeU64(EncodeInfo(s)[32..40]) == s.amount
    ensures DecodeU64(EncodeInfo(s)[40..48]) == s.lastStakeTime
  {
    DecodeEncodeU64(s.amount);
    DecodeEncodeU64(s.lastStakeTime);
    assert EncodeInfo(s)[40..48] == EncodeInfo(s)[40..];
  }

  lemma DecodeEncodePool(p: StakingPool)
    ensures DecodePool(EncodePool(p)) == Some(p)
  {
    DecodeEncodeKeyAndTwo(p.admin, p.rewardRate, p.totalStaked);
  }

  lemma EncodeDecodePool(b: Bytes)
    requires DecodePool(b).Some?
    ensures EncodePool(DecodePool(b).value) == b
  {
    EncodeDecodeKeyAndTwo(b);
  }

  lemma DecodeEncodeInfo(s: UserStakeInfo)
    ensures DecodeInfo(EncodeInfo(s)) == Some(s)
  {
    DecodeEncodeKeyAndTwo(s.staker, s.amount, s.lastStakeTime);
  }

  lemma EncodeDecodeInfo(b: Bytes)
    requires DecodeInfo(b).Some?
    ensures EncodeInfo(DecodeInfo(b).value) == b
  {
    EncodeDecodeKeyAndTwo(b);
  }

  /** A freshly allocated, all-zero pool account reads as a pool with nothing staked (and
      a zero admin key and rate), which is what lets the first initialisation through. */
  lemma ZeroPool()
    ensures DecodePool(Zeros(RECORD_SIZE)) == Some(StakingPool(Zeros(32), 0, 0))
  {
    var z := Zeros(RECORD_SIZE);
    assert z[32..40] == Zeros(8) && z[40..] == Zeros(8);
    FromLittleEndianZeros(8);
    assert z[..32] == Zeros(32);
  }

  /** An all-zero record buffer, as `create_account` leaves a new stake record, reads as a
      record holding nothing. */
  lemma ZeroInfo()
    ensures DecodeInfo(Zeros(RECORD_SIZE)) == Some(UserStakeInfo(Zeros(32), 0, 0))
  {
    var z := Zeros(RECORD_SIZE);
    assert z[32..40] == Zeros(8) && z[40..] == Zeros(8);
    FromLittleEndianZeros(8);
    assert z[..32] == Zeros(32);
  }
}
