/** The native draft's instruction data: a Borsh enum, one variant-index byte followed by
    the variant's fields. The enum declares `InitializePool` and `Stake`; the processor
    also dispatches `UnStake` and `ClaimRewards`, which take the next two indices here. */
module NativeInstruction {
  import opened Wrappers
  import opened Int
  import opened Borsh

  datatype StakingInstruction =
    | InitializePool(rewardRate: u64)
    | Stake(amount: u64)
    | UnStake(amount: u64)
    | ClaimRewards

  function VariantIndex(i: StakingInstruction): (r: u8)
    ensures r < 4
  {
    match i
    case InitializePool(_) => 0
    case Stake(_) => 1
    case UnStake(_) => 2
    case ClaimRewards => 3
  }

  /** The variant byte, then the `u64` field when the variant has one. */
  function Encode(i: StakingInstruction): (r: Bytes)
    ensures |r| >= 1 && r[0] == VariantIndex(i)
    ensures |r| == if i.ClaimRewards? then 1 else 9
  {
    match i
    case InitializePool(rate) => [0] + EncodeU64(rate)
    case Stake(amount) => [1] + EncodeU64(amount)
    case UnStake(amount) => [2] + EncodeU64(amount)
    case ClaimRewards => [3]
  }

  /** `StakingInstruction::try_from_slice`: an empty input, an unknown variant index, a
      missing field byte or a trailing byte is rejected. */
  function Decode(b: Bytes): (r: Option<StakingInstruction>)
    ensures r.Some? <==> |b| >= 1 && b[0] < 4 && |b| == (if b[0] == 3 then 1 else 9)
  {
    if |b| == 0 then None
    else if b[0] == 3 then (if |b| == 1 then Some(ClaimRewards) else None)
    else if b[0] > 3 || |b| != 9 then None
    else
      var field := DecodeU64(b[1..]);
      if b[0] == 0 then Some(InitializePool(field))
      else if b[0] == 1 then Some(Stake(field))
      else Some(UnStake(field))
  }

  /** `InitializePool { reward_rate: r }` is the byte 0 followed by `r` little-endian, as the
      native test builds it by hand, and `Stake { amount: a }` is the byte 1 followed by `a`. */
  lemma DeclaredVariantBytes(r: u64, a: u64)
    ensures Encode(InitializePool(r)) == [0] + LittleEndian(r, 8)
    ensures Encode(Stake(a)) == [1] + LittleEndian(a, 8)
    ensures Decode([0] + LittleEndian(r, 8)) == Some(InitializePool(r))
    ensures Decode([1] + LittleEndian(a, 8)) == Some(Stake(a))
  {
    DecodeAfterEncode(InitializePool(r));
    DecodeAfterEncode(Stake(a));
  }

  lemma DecodeAfterEncode(i: StakingInstruction)
    ensures Decode(Encode(i)) == Some(i)
  {
    match i
    case InitializePool(rate) =>
      assert Encode(i)[1..] == EncodeU64(rate);
      DecodeEncodeU64(rate);
    case Stake(amount) =>
      assert Encode(i)[1..] == EncodeU64(amount);
      DecodeEncodeU64(amount);
    case UnStake(amount) =>
      assert Encode(i)[1..] == EncodeU64(amount);
      DecodeEncodeU64(amount);
    case ClaimRewards =>
  }

  lemma EncodeAfterDecode(b: Bytes)
    requires Decode(b).Some?
    ensures Encode(Decode(b).value) == b
  {
    if b[0] != 3 {
      EncodeDecodeU64(b[1..]);
      assert b == [b[0]] + b[1..];
    }
  }
}
