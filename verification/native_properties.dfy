/** What the native draft's handlers guarantee, stated over their specifications. */
module NativeProperties {
  import opened Wrappers
  import opened Int
  import opened Borsh
  import opened Sums
  import opened Chain
  import opened NativeState
  import opened NativeInstruction
  import opened NativeError
  import opened NativeProcessor

  /** The three account checks of `process_initialize_pool`, in order, and the re-init
      guard, which reads nothing of the stored pool but `total_staked`. */
  lemma InitializePoolChecks(rt: Runtime, s: State, metas: seq<AccountMeta>, rewardRate: u64)
    requires |metas| >= 3 && metas[2].key == rt.rentSysvarId
    ensures var account := AccountAt(s.accounts, metas[0].key);
      var r := InitializePoolSpec(rt, s, metas, rewardRate);
      && (!RentExempt(rt, account.lamports, |account.data|) ==> r == Err(AccountNotRentExempt))
      && (RentExempt(rt, account.lamports, |account.data|) && account.owner != rt.programId
          ==> r == Err(ProgramError.IncorrectProgramId))
      && (RentExempt(rt, account.lamports, |account.data|) && account.owner == rt.programId
          ==> (r.Ok? <==> DecodePool(account.data).Some? && DecodePool(account.data).value.totalStaked == 0))
      && (RentExempt(rt, account.lamports, |account.data|) && account.owner == rt.programId
          && DecodePool(account.data).Some? && DecodePool(account.data).value.totalStaked != 0
          ==> r == Err(AccountAlreadyInitialized))
  {
    var account := AccountAt(s.accounts, metas[0].key);
    if RentExempt(rt, account.lamports, |account.data|) && account.owner == rt.programId
       && DecodePool(account.data).Some? && DecodePool(account.data).value.totalStaked == 0 {
      assert |EncodePool(StakingPool(metas[1].key, rewardRate, 0))| == |account.data|;
    }
  }

  /** A stored pool with a nonzero admin and rate but nothing staked is initialised
      again: the guard does not see that the pool is in use. */
  lemma ReinitializeOverwritesAdmin(rt: Runtime, s: State, metas: seq<AccountMeta>, rewardRate: u64,
                                    stored: StakingPool)
    requires |metas| >= 3 && metas[2].key == rt.rentSysvarId
    requires metas[0].key in s.accounts
    requires s.accounts[metas[0].key].owner == rt.programId
    requires RentExempt(rt, s.accounts[metas[0].key].lamports, RECORD_SIZE)
    requires s.accounts[metas[0].key].data == EncodePool(stored) && stored.totalStaked == 0
    ensures InitializePoolSpec(rt, s, metas, rewardRate).Ok?
    ensures DecodePool(InitializePoolSpec(rt, s, metas, rewardRate).value.accounts[metas[0].key].data)
            == Some(StakingPool(metas[1].key, rewardRate, 0))
  {
    DecodeEncodePool(stored);
    InitializePoolWrites(rt, s, metas, rewardRate);
  }

  /** What a successful initialisation stores: the admin's key, the given rate and a zero
      total, in place of the pool's whole buffer; nothing else changes. */
  lemma InitializePoolWrites(rt: Runtime, s: State, metas: seq<AccountMeta>, rewardRate: u64)
    requires InitializePoolSpec(rt, s, metas, rewardRate).Ok?
    ensures var after := InitializePoolSpec(rt, s, metas, rewardRate).value;
      && after.tokens == s.tokens
      && metas[0].key in after.accounts
      && after.accounts[metas[0].key].data == EncodePool(StakingPool(metas[1].key, rewardRate, 0))
      && DecodePool(after.accounts[metas[0].key].data) == Some(StakingPool(metas[1].key, rewardRate, 0))
      && after.accounts[metas[0].key].lamports == s.accounts[metas[0].key].lamports
      && forall k :: k in s.accounts && k != metas[0].key ==> k in after.accounts && after.accounts[k] == s.accounts[k]
  {
    var pool := metas[0].key;
    var written := EncodePool(StakingPool(metas[1].key, rewardRate, 0));
    var after := InitializePoolSpec(rt, s, metas, rewardRate).value;
    assert |AccountAt(s.accounts, pool).data| == |written|;
    assert after.accounts[pool].data[..|written|] == written;
    assert after.accounts[pool].data == written;
    DecodeEncodePool(StakingPool(metas[1].key, rewardRate, 0));
  }

  /** The test's scenario: a fresh 48-byte, rent-exempt pool account owned by the program,
      initialised with rate 5 by the payer, holds admin = payer, rate 5 and total 0. */
  lemma InitializePoolScenario(rt: Runtime, s: State, pool: Pubkey, payer: Pubkey)
    requires s.accounts == map[pool := Account(rt.minimumBalance(RECORD_SIZE), rt.programId, Zeros(RECORD_SIZE))]
    ensures var metas := [AccountMeta(pool, false), AccountMeta(payer, true), AccountMeta(rt.rentSysvarId, false)];
      var r := InitializePoolSpec(rt, s, metas, 5);
      r.Ok? && DecodePool(r.value.accounts[pool].data) == Some(StakingPool(payer, 5, 0))
  {
    var metas := [AccountMeta(pool, false), AccountMeta(payer, true), AccountMeta(rt.rentSysvarId, false)];
    ZeroPool();
    assert InitializePoolSpec(rt, s, metas, 5).Ok?;
    InitializePoolWrites(rt, s, metas, 5);
  }

  /** `process_stake` refuses a stake-record account that is not the one derived from
      `("user-stake", wallet, pool)`; the state is then left as it was. */
  lemma StakeWrongRecordRejected(rt: Runtime, s: State, metas: seq<AccountMeta>, amount: u64, now: i64)
    requires |metas| >= 8
    requires metas[4].key != FindPda(rt, StakeSeeds(metas[2].key, metas[0].key)).0
    ensures StakeSpec(rt, s, metas, amount, now) == Err(InvalidArgument)
    ensures Commit(s, StakeSpec(rt, s, metas, amount, now)) == s
  {
  }

  /** `process_unstake` refuses a stake record that is not the derived one with
      `StakingError::InvalidPda`, for any six or more accounts. */
  lemma UnstakeWrongRecordRejected(rt: Runtime, s: State, metas: seq<AccountMeta>, amount: u64)
    requires |metas| >= 6
    requires metas[4].key != FindPda(rt, StakeSeeds(metas[2].key, metas[0].key)).0
    ensures UnstakeSpec(rt, s, metas, amount) == Err(Custom(3))
    ensures Commit(s, UnstakeSpec(rt, s, metas, amount)) == s
  {
  }

  /** `process_claim_rewards` refuses a stake record that is not the derived one with
      `StakingError::InvalidPda`, for any seven or more accounts. */
  lemma ClaimWrongRecordRejected(rt: Runtime, s: State, metas: seq<AccountMeta>, now: i64)
    requires |metas| >= 7
    requires metas[4].key != FindPda(rt, StakeSeeds(metas[2].key, metas[0].key)).0
    ensures ClaimRewardsSpec(rt, s, metas, now) == Err(Custom(3))
    ensures Commit(s, ClaimRewardsSpec(rt, s, metas, now)) == s
  {
  }

  /** The SPL instruction builder refuses a token-program account other than the token
      program with `IncorrectProgramId` before anything is invoked: `process_stake`
      never succeeds with it, and fails with that error once the record check passes
      and the record exists. */
  lemma StakeWrongTokenProgram(rt: Runtime, s: State, metas: seq<AccountMeta>, amount: u64, now: i64)
    requires |metas| >= 8 && metas[5].key != rt.tokenProgramId
    ensures StakeSpec(rt, s, metas, amount, now).Err?
    ensures !StakeSpec(rt, s, metas, amount, now).error.TokenFailure?
    ensures metas[4].key == FindPda(rt, StakeSeeds(metas[2].key, metas[0].key)).0
            && AccountAt(s.accounts, metas[4].key).data != []
            ==> StakeSpec(rt, s, metas, amount, now) == Err(ProgramError.IncorrectProgramId)
  {
  }

  /** `process_unstake` never succeeds with a foreign token program, and fails with
      `IncorrectProgramId` once the record and balance checks pass. */
  lemma UnstakeWrongTokenProgram(rt: Runtime, s: State, metas: seq<AccountMeta>, amount: u64)
    requires |metas| >= 6 && metas[5].key != rt.tokenProgramId
    ensures UnstakeSpec(rt, s, metas, amount).Err?
    ensures !UnstakeSpec(rt, s, metas, amount).error.TokenFailure?
    ensures metas[4].key == FindPda(rt, StakeSeeds(metas[2].key, metas[0].key)).0
            && ReadInfo(s.accounts, metas[4].key).Ok? && amount <= ReadInfo(s.accounts, metas[4].key).value.amount
            ==> UnstakeSpec(rt, s, metas, amount) == Err(ProgramError.IncorrectProgramId)
  {
  }

  /** `process_claim_rewards` never succeeds with a foreign token program, and no
      token error can arise: the transfer is never reached. */
  lemma ClaimWrongTokenProgram(rt: Runtime, s: State, metas: seq<AccountMeta>, now: i64)
    requires |metas| >= 7 && metas[5].key != rt.tokenProgramId
    ensures ClaimRewardsSpec(rt, s, metas, now).Err?
    ensures !ClaimRewardsSpec(rt, s, metas, now).error.TokenFailure?
  {
  }

  /** Different (wallet, pool) pairs get different stake records, unless the address
      derivation collides on their seeds. */
  lemma StakeRecordsDistinct(rt: Runtime, wallet1: Pubkey, pool1: Pubkey, wallet2: Pubkey, pool2: Pubkey)
    requires (wallet1, pool1) != (wallet2, pool2)
    requires NoCollision(rt, Concat(StakeSeeds(wallet1, pool1)) + [rt.canonicalBump(Concat(StakeSeeds(wallet1, pool1)))],
                             Concat(StakeSeeds(wallet2, pool2)) + [rt.canonicalBump(Concat(StakeSeeds(wallet2, pool2)))])
    ensures FindPda(rt, StakeSeeds(wallet1, pool1)).0 != FindPda(rt, StakeSeeds(wallet2, pool2)).0
  {
    var seeds1, seeds2 := StakeSeeds(wallet1, pool1), StakeSeeds(wallet2, pool2);
    var b1, b2 := rt.canonicalBump(Concat(seeds1)), rt.canonicalBump(Concat(seeds2));
    ConcatBump(seeds1, b1);
    ConcatBump(seeds2, b2);
    var tag := Label("user-stake");
    assert Concat(seeds1) == tag + wallet1 + pool1 by { ConcatThree(tag, wallet1, pool1); }
    assert Concat(seeds2) == tag + wallet2 + pool2 by { ConcatThree(tag, wallet2, pool2); }
    var c1, c2 := tag + wallet1 + pool1 + [b1], tag + wallet2 + pool2 + [b2];
    if wallet1 != wallet2 {
      assert c1[|tag|..|tag| + 32] == wallet1;
      assert c2[|tag|..|tag| + 32] == wallet2;
    } else {
      assert c1[|tag| + 32..|tag| + 64] == pool1;
      assert c2[|tag| + 32..|tag| + 64] == pool2;
    }
  }

  /** The closing writes of a stake: the pool total grows by the deposit modulo 2^64 and
      the record's bytes start with the new record; no other account changes. */
  lemma RecordStakeEffect(rt: Runtime, accounts: map<Pubkey, Account>, pool: Pubkey, info: Pubkey,
                          record: UserStakeInfo, amount: u64)
    requires RecordStake(rt, accounts, pool, info, record, amount).Ok?
    requires pool != info
    ensures var after := RecordStake(rt, accounts, pool, info, record, amount).value;
      var before := DecodePool(AccountAt(accounts, pool).data);
      && before.Some?
      && DecodePool(after[pool].data) == Some(before.value.(totalStaked := WrappingAdd(before.value.totalStaked, amount)))
      && after[info].data[..RECORD_SIZE] == EncodeInfo(record)
      && (|AccountAt(accounts, info).data| == RECORD_SIZE ==> DecodeInfo(after[info].data) == Some(record))
      && forall k :: k in accounts && k != pool && k != info ==> k in after && after[k] == accounts[k]
  {
    var current := ReadPool(accounts, pool).value;
    var updated := current.(totalStaked := WrappingAdd(current.totalStaked, amount));
    var middle := WriteRecord(rt, accounts, pool, EncodePool(updated)).value;
    assert middle[pool].data == EncodePool(updated);
    DecodeEncodePool(updated);
    var after := WriteRecord(rt, middle, info, EncodeInfo(record)).value;
    assert after[pool] == middle[pool];
    if |AccountAt(accounts, info).data| == RECORD_SIZE {
      assert after[info].data == EncodeInfo(record);
      DecodeEncodeInfo(record);
    }
  }

  /** A successful stake: the deposit moves from the user's token account to the vault on
      the wallet's signature, the pool total grows by the deposit (modulo 2^64), and the
      stake record now reads `{wallet, deposit, now}`, whatever it held before. */
  lemma StakeEffect(rt: Runtime, s: State, metas: seq<AccountMeta>, amount: u64, now: i64)
    requires |metas| >= 8
    requires StakeSpec(rt, s, metas, amount, now).Ok?
    requires metas[0].key != metas[4].key
    ensures var after := StakeSpec(rt, s, metas, amount, now).value;
      var pool, info := metas[0].key, metas[4].key;
      var before := DecodePool(AccountAt(s.accounts, pool).data);
      && before.Some?
      && DecodePool(after.accounts[pool].data)
           == Some(before.value.(totalStaked := WrappingAdd(before.value.totalStaked, amount)))
      && after.accounts[info].data[..RECORD_SIZE] == EncodeInfo(UserStakeInfo(metas[2].key, amount, AsU64(now)))
      && (|AccountAt(s.accounts, info).data| in {0, RECORD_SIZE} ==>
            DecodeInfo(after.accounts[info].data) == Some(UserStakeInfo(metas[2].key, amount, AsU64(now))))
      && after.tokens == Transfer(s.tokens, metas[3].key, metas[1].key, metas[2].key, metas[2].key in Signers(metas), amount).value
  {
    var pool, wallet, info := metas[0].key, metas[2].key, metas[4].key;
    var bump := FindPda(rt, StakeSeeds(wallet, pool)).1;
    var accounts: map<Pubkey, Account> := s.accounts;
    if AccountAt(s.accounts, info).data == [] {
      var signers := CpiSigners(metas, {CreatePda(rt, StakeSeeds(wallet, pool) + [[bump]])});
      CreateAccountFrame(s.accounts, signers, wallet, info, rt.minimumBalance(RECORD_SIZE), RECORD_SIZE, rt.programId);
      accounts := CreateStakeRecord(rt, s.accounts, metas, wallet, pool, metas[7].key, bump).value;
    }
    assert AccountAt(accounts, pool).data == AccountAt(s.accounts, pool).data;
    assert |AccountAt(s.accounts, info).data| in {0, RECORD_SIZE} ==> |AccountAt(accounts, info).data| == RECORD_SIZE;
    RecordStakeEffect(rt, accounts, pool, info, UserStakeInfo(wallet, amount, AsU64(now)), amount);
  }

  /** What else a successful stake changes: nothing but the pool, the record and the
      wallet. The wallet pays the record's rent-exempt minimum when the record is created,
      and the new record holds exactly that and belongs to the program; the pool's and
      an existing record's lamports stay as they were. */
  lemma StakeFrame(rt: Runtime, s: State, metas: seq<AccountMeta>, amount: u64, now: i64)
    requires |metas| >= 8
    requires StakeSpec(rt, s, metas, amount, now).Ok?
    ensures var after := StakeSpec(rt, s, metas, amount, now).value.accounts;
      var pool, wallet, info := metas[0].key, metas[2].key, metas[4].key;
      var created := AccountAt(s.accounts, info).data == [];
      && (forall k :: k in s.accounts && k != pool && k != info && k != wallet ==> k in after && after[k] == s.accounts[k])
      && (wallet != info ==>
            AccountAt(after, wallet).lamports
            == AccountAt(s.accounts, wallet).lamports - (if created then rt.minimumBalance(RECORD_SIZE) else 0))
      && (created ==> AccountAt(after, info).lamports == rt.minimumBalance(RECORD_SIZE) && AccountAt(after, info).owner == rt.programId)
      && (!created ==> AccountAt(after, info).lamports == AccountAt(s.accounts, info).lamports)
      && (pool != wallet && pool != info ==> AccountAt(after, pool).lamports == AccountAt(s.accounts, pool).lamports)
  {
    var pool, wallet, info := metas[0].key, metas[2].key, metas[4].key;
    var prepared := StakeSteps(rt, s, metas, amount, now);
    RecordStakeKeeps(rt, prepared, pool, info, UserStakeInfo(wallet, amount, AsU64(now)), amount);
    if AccountAt(s.accounts, info).data == [] {
      CreateStakeRecordFrame(rt, s.accounts, metas, wallet, pool, metas[7].key, FindPda(rt, StakeSeeds(wallet, pool)).1);
    }
    var after := RecordStake(rt, prepared, pool, info, UserStakeInfo(wallet, amount, AsU64(now)), amount).value;
    forall k | k in s.accounts && k != pool && k != info && k != wallet
      ensures k in after && after[k] == s.accounts[k]
    {
      assert AccountAt(after, k) == AccountAt(s.accounts, k);
    }
  }

  /** A successful stake, step by step: the accounts once the record exists, and the
      closing writes over them, which succeeded. */
  lemma StakeSteps(rt: Runtime, s: State, metas: seq<AccountMeta>, amount: u64, now: i64)
    returns (prepared: map<Pubkey, Account>)
    requires |metas| >= 8
    requires StakeSpec(rt, s, metas, amount, now).Ok?
    ensures var pool, wallet, info := metas[0].key, metas[2].key, metas[4].key;
      && info == FindPda(rt, StakeSeeds(wallet, pool)).0
      && (AccountAt(s.accounts, info).data == [] ==>
            CreateStakeRecord(rt, s.accounts, metas, wallet, pool, metas[7].key, FindPda(rt, StakeSeeds(wallet, pool)).1) == Ok(prepared))
      && (AccountAt(s.accounts, info).data != [] ==> prepared == s.accounts)
      && RecordStake(rt, prepared, pool, info, UserStakeInfo(wallet, amount, AsU64(now)), amount).Ok?
      && StakeSpec(rt, s, metas, amount, now).value.accounts
         == RecordStake(rt, prepared, pool, info, UserStakeInfo(wallet, amount, AsU64(now)), amount).value
  {
    var pool, wallet, info := metas[0].key, metas[2].key, metas[4].key;
    prepared := s.accounts;
    if AccountAt(s.accounts, info).data == [] {
      prepared := CreateStakeRecord(rt, s.accounts, metas, wallet, pool, metas[7].key, FindPda(rt, StakeSeeds(wallet, pool)).1).value;
    }
  }

  /** Creating a record changes only the wallet, which pays the rent-exempt minimum, and
      the record, which now holds exactly that and belongs to the program. */
  lemma CreateStakeRecordFrame(rt: Runtime, accounts: map<Pubkey, Account>, metas: seq<AccountMeta>,
                               wallet: Pubkey, pool: Pubkey, rentSysvar: Pubkey, bump: u8)
    requires CreateStakeRecord(rt, accounts, metas, wallet, pool, rentSysvar, bump).Ok?
    ensures var after := CreateStakeRecord(rt, accounts, metas, wallet, pool, rentSysvar, bump).value;
      var record := CreatePda(rt, StakeSeeds(wallet, pool) + [[bump]]);
      && (forall k :: k != wallet && k != record ==> AccountAt(after, k) == AccountAt(accounts, k))
      && (forall k :: k in accounts && k != wallet && k != record ==> k in after)
      && (wallet != record ==>
            && AccountAt(after, wallet).lamports == AccountAt(accounts, wallet).lamports - rt.minimumBalance(RECORD_SIZE)
            && AccountAt(after, record).lamports == rt.minimumBalance(RECORD_SIZE)
            && AccountAt(after, record).owner == rt.programId)
  {
  }

  /** The closing writes of a stake change data only: every account keeps its lamports
      and owner, and accounts other than the pool and the record are untouched. */
  lemma RecordStakeKeeps(rt: Runtime, accounts: map<Pubkey, Account>, pool: Pubkey, info: Pubkey,
                         record: UserStakeInfo, amount: u64)
    requires RecordStake(rt, accounts, pool, info, record, amount).Ok?
    ensures var after := RecordStake(rt, accounts, pool, info, record, amount).value;
      && accounts.Keys <= after.Keys
      && (forall k :: k != pool && k != info ==> AccountAt(after, k) == AccountAt(accounts, k))
      && (forall k :: AccountAt(after, k).lamports == AccountAt(accounts, k).lamports
                      && AccountAt(after, k).owner == AccountAt(accounts, k).owner)
  {
    var current := ReadPool(accounts, pool).value;
    var middle := WriteRecord(rt, accounts, pool, EncodePool(current.(totalStaked := WrappingAdd(current.totalStaked, amount)))).value;
    var after := WriteRecord(rt, middle, info, EncodeInfo(record)).value;
    assert after == RecordStake(rt, accounts, pool, info, record, amount).value;
  }

  /** Unstaking more than the record holds fails with `InsufficientFunds` (and so changes
      nothing), once the record's address and bytes have been accepted. */
  lemma UnstakeInsufficient(rt: Runtime, s: State, metas: seq<AccountMeta>, amount: u64)
    requires |metas| >= 6
    requires metas[4].key == FindPda(rt, StakeSeeds(metas[2].key, metas[0].key)).0
    requires DecodeInfo(AccountAt(s.accounts, metas[4].key).data).Some?
    requires DecodeInfo(AccountAt(s.accounts, metas[4].key).data).value.amount < amount
    ensures UnstakeSpec(rt, s, metas, amount) == Err(ProgramError.InsufficientFunds)
    ensures Commit(s, UnstakeSpec(rt, s, metas, amount)) == s
  {
  }

  /** Closing a record moves all of its lamports to the wallet, leaves it with none and
      zeroes every data byte; the lamports of all accounts together are unchanged. */
  lemma CloseStakeRecordConserves(rt: Runtime, accounts: map<Pubkey, Account>, wallet: Pubkey, info: Pubkey)
    requires CloseStakeRecord(rt, accounts, wallet, info).Ok?
    requires wallet != info
    ensures var after := CloseStakeRecord(rt, accounts, wallet, info).value;
      && after[wallet].lamports + after[info].lamports
         == AccountAt(accounts, wallet).lamports + AccountAt(accounts, info).lamports
      && after[info].lamports == 0
      && |after[info].data| == |AccountAt(accounts, info).data|
      && (forall i :: 0 <= i < |after[info].data| ==> after[info].data[i] == 0)
      && Lamports(after) == Lamports(accounts)
  {
    var record := AccountAt(accounts, info);
    var owner := AccountAt(accounts, wallet);
    var credited: map<Pubkey, Account> := accounts[wallet := owner.(lamports := owner.lamports + record.lamports)];
    var emptied := AccountAt(credited, info);
    var after: map<Pubkey, Account> := credited[info := emptied.(lamports := 0, data := Zeros(|emptied.data|))];
    assert after == CloseStakeRecord(rt, accounts, wallet, info).value;
    SumByUpdate(accounts, LamportsOf, wallet, owner.(lamports := owner.lamports + record.lamports));
    SumByUpdate(credited, LamportsOf, info, emptied.(lamports := 0, data := Zeros(|emptied.data|)));
    assert emptied == record;
  }

  /** The closing writes of an unstake: the record is rewritten with the reduced amount and
      the pool total drops by the withdrawal (modulo 2^64); a record left at zero is then
      closed. */
  lemma RecordUnstakeEffect(rt: Runtime, accounts: map<Pubkey, Account>, pool: Pubkey, wallet: Pubkey,
                            info: Pubkey, record: UserStakeInfo, amount: u64)
    requires RecordUnstake(rt, accounts, pool, wallet, info, record, amount).Ok?
    requires pool != info && |AccountAt(accounts, info).data| == RECORD_SIZE
    ensures var after := RecordUnstake(rt, accounts, pool, wallet, info, record, amount).value;
      var before := DecodePool(AccountAt(accounts, pool).data);
      && before.Some?
      && DecodePool(after[pool].data) == Some(before.value.(totalStaked := WrappingSub(before.value.totalStaked, amount)))
      && (record.amount > 0 ==> DecodeInfo(after[info].data) == Some(record))
      && (record.amount == 0 ==> after[info].lamports == 0 && after[info].data == Zeros(RECORD_SIZE))
  {
    var written := RecordUnstakeWrites(rt, accounts, pool, wallet, info, record, amount);
    if record.amount == 0 {
      CloseKeepsData(rt, written, wallet, info, pool);
    } else {
      DecodeEncodeInfo(record);
    }
  }

  /** The two writes before the closing step, named so that the closing step can be
      reasoned about on its own. */
  lemma RecordUnstakeWrites(rt: Runtime, accounts: map<Pubkey, Account>, pool: Pubkey, wallet: Pubkey,
                            info: Pubkey, record: UserStakeInfo, amount: u64) returns (written: map<Pubkey, Account>)
    requires RecordUnstake(rt, accounts, pool, wallet, info, record, amount).Ok?
    requires pool != info && |AccountAt(accounts, info).data| == RECORD_SIZE
    ensures RecordUnstake(rt, accounts, pool, wallet, info, record, amount)
            == if record.amount == 0 then CloseStakeRecord(rt, written, wallet, info) else Ok(written)
    ensures DecodePool(AccountAt(accounts, pool).data).Some? && pool in written && info in written
    ensures DecodePool(written[pool].data)
            == Some(DecodePool(AccountAt(accounts, pool).data).value.(totalStaked := WrappingSub(DecodePool(AccountAt(accounts, pool).data).value.totalStaked, amount)))
    ensures written[info].data == EncodeInfo(record)
  {
    var middle: map<Pubkey, Account> := WriteRecord(rt, accounts, info, EncodeInfo(record)).value;
    assert middle[info].data == EncodeInfo(record);
    assert AccountAt(middle, pool).data == AccountAt(accounts, pool).data;
    var current := ReadPool(middle, pool).value;
    var updated := current.(totalStaked := WrappingSub(current.totalStaked, amount));
    written := WriteRecord(rt, middle, pool, EncodePool(updated)).value;
    assert written[pool].data == EncodePool(updated);
    DecodeEncodePool(updated);
    assert written[info] == middle[info];
  }

  /** Closing a record changes no other account's data. */
  lemma CloseKeepsData(rt: Runtime, accounts: map<Pubkey, Account>, wallet: Pubkey, info: Pubkey, other: Pubkey)
    requires CloseStakeRecord(rt, accounts, wallet, info).Ok?
    requires other != info && other in accounts
    ensures var after := CloseStakeRecord(rt, accounts, wallet, info).value;
      && other in after && after[other].data == accounts[other].data
      && after[info].lamports == 0 && after[info].data == Zeros(|AccountAt(accounts, info).data|)
  {
  }

  /** A successful unstake: the withdrawal moves from the vault to the user's token account
      on the vault authority's derived signature, and the record's amount and the pool
      total both drop by exactly the withdrawal (the total modulo 2^64). */
  lemma UnstakeEffect(rt: Runtime, s: State, metas: seq<AccountMeta>, amount: u64)
    requires |metas| >= 6
    requires UnstakeSpec(rt, s, metas, amount).Ok?
    requires metas[0].key != metas[4].key
    ensures var after := UnstakeSpec(rt, s, metas, amount).value;
      var pool, info := metas[0].key, metas[4].key;
      var record := DecodeInfo(AccountAt(s.accounts, info).data);
      var before := DecodePool(AccountAt(s.accounts, pool).data);
      && record.Some? && before.Some? && amount <= record.value.amount
      && DecodePool(after.accounts[pool].data) == Some(before.value.(totalStaked := WrappingSub(before.value.totalStaked, amount)))
      && (amount <= before.value.totalStaked ==> DecodePool(after.accounts[pool].data).value.totalStaked == before.value.totalStaked - amount)
      && (amount < record.value.amount ==>
            DecodeInfo(after.accounts[info].data) == Some(record.value.(amount := record.value.amount - amount)))
      && after.tokens == Transfer(s.tokens, metas[1].key, metas[3].key, FindPda(rt, VaultAuthoritySeeds()).0, true, amount).value
  {
    var record, moved, written := UnstakeSteps(rt, s, metas, amount);
    RecordUnstakeEffect(rt, s.accounts, metas[0].key, metas[2].key, metas[4].key, record.(amount := record.amount - amount), amount);
  }

  /** What else a successful unstake changes: nothing but the pool, the record and the
      wallet. The wallet receives all of the record's lamports when the withdrawal empties
      the record, and nothing otherwise; the pool keeps its lamports. */
  lemma UnstakeFrame(rt: Runtime, s: State, metas: seq<AccountMeta>, amount: u64)
    requires |metas| >= 6
    requires UnstakeSpec(rt, s, metas, amount).Ok?
    ensures var after := UnstakeSpec(rt, s, metas, amount).value.accounts;
      var pool, wallet, info := metas[0].key, metas[2].key, metas[4].key;
      var record := DecodeInfo(AccountAt(s.accounts, info).data);
      && record.Some?
      && (forall k :: k in s.accounts && k != pool && k != info && k != wallet ==> k in after && after[k] == s.accounts[k])
      && (wallet != info ==>
            AccountAt(after, wallet).lamports
            == AccountAt(s.accounts, wallet).lamports + (if amount == record.value.amount then AccountAt(s.accounts, info).lamports else 0))
      && (amount < record.value.amount ==> AccountAt(after, info).lamports == AccountAt(s.accounts, info).lamports)
      && (pool != wallet && pool != info ==> AccountAt(after, pool).lamports == AccountAt(s.accounts, pool).lamports)
  {
    var pool, wallet, info := metas[0].key, metas[2].key, metas[4].key;
    var record, moved, written := UnstakeSteps(rt, s, metas, amount);
    RecordUnstakeKeeps(rt, s.accounts, pool, wallet, info, record.(amount := record.amount - amount), amount);
    forall k | k in s.accounts && k != pool && k != info && k != wallet
      ensures k in written && written[k] == s.accounts[k]
    {
      assert AccountAt(written, k) == AccountAt(s.accounts, k);
    }
  }

  /** The closing writes of an unstake move lamports only when they close the record:
      then the record's lamports go to the wallet. No account is removed, no owner
      changes, and accounts other than the pool, the record and the wallet are untouched. */
  lemma RecordUnstakeKeeps(rt: Runtime, accounts: map<Pubkey, Account>, pool: Pubkey, wallet: Pubkey,
                           info: Pubkey, record: UserStakeInfo, amount: u64)
    requires RecordUnstake(rt, accounts, pool, wallet, info, record, amount).Ok?
    ensures var after := RecordUnstake(rt, accounts, pool, wallet, info, record, amount).value;
      && accounts.Keys <= after.Keys
      && (forall k :: k != pool && k != info && k != wallet ==> AccountAt(after, k) == AccountAt(accounts, k))
      && (forall k :: k != wallet && k != info ==> AccountAt(after, k).lamports == AccountAt(accounts, k).lamports)
      && (wallet != info ==>
            AccountAt(after, wallet).lamports
            == AccountAt(accounts, wallet).lamports + (if record.amount == 0 then AccountAt(accounts, info).lamports else 0))
      && (record.amount != 0 ==> AccountAt(after, info).lamports == AccountAt(accounts, info).lamports)
  {
    var middle := WriteRecord(rt, accounts, info, EncodeInfo(record)).value;
    var current := ReadPool(middle, pool).value;
    var written := WriteRecord(rt, middle, pool, EncodePool(current.(totalStaked := WrappingSub(current.totalStaked, amount)))).value;
    assert forall k :: AccountAt(written, k).lamports == AccountAt(accounts, k).lamports;
    assert forall k :: k != pool && k != info ==> AccountAt(written, k) == AccountAt(accounts, k);
    assert accounts.Keys <= written.Keys;
    if record.amount == 0 {
      assert RecordUnstake(rt, accounts, pool, wallet, info, record, amount) == CloseStakeRecord(rt, written, wallet, info);
      CloseStakeRecordMoves(rt, written, wallet, info);
    } else {
      assert RecordUnstake(rt, accounts, pool, wallet, info, record, amount) == Ok(written);
    }
  }

  /** Closing a record moves lamports from the record to the wallet and nowhere else,
      and removes no account. */
  lemma CloseStakeRecordMoves(rt: Runtime, accounts: map<Pubkey, Account>, wallet: Pubkey, info: Pubkey)
    requires CloseStakeRecord(rt, accounts, wallet, info).Ok?
    ensures var after := CloseStakeRecord(rt, accounts, wallet, info).value;
      && accounts.Keys <= after.Keys
      && (forall k :: k != info && k != wallet ==> AccountAt(after, k) == AccountAt(accounts, k))
      && (wallet != info ==>
            AccountAt(after, wallet).lamports == AccountAt(accounts, wallet).lamports + AccountAt(accounts, info).lamports)
  {
  }

  /** A successful unstake, step by step: the record it read, the token transfer and the
      closing writes, each of which succeeded. */
  lemma UnstakeSteps(rt: Runtime, s: State, metas: seq<AccountMeta>, amount: u64)
    returns (record: UserStakeInfo, moved: map<Pubkey, TokenAccount>, written: map<Pubkey, Account>)
    requires |metas| >= 6
    requires UnstakeSpec(rt, s, metas, amount).Ok?
    ensures ReadInfo(s.accounts, metas[4].key) == Ok(record) && amount <= record.amount
    ensures Transfer(s.tokens, metas[1].key, metas[3].key, FindPda(rt, VaultAuthoritySeeds()).0, true, amount) == Ok(moved)
    ensures RecordUnstake(rt, s.accounts, metas[0].key, metas[2].key, metas[4].key, record.(amount := record.amount - amount), amount)
            == Ok(written)
    ensures UnstakeSpec(rt, s, metas, amount) == Ok(State(written, moved))
  {
    var pool, wallet, info := metas[0].key, metas[2].key, metas[4].key;
    record := ReadInfo(s.accounts, info).value;
    var (authority, bump) := FindPda(rt, VaultAuthoritySeeds());
    assert authority in CpiSigners(metas, {CreatePda(rt, VaultAuthoritySeeds() + [[bump]])});
    moved := Transfer(s.tokens, metas[1].key, metas[3].key, authority, true, amount).value;
    written := RecordUnstake(rt, s.accounts, pool, wallet, info, record.(amount := record.amount - amount), amount).value;
  }

  /** An unstake that empties the record closes it: the wallet receives all of the
      record's lamports and the record's bytes are all zero; once the instruction ends the
      runtime drops the lamport-less record. */
  lemma UnstakeCloses(rt: Runtime, s: State, metas: seq<AccountMeta>, amount: u64)
    requires |metas| >= 6
    requires UnstakeSpec(rt, s, metas, amount).Ok?
    requires metas[0].key != metas[4].key
    requires DecodeInfo(AccountAt(s.accounts, metas[4].key).data).value.amount == amount
    ensures var after := UnstakeSpec(rt, s, metas, amount).value;
      && after.accounts[metas[4].key].lamports == 0
      && after.accounts[metas[4].key].data == Zeros(RECORD_SIZE)
      && metas[4].key !in Commit(s, UnstakeSpec(rt, s, metas, amount)).accounts
  {
    var record, moved, written := UnstakeSteps(rt, s, metas, amount);
    RecordUnstakeEffect(rt, s.accounts, metas[0].key, metas[2].key, metas[4].key, record.(amount := 0), amount);
  }

  /** How `process_claim_rewards` rejects a claim once the record, the pool and the clock
      have been read: a clock not past the last stake time, an overflowing reward and a
      zero reward each fail and change nothing. */
  lemma ClaimRewardsRejects(rt: Runtime, s: State, metas: seq<AccountMeta>, now: i64)
    requires |metas| >= 7 && metas[6].key == rt.clockSysvarId
    requires metas[4].key == FindPda(rt, StakeSeeds(metas[2].key, metas[0].key)).0
    requires DecodeInfo(AccountAt(s.accounts, metas[4].key).data).Some?
    requires DecodePool(AccountAt(s.accounts, metas[0].key).data).Some?
    ensures var record := DecodeInfo(AccountAt(s.accounts, metas[4].key).data).value;
      var pool := DecodePool(AccountAt(s.accounts, metas[0].key).data).value;
      var r := ClaimRewardsSpec(rt, s, metas, now);
      var time := AsU64(now);
      && (time <= record.lastStakeTime ==> r == Err(InvalidArgument))
      && (time > record.lastStakeTime && Reward(time - record.lastStakeTime, pool.rewardRate, record.amount).None?
          ==> r == Err(InvalidArgument))
      && (time > record.lastStakeTime && Reward(time - record.lastStakeTime, pool.rewardRate, record.amount) == Some(0)
          ==> r == Err(Custom(4)))
  {
  }

  /** A successful claim pays `(now - last) * rate * amount` from the reward vault to the
      user's token account, moves the record's last stake time to `now`, and leaves the
      staked amount and the pool untouched. */
  lemma ClaimRewardsEffect(rt: Runtime, s: State, metas: seq<AccountMeta>, now: i64)
    requires |metas| >= 7
    requires ClaimRewardsSpec(rt, s, metas, now).Ok?
    requires metas[0].key != metas[4].key
    ensures var after := ClaimRewardsSpec(rt, s, metas, now).value;
      var pool, info := metas[0].key, metas[4].key;
      var record := DecodeInfo(AccountAt(s.accounts, info).data);
      var stored := DecodePool(AccountAt(s.accounts, pool).data);
      var time := AsU64(now);
      && record.Some? && stored.Some? && time > record.value.lastStakeTime
      && var reward := (time - record.value.lastStakeTime) * stored.value.rewardRate * record.value.amount;
      && 0 < reward < U64_LIMIT
      && DecodeInfo(after.accounts[info].data) == Some(record.value.(lastStakeTime := time))
      && AccountAt(after.accounts, pool) == AccountAt(s.accounts, pool)
      && after.tokens == Transfer(s.tokens, metas[1].key, metas[3].key, FindPda(rt, VaultAuthoritySeeds()).0, true, reward).value
  {
    var info := metas[4].key;
    var record := ReadInfo(s.accounts, info).value;
    var updated := record.(lastStakeTime := AsU64(now));
    var after := WriteRecord(rt, s.accounts, info, EncodeInfo(updated)).value;
    assert after[info].data == EncodeInfo(updated);
    DecodeEncodeInfo(updated);
    var bump := FindPda(rt, VaultAuthoritySeeds()).1;
    assert FindPda(rt, VaultAuthoritySeeds()).0 in CpiSigners(metas, {CreatePda(rt, VaultAuthoritySeeds() + [[bump]])});
  }

  /** What else a successful claim changes: only the record's bytes. Every other account,
      the pool and the wallet included, is left as it was, and no lamport moves. */
  lemma ClaimRewardsFrame(rt: Runtime, s: State, metas: seq<AccountMeta>, now: i64)
    requires |metas| >= 7
    requires ClaimRewardsSpec(rt, s, metas, now).Ok?
    ensures var after := ClaimRewardsSpec(rt, s, metas, now).value.accounts;
      var info := metas[4].key;
      && (forall k :: k in s.accounts && k != info ==> k in after && after[k] == s.accounts[k])
      && AccountAt(after, info).lamports == AccountAt(s.accounts, info).lamports
      && AccountAt(after, info).owner == AccountAt(s.accounts, info).owner
  {
    var info := metas[4].key;
    var record := ReadInfo(s.accounts, info).value;
    var after := WriteRecord(rt, s.accounts, info, EncodeInfo(record.(lastStakeTime := AsU64(now)))).value;
    assert ClaimRewardsSpec(rt, s, metas, now).value.accounts == after;
  }

  /** `process` runs the handler named by the encoded instruction with its argument. */
  lemma ProcessDispatches(rt: Runtime, s: State, metas: seq<AccountMeta>, i: StakingInstruction, now: i64)
    ensures ProcessSpec(rt, s, metas, Encode(i), now) ==
      match i
      case InitializePool(rate) => InitializePoolSpec(rt, s, metas, rate)
      case Stake(amount) => StakeSpec(rt, s, metas, amount, now)
      case UnStake(amount) => UnstakeSpec(rt, s, metas, amount)
      case ClaimRewards => ClaimRewardsSpec(rt, s, metas, now)
  {
    DecodeAfterEncode(i);
  }

  /** Instruction data that does not decode is refused before any account is read. */
  lemma ProcessRejectsMalformed(rt: Runtime, s: State, metas: seq<AccountMeta>, data: Bytes, now: i64)
    requires |data| == 0 || data[0] >= 4 || |data| != (if data[0] == 3 then 1 else 9)
    ensures ProcessSpec(rt, s, metas, data, now) == Err(BorshIoError)
  {
  }

  /** Removing the accounts left with no lamports loses no lamport. */
  lemma {:induction false} PurgeKeepsLamports(accounts: map<Pubkey, Account>)
    ensures Lamports(Purge(accounts)) == Lamports(accounts)
    decreases |accounts|
  {
    if accounts == map[] {
      assert Purge(accounts) == map[];
    } else {
      var k :| k in accounts;
      var rest := accounts - {k};
      PurgeKeepsLamports(rest);
      SumByPick(accounts, LamportsOf, k);
      if accounts[k].lamports > 0 {
        assert Purge(accounts) - {k} == Purge(rest);
        SumByPick(Purge(accounts), LamportsOf, k);
      } else {
        assert Purge(accounts) == Purge(rest);
      }
    }
  }

  /** The end of an instruction: a failure leaves the state as it was; a success keeps
      its token balances and every account that still holds lamports, drops the others,
      and so keeps the total of lamports the instruction left. */
  lemma CommitKeepsLamports(s: State, result: Result<State, ProgramError>)
    ensures result.Err? ==> Commit(s, result) == s
    ensures result.Ok? ==> Commit(s, result).tokens == result.value.tokens
    ensures result.Ok? ==> forall k :: k in Commit(s, result).accounts <==>
                                       k in result.value.accounts && result.value.accounts[k].lamports > 0
    ensures result.Ok? ==> Lamports(Commit(s, result).accounts) == Lamports(result.value.accounts)
  {
    if result.Ok? {
      PurgeKeepsLamports(result.value.accounts);
    }
  }
}
