/** Defects of the native draft. Each is shown on the handler as written, and set beside a
    corrected definition that carries the property the code evidently means to have. The
    handlers elsewhere in the model stay as written. */
module NativeFindings {
  import opened Wrappers
  import opened Int
  import opened Borsh
  import opened Chain
  import opened NativeState
  import opened NativeError
  import opened NativeProcessor
  import NativeProperties

  // ------------------------------------------------------------------ a second stake replaces the principal

  /** As written: staking into a record that already holds `held` tokens leaves it holding
      only the new deposit, while the pool total grows by the deposit; the `held` tokens
      stay in the vault with no record of them. */
  lemma StakeDiscardsPrincipal(rt: Runtime, s: State, metas: seq<AccountMeta>, amount: u64, now: i64)
    requires |metas| >= 8
    requires StakeSpec(rt, s, metas, amount, now).Ok?
    requires metas[0].key != metas[4].key
    requires DecodeInfo(AccountAt(s.accounts, metas[4].key).data).Some?
    ensures var held := DecodeInfo(AccountAt(s.accounts, metas[4].key).data).value.amount;
      var after := StakeSpec(rt, s, metas, amount, now).value;
      var stored := DecodeInfo(after.accounts[metas[4].key].data);
      stored.Some? && stored.value.amount == amount && (held > 0 ==> stored.value.amount != held + amount)
  {
    NativeProperties.StakeEffect(rt, s, metas, amount, now);
  }

  /** Corrected closing writes of a stake: the deposit is added to the principal the record
      already holds (zero for a record just created), and both the principal and the pool
      total are added with overflow checks. */
  function AddStake(rt: Runtime, accounts: map<Pubkey, Account>, pool: Pubkey, info: Pubkey,
                    wallet: Pubkey, amount: u64, time: u64): Result<map<Pubkey, Account>, ProgramError>
  {
    var current :- ReadPool(accounts, pool);
    var total :- CheckedAdd(current.totalStaked, amount).OkOr(ArithmeticOverflow);
    var held :- ReadInfo(accounts, info);
    var principal :- CheckedAdd(held.amount, amount).OkOr(ArithmeticOverflow);
    var accounts :- WriteRecord(rt, accounts, pool, EncodePool(current.(totalStaked := total)));
    WriteRecord(rt, accounts, info, EncodeInfo(UserStakeInfo(wallet, principal, time)))
  }

  /** The corrected writes refuse an addition that would pass 2^64 - 1 instead of letting
      it wrap. */
  lemma AddStakeRefusesOverflow(rt: Runtime, accounts: map<Pubkey, Account>, pool: Pubkey, info: Pubkey,
                                wallet: Pubkey, amount: u64, time: u64)
    requires DecodePool(AccountAt(accounts, pool).data).Some?
    requires DecodeInfo(AccountAt(accounts, info).data).Some?
    requires DecodePool(AccountAt(accounts, pool).data).value.totalStaked + amount >= U64_LIMIT
             || DecodeInfo(AccountAt(accounts, info).data).value.amount + amount >= U64_LIMIT
    ensures AddStake(rt, accounts, pool, info, wallet, amount, time) == Err(ArithmeticOverflow)
  {
  }

  /** The corrected writes credit the deposit to the record and to the pool total alike, so
      the difference between the total and any one principal never changes. */
  lemma AddStakeEffect(rt: Runtime, accounts: map<Pubkey, Account>, pool: Pubkey, info: Pubkey,
                       wallet: Pubkey, amount: u64, time: u64)
    requires AddStake(rt, accounts, pool, info, wallet, amount, time).Ok?
    requires pool != info
    ensures var before := DecodePool(AccountAt(accounts, pool).data);
      var held := DecodeInfo(AccountAt(accounts, info).data);
      var after := AddStake(rt, accounts, pool, info, wallet, amount, time).value;
      && before.Some? && held.Some?
      && DecodePool(after[pool].data).Some?
      && DecodePool(after[pool].data).value.totalStaked as int == before.value.totalStaked + amount
      && DecodePool(after[pool].data).value.rewardRate == before.value.rewardRate
      && DecodeInfo(after[info].data).Some?
      && DecodeInfo(after[info].data).value.amount as int == held.value.amount + amount
      && DecodeInfo(after[info].data).value.lastStakeTime == time
  {
    var current := ReadPool(accounts, pool).value;
    var held := ReadInfo(accounts, info).value;
    var total := CheckedAdd(current.totalStaked, amount);
    var principal := CheckedAdd(held.amount, amount);
    assert total.Some? && principal.Some?;
    var updated := current.(totalStaked := total.value);
    var record := UserStakeInfo(wallet, principal.value, time);
    var middle: map<Pubkey, Account> := WriteRecord(rt, accounts, pool, EncodePool(updated)).value;
    WritePoolReadsBack(rt, accounts, pool, updated);
    assert AccountAt(middle, info) == AccountAt(accounts, info);
    var after: map<Pubkey, Account> := WriteRecord(rt, middle, info, EncodeInfo(record)).value;
    WriteInfoReadsBack(rt, middle, info, record);
    assert AddStake(rt, accounts, pool, info, wallet, amount, time).value == after;
    assert after[pool] == middle[pool];
  }

  /** As written: the vault is never checked, so a stake that names the user's own token
      account as the vault moves no tokens at all, yet the record is credited with the
      deposit (which `process_unstake` later pays out of the real vault). */
  lemma StakeWithoutDeposit(rt: Runtime, s: State, metas: seq<AccountMeta>, amount: u64, now: i64)
    requires |metas| >= 8
    requires StakeSpec(rt, s, metas, amount, now).Ok?
    requires metas[0].key != metas[4].key && metas[1].key == metas[3].key
    requires |AccountAt(s.accounts, metas[4].key).data| in {0, RECORD_SIZE}
    ensures var after := StakeSpec(rt, s, metas, amount, now).value;
      && after.tokens == s.tokens
      && DecodeInfo(after.accounts[metas[4].key].data) == Some(UserStakeInfo(metas[2].key, amount, AsU64(now)))
  {
    NativeProperties.StakeEffect(rt, s, metas, amount, now);
  }

  /** Corrected `process_stake`: it also refuses a vault that is not a token account of the
      vault authority or that is the user's own token account, and ends with `AddStake`. */
  function StakeSpecFixed(rt: Runtime, s: State, metas: seq<AccountMeta>, amount: u64, now: i64)
    : Result<State, ProgramError>
  {
    if |metas| < 8 then Err(NotEnoughAccountKeys)
    else
      var pool, vault, wallet, userToken := metas[0].key, metas[1].key, metas[2].key, metas[3].key;
      var info, tokenProgram, rentSysvar := metas[4].key, metas[5].key, metas[7].key;
      var (expected, bump) := FindPda(rt, StakeSeeds(wallet, pool));
      var _ :- Need(info == expected, InvalidArgument);
      var accounts :-
        if AccountAt(s.accounts, info).data == [] then CreateStakeRecord(rt, s.accounts, metas, wallet, pool, rentSysvar, bump)
        else Ok(s.accounts);
      var _ :- Need(tokenProgram == rt.tokenProgramId, ProgramError.IncorrectProgramId);
      var _ :- Need(VaultAccepted(rt, s.tokens, vault, userToken), InvalidArgument);
      var tokens :- Transfer(s.tokens, userToken, vault, wallet, wallet in CpiSigners(metas, {}), amount)
                      .MapErr((e: TokenError) => TokenFailure(e));
      var accounts :- AddStake(rt, accounts, pool, info, wallet, amount, AsU64(now));
      Ok(State(accounts, tokens))
  }

  /** The vault check the corrected stake adds. */
  predicate VaultAccepted(rt: Runtime, tokens: map<Pubkey, TokenAccount>, vault: Pubkey, userToken: Pubkey) {
    vault != userToken && vault in tokens && tokens[vault].owner == FindPda(rt, VaultAuthoritySeeds()).0
  }

  /** A corrected stake moves exactly the deposit out of the user's token account into a
      different account, one that the program's vault authority owns. */
  lemma StakeFixedPaysVault(rt: Runtime, s: State, metas: seq<AccountMeta>, amount: u64, now: i64)
    requires |metas| >= 8
    requires StakeSpecFixed(rt, s, metas, amount, now).Ok?
    ensures var after := StakeSpecFixed(rt, s, metas, amount, now).value;
      var vault, userToken := metas[1].key, metas[3].key;
      && vault != userToken && vault in s.tokens && userToken in s.tokens
      && s.tokens[vault].owner == FindPda(rt, VaultAuthoritySeeds()).0
      && vault in after.tokens && userToken in after.tokens
      && after.tokens[vault].amount == s.tokens[vault].amount + amount
      && after.tokens[userToken].amount == s.tokens[userToken].amount - amount
  {
    var wallet := metas[2].key;
    var moved := Transfer(s.tokens, metas[3].key, metas[1].key, wallet, wallet in CpiSigners(metas, {}), amount);
    assert moved.Ok?;
    assert StakeSpecFixed(rt, s, metas, amount, now).value.tokens == moved.value;
  }

  /** After a corrected stake the record holds what it held before plus the deposit (a
      new record starts from nothing), and the pool total has grown by the same deposit. */
  lemma StakeFixedCredits(rt: Runtime, s: State, metas: seq<AccountMeta>, amount: u64, now: i64)
    requires |metas| >= 8
    requires StakeSpecFixed(rt, s, metas, amount, now).Ok?
    requires metas[0].key != metas[4].key
    ensures var after := StakeSpecFixed(rt, s, metas, amount, now).value;
      var pool, info := metas[0].key, metas[4].key;
      var held := match DecodeInfo(AccountAt(s.accounts, info).data)
        case Some(record) => record.amount
        case None => 0;
      var before := DecodePool(AccountAt(s.accounts, pool).data);
      && before.Some?
      && DecodePool(AccountAt(after.accounts, pool).data).Some?
      && DecodePool(AccountAt(after.accounts, pool).data).value.totalStaked as int == before.value.totalStaked + amount
      && DecodeInfo(AccountAt(after.accounts, info).data).Some?
      && DecodeInfo(AccountAt(after.accounts, info).data).value.amount as int == held + amount
  {
    var pool, wallet, info := metas[0].key, metas[2].key, metas[4].key;
    var bump := FindPda(rt, StakeSeeds(wallet, pool)).1;
    var accounts: map<Pubkey, Account> := s.accounts;
    if AccountAt(s.accounts, info).data == [] {
      var signers := CpiSigners(metas, {CreatePda(rt, StakeSeeds(wallet, pool) + [[bump]])});
      CreateAccountFrame(s.accounts, signers, wallet, info, rt.minimumBalance(RECORD_SIZE), RECORD_SIZE, rt.programId);
      accounts := CreateStakeRecord(rt, s.accounts, metas, wallet, pool, metas[7].key, bump).value;
      assert AccountAt(accounts, info).data == Zeros(RECORD_SIZE);
      ZeroInfo();
      assert DecodeInfo(AccountAt(s.accounts, info).data).None?;
    }
    assert AccountAt(accounts, pool).data == AccountAt(s.accounts, pool).data;
    var added := AddStake(rt, accounts, pool, info, wallet, amount, AsU64(now));
    assert added.Ok?;
    assert StakeSpecFixed(rt, s, metas, amount, now).value.accounts == added.value;
    AddStakeEffect(rt, accounts, pool, info, wallet, amount, AsU64(now));
  }

  // ------------------------------------------------------------------ unchecked totals wrap around

  /** As written: a deposit that carries the pool total past 2^64 - 1 leaves it smaller
      than before (a total of 2^64 - 1 plus a deposit of 1 reads back as 0). */
  lemma StakeTotalWraps(rt: Runtime, accounts: map<Pubkey, Account>, pool: Pubkey, info: Pubkey,
                        record: UserStakeInfo, amount: u64)
    requires RecordStake(rt, accounts, pool, info, record, amount).Ok?
    requires pool != info
    requires DecodePool(AccountAt(accounts, pool).data).value.totalStaked + amount >= U64_LIMIT
    ensures var before := DecodePool(AccountAt(accounts, pool).data).value.totalStaked;
      var after := DecodePool(RecordStake(rt, accounts, pool, info, record, amount).value[pool].data);
      after.Some? && after.value.totalStaked == before + amount - U64_LIMIT && after.value.totalStaked < before
  {
    NativeProperties.RecordStakeEffect(rt, accounts, pool, info, record, amount);
  }

  /** As written: a withdrawal larger than the pool total (possible once the total has
      wrapped) leaves it close to 2^64 instead of failing. */
  lemma UnstakeTotalWraps(rt: Runtime, accounts: map<Pubkey, Account>, pool: Pubkey, wallet: Pubkey,
                          info: Pubkey, record: UserStakeInfo, amount: u64)
    requires RecordUnstake(rt, accounts, pool, wallet, info, record, amount).Ok?
    requires pool != info && |AccountAt(accounts, info).data| == RECORD_SIZE
    requires DecodePool(AccountAt(accounts, pool).data).value.totalStaked < amount
    ensures var before := DecodePool(AccountAt(accounts, pool).data).value.totalStaked;
      var after := DecodePool(RecordUnstake(rt, accounts, pool, wallet, info, record, amount).value[pool].data);
      after.Some? && after.value.totalStaked == before - amount + U64_LIMIT && after.value.totalStaked > before
  {
    NativeProperties.RecordUnstakeEffect(rt, accounts, pool, wallet, info, record, amount);
  }

  /** Corrected closing writes of an unstake: the pool total is reduced with a checked
      subtraction. */
  function RemoveStake(rt: Runtime, accounts: map<Pubkey, Account>, pool: Pubkey, wallet: Pubkey,
                       info: Pubkey, record: UserStakeInfo, amount: u64): Result<map<Pubkey, Account>, ProgramError>
  {
    var accounts :- WriteRecord(rt, accounts, info, EncodeInfo(record));
    var current :- ReadPool(accounts, pool);
    var _ :- Need(amount <= current.totalStaked, ArithmeticOverflow);
    var accounts :- WriteRecord(rt, accounts, pool, EncodePool(current.(totalStaked := current.totalStaked - amount)));
    if record.amount == 0 then CloseStakeRecord(rt, accounts, wallet, info) else Ok(accounts)
  }

  /** The corrected writes refuse a withdrawal above the pool total, and otherwise do
      exactly what the written ones do, so the total drops by exactly the withdrawal. */
  lemma RemoveStakeAgrees(rt: Runtime, accounts: map<Pubkey, Account>, pool: Pubkey, wallet: Pubkey,
                          info: Pubkey, record: UserStakeInfo, amount: u64)
    requires pool != info && |AccountAt(accounts, info).data| == RECORD_SIZE
    requires DecodePool(AccountAt(accounts, pool).data).Some?
    ensures var r := RemoveStake(rt, accounts, pool, wallet, info, record, amount);
      var before := DecodePool(AccountAt(accounts, pool).data).value.totalStaked;
      && (amount > before && AccountAt(accounts, info).owner == rt.programId ==> r == Err(ArithmeticOverflow))
      && (amount <= before ==> r == RecordUnstake(rt, accounts, pool, wallet, info, record, amount))
      && (r.Ok? ==> DecodePool(r.value[pool].data).Some?
                    && DecodePool(r.value[pool].data).value.totalStaked as int == before - amount)
  {
    var r := RemoveStake(rt, accounts, pool, wallet, info, record, amount);
    var before := DecodePool(AccountAt(accounts, pool).data).value.totalStaked;
    if AccountAt(accounts, info).owner == rt.programId {
      var middle: map<Pubkey, Account> := WriteRecord(rt, accounts, info, EncodeInfo(record)).value;
      assert AccountAt(middle, pool) == AccountAt(accounts, pool);
    }
    if r.Ok? {
      assert amount <= before by {
        var middle: map<Pubkey, Account> := WriteRecord(rt, accounts, info, EncodeInfo(record)).value;
        assert AccountAt(middle, pool) == AccountAt(accounts, pool);
      }
      NativeProperties.RecordUnstakeEffect(rt, accounts, pool, wallet, info, record, amount);
    }
  }

  // ------------------------------------------------------------------ the re-initialisation guard

  // `NativeProperties.ReinitializeOverwritesAdmin` is the as-written half: a pool in use
  // whose total is back at zero is initialised again, and its admin replaced.

  /** Corrected `process_initialize_pool`: the pool must still be all zero bytes, as a
      freshly created account is, rather than merely have a zero total. */
  function InitializePoolFixed(rt: Runtime, s: State, metas: seq<AccountMeta>, rewardRate: u64)
    : Result<State, ProgramError>
  {
    if |metas| < 3 then Err(NotEnoughAccountKeys)
    else
      var pool, admin, rentSysvar := metas[0].key, metas[1].key, metas[2].key;
      var _ :- Need(rentSysvar == rt.rentSysvarId, InvalidArgument);
      var account := AccountAt(s.accounts, pool);
      var _ :- Need(RentExempt(rt, account.lamports, |account.data|), AccountNotRentExempt);
      var _ :- Need(account.owner == rt.programId, ProgramError.IncorrectProgramId);
      var _ :- ReadPool(s.accounts, pool);
      var _ :- Need(account.data == Zeros(RECORD_SIZE), AccountAlreadyInitialized);
      var accounts :- WriteRecord(rt, s.accounts, pool, EncodePool(StakingPool(admin, rewardRate, 0)));
      Ok(s.(accounts := accounts))
  }

  /** The corrected initialisation never overwrites a stored pool other than the all-zero
      one, and it still initialises a fresh pool account as the written one does. */
  lemma InitializePoolFixedGuards(rt: Runtime, s: State, metas: seq<AccountMeta>, rewardRate: u64, stored: StakingPool)
    requires |metas| >= 3
    ensures metas[0].key in s.accounts && s.accounts[metas[0].key].data == EncodePool(stored)
            && stored != StakingPool(Zeros(32), 0, 0)
            ==> InitializePoolFixed(rt, s, metas, rewardRate).Err?
    ensures AccountAt(s.accounts, metas[0].key).data == Zeros(RECORD_SIZE)
            ==> InitializePoolFixed(rt, s, metas, rewardRate) == InitializePoolSpec(rt, s, metas, rewardRate)
  {
    ZeroPool();
    if metas[0].key in s.accounts && s.accounts[metas[0].key].data == EncodePool(stored) {
      DecodeEncodePool(stored);
    }
  }

  // ------------------------------------------------------------------ unstake and claim need no signature

  /** The same account list with every signature removed. */
  function Unsigned(metas: seq<AccountMeta>): (r: seq<AccountMeta>)
    ensures |r| == |metas| && Signers(r) == {}
    ensures forall i :: 0 <= i < |metas| ==> r[i].key == metas[i].key
  {
    seq(|metas|, i requires 0 <= i < |metas| => metas[i].(isSigner := false))
  }

  /** As written: an unstake does exactly the same with no signature at all, so anyone can
      name another user's wallet and have that user's stake paid into a token account of
      their own choosing. */
  lemma UnstakeNeedsNoSignature(rt: Runtime, s: State, metas: seq<AccountMeta>, amount: u64)
    ensures UnstakeSpec(rt, s, Unsigned(metas), amount) == UnstakeSpec(rt, s, metas, amount)
  {
    if |metas| >= 6 {
      var u := Unsigned(metas);
      assert u[0].key == metas[0].key && u[1].key == metas[1].key && u[2].key == metas[2].key;
      assert u[3].key == metas[3].key && u[4].key == metas[4].key && u[5].key == metas[5].key;
      var (authority, bump) := FindPda(rt, VaultAuthoritySeeds());
      assert authority in CpiSigners(metas, {CreatePda(rt, VaultAuthoritySeeds() + [[bump]])});
      assert authority in CpiSigners(Unsigned(metas), {CreatePda(rt, VaultAuthoritySeeds() + [[bump]])});
    }
  }

  /** As written: the same holds for claiming, which pays the rewards of the named
      wallet's record into any token account. */
  lemma ClaimNeedsNoSignature(rt: Runtime, s: State, metas: seq<AccountMeta>, now: i64)
    ensures ClaimRewardsSpec(rt, s, Unsigned(metas), now) == ClaimRewardsSpec(rt, s, metas, now)
  {
    if |metas| >= 7 {
      var u := Unsigned(metas);
      assert u[0].key == metas[0].key && u[1].key == metas[1].key && u[2].key == metas[2].key;
      assert u[3].key == metas[3].key && u[4].key == metas[4].key && u[5].key == metas[5].key;
      assert u[6].key == metas[6].key;
      var (authority, bump) := FindPda(rt, VaultAuthoritySeeds());
      assert authority in CpiSigners(metas, {CreatePda(rt, VaultAuthoritySeeds() + [[bump]])});
      assert authority in CpiSigners(Unsigned(metas), {CreatePda(rt, VaultAuthoritySeeds() + [[bump]])});
    }
  }

  /** The checks the corrected unstake and claim add in front of the written handler: the
      wallet signed, and the paid token account is the wallet's own. */
  function WalletApproved(s: State, metas: seq<AccountMeta>): Result<(), ProgramError> {
    if |metas| < 4 then Err(NotEnoughAccountKeys)
    else
      var wallet, userToken := metas[2].key, metas[3].key;
      var _ :- Need(wallet in Signers(metas), SystemFailure(MissingRequiredSignature));
      Need(userToken in s.tokens && s.tokens[userToken].owner == wallet, InvalidArgument)
  }

  function UnstakeSpecFixed(rt: Runtime, s: State, metas: seq<AccountMeta>, amount: u64)
    : Result<State, ProgramError>
  {
    var _ :- WalletApproved(s, metas);
    UnstakeSpec(rt, s, metas, amount)
  }

  function ClaimRewardsSpecFixed(rt: Runtime, s: State, metas: seq<AccountMeta>, now: i64)
    : Result<State, ProgramError>
  {
    var _ :- WalletApproved(s, metas);
    ClaimRewardsSpec(rt, s, metas, now)
  }

  /** A corrected unstake or claim succeeds only on the wallet's signature and pays only
      into the wallet's own token account; when it does, it does what the written one does,
      and an unsigned call is always refused. */
  lemma FixedPaysOnlyTheSigner(rt: Runtime, s: State, metas: seq<AccountMeta>, amount: u64, now: i64)
    ensures UnstakeSpecFixed(rt, s, metas, amount).Ok? ==>
      && metas[2].key in Signers(metas)
      && metas[3].key in s.tokens && s.tokens[metas[3].key].owner == metas[2].key
      && UnstakeSpecFixed(rt, s, metas, amount) == UnstakeSpec(rt, s, metas, amount)
    ensures ClaimRewardsSpecFixed(rt, s, metas, now).Ok? ==>
      && metas[2].key in Signers(metas)
      && metas[3].key in s.tokens && s.tokens[metas[3].key].owner == metas[2].key
      && ClaimRewardsSpecFixed(rt, s, metas, now) == ClaimRewardsSpec(rt, s, metas, now)
    ensures UnstakeSpecFixed(rt, s, Unsigned(metas), amount).Err?
    ensures ClaimRewardsSpecFixed(rt, s, Unsigned(metas), now).Err?
  {
  }
}
