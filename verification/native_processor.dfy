/** The native draft's instruction processor. Each handler is first stated as a function
    from the accounts it sees to either their new contents or the error it returns
    (`…Spec`); the `Ledger` class then runs the same handler step by step over its own
    account and token maps, and is proved to end in exactly the state the function gives.
    A failed instruction leaves every account as it was (the runtime discards its writes),
    and an account left with no lamports disappears when the instruction ends. */
module NativeProcessor {
  import opened Wrappers
  import opened Int
  import opened Borsh
  import opened Chain
  import opened NativeState
  import opened NativeInstruction
  import opened NativeError

  /** The accounts the program can see: plain accounts and SPL token accounts. */
  datatype State = State(accounts: map<Pubkey, Account>, tokens: map<Pubkey, TokenAccount>)

  /** Seeds of a user's stake record in a pool. */
  function StakeSeeds(wallet: Pubkey, pool: Pubkey): Seeds {
    [Label("user-stake"), wallet, pool]
  }

  /** Seeds of the authority that owns the token vaults. */
  function VaultAuthoritySeeds(): Seeds {
    [Label("vault-auth")]
  }

  /** Reading a record's bytes with `try_from_slice`. */
  function ReadPool(accounts: map<Pubkey, Account>, key: Pubkey): (r: Result<StakingPool, ProgramError>)
    ensures r.Ok? <==> |AccountAt(accounts, key).data| == RECORD_SIZE
    ensures r.Err? ==> r.error == BorshIoError
  {
    DecodePool(AccountAt(accounts, key).data).OkOr(BorshIoError)
  }

  function ReadInfo(accounts: map<Pubkey, Account>, key: Pubkey): (r: Result<UserStakeInfo, ProgramError>)
    ensures r.Ok? <==> |AccountAt(accounts, key).data| == RECORD_SIZE
    ensures r.Err? ==> r.error == BorshIoError
  {
    DecodeInfo(AccountAt(accounts, key).data).OkOr(BorshIoError)
  }

  /** `record.serialize(&mut &mut data[..])`: the bytes overwrite the front of the buffer,
      and a buffer too short for them fails. The runtime then refuses a change to the data
      of an account the program does not own. */
  function WriteRecord(rt: Runtime, accounts: map<Pubkey, Account>, key: Pubkey, record: Bytes)
    : (r: Result<map<Pubkey, Account>, ProgramError>)
    ensures r.Ok? <==> (|record| <= |AccountAt(accounts, key).data|
      && (AccountAt(accounts, key).owner == rt.programId
          || record + AccountAt(accounts, key).data[|record|..] == AccountAt(accounts, key).data))
    ensures r.Ok? ==> r.value.Keys == accounts.Keys + {key}
    ensures r.Ok? ==> forall k :: k in accounts && k != key ==> r.value[k] == accounts[k]
    ensures r.Ok? ==> (r.value[key].lamports == AccountAt(accounts, key).lamports
      && r.value[key].owner == AccountAt(accounts, key).owner
      && |r.value[key].data| == |AccountAt(accounts, key).data|
      && r.value[key].data[..|record|] == record)
  {
    var account := AccountAt(accounts, key);
    if |account.data| < |record| then Err(BorshIoError)
    else
      var data := record + account.data[|record|..];
      if account.owner != rt.programId && data != account.data then Err(ExternalAccountDataModified)
      else Ok(accounts[key := account.(data := data)])
  }

  /** A whole pool written over a 48-byte buffer replaces it, so it reads back as itself. */
  lemma WritePoolReadsBack(rt: Runtime, accounts: map<Pubkey, Account>, key: Pubkey, p: StakingPool)
    requires |AccountAt(accounts, key).data| == RECORD_SIZE
    requires WriteRecord(rt, accounts, key, EncodePool(p)).Ok?
    ensures key in WriteRecord(rt, accounts, key, EncodePool(p)).value
    ensures WriteRecord(rt, accounts, key, EncodePool(p)).value[key].data == EncodePool(p)
    ensures DecodePool(WriteRecord(rt, accounts, key, EncodePool(p)).value[key].data) == Some(p)
  {
    var after := WriteRecord(rt, accounts, key, EncodePool(p)).value;
    assert after[key].data == after[key].data[..RECORD_SIZE];
    DecodeEncodePool(p);
  }

  /** A whole stake record written over a 48-byte buffer reads back as itself. */
  lemma WriteInfoReadsBack(rt: Runtime, accounts: map<Pubkey, Account>, key: Pubkey, info: UserStakeInfo)
    requires |AccountAt(accounts, key).data| == RECORD_SIZE
    requires WriteRecord(rt, accounts, key, EncodeInfo(info)).Ok?
    ensures key in WriteRecord(rt, accounts, key, EncodeInfo(info)).value
    ensures WriteRecord(rt, accounts, key, EncodeInfo(info)).value[key].data == EncodeInfo(info)
    ensures DecodeInfo(WriteRecord(rt, accounts, key, EncodeInfo(info)).value[key].data) == Some(info)
  {
    var after := WriteRecord(rt, accounts, key, EncodeInfo(info)).value;
    assert after[key].data == after[key].data[..RECORD_SIZE];
    DecodeEncodeInfo(info);
  }

  /** The keys a call into another program counts as signed: the transaction's signers and
      the derived addresses this program signs for with `invoke_signed`. */
  function CpiSigners(metas: seq<AccountMeta>, signedPdas: set<Pubkey>): set<Pubkey> {
    Signers(metas) + signedPdas
  }

  /** `(now - last) * rate * amount` with `checked_mul` twice: `None` if either product
      leaves the u64 range, even when the final product would be 0. */
  function Reward(duration: u64, rate: u64, amount: u64): (r: Option<u64>)
    ensures r.Some? <==> duration * rate < U64_LIMIT && duration * rate * amount < U64_LIMIT
    ensures r.Some? ==> r.value == duration * rate * amount
  {
    match CheckedMul(duration, rate)
    case None => None
    case Some(perUnit) => CheckedMul(perUnit, amount)
  }

  // ------------------------------------------------------------------ handlers

  /** `process_initialize_pool`: accounts `[pool, admin, rent sysvar]`. */
  function InitializePoolSpec(rt: Runtime, s: State, metas: seq<AccountMeta>, rewardRate: u64)
    : (r: Result<State, ProgramError>)
    ensures |metas| < 3 ==> r == Err(NotEnoughAccountKeys)
    ensures r.Ok? ==> |metas| >= 3 && metas[2].key == rt.rentSysvarId && AccountAt(s.accounts, metas[0].key).owner == rt.programId
    ensures r.Ok? ==> r.value.tokens == s.tokens
    ensures r.Ok? ==> forall k :: k in s.accounts && k != metas[0].key ==> k in r.value.accounts && r.value.accounts[k] == s.accounts[k]
  {
    if |metas| < 3 then Err(NotEnoughAccountKeys)
    else
      var pool, admin, rentSysvar := metas[0].key, metas[1].key, metas[2].key;
      var _ :- Need(rentSysvar == rt.rentSysvarId, InvalidArgument);
      var account := AccountAt(s.accounts, pool);
      var _ :- Need(RentExempt(rt, account.lamports, |account.data|), AccountNotRentExempt);
      var _ :- Need(account.owner == rt.programId, ProgramError.IncorrectProgramId);
      var current :- ReadPool(s.accounts, pool);
      var _ :- Need(current.totalStaked == 0, AccountAlreadyInitialized);
      match WriteRecord(rt, s.accounts, pool, EncodePool(StakingPool(admin, rewardRate, 0)))
      case Err(e) => Err(e)
      case Ok(accounts) => Ok(s.(accounts := accounts))
  }

  /** The `create_account` call that allocates a missing stake record at its derived
      address, paid by the wallet and signed for with the record's seeds and bump. */
  function CreateStakeRecord(rt: Runtime, accounts: map<Pubkey, Account>, metas: seq<AccountMeta>,
                             wallet: Pubkey, pool: Pubkey, rentSysvar: Pubkey, bump: u8)
    : (r: Result<map<Pubkey, Account>, ProgramError>)
    ensures r.Ok? ==> rentSysvar == rt.rentSysvarId
    ensures var record := CreatePda(rt, StakeSeeds(wallet, pool) + [[bump]]);
      r.Ok? ==> && AccountAt(accounts, record).lamports == 0 && AccountAt(accounts, record).data == []
                && record in r.value && r.value[record].owner == rt.programId && |r.value[record].data| == RECORD_SIZE
  {
    var _ :- Need(rentSysvar == rt.rentSysvarId, InvalidArgument);
    var record := CreatePda(rt, StakeSeeds(wallet, pool) + [[bump]]);
    var signers := CpiSigners(metas, {record});
    CreateAccount(accounts, signers, wallet, record, rt.minimumBalance(RECORD_SIZE), RECORD_SIZE, rt.programId)
      .MapErr((e: SystemError) => SystemFailure(e))
  }

  /** `process_stake`: accounts `[pool, vault, wallet, user token, stake record, token
      program, system program, rent sysvar]`. */
  function StakeSpec(rt: Runtime, s: State, metas: seq<AccountMeta>, amount: u64, now: i64)
    : (r: Result<State, ProgramError>)
    ensures |metas| < 8 ==> r == Err(NotEnoughAccountKeys)
    ensures r.Ok? ==> && |metas| >= 8
                      && metas[4].key == FindPda(rt, StakeSeeds(metas[2].key, metas[0].key)).0
                      && metas[5].key == rt.tokenProgramId
  {
    if |metas| < 8 then Err(NotEnoughAccountKeys)
    else
      var pool, vault, wallet, userToken := metas[0].key, metas[1].key, metas[2].key, metas[3].key;
      var info, tokenProgram, rentSysvar := metas[4].key, metas[5].key, metas[7].key;
      var (expected, bump) := FindPda(rt, StakeSeeds(wallet, pool));
      var _ :- Need(info == expected, InvalidArgument);
      var accounts :-
        if AccountAt(s.accounts, info).data == [] then CreateStakeRecord(rt, s.accounts, metas, wallet, pool, rentSysvar, bump)
        else Ok(s.accounts);
      var _ :- Need(tokenProgram == rt.tokenProgramId, ProgramError.IncorrectProgramId);
      var tokens :- Transfer(s.tokens, userToken, vault, wallet, wallet in CpiSigners(metas, {}), amount)
                      .MapErr((e: TokenError) => TokenFailure(e));
      var accounts :- RecordStake(rt, accounts, pool, info, UserStakeInfo(wallet, amount, AsU64(now)), amount);
      Ok(State(accounts, tokens))
  }

  /** The writes that end `process_stake`: the pool total grows by the deposit, then the
      stake record is serialised. */
  function RecordStake(rt: Runtime, accounts: map<Pubkey, Account>, pool: Pubkey, info: Pubkey,
                       record: UserStakeInfo, amount: u64): (r: Result<map<Pubkey, Account>, ProgramError>)
    ensures r.Ok? ==> |AccountAt(accounts, pool).data| == RECORD_SIZE && r.value.Keys == accounts.Keys + {pool, info}
  {
    var current :- ReadPool(accounts, pool);
    var accounts :- WriteRecord(rt, accounts, pool, EncodePool(current.(totalStaked := WrappingAdd(current.totalStaked, amount))));
    WriteRecord(rt, accounts, info, EncodeInfo(record))
  }

  /** Closing an emptied stake record: its lamports go to the wallet and its bytes are
      zeroed. Only the owning program may take lamports out of an account. */
  function CloseStakeRecord(rt: Runtime, accounts: map<Pubkey, Account>, wallet: Pubkey, info: Pubkey)
    : (r: Result<map<Pubkey, Account>, ProgramError>)
    ensures r.Ok? <==> AccountAt(accounts, info).owner == rt.programId || AccountAt(accounts, info).lamports == 0
    ensures r.Err? ==> r.error == ExternalAccountLamportSpend
    ensures r.Ok? ==> info in r.value && r.value[info].lamports == 0 && r.value.Keys == accounts.Keys + {wallet, info}
  {
    var record := AccountAt(accounts, info);
    var _ :- Need(record.owner == rt.programId || record.lamports == 0, ExternalAccountLamportSpend);
    var owner := AccountAt(accounts, wallet);
    var credited := accounts[wallet := owner.(lamports := owner.lamports + record.lamports)];
    var emptied := AccountAt(credited, info);
    Ok(credited[info := emptied.(lamports := 0, data := Zeros(|emptied.data|))])
  }

  /** `process_unstake`: accounts `[pool, vault, wallet, user token, stake record, token
      program]`. */
  function UnstakeSpec(rt: Runtime, s: State, metas: seq<AccountMeta>, amount: u64)
    : (r: Result<State, ProgramError>)
    ensures |metas| < 6 ==> r == Err(NotEnoughAccountKeys)
    ensures r.Ok? ==> && |metas| >= 6
                      && metas[4].key == FindPda(rt, StakeSeeds(metas[2].key, metas[0].key)).0
                      && metas[5].key == rt.tokenProgramId
                      && DecodeInfo(AccountAt(s.accounts, metas[4].key).data).Some?
                      && amount <= DecodeInfo(AccountAt(s.accounts, metas[4].key).data).value.amount
  {
    if |metas| < 6 then Err(NotEnoughAccountKeys)
    else
      var pool, vault, wallet, userToken := metas[0].key, metas[1].key, metas[2].key, metas[3].key;
      var info, tokenProgram := metas[4].key, metas[5].key;
      var _ :- Need(info == FindPda(rt, StakeSeeds(wallet, pool)).0, FromStakingError(InvalidPda));
      var record :- ReadInfo(s.accounts, info);
      var _ :- Need(amount <= record.amount, ProgramError.InsufficientFunds);
      var (authority, bump) := FindPda(rt, VaultAuthoritySeeds());
      var _ :- Need(tokenProgram == rt.tokenProgramId, ProgramError.IncorrectProgramId);
      var signers := CpiSigners(metas, {CreatePda(rt, VaultAuthoritySeeds() + [[bump]])});
      var tokens :- Transfer(s.tokens, vault, userToken, authority, authority in signers, amount)
                      .MapErr((e: TokenError) => TokenFailure(e));
      var accounts :- RecordUnstake(rt, s.accounts, pool, wallet, info, record.(amount := record.amount - amount), amount);
      Ok(State(accounts, tokens))
  }

  /** The writes that end `process_unstake`: the reduced stake record, the pool total
      reduced by the withdrawal, and the closing of a record left empty. */
  function RecordUnstake(rt: Runtime, accounts: map<Pubkey, Account>, pool: Pubkey, wallet: Pubkey,
                         info: Pubkey, record: UserStakeInfo, amount: u64): (r: Result<map<Pubkey, Account>, ProgramError>)
    ensures r.Ok? ==> |AccountAt(accounts, pool).data| == RECORD_SIZE && accounts.Keys + {pool, info} <= r.value.Keys
  {
    var accounts :- WriteRecord(rt, accounts, info, EncodeInfo(record));
    var current :- ReadPool(accounts, pool);
    var accounts :- WriteRecord(rt, accounts, pool, EncodePool(current.(totalStaked := WrappingSub(current.totalStaked, amount))));
    if record.amount == 0 then CloseStakeRecord(rt, accounts, wallet, info) else Ok(accounts)
  }

  /** `process_claim_rewards`: accounts `[pool, reward vault, wallet, user token, stake
      record, token program, clock sysvar]`; `now` is the clock's `unix_timestamp`. */
  function ClaimRewardsSpec(rt: Runtime, s: State, metas: seq<AccountMeta>, now: i64)
    : (r: Result<State, ProgramError>)
    ensures |metas| < 7 ==> r == Err(NotEnoughAccountKeys)
    ensures r.Ok? ==> && |metas| >= 7
                      && metas[4].key == FindPda(rt, StakeSeeds(metas[2].key, metas[0].key)).0
                      && metas[5].key == rt.tokenProgramId && metas[6].key == rt.clockSysvarId
                      && DecodeInfo(AccountAt(s.accounts, metas[4].key).data).Some?
                      && DecodeInfo(AccountAt(s.accounts, metas[4].key).data).value.lastStakeTime < AsU64(now)
  {
    if |metas| < 7 then Err(NotEnoughAccountKeys)
    else
      var pool, rewardVault, wallet, userToken := metas[0].key, metas[1].key, metas[2].key, metas[3].key;
      var info, tokenProgram, clock := metas[4].key, metas[5].key, metas[6].key;
      var _ :- Need(info == FindPda(rt, StakeSeeds(wallet, pool)).0, FromStakingError(InvalidPda));
      var record :- ReadInfo(s.accounts, info);
      var current :- ReadPool(s.accounts, pool);
      var _ :- Need(clock == rt.clockSysvarId, InvalidArgument);
      var time := AsU64(now);
      var _ :- Need(time > record.lastStakeTime, InvalidArgument);
      var reward :- Reward(time - record.lastStakeTime, current.rewardRate, record.amount).OkOr(InvalidArgument);
      var _ :- Need(reward != 0, FromStakingError(NothingToClaim));
      var (authority, bump) := FindPda(rt, VaultAuthoritySeeds());
      var _ :- Need(tokenProgram == rt.tokenProgramId, ProgramError.IncorrectProgramId);
      var signers := CpiSigners(metas, {CreatePda(rt, VaultAuthoritySeeds() + [[bump]])});
      var tokens :- Transfer(s.tokens, rewardVault, userToken, authority, authority in signers, reward)
                      .MapErr((e: TokenError) => TokenFailure(e));
      var accounts :- WriteRecord(rt, s.accounts, info, EncodeInfo(record.(lastStakeTime := time)));
      Ok(State(accounts, tokens))
  }

  /** `process`: decode the instruction data, then dispatch. */
  function ProcessSpec(rt: Runtime, s: State, metas: seq<AccountMeta>, data: Bytes, now: i64)
    : (r: Result<State, ProgramError>)
    ensures r.Ok? ==> |data| > 0 && data[0] < 4 && |metas| >= 3
  {
    match Decode(data)
    case None => Err(BorshIoError)
    case Some(InitializePool(rate)) => InitializePoolSpec(rt, s, metas, rate)
    case Some(Stake(amount)) => StakeSpec(rt, s, metas, amount, now)
    case Some(UnStake(amount)) => UnstakeSpec(rt, s, metas, amount)
    case Some(ClaimRewards) => ClaimRewardsSpec(rt, s, metas, now)
  }

  /** Accounts left with no lamports are removed when the instruction ends. */
  function Purge(accounts: map<Pubkey, Account>): (r: map<Pubkey, Account>)
    ensures forall k :: k in r <==> k in accounts && accounts[k].lamports > 0
    ensures forall k :: k in r ==> r[k] == accounts[k]
  {
    map k | k in accounts && accounts[k].lamports > 0 :: accounts[k]
  }

  /** The state after an instruction: its writes when it succeeded, the old state when
      it failed. */
  function Commit(s: State, result: Result<State, ProgramError>): (r: State)
    ensures result.Err? ==> r == s
    ensures result.Ok? ==> r.tokens == result.value.tokens
  {
    if result.Ok? then State(Purge(result.value.accounts), result.value.tokens) else s
  }

  // ------------------------------------------------------------------ the imperative handlers

  /** `for byte in data.iter_mut() { *byte = 0; }` */
  method ZeroFill(buffer: array<u8>)
    modifies buffer
    ensures buffer[..] == Zeros(buffer.Length)
  {
    var i := 0;
    while i < buffer.Length
      invariant 0 <= i <= buffer.Length
      invariant forall j :: 0 <= j < i ==> buffer[j] == 0
    {
      buffer[i] := 0;
      i := i + 1;
    }
  }

  /** The closing step of `process_unstake`, done in place: the lamports move, then the
      data buffer is zeroed byte by byte. */
  method CloseRecord(rt: Runtime, accounts: map<Pubkey, Account>, wallet: Pubkey, info: Pubkey)
    returns (r: Result<map<Pubkey, Account>, ProgramError>)
    ensures r == CloseStakeRecord(rt, accounts, wallet, info)
  {
    var closing := AccountAt(accounts, info);
    if closing.owner != rt.programId && closing.lamports != 0 { return Err(ExternalAccountLamportSpend); }
    var owner := AccountAt(accounts, wallet);
    var credited := accounts[wallet := owner.(lamports := owner.lamports + closing.lamports)];
    var emptied := AccountAt(credited, info);
    var buffer := new u8[|emptied.data|](j requires 0 <= j < |emptied.data| => emptied.data[j]);
    ZeroFill(buffer);
    return Ok(credited[info := emptied.(lamports := 0, data := buffer[..])]);
  }

  /** The accounts and token accounts one program instance works on. */
  class Ledger {
    const rt: Runtime
    var accounts: map<Pubkey, Account>
    var tokens: map<Pubkey, TokenAccount>

    constructor (rt: Runtime, accounts: map<Pubkey, Account>, tokens: map<Pubkey, TokenAccount>)
      ensures this.rt == rt && this.accounts == accounts && this.tokens == tokens
    {
      this.rt := rt;
      this.accounts := accounts;
      this.tokens := tokens;
    }

    function Snapshot(): State
      reads this
    {
      State(accounts, tokens)
    }

    method InitializePool(metas: seq<AccountMeta>, rewardRate: u64) returns (r: Result<(), ProgramError>)
      modifies this
      ensures r == InitializePoolSpec(rt, old(Snapshot()), metas, rewardRate).Status()
      ensures Snapshot() == Commit(old(Snapshot()), InitializePoolSpec(rt, old(Snapshot()), metas, rewardRate))
    {
      if |metas| < 3 { return Err(NotEnoughAccountKeys); }
      var pool, admin, rentSysvar := metas[0].key, metas[1].key, metas[2].key;
      if rentSysvar != rt.rentSysvarId { return Err(InvalidArgument); }
      var account := AccountAt(accounts, pool);
      if !RentExempt(rt, account.lamports, |account.data|) { return Err(AccountNotRentExempt); }
      if account.owner != rt.programId { return Err(ProgramError.IncorrectProgramId); }
      var current :- ReadPool(accounts, pool);
      if current.totalStaked != 0 { return Err(AccountAlreadyInitialized); }
      // The pool is the program's and holds exactly one record, so this write succeeds.
      var written := WriteRecord(rt, accounts, pool, EncodePool(StakingPool(admin, rewardRate, 0)));
      accounts := Purge(written.value);
      return Ok(());
    }

    method Stake(metas: seq<AccountMeta>, amount: u64, now: i64) returns (r: Result<(), ProgramError>)
      modifies this
      ensures r == StakeSpec(rt, old(Snapshot()), metas, amount, now).Status()
      ensures Snapshot() == Commit(old(Snapshot()), StakeSpec(rt, old(Snapshot()), metas, amount, now))
    {
      if |metas| < 8 { return Err(NotEnoughAccountKeys); }
      var pool, vault, wallet, userToken := metas[0].key, metas[1].key, metas[2].key, metas[3].key;
      var info, tokenProgram, rentSysvar := metas[4].key, metas[5].key, metas[7].key;
      var expected, bump := FindPda(rt, StakeSeeds(wallet, pool)).0, FindPda(rt, StakeSeeds(wallet, pool)).1;
      if info != expected { return Err(InvalidArgument); }
      var staged: map<Pubkey, Account> := accounts;
      if AccountAt(staged, info).data == [] {
        staged :- CreateStakeRecord(rt, staged, metas, wallet, pool, rentSysvar, bump);
      }
      if tokenProgram != rt.tokenProgramId { return Err(ProgramError.IncorrectProgramId); }
      var moved := Transfer(tokens, userToken, vault, wallet, wallet in CpiSigners(metas, {}), amount);
      if moved.Err? { return Err(TokenFailure(moved.error)); }
      var current :- ReadPool(staged, pool);
      current := current.(totalStaked := WrappingAdd(current.totalStaked, amount));
      staged :- WriteRecord(rt, staged, pool, EncodePool(current));
      staged :- WriteRecord(rt, staged, info, EncodeInfo(UserStakeInfo(wallet, amount, AsU64(now))));
      accounts, tokens := Purge(staged), moved.value;
      return Ok(());
    }

    method Unstake(metas: seq<AccountMeta>, amount: u64) returns (r: Result<(), ProgramError>)
      modifies this
      ensures r == UnstakeSpec(rt, old(Snapshot()), metas, amount).Status()
      ensures Snapshot() == Commit(old(Snapshot()), UnstakeSpec(rt, old(Snapshot()), metas, amount))
    {
      if |metas| < 6 { return Err(NotEnoughAccountKeys); }
      var pool, vault, wallet, userToken := metas[0].key, metas[1].key, metas[2].key, metas[3].key;
      var info, tokenProgram := metas[4].key, metas[5].key;
      if info != FindPda(rt, StakeSeeds(wallet, pool)).0 { return Err(FromStakingError(InvalidPda)); }
      var record :- ReadInfo(accounts, info);
      if record.amount < amount { return Err(ProgramError.InsufficientFunds); }
      var authority, bump := FindPda(rt, VaultAuthoritySeeds()).0, FindPda(rt, VaultAuthoritySeeds()).1;
      if tokenProgram != rt.tokenProgramId { return Err(ProgramError.IncorrectProgramId); }
      var signers := CpiSigners(metas, {CreatePda(rt, VaultAuthoritySeeds() + [[bump]])});
      var moved := Transfer(tokens, vault, userToken, authority, authority in signers, amount);
      if moved.Err? { return Err(TokenFailure(moved.error)); }
      record := record.(amount := record.amount - amount);
      var staged :- WriteRecord(rt, accounts, info, EncodeInfo(record));
      var current :- ReadPool(staged, pool);
      current := current.(totalStaked := WrappingSub(current.totalStaked, amount));
      staged :- WriteRecord(rt, staged, pool, EncodePool(current));
      if record.amount == 0 {
        staged :- CloseRecord(rt, staged, wallet, info);
      }
      accounts, tokens := Purge(staged), moved.value;
      return Ok(());
    }

    method ClaimRewards(metas: seq<AccountMeta>, now: i64) returns (r: Result<(), ProgramError>)
      modifies this
      ensures r == ClaimRewardsSpec(rt, old(Snapshot()), metas, now).Status()
      ensures Snapshot() == Commit(old(Snapshot()), ClaimRewardsSpec(rt, old(Snapshot()), metas, now))
    {
      if |metas| < 7 { return Err(NotEnoughAccountKeys); }
      var pool, rewardVault, wallet, userToken := metas[0].key, metas[1].key, metas[2].key, metas[3].key;
      var info, tokenProgram, clock := metas[4].key, metas[5].key, metas[6].key;
      if info != FindPda(rt, StakeSeeds(wallet, pool)).0 { return Err(FromStakingError(InvalidPda)); }
      var record :- ReadInfo(accounts, info);
      var current :- ReadPool(accounts, pool);
      if clock != rt.clockSysvarId { return Err(InvalidArgument); }
      var time := AsU64(now);
      if time <= record.lastStakeTime { return Err(InvalidArgument); }
      var reward := Reward(time - record.lastStakeTime, current.rewardRate, record.amount);
      if reward.None? { return Err(InvalidArgument); }
      if reward.value == 0 { return Err(FromStakingError(NothingToClaim)); }
      var authority, bump := FindPda(rt, VaultAuthoritySeeds()).0, FindPda(rt, VaultAuthoritySeeds()).1;
      if tokenProgram != rt.tokenProgramId { return Err(ProgramError.IncorrectProgramId); }
      var signers := CpiSigners(metas, {CreatePda(rt, VaultAuthoritySeeds() + [[bump]])});
      var moved := Transfer(tokens, rewardVault, userToken, authority, authority in signers, reward.value);
      if moved.Err? { return Err(TokenFailure(moved.error)); }
      var staged :- WriteRecord(rt, accounts, info, EncodeInfo(record.(lastStakeTime := time)));
      accounts, tokens := Purge(staged), moved.value;
      return Ok(());
    }

    method Process(metas: seq<AccountMeta>, data: Bytes, now: i64) returns (r: Result<(), ProgramError>)
      modifies this
      ensures r == ProcessSpec(rt, old(Snapshot()), metas, data, now).Status()
      ensures Snapshot() == Commit(old(Snapshot()), ProcessSpec(rt, old(Snapshot()), metas, data, now))
    {
      var instruction := Decode(data);
      if instruction.None? { return Err(BorshIoError); }
      match instruction.value
      case InitializePool(rate) => r := InitializePool(metas, rate);
      case Stake(amount) => r := Stake(metas, amount, now);
      case UnStake(amount) => r := Unstake(metas, amount);
      case ClaimRewards => r := ClaimRewards(metas, now);
    }
  }
}
