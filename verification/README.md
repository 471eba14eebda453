# Staking program model

The repository holds two drafts of one Solana staking program. In both, an administrator
creates a pool with a reward rate. Users stake tokens into the pool's vault, unstake them,
and claim rewards that grow with elapsed time × reward rate × staked amount. This project
models both drafts in Dafny and proves properties of the model.

- **The native draft** (`native-contracts/staking-contract/src`) works on raw accounts.
  - Its records `StakingPool {admin, reward_rate, total_staked}` and
    `UserStakeInfo {staker, amount, last_stake_time}` are Borsh-encoded into 48-byte
    account buffers.
  - The instruction is a Borsh enum, and the program's errors become `Custom(code)`.
  - The handlers check each stake record against the address derived from
    `("user-stake", wallet, pool)`.
  - They move SPL tokens with a transfer that the `"vault-auth"` derived address signs.
  - They rewrite the records in place, and they close an emptied stake record by moving
    its lamports to the wallet and zeroing its bytes.
- **The Anchor draft** (`anchor-contracts/staking/programs/staking/src`) declares its
  account constraints: `seeds`, `init` and `constraint = …`.
  - The handlers mutate the loaded records through `&mut`.
  - A `pending_rewards` field accrues on stake and unstake, and `claim_rewards` mints it.

Modules, one per file:

| file | module | what it holds |
|---|---|---|
| `wrappers.dfy` | `Wrappers` | `Option`, `Result` (with `Status`, the value dropped), `Need` |
| `integers.dfy` | `Int` | `u8`/`u32`/`u64`/`i64`, wrapping (unchecked Rust) and checked operators |
| `borsh.dfy` | `Borsh` | little-endian `u64`/`i64` encoding and its round trips |
| `sums.dfy` | `Sums` | sums over maps, for the pool-total invariant and token conservation |
| `chain.dfy` | `Chain` | keys, derived addresses, accounts, SPL `Transfer`/`MintTo`, system `CreateAccount` |
| `native_state.dfy` | `NativeState` | the two native records and their 48-byte layout |
| `native_instruction.dfy` | `NativeInstruction` | the instruction enum and its wire encoding |
| `native_error.dfy` | `NativeError` | `StakingError`, its `Custom` code, the `ProgramError` kinds |
| `native_processor.dfy` | `NativeProcessor` | each handler as a function (`…Spec`); class `Ledger`, which runs the handlers step by step and is proved equal to them |
| `native_properties.dfy` | `NativeProperties` | what the native handlers guarantee |
| `native_findings.dfy` | `NativeFindings` | native defects, each as written and corrected |
| `anchor_state.dfy` | `AnchorState` | the Anchor records, discriminator + Borsh body, space constants |
| `anchor_context.dfy` | `AnchorContext` | the `#[derive(Accounts)]` constraints as functions to the first violated one |
| `anchor_program.dfy` | `AnchorProgram` | the four handlers, the accrual, dispatch and runs of transactions |
| `anchor_properties.dfy` | `AnchorProperties` | handler effects and the pool-total invariant over any run |
| `anchor_ledger.dfy` | `AnchorLedger` | class `Ledger`, whose methods update one pool's records field by field, proved equal to the handler functions and invariant-preserving |
| `anchor_findings.dfy` | `AnchorFindings` | Anchor defects, each as written and corrected |

Modelling choices:

- **Derived addresses.** A derived address is `rt.pdaOf` applied to the concatenated seeds.
  `rt.pdaOf` is an uninterpreted function of the `Runtime` value, and a 32-byte hash cannot
  be injective. So every lemma that needs two derived addresses to differ states
  `NoCollision` for exactly the two inputs it compares.
- **Atomicity.** A handler is a function from the accounts to `Result<State, Error>`. `Commit`
  keeps the old state on an error, as the runtime discards a failed instruction's writes.
  In the native model, `Commit` also drops accounts left with no lamports.
- **Integer width.** Unchecked Rust `+`, `-` and `*` are modelled as wrapping (`WrappingAdd`,
  `WrappingSub`, `WrappingMul`, `WrappingSubI64`). `as u64` on an `i64` is modelled as
  two's-complement reinterpretation (`AsU64`). `checked_mul` is modelled as `CheckedMul`.
  The wrap is what these operators do in a build without overflow checks. With overflow
  checks on, which an `anchor init` workspace sets for release builds, they abort the
  transaction instead. See "Left out".
- **Anchor `signer_seeds`.** A token call made with `signer_seeds` counts as signed by the
  address `create_program_address` gives for those seeds.
- **Anchor `init`.** An `init` account must not exist yet, and it starts as zeroed data,
  which reads as the zero record (`ZeroPool`, `ZeroStake`).

Where the code departs from the design it was written for, the model follows the code:

- **Declarations.** `process` dispatches `UnStake` and `ClaimRewards`, and the handlers
  return `InvalidPda` and `NothingToClaim`, but `instruction.rs` and `error.rs` do not
  declare them. The model adds them after the declared variants: instruction bytes 2 and 3,
  error codes 3 and 4.
- **Arithmetic.** The design asks for checked arithmetic on totals and rewards. The code
  uses unchecked `+=`, `-=` and `*`, which the model wraps. Checked versions sit beside the
  findings.
- **Pool addresses.** The design derives one pool per mint. The Anchor draft derives the
  pool from the mint at `initialize_pool` and from the vault afterwards.
- **Stake records.** The design re-uses a stake record on a later stake. The Anchor `init`
  refuses it, and the native draft overwrites the principal.
- **Claims.** The design accrues rewards at claim time. The Anchor claim pays only what
  unstake accrued.
- **Error names.** The design's error kinds (`AddressMismatch`, `InsufficientPrincipal`, …)
  are not the code's. The model uses the code's `ProgramError` and `StakingError` values.

## Model

Source paths are relative to the repository root.

| member | source | states |
|---|---|---|
| Int.WrappingAdd | native-contracts/staking-contract/src/processor.rs:159 | unchecked `+=`: the exact sum below 2^64; otherwise the sum minus 2^64, which is below the first operand |
| Int.WrappingSub | native-contracts/staking-contract/src/processor.rs:224 | unchecked `-=`: the exact difference when it is not negative; otherwise the difference plus 2^64, which is above the first operand |
| Int.WrappingMul | anchor-contracts/staking/programs/staking/src/lib.rs:53 | unchecked `*`: the exact product below 2^64, and always congruent to it modulo 2^64 |
| Int.WrappingSubI64 | anchor-contracts/staking/programs/staking/src/lib.rs:52 | `i64` subtraction: exact inside the `i64` range, and congruent to it modulo 2^64 |
| Int.AsU64 | anchor-contracts/staking/programs/staking/src/lib.rs:53 | `as u64`: a non-negative value is kept, and a negative one becomes itself plus 2^64 |
| Borsh.DecodeEncodeU64 | native-contracts/staking-contract/src/state.rs:6-7 | a `u64` read back from its 8 little-endian bytes is itself |
| Borsh.EncodeDecodeU64 | native-contracts/staking-contract/src/state.rs:6-7 | any 8 bytes re-encode to themselves after being read as a `u64` |
| Borsh.DecodeEncodeI64 | anchor-contracts/staking/programs/staking/src/state.rs:21 | the signed `last_stake_time` reads back from its 8 bytes |
| Borsh.EncodeDecodeI64 | anchor-contracts/staking/programs/staking/src/state.rs:21 | any 8 bytes re-encode to themselves after being read as an `i64` |
| Chain.FindPda | native-contracts/staking-contract/src/processor.rs:93-100 | `find_program_address` returns the address made from the seeds followed by the bump it returns |
| Chain.Transfer | native-contracts/staking-contract/src/processor.rs:133-150 | SPL transfer by the owner: succeeds exactly when both accounts exist, the source holds enough of the same mint, the authority owns the source and signed, and the destination does not overflow; it then debits the source and credits the destination, and adds or removes no account (delegates and frozen accounts: see "Left out") |
| Chain.TransferConserves | native-contracts/staking-contract/src/processor.rs:133-150 | a transfer leaves the total number of tokens unchanged |
| Chain.MintTo | anchor-contracts/staking/programs/staking/src/lib.rs:128-139 | SPL mint-to succeeds exactly when the account holds the mint, the signer is the mint authority, and neither balance nor supply overflows; it then credits both by the amount and adds or removes no account |
| Chain.MintToAdds | anchor-contracts/staking/programs/staking/src/lib.rs:128-139 | minting raises the tokens held by all accounts by exactly the minted amount |
| Chain.CreateAccount | native-contracts/staking-contract/src/processor.rs:111-130 | `create_account` succeeds exactly when the target is unused and signed, `space` is at most `MAX_PERMITTED_DATA_LENGTH` (10 MiB), and the payer signed, carries no data (counting the new bytes when it is the target) and can pay; the target then holds the lamports, `space` zero bytes and the new owner, and the payer is debited |
| Chain.CreateAccountFrame | native-contracts/staking-contract/src/processor.rs:106-131 | account creation changes no other account's data or owner |
| NativeState.EncodeKeyAndTwo | native-contracts/staking-contract/src/state.rs:3-15 | the shared layout is 48 bytes: the 32 key bytes, then each `u64` little-endian |
| NativeState.DecodeKeyAndTwo | native-contracts/staking-contract/src/state.rs:3-15 | `try_from_slice` succeeds exactly on 48-byte buffers |
| NativeState.DecodeEncodeKeyAndTwo | native-contracts/staking-contract/src/state.rs:3-15 | decoding an encoded key and two `u64`s gives them back |
| NativeState.EncodeDecodeKeyAndTwo | native-contracts/staking-contract/src/state.rs:3-15 | every 48-byte buffer is the encoding of what it decodes to |
| NativeState.EncodePool | native-contracts/staking-contract/src/state.rs:3-8 | a pool encodes to 48 bytes starting with the admin key |
| NativeState.DecodePool | native-contracts/staking-contract/src/state.rs:3-8 | a pool decodes exactly from 48-byte buffers |
| NativeState.EncodeInfo | native-contracts/staking-contract/src/state.rs:10-15 | a stake record encodes to 48 bytes starting with the staker key |
| NativeState.DecodeInfo | native-contracts/staking-contract/src/state.rs:10-15 | a stake record decodes exactly from 48-byte buffers |
| NativeState.PoolLayout | native-contracts/staking-contract/src/state.rs:4-8 | bytes 0-31 are `admin`, 32-39 are `reward_rate`, 40-47 are `total_staked` |
| NativeState.InfoLayout | native-contracts/staking-contract/src/state.rs:11-15 | bytes 0-31 are `staker`, 32-39 are `amount`, 40-47 are `last_stake_time` |
| NativeState.DecodeEncodePool | native-contracts/staking-contract/src/state.rs:3-8 | decode(encode(pool)) is the pool |
| NativeState.EncodeDecodePool | native-contracts/staking-contract/src/state.rs:3-8 | encode(decode(bytes)) is the bytes |
| NativeState.DecodeEncodeInfo | native-contracts/staking-contract/src/state.rs:10-15 | decode(encode(record)) is the record |
| NativeState.EncodeDecodeInfo | native-contracts/staking-contract/src/state.rs:10-15 | encode(decode(bytes)) is the bytes |
| NativeState.ZeroPool | native-contracts/staking-contract/src/state.rs:4-8 | 48 zero bytes decode to a pool with zero admin, rate and total, which is what the re-init guard lets through |
| NativeState.ZeroInfo | native-contracts/staking-contract/src/state.rs:11-15 | 48 zero bytes decode to a stake record holding nothing |
| NativeInstruction.VariantIndex | native-contracts/staking-contract/src/instruction.rs:5-7 | each instruction has a variant index below 4 |
| NativeInstruction.Encode | native-contracts/staking-contract/src/instruction.rs:5-7 | the variant byte comes first, and the encoding is 9 bytes, or 1 for `ClaimRewards` |
| NativeInstruction.Decode | native-contracts/staking-contract/src/instruction.rs:5-7 | decoding succeeds exactly on a known variant byte followed by exactly its field bytes; anything else is rejected |
| NativeInstruction.DeclaredVariantBytes | native-contracts/staking-contract/src/instruction.rs:6-7 | `InitializePool{r}` is byte 0 then `r` little-endian, and `Stake{a}` is byte 1 then `a`, both ways |
| NativeInstruction.DecodeAfterEncode | native-contracts/staking-contract/src/instruction.rs:5-7 | decode(encode(i)) is i |
| NativeInstruction.EncodeAfterDecode | native-contracts/staking-contract/src/instruction.rs:5-7 | encode(decode(bytes)) is the bytes whenever they decode |
| NativeError.Discriminant | native-contracts/staking-contract/src/error.rs:5-14 | `e as u32` is the variant's position, below 5 |
| NativeError.StakingErrorOf | native-contracts/staking-contract/src/error.rs:16-20 | a program error names a staking error exactly when it is `Custom` with a code below 5 |
| NativeError.DeclaredCodes | native-contracts/staking-contract/src/error.rs:5-18 | `InvalidInstruction`, `NotRentExempt` and `AlreadyInitialized` become `Custom(0)`, `Custom(1)` and `Custom(2)` |
| NativeError.FromStakingErrorInjective | native-contracts/staking-contract/src/error.rs:16-20 | every staking error is recovered from its code, so no two share one |
| NativeProcessor.ReadPool | native-contracts/staking-contract/src/processor.rs:66 | reading the pool succeeds exactly on a 48-byte buffer and otherwise fails with a Borsh error |
| NativeProcessor.ReadInfo | native-contracts/staking-contract/src/processor.rs:194 | reading a stake record succeeds exactly on a 48-byte buffer and otherwise fails with a Borsh error |
| NativeProcessor.WriteRecord | native-contracts/staking-contract/src/processor.rs:77 | `serialize` into the buffer: succeeds exactly when the bytes fit and the runtime allows the change; it overwrites the buffer's front and keeps its length, lamports and owner; no other account changes |
| NativeProcessor.Reward | native-contracts/staking-contract/src/processor.rs:272-276 | the reward exists exactly when both checked products stay below 2^64, and it is duration × rate × amount |
| NativeProcessor.InitializePoolSpec | native-contracts/staking-contract/src/processor.rs:47-80 | `process_initialize_pool`: fewer than 3 accounts fail with `NotEnoughAccountKeys`; success needs the rent sysvar and a pool owned by the program, moves no token and changes no account but the pool (the checks in order: `InitializePoolChecks`; the write: `InitializePoolWrites`) |
| NativeProcessor.CreateStakeRecord | native-contracts/staking-contract/src/processor.rs:106-131 | the `create_account` of a missing record succeeds only with the rent sysvar and an unused target, which then belongs to the program and holds 48 bytes (what else it changes: `CreateStakeRecordFrame`) |
| NativeProcessor.StakeSpec | native-contracts/staking-contract/src/processor.rs:82-165 | `process_stake`: fewer than 8 accounts fail with `NotEnoughAccountKeys`; success needs the derived stake record and the token program (effect: `StakeEffect`; frame and lamports: `StakeFrame`; refusals: `StakeWrongRecordRejected`, `StakeWrongTokenProgram`) |
| NativeProcessor.RecordStake | native-contracts/staking-contract/src/processor.rs:157-162 | the closing writes of a stake succeed only on a 48-byte pool and add no account but the pool and the record (effect: `RecordStakeEffect`, `RecordStakeKeeps`) |
| NativeProcessor.CloseStakeRecord | native-contracts/staking-contract/src/processor.rs:227-235 | closing succeeds exactly when the program owns the record or it holds no lamports, and leaves the record with no lamports (conservation: `CloseStakeRecordConserves`, `CloseStakeRecordMoves`) |
| NativeProcessor.UnstakeSpec | native-contracts/staking-contract/src/processor.rs:167-238 | `process_unstake`: fewer than 6 accounts fail with `NotEnoughAccountKeys`; success needs the derived record, the token program, a decodable record and an amount it holds (effect: `UnstakeEffect`, `UnstakeCloses`; frame and lamports: `UnstakeFrame`; refusals: `UnstakeWrongRecordRejected`, `UnstakeInsufficient`, `UnstakeWrongTokenProgram`); as written no call reaches this success, because the `invoke_signed` at processor.rs:210-218 omits the vault-authority account (see `NativeProcessor.UnstakeSpec` under "Left out") |
| NativeProcessor.RecordUnstake | native-contracts/staking-contract/src/processor.rs:220-235 | the closing writes of an unstake succeed only on a 48-byte pool and remove no account (effect: `RecordUnstakeEffect`, `RecordUnstakeKeeps`) |
| NativeProcessor.ClaimRewardsSpec | native-contracts/staking-contract/src/processor.rs:240-308 | `process_claim_rewards`: fewer than 7 accounts fail with `NotEnoughAccountKeys`; success needs the derived record, the token program, the clock sysvar and a clock past the last stake time (effect: `ClaimRewardsEffect`; frame: `ClaimRewardsFrame`; refusals: `ClaimRewardsRejects`, `ClaimWrongRecordRejected`, `ClaimWrongTokenProgram`); as written no call reaches this success, because the `invoke_signed` at processor.rs:294-302 omits the vault-authority account (see `NativeProcessor.ClaimRewardsSpec` under "Left out") |
| NativeProcessor.ProcessSpec | native-contracts/staking-contract/src/processor.rs:23-44 | `process` succeeds only on data whose first byte names one of the four instructions, with at least 3 accounts (dispatch: `ProcessDispatches`; malformed data: `ProcessRejectsMalformed`) |
| NativeProcessor.ZeroFill | native-contracts/staking-contract/src/processor.rs:231-234 | the byte loop leaves every byte of the buffer zero |
| NativeProcessor.CloseRecord | native-contracts/staking-contract/src/processor.rs:227-235 | the in-place close (lamports moved, buffer zeroed by the loop) gives exactly the closed state |
| NativeProcessor.Ledger.constructor | native-contracts/staking-contract/src/processor.rs:23-27 | a program instance starts over exactly the given accounts and token accounts |
| NativeProcessor.Ledger.InitializePool | native-contracts/staking-contract/src/processor.rs:47-80 | the imperative handler returns the status of `process_initialize_pool` and leaves the accounts as that handler's committed result |
| NativeProcessor.Ledger.Stake | native-contracts/staking-contract/src/processor.rs:82-165 | likewise for `process_stake` (create-if-empty, transfer, total, record) |
| NativeProcessor.Ledger.Unstake | native-contracts/staking-contract/src/processor.rs:167-238 | likewise for `process_unstake`, including the in-place close; as written no call reaches this success, because the `invoke_signed` at processor.rs:210-218 omits the vault-authority account (see `NativeProcessor.UnstakeSpec` under "Left out") |
| NativeProcessor.Ledger.ClaimRewards | native-contracts/staking-contract/src/processor.rs:240-308 | likewise for `process_claim_rewards`; as written no call reaches this success, because the `invoke_signed` at processor.rs:294-302 omits the vault-authority account (see `NativeProcessor.ClaimRewardsSpec` under "Left out") |
| NativeProcessor.Ledger.Process | native-contracts/staking-contract/src/processor.rs:23-44 | decodes the instruction, dispatches, and ends in the committed state of `process` |
| NativeProperties.InitializePoolChecks | native-contracts/staking-contract/src/processor.rs:57-69 | not rent-exempt, then wrong owner, then a decoded total that is not zero are the failures, in that order; otherwise it succeeds exactly when the pool decodes with total 0 |
| NativeProperties.ReinitializeOverwritesAdmin | native-contracts/staking-contract/src/processor.rs:66-77 | a stored pool in use with total 0 is initialised again, with the caller as admin |
| NativeProperties.InitializePoolWrites | native-contracts/staking-contract/src/processor.rs:71-77 | success stores `{admin = caller, reward_rate, total_staked = 0}` and changes no other account or token |
| NativeProperties.InitializePoolScenario | native-contracts/staking-contract/tests/staking.rs:104-106 | a fresh 48-byte pool initialised with rate 5 holds the payer as admin, rate 5 and total 0 |
| NativeProperties.StakeWrongRecordRejected | native-contracts/staking-contract/src/processor.rs:93-104 | with 8 or more accounts, `process_stake` refuses a stake record that is not the derived one with `InvalidArgument`, and nothing changes |
| NativeProperties.UnstakeWrongRecordRejected | native-contracts/staking-contract/src/processor.rs:181-192 | with 6 or more accounts, `process_unstake` refuses it with `InvalidPda` (`Custom(3)`), and nothing changes |
| NativeProperties.ClaimWrongRecordRejected | native-contracts/staking-contract/src/processor.rs:254-261 | with 7 or more accounts, `process_claim_rewards` refuses it with `InvalidPda` (`Custom(3)`), and nothing changes |
| NativeProperties.StakeWrongTokenProgram | native-contracts/staking-contract/src/processor.rs:133-140 | a token-program account other than the token program never lets a stake succeed and never reaches the transfer; with an existing derived record the error is `IncorrectProgramId` |
| NativeProperties.UnstakeWrongTokenProgram | native-contracts/staking-contract/src/processor.rs:201-208 | likewise for unstake, whose error is `IncorrectProgramId` once the record and the amount pass |
| NativeProperties.ClaimWrongTokenProgram | native-contracts/staking-contract/src/processor.rs:285-292 | likewise for claim: it never succeeds and never reaches the transfer |
| NativeProperties.StakeRecordsDistinct | native-contracts/staking-contract/src/processor.rs:93-100 | different (wallet, pool) pairs get different stake records, barring a hash collision |
| NativeProperties.RecordStakeEffect | native-contracts/staking-contract/src/processor.rs:158-162 | the closing writes grow the total by the deposit modulo 2^64, store the new record, and leave every other account as it was |
| NativeProperties.StakeEffect | native-contracts/staking-contract/src/processor.rs:151-162 | a successful stake moves the deposit to the vault on the wallet's signature, grows the total by it (mod 2^64), and leaves the record as `{wallet, deposit, now}`; every other account is left as it was, as stated by `StakeFrame` |
| NativeProperties.StakeFrame | native-contracts/staking-contract/src/processor.rs:106-162 | a successful stake changes no account but the pool, the record and the wallet; the wallet pays the rent-exempt minimum exactly when the record is created, the new record holds it and belongs to the program, and the pool keeps its lamports |
| NativeProperties.CreateStakeRecordFrame | native-contracts/staking-contract/src/processor.rs:106-131 | creating the record changes no account but the wallet, debited by the rent-exempt minimum, and the record, which holds it |
| NativeProperties.RecordStakeKeeps | native-contracts/staking-contract/src/processor.rs:157-162 | the closing writes of a stake keep every account's lamports and owner and touch no account but the pool and the record |
| NativeProperties.UnstakeInsufficient | native-contracts/staking-contract/src/processor.rs:194-197 | unstaking more than the record holds fails with `InsufficientFunds` and changes nothing |
| NativeProperties.CloseStakeRecordConserves | native-contracts/staking-contract/src/processor.rs:227-235 | closing moves all the record's lamports to the wallet, zeroes every byte, and keeps the lamport total |
| NativeProperties.RecordUnstakeEffect | native-contracts/staking-contract/src/processor.rs:220-235 | the closing writes store the reduced record, reduce the total by the withdrawal (mod 2^64), and close an emptied record |
| NativeProperties.CloseKeepsData | native-contracts/staking-contract/src/processor.rs:227-235 | closing changes no other account's data |
| NativeProperties.UnstakeEffect | native-contracts/staking-contract/src/processor.rs:199-225 | a successful unstake pays the withdrawal from the vault on the vault authority's signature, and the record amount and the total both drop by exactly it (the total mod 2^64); every other account is left as it was, as stated by `UnstakeFrame`; as written no call reaches this success, because the `invoke_signed` at processor.rs:210-218 omits the vault-authority account (see `NativeProcessor.UnstakeSpec` under "Left out") |
| NativeProperties.UnstakeFrame | native-contracts/staking-contract/src/processor.rs:220-235 | a successful unstake changes no account but the pool, the record and the wallet; the wallet receives all of the record's lamports exactly when the withdrawal empties it, and the pool keeps its lamports; as written no call reaches this success, because the `invoke_signed` at processor.rs:210-218 omits the vault-authority account (see `NativeProcessor.UnstakeSpec` under "Left out") |
| NativeProperties.RecordUnstakeKeeps | native-contracts/staking-contract/src/processor.rs:220-235 | the closing writes of an unstake move lamports only from a closed record to the wallet, remove no account and touch no account but those three |
| NativeProperties.CloseStakeRecordMoves | native-contracts/staking-contract/src/processor.rs:227-229 | closing moves the record's lamports to the wallet and changes no other account |
| NativeProperties.UnstakeCloses | native-contracts/staking-contract/src/processor.rs:227-235 | an unstake that empties the record leaves it with no lamports and zero bytes, and the record is gone once the instruction commits; as written no call reaches this success, because the `invoke_signed` at processor.rs:210-218 omits the vault-authority account (see `NativeProcessor.UnstakeSpec` under "Left out") |
| NativeProperties.ClaimRewardsRejects | native-contracts/staking-contract/src/processor.rs:268-280 | a clock not past the last stake time, an overflowing reward and a zero reward fail, the last with `Custom(4)` |
| NativeProperties.ClaimRewardsEffect | native-contracts/staking-contract/src/processor.rs:272-305 | a successful claim pays (now − last) × rate × amount, sets the last stake time to now, and changes neither the amount nor the pool; every other account is left as it was, as stated by `ClaimRewardsFrame`; as written no call reaches this success, because the `invoke_signed` at processor.rs:294-302 omits the vault-authority account (see `NativeProcessor.ClaimRewardsSpec` under "Left out") |
| NativeProperties.ClaimRewardsFrame | native-contracts/staking-contract/src/processor.rs:304-305 | a successful claim changes no account but the record, whose lamports and owner stay the same; as written no call reaches this success, because the `invoke_signed` at processor.rs:294-302 omits the vault-authority account (see `NativeProcessor.ClaimRewardsSpec` under "Left out") |
| NativeProperties.ProcessDispatches | native-contracts/staking-contract/src/processor.rs:28-43 | `process` on an encoded instruction runs the handler that instruction names, with its argument |
| NativeProperties.ProcessRejectsMalformed | native-contracts/staking-contract/src/processor.rs:28 | instruction data that does not decode fails before any account is read |
| NativeProperties.PurgeKeepsLamports | native-contracts/staking-contract/src/processor.rs:227-229 | dropping the accounts left with no lamports loses no lamport |
| NativeProperties.CommitKeepsLamports | native-contracts/staking-contract/src/processor.rs:23-27 | a failed instruction leaves the state as it was; a successful one keeps its token balances and exactly the accounts that still hold lamports, and the total of lamports it left |
| NativeFindings.StakeDiscardsPrincipal | native-contracts/staking-contract/src/processor.rs:152-156 | as written, a second stake leaves the record holding only the new deposit |
| NativeFindings.AddStakeRefusesOverflow | native-contracts/staking-contract/src/processor.rs:159 | corrected writes refuse a total or principal that would pass 2^64 − 1 |
| NativeFindings.AddStakeEffect | native-contracts/staking-contract/src/processor.rs:151-162 | corrected writes add the deposit to the held principal and to the total, exactly |
| NativeFindings.StakeWithoutDeposit | native-contracts/staking-contract/src/processor.rs:133-150 | as written, naming the user's own token account as the vault moves no tokens, yet credits the record with the deposit |
| NativeFindings.StakeFixedPaysVault | native-contracts/staking-contract/src/processor.rs:133-150 | a corrected stake moves exactly the deposit into a distinct account owned by the vault authority |
| NativeFindings.StakeFixedCredits | native-contracts/staking-contract/src/processor.rs:151-162 | after a corrected stake, the record holds its previous principal plus the deposit, and the total has grown by the same |
| NativeFindings.StakeTotalWraps | native-contracts/staking-contract/src/processor.rs:159 | as written, a total carried past 2^64 − 1 comes back smaller than before |
| NativeFindings.UnstakeTotalWraps | native-contracts/staking-contract/src/processor.rs:224 | as written, a withdrawal above the total leaves it close to 2^64 |
| NativeFindings.RemoveStakeAgrees | native-contracts/staking-contract/src/processor.rs:220-225 | corrected writes refuse a withdrawal above the total and otherwise equal the written ones, with the total dropping exactly |
| NativeFindings.InitializePoolFixedGuards | native-contracts/staking-contract/src/processor.rs:66-69 | corrected init never overwrites a stored non-zero pool, and it still initialises a fresh all-zero one as the written handler does |
| NativeFindings.UnstakeNeedsNoSignature | native-contracts/staking-contract/src/processor.rs:167-218 | as written, unstake does the same with every signature removed |
| NativeFindings.ClaimNeedsNoSignature | native-contracts/staking-contract/src/processor.rs:240-302 | as written, claim does the same with every signature removed |
| NativeFindings.FixedPaysOnlyTheSigner | native-contracts/staking-contract/src/processor.rs:199-218 | corrected unstake and claim succeed only when the wallet signed and owns the paid account, agree with the written handlers then, and always refuse unsigned calls |
| AnchorState.EncodePoolBody | anchor-contracts/staking/programs/staking/src/state.rs:3-10 | the pool body is 81 bytes: `authority`, `reward_rate`, `vault`, `total_stake`, `bump` |
| AnchorState.DecodePoolBody | anchor-contracts/staking/programs/staking/src/state.rs:3-10 | reading the body takes `authority`, `vault` and `bump` from their offsets |
| AnchorState.EncodeStakeBody | anchor-contracts/staking/programs/staking/src/state.rs:16-22 | the stake body is 56 bytes starting with `owner` |
| AnchorState.DecodeStakeBody | anchor-contracts/staking/programs/staking/src/state.rs:16-22 | reading the body takes `owner` from the front |
| AnchorState.DecodeEncodePoolBody | anchor-contracts/staking/programs/staking/src/state.rs:3-10 | a pool body reads back as the pool, whatever follows it |
| AnchorState.EncodeDecodePoolBody | anchor-contracts/staking/programs/staking/src/state.rs:3-10 | the first 81 bytes re-encode to themselves |
| AnchorState.DecodeEncodeStakeBody | anchor-contracts/staking/programs/staking/src/state.rs:16-22 | a stake body reads back as the record, whatever follows it |
| AnchorState.EncodeDecodeStakeBody | anchor-contracts/staking/programs/staking/src/state.rs:16-22 | the first 56 bytes re-encode to themselves |
| AnchorState.EncodePoolAccount | anchor-contracts/staking/programs/staking/src/state.rs:3 | a stored pool is the 8-byte discriminator and then the body |
| AnchorState.DecodePoolAccount | anchor-contracts/staking/programs/staking/src/state.rs:3 | loading succeeds exactly when the data starts with the discriminator and holds a whole body |
| AnchorState.EncodeStakeAccount | anchor-contracts/staking/programs/staking/src/state.rs:16 | a stored stake record is the discriminator and then the body |
| AnchorState.DecodeStakeAccount | anchor-contracts/staking/programs/staking/src/state.rs:16 | loading succeeds exactly when the data starts with the discriminator and holds a whole body |
| AnchorState.DecodeEncodePoolAccount | anchor-contracts/staking/programs/staking/src/state.rs:3-10 | a stored pool loads back as itself |
| AnchorState.EncodeDecodePoolAccount | anchor-contracts/staking/programs/staking/src/state.rs:3-10 | whatever loads as a pool is that pool's stored form followed by ignored bytes |
| AnchorState.DecodeEncodeStakeAccount | anchor-contracts/staking/programs/staking/src/state.rs:16-22 | a stored stake record loads back as itself |
| AnchorState.EncodeDecodeStakeAccount | anchor-contracts/staking/programs/staking/src/state.rs:16-22 | whatever loads as a stake record is its stored form followed by ignored bytes |
| AnchorState.PoolSpace | anchor-contracts/staking/programs/staking/src/state.rs:13 | `INIT_SPACE` is 89, the discriminator plus the 81-byte body, equal to the `space` allocated at init, which a stored pool fills exactly |
| AnchorState.StakeSpace | anchor-contracts/staking/programs/staking/src/state.rs:25 | `INIT_SPACE` is 64 and already counts the discriminator; the allocation of 72 bytes exceeds the stored record, which still loads back from the zero-padded account |
| AnchorState.ZeroBodies | anchor-contracts/staking/programs/staking/src/context.rs:9 | zeroed data reads as the zero records, so a new pool's `bump` is 0 |
| AnchorContext.InitializePoolAccounts | anchor-contracts/staking/programs/staking/src/context.rs:5-32 | passes exactly when the authority signed, the vault and mint exist, the pool sits at the address derived from `("staking_pool", mint)` and does not exist yet, and the vault holds the mint and belongs to the pool |
| AnchorContext.StakeAccounts | anchor-contracts/staking/programs/staking/src/context.rs:34-67 | passes exactly when the user signed, the accounts exist, the pool sits at `("staking_pool", vault)`, and the stake record sits at `("user_stake", pool, user)` and does not exist yet |
| AnchorContext.UnstakeAccounts | anchor-contracts/staking/programs/staking/src/context.rs:69-97 | passes exactly when the user signed, the accounts and the stake record exist, and both derived addresses match |
| AnchorContext.ClaimRewardsAccounts | anchor-contracts/staking/programs/staking/src/context.rs:99-127 | the same, with the mint as well |
| AnchorContext.StakeAccountsDistinct | anchor-contracts/staking/programs/staking/src/context.rs:57 | different users of one pool get different stake records, barring a hash collision |
| AnchorProgram.Accrue | anchor-contracts/staking/programs/staking/src/lib.rs:50-55 | accrual changes only `pending_rewards`; what it adds is stated by the `AccrueExact`, `AccrueSegments` and `AccrueWraps` rows |
| AnchorProgram.InitializePoolSpec | anchor-contracts/staking/programs/staking/src/lib.rs:20-31 | `initialize_pool` succeeds exactly when its account context passes, and then creates the pool and changes no stake record, token or mint (stored fields: `InitializePoolEffect`) |
| AnchorProgram.StakeSpec | anchor-contracts/staking/programs/staking/src/lib.rs:33-73 | `stake` succeeds only when its context passes with the user's signature, and then adds exactly the user's record, owned by the user, and mints nothing (effect: `StakeEffect`; checks: `StakeChecks`); as written no call after `initialize_pool` reaches this success (`InitializedPoolUnusable`) |
| AnchorProgram.UnstakeSpec | anchor-contracts/staking/programs/staking/src/lib.rs:75-111 | `unstake` succeeds only when its context passes and the record holds the amount, and then adds or removes no record and mints nothing (effect: `UnstakeEffect`; as written it never succeeds: `UnstakeNeverPays`) |
| AnchorProgram.ClaimRewardsSpec | anchor-contracts/staking/programs/staking/src/lib.rs:113-143 | `claim_rewards` succeeds only when its context passes and rewards are pending, and then clears them and leaves the pool and the set of records as they were (effect: `ClaimRewardsEffect`; as written: `ClaimNeverPays`) |
| AnchorProgram.Execute | anchor-contracts/staking/programs/staking/src/lib.rs:15-144 | only `initialize_pool` succeeds before the pool exists, a pool exists after every success, and no instruction adds or removes a token account or a mint (invariant: `ExecuteKeepsBalanced`, `ExecuteKeepsRecords`) |
| AnchorProgram.Run | anchor-contracts/staking/programs/staking/src/lib.rs:15-144 | once the pool exists, no run of transactions removes it; the token accounts and mints keep their keys, so no key becomes both a token account and a mint (invariant: `RunKeepsBalanced`, `RunKeepsRecords`) |
| AnchorLedger.Ledger.constructor | anchor-contracts/staking/programs/staking/src/lib.rs:15-17 | a pool address with no pool and no stake records yet, which is balanced |
| AnchorLedger.Ledger.InitializePool | anchor-contracts/staking/programs/staking/src/lib.rs:20-31 | the in-place handler keeps the pool total balanced, returns the status of `initialize_pool`, and ends in its committed result |
| AnchorLedger.Ledger.Stake | anchor-contracts/staking/programs/staking/src/lib.rs:33-73 | likewise for `stake` |
| AnchorLedger.Ledger.Unstake | anchor-contracts/staking/programs/staking/src/lib.rs:75-111 | likewise for `unstake` |
| AnchorLedger.Ledger.ClaimRewards | anchor-contracts/staking/programs/staking/src/lib.rs:113-143 | likewise for `claim_rewards` |
| AnchorLedger.Ledger.Process | anchor-contracts/staking/programs/staking/src/lib.rs:17-144 | one transaction runs the named handler, keeps the invariant, and ends in the committed result |
| AnchorLedger.Ledger.ProcessAll | anchor-contracts/staking/programs/staking/src/lib.rs:17-144 | a sequence of transactions ends in the state `Run` gives, with the invariant kept throughout, and the i-th status is the outcome of the i-th call on the state the earlier calls left (`RunExtend`) |
| AnchorProperties.ElapsedBits | anchor-contracts/staking/programs/staking/src/lib.rs:52-53 | `(now - last) as u64` is the elapsed time whenever the clock has not gone back |
| AnchorProperties.AccrueExact | anchor-contracts/staking/programs/staking/src/lib.rs:50-55 | without overflow, accrual adds exactly elapsed × rate × principal to `pending_rewards` |
| AnchorProperties.AccrueSegments | anchor-contracts/staking/programs/staking/src/lib.rs:85-92 | accruing over [t0, t1] and then over [t1, t2] equals one accrual over [t0, t2] |
| AnchorProperties.InitializePoolEffect | anchor-contracts/staking/programs/staking/src/lib.rs:20-31 | succeeds exactly when the context passes, and then stores the authority, rate, vault, total 0 and bump 0 |
| AnchorProperties.InitializePoolOnce | anchor-contracts/staking/programs/staking/src/context.rs:8-14 | a second `initialize_pool` on the same pool fails |
| AnchorProperties.InitializePoolScenario | anchor-contracts/staking/tests/staking.ts:60-77 | the test's pool, at rate 1_000_000, records the authority, the rate and the vault |
| AnchorProperties.StakeChecks | anchor-contracts/staking/programs/staking/src/lib.rs:40-48 | after the context passes, stake succeeds exactly when the source is the user's and of the mint, the vault is the pool's, and the transfer succeeds; the failures come in that order |
| AnchorProperties.StakeEffect | anchor-contracts/staking/programs/staking/src/lib.rs:57-70 | a successful stake creates `{user, deposit, 0 pending, now}`, grows the total by the deposit (mod 2^64), and moves the tokens to the vault; as written no call after `initialize_pool` reaches this success (`InitializedPoolUnusable`), so this states what the code would do once the pool is found |
| AnchorProperties.UnstakeTooMuch | anchor-contracts/staking/programs/staking/src/lib.rs:81-83 | withdrawing more than the record holds fails with `InvalidArgument` |
| AnchorProperties.UnstakeEffect | anchor-contracts/staking/programs/staking/src/lib.rs:85-108 | a successful unstake accrues on the principal held before it, lowers the principal and the total by the same amount, restarts the clock, and pays from the vault; as written no call reaches this success unless the signer set already holds the pool's address (`UnstakeNeverPays`), so this states what the code would do once signed |
| AnchorProperties.UnstakeScenario | anchor-contracts/staking/programs/staking/src/lib.rs:85-92 | 100 staked at t = 1000 with rate 2, then 40 unstaked at t = 1100, leaves 60 staked and 20000 pending; the scenario supplies the pool's signature, which as written no call gets (`UnstakeNeverPays`) |
| AnchorProperties.ClaimRewardsRejectsNothing | anchor-contracts/staking/programs/staking/src/lib.rs:120-122 | with nothing pending, a claim fails with `InvalidArgument` |
| AnchorProperties.ClaimRewardsEffect | anchor-contracts/staking/programs/staking/src/lib.rs:128-140 | a successful claim mints exactly the pending rewards (account and supply) and clears them; the principal, the clock and the pool are unchanged; as written no call reaches this success unless the signer set already holds the pool's address (`ClaimNeverPays`) |
| AnchorProperties.InitializePoolKeepsBalanced | anchor-contracts/staking/programs/staking/src/lib.rs:27 | `initialize_pool` keeps the total equal to the sum of principals mod 2^64 |
| AnchorProperties.StakeKeepsBalanced | anchor-contracts/staking/programs/staking/src/lib.rs:67-70 | `stake` keeps it |
| AnchorProperties.UnstakeKeepsBalanced | anchor-contracts/staking/programs/staking/src/lib.rs:90-91 | `unstake` keeps it |
| AnchorProperties.ClaimRewardsKeepsBalanced | anchor-contracts/staking/programs/staking/src/lib.rs:138-140 | `claim_rewards` keeps it |
| AnchorProperties.ExecuteKeepsBalanced | anchor-contracts/staking/programs/staking/src/lib.rs:17-144 | every transaction keeps it, whether it succeeds or fails |
| AnchorProperties.RunKeepsBalanced | anchor-contracts/staking/programs/staking/src/lib.rs:17-144 | every sequence of transactions keeps it |
| AnchorProperties.RunExtend | anchor-contracts/staking/programs/staking/src/lib.rs:15-144 | a run of calls followed by one more call ends where that call, applied to the state the run left and committed, ends |
| AnchorProperties.TotalIsSum | anchor-contracts/staking/programs/staking/src/lib.rs:67-70 | while the principal fits in a `u64`, the balanced total is exactly the sum |
| AnchorProperties.RunTotalIsSum | anchor-contracts/staking/programs/staking/src/lib.rs:67-91 | starting from no pool, after any run whose principal fits, `total_stake` is the sum of the records' `amount` |
| AnchorProperties.ExecuteKeepsRecords | anchor-contracts/staking/programs/staking/src/context.rs:53-59 | no transaction removes a stake record |
| AnchorProperties.RunKeepsRecords | anchor-contracts/staking/programs/staking/src/context.rs:53-59 | no run of transactions removes one |
| AnchorFindings.AccrueWraps | anchor-contracts/staking/programs/staking/src/lib.rs:53 | as written, one second at rate 2^32 on 2^32 staked accrues nothing |
| AnchorFindings.AccrueCheckedResult | anchor-contracts/staking/programs/staking/src/lib.rs:50-55 | corrected accrual succeeds exactly when the clock has not gone back and nothing overflows, and then adds the exact reward; otherwise it names the reason |
| AnchorFindings.AccrueCheckedAgrees | anchor-contracts/staking/programs/staking/src/lib.rs:85-88 | where the corrected accrual succeeds, it equals the written one |
| AnchorFindings.StakeTotalWraps | anchor-contracts/staking/programs/staking/src/lib.rs:70 | as written, a total carried past 2^64 − 1 comes back smaller than before |
| AnchorFindings.PoolSeedsDiffer | anchor-contracts/staking/programs/staking/src/context.rs:12 | pool addresses derived from different keys differ, barring a hash collision |
| AnchorFindings.InitializedPoolUnusable | anchor-contracts/staking/programs/staking/src/context.rs:46-51 | after a pool is created from its mint in a state where no key is both a token account and a mint, every stake, unstake or claim fails after any run of transactions: a vault other than the mint derives another address, and the mint is no token account |
| AnchorFindings.UnstakeSignerIsNotPool | anchor-contracts/staking/programs/staking/src/lib.rs:94-96 | the `("vault", pool, bump)` seeds never derive the pool, which owns the vault |
| AnchorFindings.UnstakeNeverPays | anchor-contracts/staking/programs/staking/src/lib.rs:94-108 | as written, every unstake fails |
| AnchorFindings.ClaimSignerIsNotPool | anchor-contracts/staking/programs/staking/src/lib.rs:124-126 | with the stored bump 0, the claim's seeds derive the pool only if the canonical bump is 0 |
| AnchorFindings.ClaimNeverPays | anchor-contracts/staking/programs/staking/src/lib.rs:124-139 | as written, a pool holding bump 0 never signs the reward mint |
| AnchorFindings.StakeOnlyOnce | anchor-contracts/staking/programs/staking/src/context.rs:53-59 | as written, after a user's first stake, every later stake into that record fails after any run, so the accrual branch of `stake` is unreachable |
| AnchorFindings.ClaimAfterStakeFails | anchor-contracts/staking/programs/staking/src/lib.rs:113-143 | as written, a claim right after a stake fails, however much time has passed |
| AnchorFindings.InitializePoolFixedSigns | anchor-contracts/staking/programs/staking/src/lib.rs:21 | a pool created by the corrected init is found from its vault, and its stored bump makes the pool's own seeds sign for it |
| AnchorFindings.StakeFixedTopsUp | anchor-contracts/staking/programs/staking/src/lib.rs:50-70 | a corrected stake on an existing record accrues first, then adds the deposit to the principal and to the total, exactly |
| AnchorFindings.StakeFixedChecksTotals | anchor-contracts/staking/programs/staking/src/lib.rs:67-70 | for every record, new or existing, a successful corrected stake adds the deposit to the principal and to the total exactly, and a deposit that would carry either past 2^64 − 1 is refused |
| AnchorFindings.UnstakeFixedPays | anchor-contracts/staking/programs/staking/src/lib.rs:94-108 | with the canonical bump, a corrected unstake succeeds exactly when the amount is held, the arithmetic fits and the vault can pay |
| AnchorFindings.ClaimRewardsFixedPays | anchor-contracts/staking/programs/staking/src/lib.rs:113-143 | a corrected claim pays pending plus the reward accrued since the last accrual, which is positive, then restarts the clock with nothing pending |

## Left out

- Address derivation itself: SHA-256, the curve check and the bump search. It is an
  uninterpreted function, and collision freedom is assumed only per compared pair
  (`NoCollision`).
- Anchor's discriminator hash, its `Program<…>`, `Sysvar<…>` and `mut` checks, the rent
  deposit and payer debit of `init`, and owner checks on loaded accounts. The Anchor
  records are kept decoded in the handler model, and their codec is proved separately in
  `AnchorState`.
- Anchor instruction data (the 8-byte method selector) and its dispatch. An instruction is
  a datatype value.
- The exact order in which Anchor reports constraint errors. The model checks signer, then
  existence, then seeds, then `init` and `constraint`; only which call fails is meant to be
  exact.
- The clock. `now` is a parameter, read once per instruction; `stake` reads the clock twice
  within the same instruction, where it cannot differ.
- The rent schedule. It is a function of the `Runtime` value.
- The writable flags of account metas. In the runtime, a write to an account passed
  read-only fails with `ReadonlyDataModified` or `ReadonlyLamportChange`; in the model it
  succeeds.
- The account lists passed to `invoke` and `invoke_signed`, and the system-program account
  of `process_stake` (its seventh account). The model never checks that account, and the
  runtime would refuse a call into a program that is missing from the list.
- NativeProcessor.UnstakeSpec: the model lets it succeed, but as written it always fails
  once the token-program check passes. The transfer at processor.rs:200-207 names the
  vault-authority address as its signing authority, and that account is neither among the
  handler's six accounts nor in the list given to `invoke_signed` at processor.rs:210-218,
  so the runtime refuses the call (`MissingAccount`) and nothing changes. Every unstake
  success the model states, and the row on processor.rs:224, describe the code once that
  account is passed.
- NativeProcessor.ClaimRewardsSpec: likewise, as written it always fails once the
  token-program and reward checks pass, because the `invoke_signed` at
  processor.rs:294-302 lacks the vault-authority account that the transfer at
  processor.rs:284-292 needs; every claim success the model states describes the code
  once that account is passed.
- Chain.Transfer: models the owner as the only authority. SPL also lets a delegate move
  up to its allowance, and refuses an account that is frozen; neither appears here, so
  a transfer signed by a delegate fails in the model and a frozen account can pay.
- `msg!` logging, the entrypoint in `native-contracts/staking-contract/src/lib.rs`, and
  the test harnesses, which are used only for scenarios.
- The `constants` and `utils` modules named in the Anchor `lib.rs`. They are not part of
  this model.
- The build profile. The Cargo manifests are not part of this model. Unchecked `+`, `+=`,
  `-=`, `*` and the `i64` `now - last` are modelled as wrapping, which is what they do only
  in a build without overflow checks. An `anchor init` workspace sets
  `overflow-checks = true` for release builds. With that setting these operations panic
  and the transaction aborts, leaving every account as it was, instead of storing a
  wrapped value. The findings on lib.rs:53, lib.rs:70, processor.rs:159 and processor.rs:224
  read as "aborts" in such a build.
- Concurrency. The runtime serialises transactions.
- AnchorLedger.Ledger: models one pool, fixed at construction. Two pools never share
  records, so a run over several pools is not modelled.
- AnchorProgram.Accrue: its own contract states only the frame. Its arithmetic is stated
  by `AccrueExact`, `AccrueSegments` and `AccrueWraps`.
- NativeProcessor.Ledger: the account data is kept as byte sequences inside a map. Only
  the zeroing of a closed record runs over an `array`, as in the source's loop.
  Aliasing between the `AccountInfo`s of one instruction is not modelled; each handler
  reads and writes the keyed map.

## Findings

| source | as written | input that shows it | evidently intended | confidence | as-written member | corrected member |
|---|---|---|---|---|---|---|
| native-contracts/staking-contract/src/processor.rs:152-156 | a stake writes the deposit as the record's whole amount | stake 50, then stake 10: the record holds 10 while 60 sit in the vault | the deposit is added to the held principal | not executed | NativeFindings.StakeDiscardsPrincipal | NativeFindings.StakeFixedCredits |
| native-contracts/staking-contract/src/processor.rs:159 | `total_staked += amount` unchecked | total 2^64 − 1, deposit 1: without overflow checks the total becomes 0; with them the instruction aborts | refuse the overflow | not executed | NativeFindings.StakeTotalWraps | NativeFindings.AddStakeRefusesOverflow |
| native-contracts/staking-contract/src/processor.rs:224 | `total_staked -= amount` unchecked (latent: as written no call reaches this line, because the `invoke_signed` at :210-218 fails first) | once that call is fixed, total 0 after a wrap, withdrawal 1: without overflow checks the total becomes 2^64 − 1; with them the instruction aborts | refuse a withdrawal above the total | not executed | NativeFindings.UnstakeTotalWraps | NativeFindings.RemoveStakeAgrees |
| native-contracts/staking-contract/src/processor.rs:66-69 | the re-init guard reads only `total_staked` | a pool initialised by A with rate 5 and never staked into (or staked only with amount 0) is initialised again by B, who becomes admin | initialise only an all-zero pool account | not executed | NativeProperties.ReinitializeOverwritesAdmin | NativeFindings.InitializePoolFixedGuards |
| native-contracts/staking-contract/src/processor.rs:133-150 | the vault account is not checked | vault = the user's own token account: no tokens move, yet the record is credited | the vault must be a distinct account of the vault authority | not executed | NativeFindings.StakeWithoutDeposit | NativeFindings.StakeFixedPaysVault |
| native-contracts/staking-contract/src/processor.rs:167-218 | unstake never checks that the wallet signed (latent: as written the payout call fails for every caller) | latent: once the vault authority is added to the `invoke_signed` accounts, anyone names a victim's wallet and their own token account, and receives the victim's stake | only the wallet's signature releases its stake, to its own account | not executed | NativeFindings.UnstakeNeedsNoSignature | NativeFindings.FixedPaysOnlyTheSigner |
| native-contracts/staking-contract/src/processor.rs:240-302 | claim never checks that the wallet signed (latent: as written the payout call fails for every caller) | latent: once the vault authority is added to the `invoke_signed` accounts, anyone claims a victim's rewards into their own token account | only the wallet's signature claims its rewards | not executed | NativeFindings.ClaimNeedsNoSignature | NativeFindings.FixedPaysOnlyTheSigner |
| anchor-contracts/staking/programs/staking/src/lib.rs:53 | accrual `elapsed as u64 * rate * amount` and `+=` unchecked (latent: as written every call fails at the pool lookup, context.rs:48) | once the pool is found, amount 2^32, rate 2^32, one second: without overflow checks nothing accrues; with the checks an `anchor init` workspace enables, the instruction aborts | refuse the overflow | not executed | AnchorFindings.AccrueWraps | AnchorFindings.AccrueCheckedAgrees |
| anchor-contracts/staking/programs/staking/src/lib.rs:70 | `total_stake += amount` unchecked (latent: as written every call fails at the pool lookup, context.rs:48) | once the pool is found, total 2^64 − 1, deposit 1: without overflow checks the total becomes 0; with the checks an `anchor init` workspace enables, the instruction aborts | refuse the overflow with an error | not executed | AnchorFindings.StakeTotalWraps | AnchorFindings.StakeFixedChecksTotals |
| anchor-contracts/staking/programs/staking/src/context.rs:48 | after init, the pool is looked up from `("staking_pool", vault)`, but it was created at `("staking_pool", mint)` | any vault: stake, unstake and claim all fail, since a vault other than the mint derives another address and the mint is no token account | derive the pool from the mint everywhere | not executed | AnchorFindings.InitializedPoolUnusable | AnchorFindings.InitializePoolFixedSigns |
| anchor-contracts/staking/programs/staking/src/lib.rs:96 | unstake signs with `("vault", pool, bump)`, which is not the pool's address (latent: as written every call fails at the pool lookup, context.rs:48) | once the pool is found, any unstake: the transfer lacks the pool's signature | sign with the pool's own seeds | not executed | AnchorFindings.UnstakeNeverPays | AnchorFindings.UnstakeFixedPays |
| anchor-contracts/staking/programs/staking/src/lib.rs:21 | the stored bump is read from the freshly zeroed account, so it is 0 (latent: as written every call fails at the pool lookup, context.rs:48) | once the pool is found, a pool whose canonical bump is 255: no claim can sign | store the canonical bump | not executed | AnchorFindings.ClaimNeverPays | AnchorFindings.InitializePoolFixedSigns |
| anchor-contracts/staking/programs/staking/src/context.rs:53-59 | the stake record is `init`, so it is created once and a second stake fails (latent: as written every call fails at the pool lookup, context.rs:48) | once the pool is found, stake 100, then stake 10 from the same wallet: the second fails | create the record if needed and top it up | not executed | AnchorFindings.StakeOnlyOnce | AnchorFindings.StakeFixedTopsUp |
| anchor-contracts/staking/programs/staking/src/lib.rs:113-143 | claim pays only `pending_rewards` and accrues nothing (latent: as written every call fails at the pool lookup, context.rs:48) | once the pool is found, stake 100 at rate 2, claim 1000 s later: the claim fails | accrue up to now, then pay | not executed | AnchorFindings.ClaimAfterStakeFails | AnchorFindings.ClaimRewardsFixedPays |
