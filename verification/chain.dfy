/** The part of the Solana runtime and of the programs the two drafts call into that the
    handlers depend on: public keys and program-derived addresses, accounts with lamports,
    owner and data, the SPL token program's `Transfer` and `MintTo`, and the system
    program's `CreateAccount`. Each external program is a total function from the accounts
    it touches to either their new contents or the error it reports. */
module Chain {
  import opened Wrappers
  import opened Int
  import opened Borsh
  import opened Sums

  type Pubkey = Bytes32
  type Seeds = seq<Bytes>

  /** The system program's id is the all-zero key. */
  const SYSTEM_PROGRAM_ID: Pubkey := Zeros(32)

  /** A seed written as a Rust byte-string literal such as `b"vault"` (ASCII only). */
  function Label(s: string): (r: Bytes)
    ensures |r| == |s|
  {
    seq(|s|, i requires 0 <= i < |s| => (s[i] as int) % 256)
  }

  /** The bytes the address derivation hashes: the seeds one after the other. */
  function Concat(seeds: Seeds): (r: Bytes)
    ensures |seeds| == 0 ==> r == []
  {
    if seeds == [] then [] else seeds[0] + Concat(seeds[1..])
  }

  lemma {:induction false} ConcatLength(seeds: Seeds)
    ensures |Concat(seeds)| == SeedsLength(seeds)
  {
    if seeds != [] {
      ConcatLength(seeds[1..]);
    }
  }

  function SeedsLength(seeds: Seeds): nat {
    if seeds == [] then 0 else |seeds[0]| + SeedsLength(seeds[1..])
  }

  /** The concatenation of a three-seed list. */
  lemma ConcatThree(a: Bytes, b: Bytes, c: Bytes)
    ensures Concat([a, b, c]) == a + b + c
  {
    assert Concat([c]) == c + Concat([]);
    assert Concat([b, c]) == b + Concat([c]);
    assert Concat([a, b, c]) == a + Concat([b, c]);
  }

  /** Appending the bump seed appends its byte. */
  lemma {:induction false} ConcatBump(seeds: Seeds, bump: u8)
    ensures Concat(seeds + [[bump]]) == Concat(seeds) + [bump]
  {
    if seeds == [] {
      assert [[bump]][1..] == [];
    } else {
      assert (seeds + [[bump]])[1..] == seeds[1..] + [[bump]];
      ConcatBump(seeds[1..], bump);
    }
  }

  /** What the runtime provides to one program: its id, the address derivation for that
      program (a hash of the concatenated seeds, the program id and a fixed marker), the
      bump `find_program_address` settles on, the rent schedule, and the well-known ids of
      the token program and of the rent and clock sysvars. */
  datatype Runtime = Runtime(
    programId: Pubkey,
    pdaOf: Bytes -> Pubkey,
    canonicalBump: Bytes -> u8,
    minimumBalance: nat -> nat,
    tokenProgramId: Pubkey,
    rentSysvarId: Pubkey,
    clockSysvarId: Pubkey)

  /** `Pubkey::create_program_address(seeds, program_id)`. */
  function CreatePda(rt: Runtime, seeds: Seeds): Pubkey {
    rt.pdaOf(Concat(seeds))
  }

  /** `Pubkey::find_program_address(seeds, program_id)`: the address made from the seeds
      followed by the one-byte canonical bump, and that bump. */
  function FindPda(rt: Runtime, seeds: Seeds): (r: (Pubkey, u8))
    ensures r.0 == CreatePda(rt, seeds + [[r.1]])
  {
    var bump := rt.canonicalBump(Concat(seeds));
    (CreatePda(rt, seeds + [[bump]]), bump)
  }

  /** The hash does not collide on these two inputs. Derived addresses are 32-byte hashes,
      so distinct seeds give distinct addresses only up to collisions, and the lemmas that
      rely on it say so for the inputs they compare. */
  predicate NoCollision(rt: Runtime, a: Bytes, b: Bytes) {
    a != b ==> rt.pdaOf(a) != rt.pdaOf(b)
  }

  /** `Rent::is_exempt(lamports, data_len)`. */
  predicate RentExempt(rt: Runtime, lamports: nat, size: nat) {
    lamports >= rt.minimumBalance(size)
  }

  /** An account as the runtime stores it. */
  datatype Account = Account(lamports: nat, owner: Pubkey, data: Bytes)

  /** A key with no stored account reads as an empty, system-owned account. */
  function AccountAt(accounts: map<Pubkey, Account>, key: Pubkey): (r: Account)
    ensures key !in accounts ==> r.lamports == 0 && r.data == [] && r.owner == SYSTEM_PROGRAM_ID
  {
    if key in accounts then accounts[key] else Account(0, SYSTEM_PROGRAM_ID, [])
  }

  function LamportsOf(a: Account): int { a.lamports }

  /** All lamports held by the given accounts. */
  ghost function Lamports(accounts: map<Pubkey, Account>): int {
    SumBy(accounts, LamportsOf)
  }

  /** An account passed to an instruction and whether it signed the transaction. */
  datatype AccountMeta = AccountMeta(key: Pubkey, isSigner: bool)

  /** The keys that signed the transaction. */
  function Signers(metas: seq<AccountMeta>): (r: set<Pubkey>)
    ensures forall m :: m in metas && m.isSigner ==> m.key in r
    ensures forall k :: k in r ==> exists m :: m in metas && m.isSigner && m.key == k
  {
    set m | m in metas && m.isSigner :: m.key
  }

  // ---------------------------------------------------------------- SPL token

  datatype TokenAccount = TokenAccount(mint: Pubkey, owner: Pubkey, amount: u64)
  datatype Mint = Mint(mintAuthority: Option<Pubkey>, supply: u64)

  datatype TokenError =
    | UninitializedAccount
    | InsufficientFunds
    | MintMismatch
    | OwnerMismatch
    | MissingSignature
    | FixedSupply
    | Overflow

  function AmountOf(t: TokenAccount): int { t.amount }

  /** All tokens held by the given accounts. */
  ghost function TokenSupply(tokens: map<Pubkey, TokenAccount>): int {
    SumBy(tokens, AmountOf)
  }

  /** The token program's `Transfer` of `amount` from `source` to `dest`, authorised by
      `authority` (`signed` says whether its signature is present). A transfer to the
      source itself succeeds and changes nothing. */
  function Transfer(tokens: map<Pubkey, TokenAccount>, source: Pubkey, dest: Pubkey,
                    authority: Pubkey, signed: bool, amount: u64): (r: Result<map<Pubkey, TokenAccount>, TokenError>)
    ensures r.Ok? <==>
      source in tokens && dest in tokens && amount <= tokens[source].amount
      && tokens[source].mint == tokens[dest].mint && tokens[source].owner == authority && signed
      && (source == dest || tokens[dest].amount + amount < U64_LIMIT)
    ensures r.Ok? && source != dest ==>
      r.value == tokens[source := tokens[source].(amount := tokens[source].amount - amount)]
                       [dest := tokens[dest].(amount := tokens[dest].amount + amount)]
    ensures r.Ok? && source == dest ==> r.value == tokens
    ensures r.Ok? ==> r.value.Keys == tokens.Keys
  {
    if source !in tokens || dest !in tokens then Err(UninitializedAccount)
    else
      var src, dst := tokens[source], tokens[dest];
      if src.amount < amount then Err(InsufficientFunds)
      else if src.mint != dst.mint then Err(MintMismatch)
      else if src.owner != authority then Err(OwnerMismatch)
      else if !signed then Err(MissingSignature)
      else if source == dest then Ok(tokens)
      else if dst.amount + amount >= U64_LIMIT then Err(Overflow)
      else
        var after: map<Pubkey, TokenAccount> := tokens[source := src.(amount := src.amount - amount)];
        Ok(after[dest := after[dest].(amount := after[dest].amount + amount)])
  }

  /** A transfer neither creates nor destroys tokens. */
  lemma TransferConserves(tokens: map<Pubkey, TokenAccount>, source: Pubkey, dest: Pubkey,
                          authority: Pubkey, signed: bool, amount: u64)
    requires Transfer(tokens, source, dest, authority, signed, amount).Ok?
    ensures TokenSupply(Transfer(tokens, source, dest, authority, signed, amount).value) == TokenSupply(tokens)
  {
    if source != dest {
      var src := tokens[source];
      var after: map<Pubkey, TokenAccount> := tokens[source := src.(amount := src.amount - amount)];
      var final: map<Pubkey, TokenAccount> := after[dest := after[dest].(amount := after[dest].amount + amount)];
      assert Transfer(tokens, source, dest, authority, signed, amount).value == final;
      SumByUpdate(tokens, AmountOf, source, src.(amount := src.amount - amount));
      SumByUpdate(after, AmountOf, dest, after[dest].(amount := after[dest].amount + amount));
    }
  }

  /** The token program's `MintTo`: `amount` new tokens of `mint` credited to `dest`,
      authorised by `authority`. */
  function MintTo(tokens: map<Pubkey, TokenAccount>, mints: map<Pubkey, Mint>, mint: Pubkey,
                  dest: Pubkey, authority: Pubkey, signed: bool, amount: u64)
    : (r: Result<(map<Pubkey, TokenAccount>, map<Pubkey, Mint>), TokenError>)
    ensures r.Ok? <==>
      dest in tokens && mint in mints && tokens[dest].mint == mint
      && mints[mint].mintAuthority == Some(authority) && signed
      && tokens[dest].amount + amount < U64_LIMIT && mints[mint].supply + amount < U64_LIMIT
    ensures r.Ok? ==>
      r.value.0 == tokens[dest := tokens[dest].(amount := tokens[dest].amount + amount)]
      && r.value.1 == mints[mint := mints[mint].(supply := mints[mint].supply + amount)]
    ensures r.Ok? ==> r.value.0.Keys == tokens.Keys && r.value.1.Keys == mints.Keys
  {
    if dest !in tokens || mint !in mints then Err(UninitializedAccount)
    else
      var dst, m := tokens[dest], mints[mint];
      if dst.mint != mint then Err(MintMismatch)
      else if m.mintAuthority.None? then Err(FixedSupply)
      else if m.mintAuthority.value != authority then Err(OwnerMismatch)
      else if !signed then Err(MissingSignature)
      else if dst.amount + amount >= U64_LIMIT || m.supply + amount >= U64_LIMIT then Err(Overflow)
      else Ok((tokens[dest := dst.(amount := dst.amount + amount)], mints[mint := m.(supply := m.supply + amount)]))
  }

  /** Minting raises the tokens held by accounts by exactly the minted amount. */
  lemma MintToAdds(tokens: map<Pubkey, TokenAccount>, mints: map<Pubkey, Mint>, mint: Pubkey,
                   dest: Pubkey, authority: Pubkey, signed: bool, amount: u64)
    requires MintTo(tokens, mints, mint, dest, authority, signed, amount).Ok?
    ensures TokenSupply(MintTo(tokens, mints, mint, dest, authority, signed, amount).value.0)
            == TokenSupply(tokens) + amount
  {
    SumByUpdate(tokens, AmountOf, dest, tokens[dest].(amount := tokens[dest].amount + amount));
  }

  // ---------------------------------------------------------------- system program

  datatype SystemError =
    | AccountAlreadyInUse
    | MissingRequiredSignature
    | ResultWithNegativeLamports
    | InvalidAccountDataLength
    /** A payer that carries data: reported as `InstructionError::InvalidArgument`. */
    | PayerCarriesData

  /** `MAX_PERMITTED_DATA_LENGTH`: the largest `space` an account may be given (10 MiB). */
  const MAX_PERMITTED_DATA_LENGTH: nat := 10 * 1024 * 1024

  /** The system program's `CreateAccount`: `payer` funds a new account at `target` with
      `lamports`, `space` zero bytes and owner `owner`. Both must have signed (`signers`).
      The target must hold no lamports and no data and belong to the system program, the
      size must not exceed `MAX_PERMITTED_DATA_LENGTH`, and the payer, as it stands once the
      target is allocated, must carry no data (a payer equal to the target then carries
      the new `space` bytes). */
  function CreateAccount(accounts: map<Pubkey, Account>, signers: set<Pubkey>, payer: Pubkey,
                         target: Pubkey, lamports: nat, space: nat, owner: Pubkey)
    : (r: Result<map<Pubkey, Account>, SystemError>)
    ensures r.Ok? <==>
      AccountAt(accounts, target).lamports == 0 && target in signers
      && AccountAt(accounts, target).data == [] && AccountAt(accounts, target).owner == SYSTEM_PROGRAM_ID
      && space <= MAX_PERMITTED_DATA_LENGTH
      && payer in signers && (if payer == target then space == 0 else AccountAt(accounts, payer).data == [])
      && lamports <= AccountAt(accounts, payer).lamports
    ensures r.Ok? && payer != target ==>
      r.value == accounts[target := Account(lamports, owner, Zeros(space))]
                         [payer := AccountAt(accounts, payer).(lamports := AccountAt(accounts, payer).lamports - lamports)]
  {
    var to := AccountAt(accounts, target);
    if to.lamports > 0 then Err(AccountAlreadyInUse)
    else if target !in signers then Err(MissingRequiredSignature)
    else if to.data != [] || to.owner != SYSTEM_PROGRAM_ID then Err(AccountAlreadyInUse)
    else if space > MAX_PERMITTED_DATA_LENGTH then Err(InvalidAccountDataLength)
    else
      var created := accounts[target := Account(0, owner, Zeros(space))];
      var from := AccountAt(created, payer);
      if payer !in signers then Err(MissingRequiredSignature)
      else if from.data != [] then Err(PayerCarriesData)
      else if from.lamports < lamports then Err(ResultWithNegativeLamports)
      else
        var debited := created[payer := from.(lamports := from.lamports - lamports)];
        var credited := AccountAt(debited, target);
        Ok(debited[target := credited.(lamports := credited.lamports + lamports)])
  }

  /** `CreateAccount` touches only the data and owner of the new account, which it gives
      `space` zero bytes and the requested owner; every other account keeps its data and
      owner (the payer loses lamports only). */
  lemma CreateAccountFrame(accounts: map<Pubkey, Account>, signers: set<Pubkey>, payer: Pubkey,
                           target: Pubkey, lamports: nat, space: nat, owner: Pubkey)
    requires CreateAccount(accounts, signers, payer, target, lamports, space, owner).Ok?
    ensures var after := CreateAccount(accounts, signers, payer, target, lamports, space, owner).value;
      && AccountAt(after, target).data == Zeros(space) && AccountAt(after, target).owner == owner
      && forall k :: k != target ==>
           AccountAt(after, k).data == AccountAt(accounts, k).data && AccountAt(after, k).owner == AccountAt(accounts, k).owner
  {
  }
}
