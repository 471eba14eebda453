/** Errors of the native draft: the program's own `StakingError` enum, its conversion into
    the runtime's `ProgramError::Custom(code)`, and the `ProgramError` kinds the handlers
    return. */
module NativeError {
  import opened Wrappers
  import opened Int
  import Chain

  /** The declared variants, followed by the two the processor uses but the enum does not
      declare (`InvalidPda`, `NothingToClaim`); they take the next discriminants. */
  datatype StakingError = InvalidInstruction | NotRentExempt | AlreadyInitialized | InvalidPda | NothingToClaim

  /** The runtime's error kinds as far as the handlers can produce them. A failing call into
      the token or system program carries that program's own error. `ArithmeticOverflow` is
      returned only by the corrected definitions beside the findings. */
  datatype ProgramError =
    | Custom(code: u32)
    | InvalidArgument
    | InsufficientFunds
    | AccountNotRentExempt
    | IncorrectProgramId
    | AccountAlreadyInitialized
    | NotEnoughAccountKeys
    | BorshIoError
    | ExternalAccountDataModified
    | ExternalAccountLamportSpend
    | SystemFailure(system: Chain.SystemError)
    | TokenFailure(token: Chain.TokenError)
    | ArithmeticOverflow

  /** `e as u32`: the variant's position in the enum. */
  function Discriminant(e: StakingError): (r: u32)
    ensures r < 5
  {
    match e
    case InvalidInstruction => 0
    case NotRentExempt => 1
    case AlreadyInitialized => 2
    case InvalidPda => 3
    case NothingToClaim => 4
  }

  /** `impl From<StakingError> for ProgramError`. */
  function FromStakingError(e: StakingError): (r: ProgramError)
    ensures r.Custom? && r.code == Discriminant(e)
  {
    Custom(Discriminant(e))
  }

  /** Reads a custom error code back as a `StakingError`, if it is one. */
  function StakingErrorOf(err: ProgramError): (r: Option<StakingError>)
    ensures r.Some? <==> err.Custom? && err.code < 5
  {
    if !err.Custom? then None
    else if err.code == 0 then Some(InvalidInstruction)
    else if err.code == 1 then Some(NotRentExempt)
    else if err.code == 2 then Some(AlreadyInitialized)
    else if err.code == 3 then Some(InvalidPda)
    else if err.code == 4 then Some(NothingToClaim)
    else None
  }

  /** The three declared variants become `Custom(0)`, `Custom(1)` and `Custom(2)`. */
  lemma DeclaredCodes()
    ensures FromStakingError(InvalidInstruction) == Custom(0)
    ensures FromStakingError(NotRentExempt) == Custom(1)
    ensures FromStakingError(AlreadyInitialized) == Custom(2)
  {
  }

  /** The conversion loses nothing: every staking error is recovered from its code, so no
      two variants share a code. */
  lemma FromStakingErrorInjective(a: StakingError, b: StakingError)
    ensures StakingErrorOf(FromStakingError(a)) == Some(a)
    ensures FromStakingError(a) == FromStakingError(b) ==> a == b
  {
  }
}
