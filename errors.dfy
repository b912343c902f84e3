/** The error taxonomy of programs/octasol_contract/src/util/errors.rs, the
    errors the account-validation layer and the runtime raise, and the checks
    the program's own error messages imply. */
module Errors {
  import opened Numeric
  import opened Wrappers

  /** `BountyError`, the program's declared error enum, in declaration order. */
  datatype BountyError =
    | InvalidBountyState
    | ZeroAmount
    | UnauthorizedOperation
    | InsufficientAmount
    | ContributorAlreadyAssigned
    | ArithmeticOverflow

  /** Custom error codes are numbered from this offset in declaration order. */
  const ERROR_CODE_OFFSET: nat := 6000

  /** The numeric code of a `BountyError`. */
  function Code(e: BountyError): (c: nat)
    ensures ERROR_CODE_OFFSET <= c < ERROR_CODE_OFFSET + 6
  {
    ERROR_CODE_OFFSET +
      match e
      case InvalidBountyState => 0
      case ZeroAmount => 1
      case UnauthorizedOperation => 2
      case InsufficientAmount => 3
      case ContributorAlreadyAssigned => 4
      case ArithmeticOverflow => 5
  }

  /** The error a numeric code denotes, if any. */
  function FromCode(c: nat): (r: Option<BountyError>)
    ensures r.Some? <==> ERROR_CODE_OFFSET <= c < ERROR_CODE_OFFSET + 6
  {
    if c == ERROR_CODE_OFFSET then Some(InvalidBountyState)
    else if c == ERROR_CODE_OFFSET + 1 then Some(ZeroAmount)
    else if c == ERROR_CODE_OFFSET + 2 then Some(UnauthorizedOperation)
    else if c == ERROR_CODE_OFFSET + 3 then Some(InsufficientAmount)
    else if c == ERROR_CODE_OFFSET + 4 then Some(BountyError.ContributorAlreadyAssigned)
    else if c == ERROR_CODE_OFFSET + 5 then Some(ArithmeticOverflow)
    else None
  }

  /** Codes identify errors: decoding a code gives its error back, so the six
      codes are pairwise distinct. */
  lemma CodeRoundTrip(e: BountyError)
    ensures FromCode(Code(e)) == Some(e)
  {
  }

  lemma CodesDistinct(e1: BountyError, e2: BountyError)
    ensures Code(e1) == Code(e2) <==> e1 == e2
  {
    CodeRoundTrip(e1);
    CodeRoundTrip(e2);
  }

  /** `ContractError`: the variants admin_ops.rs refers to. No such enum is
      declared among the program's sources (errors.rs declares `BountyError`). */
  datatype ContractError =
    | Unauthorized
    | InvalidBountyStateForOperation
    | ContributorAlreadyAssigned
    | InvalidMint
    | InvalidTokenAccount

  /** Errors raised by the account-validation code the framework generates
      from the `#[account(...)]` attributes. */
  datatype FrameworkError =
    | AccountNotInitialized         // no account at the address
    | AccountOwnedByWrongProgram    // the account belongs to another program
    | AccountDiscriminatorMismatch  // an account of this program, of another record type
    | AccountDidNotDeserialize      // a token-program account of the other kind
    | AccountNotSigner              // a `Signer` that did not sign
    | ConstraintSeeds               // `seeds = [...]`
    | ConstraintHasOne              // `has_one = field`
    | ConstraintRaw                 // `constraint = ...` without a custom error
    | ConstraintClose               // `close = target` with the account itself as target
    | ConstraintTokenOwner          // `associated_token::authority`
    | ConstraintAssociated          // `associated_token::mint` / address

  /** Errors of the runtime programs that create accounts for `init`. */
  datatype RuntimeError =
    | AccountAlreadyInUse       // the address already holds an account
    | InsufficientLamports      // the payer cannot fund the rent-exempt deposit
    | InvalidSeeds              // an associated token account at the wrong address

  datatype Error =
    | Framework(framework: FrameworkError)
    | Runtime(runtime: RuntimeError)
    | Program(program: BountyError)
    | Contract(contract: ContractError)

  /** An instruction result: a value, or the error that aborted it. */
  datatype Result<+T> = Ok(value: T) | Err(error: Error) {
    predicate IsFailure() { Err? }

    function PropagateFailure<U>(): Result<U>
      requires Err?
    {
      Err(error)
    }

    function Extract(): T
      requires Ok?
    {
      value
    }
  }

  /** The verdict of a check that yields no value. */
  datatype Outcome = Pass | Fail(error: Error) {
    predicate IsFailure() { Fail? }

    function PropagateFailure<U>(): Result<U>
      requires Fail?
    {
      Err(error)
    }
  }

  /** Passes when `cond` holds, and fails with `e` otherwise. */
  function Need(cond: bool, e: Error): (r: Outcome)
    ensures r.Pass? <==> cond
    ensures r.Fail? ==> r.error == e
  {
    if cond then Pass else Fail(e)
  }

  /** The least amount a bounty may be funded with. */
  const MIN_BOUNTY_AMOUNT: nat := 1000

  /** The funding check the `ZeroAmount` and `InsufficientAmount` messages
      describe: zero is rejected first, then anything below the minimum. */
  function ValidateAmount(amount: U64): (r: Outcome)
    ensures r.Pass? <==> amount >= MIN_BOUNTY_AMOUNT
    ensures amount == 0 ==> r == Fail(Program(ZeroAmount))
    ensures 0 < amount < MIN_BOUNTY_AMOUNT ==> r == Fail(Program(InsufficientAmount))
  {
    if amount == 0 then Fail(Program(ZeroAmount))
    else if amount < MIN_BOUNTY_AMOUNT then Fail(Program(InsufficientAmount))
    else Pass
  }

  /** The assignment check the `ContributorAlreadyAssigned` message describes. */
  function ValidateAssignable<K>(contributor: Option<K>): (r: Outcome)
    ensures r.Pass? <==> contributor.None?
    ensures r.Fail? ==> r.error == Program(BountyError.ContributorAlreadyAssigned)
  {
    if contributor.Some? then Fail(Program(BountyError.ContributorAlreadyAssigned)) else Pass
  }

  /** `u64` addition that wraps around, as unchecked release arithmetic does. */
  function WrappingAdd(a: U64, b: U64): U64
  {
    (a + b) % U64_LIMIT
  }

  /** `u64` addition that reports `ArithmeticOverflow` instead of wrapping. */
  function CheckedAdd(a: U64, b: U64): (r: Result<U64>)
    ensures r.Ok? <==> a + b < U64_LIMIT
    ensures r.Ok? ==> r.value == a + b
    ensures r.Err? ==> r.error == Program(ArithmeticOverflow)
  {
    if a + b < U64_LIMIT then Ok(a + b) else Err(Program(ArithmeticOverflow))
  }

  /** The checked sum agrees with the wrapping sum whenever it succeeds, and it
      fails exactly when the wrapping sum would have come out below an operand. */
  lemma CheckedAddAgreesWithWrapping(a: U64, b: U64)
    ensures CheckedAdd(a, b).Ok? ==> CheckedAdd(a, b).value == WrappingAdd(a, b)
    ensures CheckedAdd(a, b).Err? <==> WrappingAdd(a, b) < a
  {
    if a + b >= U64_LIMIT {
      assert WrappingAdd(a, b) == a + b - U64_LIMIT;
    }
  }
}
