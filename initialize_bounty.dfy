/** `InitializeBounty` (programs/octasol_contract/src/context/init.rs): the
    signing maintainer creates a bounty record at the address derived from
    `[b"bounty", bounty_id.to_le_bytes()]` and its escrow token account, the
    associated token account of (bounty, mint); the maintainer pays for both. */
module InitializeBountyInstruction {
  import opened Numeric
  import opened Wrappers
  import opened Addresses
  import opened Errors
  import opened Accounts
  import opened BountyRecord

  /** The accounts the instruction is given, in declaration order. */
  datatype InitializeBountyAccounts = InitializeBountyAccounts(
    bounty: Address,
    maintainer: Address,
    maintainerTokenAccount: Address,
    escrowTokenAccount: Address,
    mint: Address)

  /** The instruction arguments; only `bountyId` is named by the accounts
      struct, the rest are the handler's. */
  datatype InitializeBountyArgs = InitializeBountyArgs(
    bountyId: U64,
    amount: U64,
    githubIssueId: U64,
    maintainerGithubId: U64)

  /** The record the (absent) handler is assumed to write. `now` is the
      clock's timestamp. */
  function NewBounty(maintainer: Address, args: InitializeBountyArgs, now: I64): (b: Bounty)
    ensures b.maintainer == maintainer && b.bountyId == args.bountyId && b.amount == args.amount
    ensures b.state == Created && b.contributor.None? && LiveBounty(b)
  {
    Bounty(maintainer, None, args.amount, Created, args.bountyId,
           args.githubIssueId, args.maintainerGithubId, None, now)
  }

  /** The escrow token account as the associated-token program creates it. */
  function NewEscrow(bounty: Address, mint: Address): TokenAccount
  {
    TokenAccount(mint, bounty, 0)
  }

  /** Total deposit the maintainer pays: the record and the escrow account. */
  function Deposits(): nat
  {
    MinimumBalance(LEN) + MinimumBalance(TOKEN_ACCOUNT_LEN)
  }

  /** Whether the instruction succeeds on store `s`. */
  ghost predicate Accepted(s: Store, acc: InitializeBountyAccounts, signers: set<Address>, args: InitializeBountyArgs)
  {
    && acc.maintainer in signers
    && acc.maintainerTokenAccount in s && s[acc.maintainerTokenAccount].data.TokenData?
    && acc.mint in s && s[acc.mint].data.MintData?
    && acc.bounty == BountyAddress(args.bountyId) && acc.bounty !in s
    && acc.escrowTokenAccount == AssociatedTokenAddress(acc.bounty, acc.mint) && acc.escrowTokenAccount !in s
    && Deposits() <= Lamports(s, acc.maintainer)
    && s[acc.maintainerTokenAccount].data.token.owner == acc.maintainer
    && acc.maintainerTokenAccount == AssociatedTokenAddress(acc.maintainer, acc.mint)
    && args.amount >= MIN_BOUNTY_AMOUNT
  }

  /** The instruction on store `s`: the new store, or the first failing check.
      Success exactly when every check passes; the result holds the new
      record at the bounty address and an empty escrow owned by the bounty,
      the maintainer has paid both deposits, and nothing else changed. */
  function InitializeBounty(s: Store, acc: InitializeBountyAccounts, signers: set<Address>,
                            args: InitializeBountyArgs, now: I64): (r: Result<Store>)
    ensures r.Ok? <==> Accepted(s, acc, signers, args)
    ensures acc.maintainer !in signers ==> r == Err(Framework(AccountNotSigner))
    ensures && acc.maintainer in signers
            && acc.maintainerTokenAccount in s && s[acc.maintainerTokenAccount].data.TokenData?
            && acc.mint in s && s[acc.mint].data.MintData?
            && acc.bounty == BountyAddress(args.bountyId) && acc.bounty in s
            ==> r == Err(Runtime(AccountAlreadyInUse))
    ensures r.Ok? ==>
      && BountyAddress(args.bountyId) in r.value
      && r.value[BountyAddress(args.bountyId)] == Account(MinimumBalance(LEN), BountyData(NewBounty(acc.maintainer, args, now)))
      && AssociatedTokenAddress(acc.bounty, acc.mint) in r.value
      && r.value[AssociatedTokenAddress(acc.bounty, acc.mint)]
         == Account(MinimumBalance(TOKEN_ACCOUNT_LEN), TokenData(NewEscrow(acc.bounty, acc.mint)))
      && Lamports(r.value, acc.maintainer) == Lamports(s, acc.maintainer) - Deposits()
      && SameExcept(s, r.value, {acc.bounty, acc.escrowTokenAccount, acc.maintainer})
      && acc.maintainer in s && acc.maintainer in r.value && r.value[acc.maintainer].data == s[acc.maintainer].data
  {
    // loading, in declaration order (`bounty` and `escrow_token_account` are `init`)
    var maintainer :- CheckSigner(signers, acc.maintainer);
    var maintainerToken :- LoadTokenAccount(s, acc.maintainerTokenAccount);
    :- LoadMint(s, acc.mint);
    // `init` of `bounty`: its seeds, then an account of `LEN` bytes paid by `maintainer`
    :- Need(acc.bounty == BountyAddress(args.bountyId), Framework(ConstraintSeeds));
    var withBounty :- CreateAccount(s, acc.maintainer, acc.bounty, LEN,
                                    BountyData(NewBounty(acc.maintainer, args, now)));
    // `init` of `escrow_token_account`: the associated token account of (bounty, mint)
    :- Need(acc.escrowTokenAccount == AssociatedTokenAddress(acc.bounty, acc.mint), Runtime(InvalidSeeds));
    var withEscrow :- CreateAccount(withBounty, acc.maintainer, acc.escrowTokenAccount, TOKEN_ACCOUNT_LEN,
                                    TokenData(NewEscrow(acc.bounty, acc.mint)));
    // constraints of `maintainer_token_account`
    :- CheckAssociatedToken(acc.maintainerTokenAccount, maintainerToken, acc.maintainer, acc.mint);
    // the handler's funding check (assumed)
    :- ValidateAmount(args.amount);
    Ok(withEscrow)
  }

  /** The funding scenarios: an amount below the minimum is refused with
      `InsufficientAmount` (zero with `ZeroAmount`) and creates nothing. */
  lemma UnderfundedBountyRefused(s: Store, acc: InitializeBountyAccounts, signers: set<Address>,
                                 args: InitializeBountyArgs, now: I64)
    requires args.amount < MIN_BOUNTY_AMOUNT
    ensures InitializeBounty(s, acc, signers, args, now).Err?
    ensures Accepted(s, acc, signers, args.(amount := MIN_BOUNTY_AMOUNT)) ==>
      InitializeBounty(s, acc, signers, args, now).error
      == (if args.amount == 0 then Program(ZeroAmount) else Program(InsufficientAmount))
  {
    if Accepted(s, acc, signers, args.(amount := MIN_BOUNTY_AMOUNT)) {
      assert InitializeBounty(s, acc, signers, args.(amount := MIN_BOUNTY_AMOUNT), now).Ok?;
    }
  }

  /** At most one bounty per id: while a bounty record exists for an id, a
      bounty with that id cannot be initialized. */
  lemma OneBountyPerId(s: Store, acc: InitializeBountyAccounts, signers: set<Address>,
                       args: InitializeBountyArgs, now: I64)
    requires BountyAddress(args.bountyId) in s
    ensures InitializeBounty(s, acc, signers, args, now).Err?
  {
  }

  lemma InitializeBountyKeepsInvariant(s: Store, acc: InitializeBountyAccounts, signers: set<Address>,
                                       args: InitializeBountyArgs, now: I64)
    requires Invariant(s)
    ensures InitializeBounty(s, acc, signers, args, now).Ok? ==>
            Invariant(InitializeBounty(s, acc, signers, args, now).value)
  {
    if InitializeBounty(s, acc, signers, args, now).Ok? {
      var t := InitializeBounty(s, acc, signers, args, now).value;
      forall a | a in t && a != acc.bounty && a != acc.escrowTokenAccount && a != acc.maintainer
        ensures a in s && t[a] == s[a]
      {
      }
    }
  }
}
