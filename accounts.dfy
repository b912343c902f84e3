/** The account store the program runs against: every account the runtime
    holds, keyed by address, with its lamport balance and typed contents;
    the account loaders and the creation and closing primitives the
    framework applies for `Account<'info, T>`, `Signer`, `init` and `close`;
    and the invariant the instructions keep. */
module Accounts {
  import opened Numeric
  import opened Addresses
  import opened Errors
  import BountyRecord
  import ConfigRecord

  /** A token-program account holding tokens of `mint` for `owner`. */
  datatype TokenAccount = TokenAccount(mint: Address, owner: Address, amount: U64)

  /** What an account holds. `Empty` is a system-owned wallet without data. */
  datatype Data =
    | Empty
    | BountyData(bounty: BountyRecord.Bounty)
    | ConfigData(config: ConfigRecord.ConfigState)
    | MintData
    | TokenData(token: TokenAccount)

  datatype Account = Account(lamports: nat, data: Data)

  /** Addresses absent from the map hold no account (no lamports, no data). */
  type Store = map<Address, Account>

  /** Space of a token account. */
  const TOKEN_ACCOUNT_LEN: nat := 165

  /** The default rent schedule: a rent-exempt account holds two years of
      rent for its data plus a fixed per-account overhead. */
  const ACCOUNT_STORAGE_OVERHEAD: nat := 128
  const LAMPORTS_PER_BYTE_YEAR: nat := 3480
  const EXEMPTION_THRESHOLD_YEARS: nat := 2

  /** The deposit an account of `space` bytes must hold to be rent exempt. */
  function MinimumBalance(space: nat): (r: nat)
    ensures r > 0
  {
    (ACCOUNT_STORAGE_OVERHEAD + space) * LAMPORTS_PER_BYTE_YEAR * EXEMPTION_THRESHOLD_YEARS
  }

  function Lamports(s: Store, a: Address): nat
  {
    if a in s then s[a].lamports else 0
  }

  /** The two stores agree everywhere outside `xs`. */
  ghost predicate SameExcept(s: Store, t: Store, xs: set<Address>)
  {
    forall a :: a !in xs ==> (a in s <==> a in t) && (a in s ==> s[a] == t[a])
  }

  /** `Account<'info, Bounty>`: the account must exist, belong to this program
      and hold a bounty record. */
  function LoadBounty(s: Store, a: Address): (r: Result<BountyRecord.Bounty>)
    ensures r.Ok? <==> a in s && s[a].data.BountyData?
    ensures r.Ok? ==> r.value == s[a].data.bounty
    ensures a !in s ==> r == Err(Framework(AccountNotInitialized))
  {
    if a !in s then Err(Framework(AccountNotInitialized))
    else match s[a].data
      case BountyData(b) => Ok(b)
      case ConfigData(_) => Err(Framework(AccountDiscriminatorMismatch))
      case _ => Err(Framework(AccountOwnedByWrongProgram))
  }

  /** `Account<'info, ConfigState>`. */
  function LoadConfig(s: Store, a: Address): (r: Result<ConfigRecord.ConfigState>)
    ensures r.Ok? <==> a in s && s[a].data.ConfigData?
    ensures r.Ok? ==> r.value == s[a].data.config
    ensures a !in s ==> r == Err(Framework(AccountNotInitialized))
  {
    if a !in s then Err(Framework(AccountNotInitialized))
    else match s[a].data
      case ConfigData(c) => Ok(c)
      case BountyData(_) => Err(Framework(AccountDiscriminatorMismatch))
      case _ => Err(Framework(AccountOwnedByWrongProgram))
  }

  /** `Account<'info, TokenAccount>`: the account must belong to the token
      program and hold a token account (not a mint). */
  function LoadTokenAccount(s: Store, a: Address): (r: Result<TokenAccount>)
    ensures r.Ok? <==> a in s && s[a].data.TokenData?
    ensures r.Ok? ==> r.value == s[a].data.token
    ensures a !in s ==> r == Err(Framework(AccountNotInitialized))
  {
    if a !in s then Err(Framework(AccountNotInitialized))
    else match s[a].data
      case TokenData(t) => Ok(t)
      case MintData => Err(Framework(AccountDidNotDeserialize))
      case _ => Err(Framework(AccountOwnedByWrongProgram))
  }

  /** `Account<'info, Mint>`. */
  function LoadMint(s: Store, a: Address): (r: Outcome)
    ensures r.Pass? <==> a in s && s[a].data.MintData?
    ensures a !in s ==> r == Fail(Framework(AccountNotInitialized))
  {
    if a !in s then Fail(Framework(AccountNotInitialized))
    else match s[a].data
      case MintData => Pass
      case TokenData(_) => Fail(Framework(AccountDidNotDeserialize))
      case _ => Fail(Framework(AccountOwnedByWrongProgram))
  }

  /** `Signer<'info>`: the key must have signed the transaction; the
      account then stands for that key. */
  function CheckSigner(signers: set<Address>, a: Address): (r: Result<Address>)
    ensures r.Ok? <==> a in signers
    ensures r.Ok? ==> r.value == a
    ensures r.Err? ==> r.error == Framework(AccountNotSigner)
  {
    if a in signers then Ok(a) else Err(Framework(AccountNotSigner))
  }

  /** `associated_token::mint = mint, associated_token::authority = wallet` on
      an existing token account: its owner must be the wallet, then its
      address must be the wallet's associated token address for the mint. */
  function CheckAssociatedToken(at: Address, t: TokenAccount, wallet: Address, mint: Address): (r: Outcome)
    ensures r.Pass? <==> t.owner == wallet && at == AssociatedTokenAddress(wallet, mint)
    ensures t.owner != wallet ==> r == Fail(Framework(ConstraintTokenOwner))
    ensures t.owner == wallet && at != AssociatedTokenAddress(wallet, mint) ==> r == Fail(Framework(ConstraintAssociated))
  {
    if t.owner != wallet then Fail(Framework(ConstraintTokenOwner))
    else Need(at == AssociatedTokenAddress(wallet, mint), Framework(ConstraintAssociated))
  }

  /** Moves `x` lamports out of `payer`. */
  function Debit(s: Store, payer: Address, x: nat): (r: Store)
    requires x <= Lamports(s, payer)
    ensures Lamports(r, payer) == Lamports(s, payer) - x
    ensures SameExcept(s, r, {payer})
    ensures payer in s ==> payer in r && r[payer].data == s[payer].data
  {
    if payer in s then s[payer := s[payer].(lamports := s[payer].lamports - x)] else s
  }

  /** Moves `x` lamports into `target`, which comes into existence as an empty
      wallet if it held no account. */
  function Credit(s: Store, target: Address, x: nat): (r: Store)
    ensures Lamports(r, target) == Lamports(s, target) + x
    ensures SameExcept(s, r, {target})
    ensures target in r
    ensures target in s ==> r[target].data == s[target].data
    ensures target !in s ==> r[target].data == Empty
  {
    if target in s then s[target := s[target].(lamports := s[target].lamports + x)]
    else s[target := Account(x, Empty)]
  }

  /** Account creation for `init`: the address must hold no account, and the
      payer must fund the rent-exempt deposit for `space` bytes. */
  function CreateAccount(s: Store, payer: Address, at: Address, space: nat, data: Data): (r: Result<Store>)
    ensures r.Ok? <==> at !in s && MinimumBalance(space) <= Lamports(s, payer)
    ensures at in s ==> r == Err(Runtime(AccountAlreadyInUse))
    ensures at !in s && Lamports(s, payer) < MinimumBalance(space) ==> r == Err(Runtime(InsufficientLamports))
    ensures r.Ok? ==> payer != at && payer in s
    ensures r.Ok? ==> r.value == Debit(s, payer, MinimumBalance(space))[at := Account(MinimumBalance(space), data)]
  {
    if at in s then Err(Runtime(AccountAlreadyInUse))
    else if Lamports(s, payer) < MinimumBalance(space) then Err(Runtime(InsufficientLamports))
    else Ok(Debit(s, payer, MinimumBalance(space))[at := Account(MinimumBalance(space), data)])
  }

  /** `close = target`: the account disappears and its lamports go to the
      target. */
  function Close(s: Store, at: Address, target: Address): (r: Store)
    requires at in s && at != target
    ensures at !in r
    ensures Lamports(r, target) == Lamports(s, target) + s[at].lamports
    ensures SameExcept(s, r, {at, target})
    ensures target in r
    ensures target in s ==> r[target].data == s[target].data
    ensures target !in s ==> r[target].data == Empty
  {
    Credit(s - {at}, target, s[at].lamports)
  }

  /** A bounty record as the handlers are assumed to keep it: a live record
      is Created or InProgress, and it has a contributor (and a contributor
      id) exactly when it is InProgress. */
  predicate LiveBounty(b: BountyRecord.Bounty)
  {
    (b.state == BountyRecord.Created || b.state == BountyRecord.InProgress)
    && (b.contributor.None? <==> b.state == BountyRecord.Created)
    && (b.contributorGithubId.None? <==> b.state == BountyRecord.Created)
  }

  /** Configuration records sit only at the configuration address. */
  ghost predicate ConfigSingleton(s: Store)
  {
    forall a :: a in s && s[a].data.ConfigData? ==> a == ConfigAddress()
  }

  /** Each bounty record sits at the address derived from its own id and is
      live. */
  ghost predicate BountiesAtTheirAddress(s: Store)
  {
    forall a :: a in s && s[a].data.BountyData? ==>
      a == BountyAddress(s[a].data.bounty.bountyId) && LiveBounty(s[a].data.bounty)
  }

  /** A token account at an associated token address holds that address's
      mint for that address's wallet. */
  ghost predicate TokenAccountsMatchAddress(s: Store)
  {
    forall a :: a in s && a.AssociatedToken? && s[a].data.TokenData? ==>
      s[a].data.token.owner == a.wallet && s[a].data.token.mint == a.mint
  }

  ghost predicate Invariant(s: Store)
  {
    ConfigSingleton(s) && BountiesAtTheirAddress(s) && TokenAccountsMatchAddress(s)
  }

  /** Under the invariant a bounty id names at most one record, and distinct
      ids name distinct records. */
  lemma BountyIdsUnique(s: Store, a: Address, b: Address)
    requires Invariant(s)
    requires a in s && s[a].data.BountyData? && b in s && s[b].data.BountyData?
    ensures a == b <==> s[a].data.bounty.bountyId == s[b].data.bounty.bountyId
  {
    BountyAddressInjective(s[a].data.bounty.bountyId, s[b].data.bounty.bountyId);
  }

  /** Removing accounts and moving lamports into a wallet keep the invariant
      (the shared tail of every closing instruction). */
  lemma CloseKeepsInvariant(s: Store, at: Address, target: Address)
    requires Invariant(s) && at in s && at != target
    ensures Invariant(Close(s, at, target))
  {
    var r := Close(s, at, target);
    forall a | a in r
      ensures (a in s && r[a].data == s[a].data) || r[a].data == Empty
    {
      if a != target {
        assert a in s && r[a] == s[a];
      }
    }
  }
}
