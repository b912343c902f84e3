/** `AdminAssignAndRelease` (programs/octasol_contract/src/context/admin_ops.rs):
    the configured admin, signing, closes a bounty that is still Created and
    has no contributor, releasing its escrow through the escrow authority
    derived from `[b"escrow_auth", bounty.key()]`.

    The constraints read `bounty.mint` and `bounty.bump`, which the bounty
    record does not have; the model takes them as the explicit parameter
    `missing`. They name their errors in `ContractError`, which the program
    does not declare; the model gives it the variants named. */
module AdminAssignAndReleaseInstruction {
  import opened Numeric
  import opened Addresses
  import opened Errors
  import opened Accounts
  import opened BountyRecord

  /** The accounts the instruction is given, in declaration order. */
  datatype AdminAssignAndReleaseAccounts = AdminAssignAndReleaseAccounts(
    admin: Address,
    config: Address,
    bounty: Address,
    escrowAuthority: Address,
    maintainer: Address,
    contributor: Address,
    contributorTokenAccount: Address,
    escrowTokenAccount: Address)

  /** The values the constraints read as `bounty.mint` and `bounty.bump`. */
  datatype MissingFields = MissingFields(mint: Address, bump: Byte)

  /** Serialized size of a bounty record extended by the two fields the
      constraints read. It no longer fits the space `Bounty::LEN` reserves
      as soon as a contributor or a contributor id is recorded. */
  function ExtendedSize(b: Bounty): (n: nat)
    ensures n == SerializedSize(b) + PUBKEY_LEN + 1
    ensures DISCRIMINATOR_LEN + n > LEN <==> b.contributor.Some? || b.contributorGithubId.Some?
  {
    SerializedSize(b) + PUBKEY_LEN + 1
  }

  /** Whether every account loads. */
  ghost predicate Loaded(s: Store, acc: AdminAssignAndReleaseAccounts, signers: set<Address>)
  {
    && acc.admin in signers
    && acc.config in s && s[acc.config].data.ConfigData?
    && acc.bounty in s && s[acc.bounty].data.BountyData?
    && acc.contributorTokenAccount in s && s[acc.contributorTokenAccount].data.TokenData?
    && acc.escrowTokenAccount in s && s[acc.escrowTokenAccount].data.TokenData?
  }

  /** Whether the loaded accounts pass the checks on `config` and `bounty`,
      so that the escrow authority and the token accounts are checked next. */
  ghost predicate ReachesEscrowChecks(s: Store, acc: AdminAssignAndReleaseAccounts)
    requires acc.config in s && s[acc.config].data.ConfigData?
    requires acc.bounty in s && s[acc.bounty].data.BountyData?
  {
    && acc.config == ConfigAddress()
    && s[acc.config].data.config.admin == acc.admin
    && s[acc.bounty].data.bounty.state == Created
    && s[acc.bounty].data.bounty.contributor.None?
    && acc.bounty != acc.maintainer
  }

  /** Whether the instruction succeeds on store `s`. */
  ghost predicate Accepted(s: Store, acc: AdminAssignAndReleaseAccounts, signers: set<Address>, missing: MissingFields)
  {
    && Loaded(s, acc, signers)
    && acc.config == ConfigAddress()
    && s[acc.config].data.config.admin == acc.admin
    && s[acc.bounty].data.bounty.state == Created
    && s[acc.bounty].data.bounty.contributor.None?
    && acc.bounty != acc.maintainer
    && acc.escrowAuthority == EscrowAuthorityAddress(acc.bounty, missing.bump)
    && s[acc.contributorTokenAccount].data.token.mint == missing.mint
    && s[acc.contributorTokenAccount].data.token.owner == acc.contributor
    && s[acc.escrowTokenAccount].data.token.mint == missing.mint
  }

  /** The instruction on store `s`. The assignment, the payout and the closing
      of the escrow belong to the (absent) handler and are not part of the
      result; the record is closed to the `maintainer` account given. */
  function AdminAssignAndRelease(s: Store, acc: AdminAssignAndReleaseAccounts, signers: set<Address>,
                                 missing: MissingFields): (r: Result<Store>)
    ensures r.Ok? <==> Accepted(s, acc, signers, missing)
    ensures Loaded(s, acc, signers) && acc.config == ConfigAddress() && s[acc.config].data.config.admin != acc.admin
            ==> r == Err(Contract(Unauthorized))
    ensures Loaded(s, acc, signers) && acc.config == ConfigAddress() && s[acc.config].data.config.admin == acc.admin
            && s[acc.bounty].data.bounty.state != Created
            ==> r == Err(Contract(InvalidBountyStateForOperation))
    ensures Loaded(s, acc, signers) && acc.config == ConfigAddress() && s[acc.config].data.config.admin == acc.admin
            && s[acc.bounty].data.bounty.state == Created && s[acc.bounty].data.bounty.contributor.Some?
            ==> r == Err(Contract(ContractError.ContributorAlreadyAssigned))
    ensures Loaded(s, acc, signers) && acc.config != ConfigAddress() ==> r == Err(Framework(ConstraintSeeds))
    ensures Loaded(s, acc, signers) && acc.config == ConfigAddress() && s[acc.config].data.config.admin == acc.admin
            && s[acc.bounty].data.bounty.state == Created && s[acc.bounty].data.bounty.contributor.None?
            && acc.bounty == acc.maintainer
            ==> r == Err(Framework(ConstraintClose))
    ensures Loaded(s, acc, signers) && ReachesEscrowChecks(s, acc)
            && acc.escrowAuthority != EscrowAuthorityAddress(acc.bounty, missing.bump)
            ==> r == Err(Framework(ConstraintSeeds))
    ensures Loaded(s, acc, signers) && ReachesEscrowChecks(s, acc)
            && acc.escrowAuthority == EscrowAuthorityAddress(acc.bounty, missing.bump)
            && s[acc.contributorTokenAccount].data.token.mint != missing.mint
            ==> r == Err(Contract(InvalidMint))
    ensures Loaded(s, acc, signers) && ReachesEscrowChecks(s, acc)
            && acc.escrowAuthority == EscrowAuthorityAddress(acc.bounty, missing.bump)
            && s[acc.contributorTokenAccount].data.token.mint == missing.mint
            && s[acc.contributorTokenAccount].data.token.owner != acc.contributor
            ==> r == Err(Contract(InvalidTokenAccount))
    ensures Loaded(s, acc, signers) && ReachesEscrowChecks(s, acc)
            && acc.escrowAuthority == EscrowAuthorityAddress(acc.bounty, missing.bump)
            && s[acc.contributorTokenAccount].data.token.mint == missing.mint
            && s[acc.contributorTokenAccount].data.token.owner == acc.contributor
            && s[acc.escrowTokenAccount].data.token.mint != missing.mint
            ==> r == Err(Contract(InvalidMint))
    ensures r.Ok? ==>
      && acc.bounty !in r.value
      && Lamports(r.value, acc.maintainer) == Lamports(s, acc.maintainer) + s[acc.bounty].lamports
      && SameExcept(s, r.value, {acc.bounty, acc.maintainer})
      && acc.maintainer in r.value
      && r.value[acc.maintainer].data == (if acc.maintainer in s then s[acc.maintainer].data else Empty)
  {
    // loading, in declaration order (`escrow_authority`, `maintainer` and
    // `contributor` are unchecked)
    var admin :- CheckSigner(signers, acc.admin);
    var config :- LoadConfig(s, acc.config);
    var bounty :- LoadBounty(s, acc.bounty);
    var payout :- LoadTokenAccount(s, acc.contributorTokenAccount);
    var escrow :- LoadTokenAccount(s, acc.escrowTokenAccount);
    // constraints of `config`
    :- Need(acc.config == ConfigAddress(), Framework(ConstraintSeeds));
    :- Need(config.admin == admin, Contract(Unauthorized));
    // constraints of `bounty`
    :- Need(bounty.state == Created, Contract(InvalidBountyStateForOperation));
    :- Need(bounty.contributor.None?, Contract(ContractError.ContributorAlreadyAssigned));
    :- Need(acc.bounty != acc.maintainer, Framework(ConstraintClose));
    // constraint of `escrow_authority`: seeds with the recorded bump
    :- Need(acc.escrowAuthority == EscrowAuthorityAddress(acc.bounty, missing.bump), Framework(ConstraintSeeds));
    // constraints of `contributor_token_account`, then of `escrow_token_account`
    :- Need(payout.mint == missing.mint, Contract(InvalidMint));
    :- Need(payout.owner == acc.contributor, Contract(InvalidTokenAccount));
    :- Need(escrow.mint == missing.mint, Contract(InvalidMint));
    Ok(Close(s, acc.bounty, acc.maintainer))
  }

  /** The `maintainer` account that collects the closed record's deposit is
      not tied to the bounty's maintainer: swapping it for any other account
      that is not the bounty gives the same outcome, and that account is paid. */
  lemma RentRecipientUnchecked(s: Store, acc: AdminAssignAndReleaseAccounts, signers: set<Address>,
                               missing: MissingFields, recipient: Address)
    requires acc.maintainer != acc.bounty && recipient != acc.bounty
    ensures AdminAssignAndRelease(s, acc.(maintainer := recipient), signers, missing).Ok?
            == AdminAssignAndRelease(s, acc, signers, missing).Ok?
    ensures AdminAssignAndRelease(s, acc, signers, missing).Ok? ==>
            Lamports(AdminAssignAndRelease(s, acc.(maintainer := recipient), signers, missing).value, recipient)
            == Lamports(s, recipient) + s[acc.bounty].lamports
  {
  }

  /** In a store that keeps the invariant, a Created bounty never has a
      contributor, so the `ContributorAlreadyAssigned` check can never be the
      one that fails. */
  lemma ContributorCheckNeverFires(s: Store, acc: AdminAssignAndReleaseAccounts, signers: set<Address>,
                                   missing: MissingFields)
    requires Invariant(s)
    ensures AdminAssignAndRelease(s, acc, signers, missing) != Err(Contract(ContractError.ContributorAlreadyAssigned))
  {
    if Loaded(s, acc, signers) {
      assert LiveBounty(s[acc.bounty].data.bounty);
    }
  }

  /** The escrow this instruction checks is not one its escrow authority
      controls, if it is the escrow `InitializeBounty` creates: that account's
      authority is the bounty itself, never the escrow authority derived from
      it. */
  lemma EscrowAuthorityDoesNotOwnBountyEscrow(s: Store, acc: AdminAssignAndReleaseAccounts, signers: set<Address>,
                                              missing: MissingFields, mint: Address)
    requires Invariant(s)
    requires AdminAssignAndRelease(s, acc, signers, missing).Ok?
    requires acc.escrowTokenAccount == AssociatedTokenAddress(acc.bounty, mint)
    ensures s[acc.escrowTokenAccount].data.token.owner == acc.bounty
    ensures s[acc.escrowTokenAccount].data.token.owner != acc.escrowAuthority
  {
    EscrowAuthorityIsNotTheBounty(acc.bounty, missing.bump, mint);
  }

  lemma AdminAssignAndReleaseKeepsInvariant(s: Store, acc: AdminAssignAndReleaseAccounts, signers: set<Address>,
                                            missing: MissingFields)
    requires Invariant(s)
    ensures AdminAssignAndRelease(s, acc, signers, missing).Ok? ==>
            Invariant(AdminAssignAndRelease(s, acc, signers, missing).value)
  {
    if AdminAssignAndRelease(s, acc, signers, missing).Ok? {
      CloseKeepsInvariant(s, acc.bounty, acc.maintainer);
    }
  }
}
