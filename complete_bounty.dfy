/** `CompleteBounty` (programs/octasol_contract/src/context/complete.rs): the
    bounty's maintainer, signing, completes the bounty at the address derived
    from the given id; the record is closed and its deposit goes back to the
    maintainer. The escrow must be the bounty's associated token account and
    the payout account the contributor's. */
module CompleteBountyInstruction {
  import opened Numeric
  import opened Wrappers
  import opened Addresses
  import opened Errors
  import opened Accounts
  import opened BountyRecord

  /** The accounts the instruction is given, in declaration order. */
  datatype CompleteBountyAccounts = CompleteBountyAccounts(
    bounty: Address,
    maintainer: Address,
    contributor: Address,
    mint: Address,
    escrowTokenAccount: Address,
    contributorTokenAccount: Address)

  /** Whether every account loads. */
  ghost predicate Loaded(s: Store, acc: CompleteBountyAccounts, signers: set<Address>)
  {
    && acc.bounty in s && s[acc.bounty].data.BountyData?
    && acc.maintainer in signers
    && acc.mint in s && s[acc.mint].data.MintData?
    && acc.escrowTokenAccount in s && s[acc.escrowTokenAccount].data.TokenData?
    && acc.contributorTokenAccount in s && s[acc.contributorTokenAccount].data.TokenData?
  }

  /** Whether the instruction succeeds on store `s`. */
  ghost predicate Accepted(s: Store, acc: CompleteBountyAccounts, signers: set<Address>, bountyId: U64)
  {
    && Loaded(s, acc, signers)
    && acc.bounty == BountyAddress(bountyId)
    && s[acc.bounty].data.bounty.maintainer == acc.maintainer
    && acc.bounty != acc.maintainer
    && s[acc.escrowTokenAccount].data.token.owner == acc.bounty
    && acc.escrowTokenAccount == AssociatedTokenAddress(acc.bounty, acc.mint)
    && s[acc.contributorTokenAccount].data.token.owner == acc.contributor
    && acc.contributorTokenAccount == AssociatedTokenAddress(acc.contributor, acc.mint)
  }

  /** The instruction on store `s`. The payout and the closing of the escrow
      belong to the (absent) handler and are not part of the result. */
  function CompleteBounty(s: Store, acc: CompleteBountyAccounts, signers: set<Address>, bountyId: U64): (r: Result<Store>)
    ensures r.Ok? <==> Accepted(s, acc, signers, bountyId)
    ensures acc.bounty !in s ==> r == Err(Framework(AccountNotInitialized))
    ensures Loaded(s, acc, signers) && acc.bounty != BountyAddress(bountyId) ==> r == Err(Framework(ConstraintSeeds))
    ensures Loaded(s, acc, signers) && acc.bounty == BountyAddress(bountyId)
            && s[acc.bounty].data.bounty.maintainer != acc.maintainer
            ==> r == Err(Framework(ConstraintHasOne))
    ensures r.Ok? ==>
      && acc.bounty !in r.value
      && Lamports(r.value, acc.maintainer) == Lamports(s, acc.maintainer) + s[acc.bounty].lamports
      && SameExcept(s, r.value, {acc.bounty, acc.maintainer})
      && acc.maintainer in r.value
      && r.value[acc.maintainer].data == (if acc.maintainer in s then s[acc.maintainer].data else Empty)
  {
    // loading, in declaration order (`contributor` is unchecked)
    var bounty :- LoadBounty(s, acc.bounty);
    var maintainer :- CheckSigner(signers, acc.maintainer);
    :- LoadMint(s, acc.mint);
    var escrow :- LoadTokenAccount(s, acc.escrowTokenAccount);
    var payout :- LoadTokenAccount(s, acc.contributorTokenAccount);
    // constraints of `bounty`: seeds, `has_one = maintainer`, `close = maintainer`
    :- Need(acc.bounty == BountyAddress(bountyId), Framework(ConstraintSeeds));
    :- Need(bounty.maintainer == maintainer, Framework(ConstraintHasOne));
    :- Need(acc.bounty != acc.maintainer, Framework(ConstraintClose));
    // constraints of the two token accounts
    :- CheckAssociatedToken(acc.escrowTokenAccount, escrow, acc.bounty, acc.mint);
    :- CheckAssociatedToken(acc.contributorTokenAccount, payout, acc.contributor, acc.mint);
    Ok(Close(s, acc.bounty, acc.maintainer))
  }

  /** No declared constraint reads the bounty's state or recorded
      contributor: the outcome is the same whatever they are, so a Created
      bounty can be completed, paying out to any contributor account given. */
  lemma CompleteIgnoresStateAndContributor(
    s: Store, acc: CompleteBountyAccounts, signers: set<Address>, bountyId: U64,
    state: BountyState, contributor: Option<Address>)
    requires acc.bounty in s && s[acc.bounty].data.BountyData?
    ensures var b := s[acc.bounty].data.bounty;
            var s' := s[acc.bounty := s[acc.bounty].(data := BountyData(b.(state := state, contributor := contributor)))];
            CompleteBounty(s', acc, signers, bountyId).Ok? == CompleteBounty(s, acc, signers, bountyId).Ok?
            && (CompleteBounty(s, acc, signers, bountyId).Err? ==>
                CompleteBounty(s', acc, signers, bountyId).error == CompleteBounty(s, acc, signers, bountyId).error)
  {
  }

  lemma CompleteBountyKeepsInvariant(s: Store, acc: CompleteBountyAccounts, signers: set<Address>, bountyId: U64)
    requires Invariant(s)
    ensures CompleteBounty(s, acc, signers, bountyId).Ok? ==> Invariant(CompleteBounty(s, acc, signers, bountyId).value)
  {
    if CompleteBounty(s, acc, signers, bountyId).Ok? {
      CloseKeepsInvariant(s, acc.bounty, acc.maintainer);
    }
  }
}
