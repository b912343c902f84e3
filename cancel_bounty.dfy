/** `CancelBounty` (programs/octasol_contract/src/context/cancel.rs): the
    bounty's maintainer, signing, cancels the bounty at the address derived
    from the given id; the record is closed and its deposit goes back to the
    maintainer. The escrow must be the bounty's associated token account and
    the refund account the maintainer's. */
module CancelBountyInstruction {
  import opened Numeric
  import opened Wrappers
  import opened Addresses
  import opened Errors
  import opened Accounts
  import opened BountyRecord

  /** The accounts the instruction is given, in declaration order. */
  datatype CancelBountyAccounts = CancelBountyAccounts(
    bounty: Address,
    maintainer: Address,
    mint: Address,
    escrowTokenAccount: Address,
    maintainerTokenAccount: Address)

  /** Whether every account loads. */
  ghost predicate Loaded(s: Store, acc: CancelBountyAccounts, signers: set<Address>)
  {
    && acc.bounty in s && s[acc.bounty].data.BountyData?
    && acc.maintainer in signers
    && acc.mint in s && s[acc.mint].data.MintData?
    && acc.escrowTokenAccount in s && s[acc.escrowTokenAccount].data.TokenData?
    && acc.maintainerTokenAccount in s && s[acc.maintainerTokenAccount].data.TokenData?
  }

  /** Whether the instruction succeeds on store `s`. */
  ghost predicate Accepted(s: Store, acc: CancelBountyAccounts, signers: set<Address>, bountyId: U64)
  {
    && Loaded(s, acc, signers)
    && acc.bounty == BountyAddress(bountyId)
    && s[acc.bounty].data.bounty.maintainer == acc.maintainer
    && acc.bounty != acc.maintainer
    && s[acc.escrowTokenAccount].data.token.owner == acc.bounty
    && acc.escrowTokenAccount == AssociatedTokenAddress(acc.bounty, acc.mint)
    && s[acc.maintainerTokenAccount].data.token.owner == acc.maintainer
    && acc.maintainerTokenAccount == AssociatedTokenAddress(acc.maintainer, acc.mint)
  }

  /** The instruction on store `s`. The refund and the closing of the escrow
      belong to the (absent) handler and are not part of the result. */
  function CancelBounty(s: Store, acc: CancelBountyAccounts, signers: set<Address>, bountyId: U64): (r: Result<Store>)
    ensures r.Ok? <==> Accepted(s, acc, signers, bountyId)
    ensures acc.bounty !in s ==> r == Err(Framework(AccountNotInitialized))
    ensures Loaded(s, acc, signers) && acc.bounty != BountyAddress(bountyId) ==> r == Err(Framework(ConstraintSeeds))
    ensures Loaded(s, acc, signers) && acc.bounty == BountyAddress(bountyId)
            && s[acc.bounty].data.bounty.maintainer != acc.maintainer
            ==> r == Err(Framework(ConstraintHasOne))
    ensures r.Ok? ==>
      && acc.bounty !in r.value
      && Lamports(r.value, acc.maintainer) == Lamports(s, acc.maintainer) + s[acc.bounty].lamports
      && SameExcept(s, r.value, {acc.bounty, acc.maintainer})
      && acc.maintainer in r.value
      && r.value[acc.maintainer].data == (if acc.maintainer in s then s[acc.maintainer].data else Empty)
  {
    // loading, in declaration order
    var bounty :- LoadBounty(s, acc.bounty);
    var maintainer :- CheckSigner(signers, acc.maintainer);
    :- LoadMint(s, acc.mint);
    var escrow :- LoadTokenAccount(s, acc.escrowTokenAccount);
    var refund :- LoadTokenAccount(s, acc.maintainerTokenAccount);
    // constraints of `bounty`: seeds, `has_one = maintainer`, `close = maintainer`
    :- Need(acc.bounty == BountyAddress(bountyId), Framework(ConstraintSeeds));
    :- Need(bounty.maintainer == maintainer, Framework(ConstraintHasOne));
    :- Need(acc.bounty != acc.maintainer, Framework(ConstraintClose));
    // constraints of the two token accounts
    :- CheckAssociatedToken(acc.escrowTokenAccount, escrow, acc.bounty, acc.mint);
    :- CheckAssociatedToken(acc.maintainerTokenAccount, refund, acc.maintainer, acc.mint);
    Ok(Close(s, acc.bounty, acc.maintainer))
  }

  /** No state constraint is declared: a bounty in either live state can be
      cancelled by its maintainer, and the outcome does not depend on the
      state or on whether a contributor was assigned. */
  lemma CancelIgnoresState(
    s: Store, acc: CancelBountyAccounts, signers: set<Address>, bountyId: U64,
    state: BountyState, contributor: Option<Address>)
    requires acc.bounty in s && s[acc.bounty].data.BountyData?
    ensures var b := s[acc.bounty].data.bounty;
            var s' := s[acc.bounty := s[acc.bounty].(data := BountyData(b.(state := state, contributor := contributor)))];
            CancelBounty(s', acc, signers, bountyId).Ok? == CancelBounty(s, acc, signers, bountyId).Ok?
            && (CancelBounty(s, acc, signers, bountyId).Err? ==>
                CancelBounty(s', acc, signers, bountyId).error == CancelBounty(s, acc, signers, bountyId).error)
  {
  }

  lemma CancelBountyKeepsInvariant(s: Store, acc: CancelBountyAccounts, signers: set<Address>, bountyId: U64)
    requires Invariant(s)
    ensures CancelBounty(s, acc, signers, bountyId).Ok? ==> Invariant(CancelBounty(s, acc, signers, bountyId).value)
  {
    if CancelBounty(s, acc, signers, bountyId).Ok? {
      CloseKeepsInvariant(s, acc.bounty, acc.maintainer);
    }
  }
}
