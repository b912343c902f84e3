/** Properties that relate several instructions: what a closed bounty leaves
    behind, and one bounty's life from creation to completion on a concrete
    store. */
module Lifecycle {
  import opened Numeric
  import opened Wrappers
  import opened Addresses
  import opened Errors
  import opened Accounts
  import opened BountyRecord
  import opened InitializeBountyInstruction
  import opened AssignContributorInstruction
  import opened CompleteBountyInstruction
  import opened CancelBountyInstruction

  /** After a successful cancel, cancelling or completing the same bounty
      again fails because its account no longer exists; so does assigning
      it, once the signer check before the bounty's load has passed. */
  lemma NothingAfterCancel(s: Store, acc: CancelBountyAccounts, signers: set<Address>, id: U64,
                           cancel2: CancelBountyAccounts, signers2: set<Address>, id2: U64,
                           complete: CompleteBountyAccounts, assign: AssignContributorAccounts,
                           signers3: set<Address>, gid: U64)
    requires CancelBounty(s, acc, signers, id).Ok?
    requires cancel2.bounty == acc.bounty && complete.bounty == acc.bounty && assign.bounty == acc.bounty
    ensures var t := CancelBounty(s, acc, signers, id).value;
            && CancelBounty(t, cancel2, signers2, id2) == Err(Framework(AccountNotInitialized))
            && CompleteBounty(t, complete, signers2, id2) == Err(Framework(AccountNotInitialized))
            && (assign.maintainer !in signers3 ==> AssignContributor(t, assign, signers3, gid) == Err(Framework(AccountNotSigner)))
            && (assign.maintainer in signers3 ==> AssignContributor(t, assign, signers3, gid) == Err(Framework(AccountNotInitialized)))
  {
  }

  /** The same after a successful completion. */
  lemma NothingAfterComplete(s: Store, acc: CompleteBountyAccounts, signers: set<Address>, id: U64,
                             cancel: CancelBountyAccounts, signers2: set<Address>, id2: U64,
                             complete2: CompleteBountyAccounts, assign: AssignContributorAccounts,
                             signers3: set<Address>, gid: U64)
    requires CompleteBounty(s, acc, signers, id).Ok?
    requires cancel.bounty == acc.bounty && complete2.bounty == acc.bounty && assign.bounty == acc.bounty
    ensures var t := CompleteBounty(s, acc, signers, id).value;
            && CancelBounty(t, cancel, signers2, id2) == Err(Framework(AccountNotInitialized))
            && CompleteBounty(t, complete2, signers2, id2) == Err(Framework(AccountNotInitialized))
            && (assign.maintainer !in signers3 ==> AssignContributor(t, assign, signers3, gid) == Err(Framework(AccountNotSigner)))
            && (assign.maintainer in signers3 ==> AssignContributor(t, assign, signers3, gid) == Err(Framework(AccountNotInitialized)))
  {
  }

  /** Closing a bounty frees its id: the record address is empty again, so
      the only thing standing between the id and a new bounty is the rest of
      the `InitializeBounty` checks, not a leftover record. */
  lemma {:induction false} IdFreeAfterCancel(s: Store, acc: CancelBountyAccounts, signers: set<Address>, id: U64)
    requires Invariant(s)
    requires CancelBounty(s, acc, signers, id).Ok?
    ensures BountyAddress(id) in s && BountyAddress(id) !in CancelBounty(s, acc, signers, id).value
    ensures forall a :: a in CancelBounty(s, acc, signers, id).value
                        && CancelBounty(s, acc, signers, id).value[a].data.BountyData?
                        ==> CancelBounty(s, acc, signers, id).value[a].data.bounty.bountyId != id
  {
    var t := CancelBounty(s, acc, signers, id).value;
    CancelBountyKeepsInvariant(s, acc, signers, id);
    forall a | a in t && t[a].data.BountyData?
      ensures t[a].data.bounty.bountyId != id
    {
      BountyAddressInjective(t[a].data.bounty.bountyId, id);
    }
  }

  // A concrete store: a funded maintainer with its token account, a mint,
  // and the contributor's token account.
  const MAINTAINER: Address := Key(1)
  const CONTRIBUTOR: Address := Key(2)
  const MINT: Address := Key(3)
  const MAINTAINER_FUNDS: nat := 10_000_000

  function Genesis(): Store
  {
    map[MAINTAINER := Account(MAINTAINER_FUNDS, Empty),
        MINT := Account(1_461_600, MintData),
        AssociatedTokenAddress(MAINTAINER, MINT) := Account(2_039_280, TokenData(TokenAccount(MINT, MAINTAINER, 50_000))),
        AssociatedTokenAddress(CONTRIBUTOR, MINT) := Account(2_039_280, TokenData(TokenAccount(MINT, CONTRIBUTOR, 0)))]
  }

  function InitAccounts(id: U64): InitializeBountyAccounts
  {
    InitializeBountyAccounts(BountyAddress(id), MAINTAINER, AssociatedTokenAddress(MAINTAINER, MINT),
                             AssociatedTokenAddress(BountyAddress(id), MINT), MINT)
  }

  /** Bounty 1 with 5000 tokens: created, assigned, completed. The record
      exists and is Created after the first step, InProgress with the
      contributor after the second, and gone after the third, when the
      maintainer has paid the escrow's deposit and got the record's back. */
  lemma {:induction false} HappyPath(now: I64)
    ensures var args := InitializeBountyArgs(1, 5000, 42, 7);
            var r1 := InitializeBounty(Genesis(), InitAccounts(1), {MAINTAINER}, args, now);
            && r1.Ok?
            && r1.value[BountyAddress(1)].data.bounty.state == Created
            && var r2 := AssignContributor(r1.value, AssignContributorAccounts(MAINTAINER, BountyAddress(1), CONTRIBUTOR),
                                           {MAINTAINER}, 9);
               && r2.Ok?
               && r2.value[BountyAddress(1)].data.bounty.state == InProgress
               && r2.value[BountyAddress(1)].data.bounty.contributor == Some(CONTRIBUTOR)
               && var r3 := CompleteBounty(r2.value,
                              CompleteBountyAccounts(BountyAddress(1), MAINTAINER, CONTRIBUTOR, MINT,
                                                     AssociatedTokenAddress(BountyAddress(1), MINT),
                                                     AssociatedTokenAddress(CONTRIBUTOR, MINT)),
                              {MAINTAINER}, 1);
                  && r3.Ok?
                  && BountyAddress(1) !in r3.value
                  && Lamports(r3.value, MAINTAINER) == MAINTAINER_FUNDS - MinimumBalance(TOKEN_ACCOUNT_LEN)
  {
    var args := InitializeBountyArgs(1, 5000, 42, 7);
    var s := Genesis();
    assert BountyAddress(1) !in s && AssociatedTokenAddress(BountyAddress(1), MINT) !in s;
    var t1 := InitializeBounty(s, InitAccounts(1), {MAINTAINER}, args, now).value;
    assert Lamports(t1, MAINTAINER) == MAINTAINER_FUNDS - Deposits();
    var t2 := AssignContributor(t1, AssignContributorAccounts(MAINTAINER, BountyAddress(1), CONTRIBUTOR), {MAINTAINER}, 9).value;
    assert AssociatedTokenAddress(CONTRIBUTOR, MINT) in t2 && MINT in t2
        && AssociatedTokenAddress(BountyAddress(1), MINT) in t2;
  }

  /** Bounty 1 with 500 tokens: below the minimum, refused with
      `InsufficientAmount`, and nothing is created. */
  lemma UnderfundedScenario(now: I64)
    ensures InitializeBounty(Genesis(), InitAccounts(1), {MAINTAINER}, InitializeBountyArgs(1, 500, 42, 7), now)
            == Err(Program(InsufficientAmount))
  {
    var s := Genesis();
    assert BountyAddress(1) !in s && AssociatedTokenAddress(BountyAddress(1), MINT) !in s;
    UnderfundedBountyRefused(s, InitAccounts(1), {MAINTAINER}, InitializeBountyArgs(1, 500, 42, 7), now);
    assert InitializeBounty(s, InitAccounts(1), {MAINTAINER}, InitializeBountyArgs(1, MIN_BOUNTY_AMOUNT, 42, 7), now).Ok?;
  }
}
