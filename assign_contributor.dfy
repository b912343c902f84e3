/** `AssignContributor` (programs/octasol_contract/src/context/assign.rs): the
    bounty's maintainer, signing, names a contributor for a bounty that has
    none yet. The bounty is found by the account given (there is no seeds
    check), and the contributor account is used only for its key. */
module AssignContributorInstruction {
  import opened Numeric
  import opened Wrappers
  import opened Addresses
  import opened Errors
  import opened Accounts
  import opened BountyRecord

  /** The accounts the instruction is given, in declaration order. */
  datatype AssignContributorAccounts = AssignContributorAccounts(
    maintainer: Address,
    bounty: Address,
    contributor: Address)

  /** The record the (absent) handler is assumed to write: the contributor's
      key and external id, and the move to InProgress. */
  function Assigned(b: Bounty, contributor: Address, contributorGithubId: U64): (r: Bounty)
    ensures LiveBounty(r) && r.state == InProgress && r.contributor == Some(contributor)
    ensures r.maintainer == b.maintainer && r.amount == b.amount && r.bountyId == b.bountyId
  {
    b.(contributor := Some(contributor), contributorGithubId := Some(contributorGithubId), state := InProgress)
  }

  /** Whether the instruction succeeds on store `s`. */
  ghost predicate Accepted(s: Store, acc: AssignContributorAccounts, signers: set<Address>)
  {
    && acc.maintainer in signers
    && acc.bounty in s && s[acc.bounty].data.BountyData?
    && s[acc.bounty].data.bounty.maintainer == acc.maintainer
    && s[acc.bounty].data.bounty.contributor.None?
  }

  /** The instruction on store `s`. */
  function AssignContributor(s: Store, acc: AssignContributorAccounts, signers: set<Address>,
                             contributorGithubId: U64): (r: Result<Store>)
    ensures r.Ok? <==> Accepted(s, acc, signers)
    ensures acc.maintainer !in signers ==> r == Err(Framework(AccountNotSigner))
    ensures acc.maintainer in signers && acc.bounty !in s ==> r == Err(Framework(AccountNotInitialized))
    ensures acc.maintainer in signers && acc.bounty in s && s[acc.bounty].data.BountyData?
            && s[acc.bounty].data.bounty.maintainer != acc.maintainer
            ==> r == Err(Framework(ConstraintHasOne))
    ensures r.Ok? ==>
      && acc.bounty in r.value
      && r.value[acc.bounty] == s[acc.bounty].(data := BountyData(
           Assigned(s[acc.bounty].data.bounty, acc.contributor, contributorGithubId)))
      && SameExcept(s, r.value, {acc.bounty})
  {
    // loading, in declaration order
    var maintainer :- CheckSigner(signers, acc.maintainer);
    var bounty :- LoadBounty(s, acc.bounty);
    // constraints of `bounty`: `has_one = maintainer`, then `contributor.is_none()`
    :- Need(bounty.maintainer == maintainer, Framework(ConstraintHasOne));
    :- Need(bounty.contributor.None?, Framework(ConstraintRaw));
    Ok(s[acc.bounty := s[acc.bounty].(data := BountyData(Assigned(bounty, acc.contributor, contributorGithubId)))])
  }

  /** Reassignment is refused. The constraint carries no custom error, so the
      caller sees the framework's `ConstraintRaw`, not the program's
      `ContributorAlreadyAssigned`, which the bare check would report. */
  lemma ReassignmentRefused(s: Store, acc: AssignContributorAccounts, signers: set<Address>,
                            contributorGithubId: U64)
    requires acc.maintainer in signers && acc.bounty in s && s[acc.bounty].data.BountyData?
    requires s[acc.bounty].data.bounty.maintainer == acc.maintainer
    requires s[acc.bounty].data.bounty.contributor.Some?
    ensures AssignContributor(s, acc, signers, contributorGithubId) == Err(Framework(ConstraintRaw))
    ensures ValidateAssignable(s[acc.bounty].data.bounty.contributor)
            == Fail(Program(BountyError.ContributorAlreadyAssigned))
  {
  }

  /** Assign C1 then assign C2: the second call fails and C1 stays assigned. */
  lemma {:induction false} SecondAssignKeepsFirstContributor(
    s: Store, acc: AssignContributorAccounts, signers: set<Address>, id1: U64,
    acc2: AssignContributorAccounts, signers2: set<Address>, id2: U64)
    requires AssignContributor(s, acc, signers, id1).Ok?
    requires acc2.bounty == acc.bounty
    ensures AssignContributor(AssignContributor(s, acc, signers, id1).value, acc2, signers2, id2).Err?
    ensures AssignContributor(s, acc, signers, id1).value[acc.bounty].data.bounty.contributor == Some(acc.contributor)
  {
    var t := AssignContributor(s, acc, signers, id1).value;
    assert acc.bounty in t && t[acc.bounty].data.bounty.contributor.Some?;
  }

  lemma AssignContributorKeepsInvariant(s: Store, acc: AssignContributorAccounts, signers: set<Address>,
                                        contributorGithubId: U64)
    requires Invariant(s)
    ensures AssignContributor(s, acc, signers, contributorGithubId).Ok? ==>
            Invariant(AssignContributor(s, acc, signers, contributorGithubId).value)
  {
    if AssignContributor(s, acc, signers, contributorGithubId).Ok? {
      var t := AssignContributor(s, acc, signers, contributorGithubId).value;
      forall a | a in t && a != acc.bounty
        ensures a in s && t[a] == s[a]
      {
      }
    }
  }
}
