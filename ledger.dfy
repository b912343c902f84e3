/** The program as the runtime sees it: one account store that every
    instruction reads and, when all of its checks pass, changes in place.
    An instruction is all-or-nothing: the first failing check is reported
    and the store is left exactly as it was. */
module Ledger {
  import opened Numeric
  import opened Addresses
  import opened Errors
  import opened Accounts
  import InitializeConfigInstruction
  import UpdateAdminInstruction
  import InitializeBountyInstruction
  import AssignContributorInstruction
  import CompleteBountyInstruction
  import CancelBountyInstruction
  import AdminAssignAndReleaseInstruction

  /** How an instruction's outcome `step` on `before` lands: on success the
      store becomes the new one and the caller sees `Pass`; on failure the
      store is untouched and the caller sees the error. */
  ghost predicate Applied(before: Store, step: Result<Store>, after: Store, r: Outcome)
  {
    match step
    case Ok(t) => after == t && r == Pass
    case Err(e) => after == before && r == Fail(e)
  }

  /** The store only ever changes through one of the seven instructions:
      each method runs its instruction on the current store and installs the
      result only if every check passed. */
  class ProgramLedger {
    var accounts: Store

    ghost predicate Valid()
      reads this
    {
      Invariant(accounts)
    }

    constructor (genesis: Store)
      requires Invariant(genesis)
      ensures Valid() && accounts == genesis
    {
      accounts := genesis;
    }

    method InitializeConfig(acc: InitializeConfigInstruction.InitializeConfigAccounts, signers: set<Address>)
      returns (r: Outcome)
      requires Valid()
      modifies this
      ensures Valid()
      ensures Applied(old(accounts), InitializeConfigInstruction.InitializeConfig(old(accounts), acc, signers), accounts, r)
    {
      InitializeConfigInstruction.InitializeConfigKeepsInvariant(accounts, acc, signers);
      var step := InitializeConfigInstruction.InitializeConfig(accounts, acc, signers);
      if step.Ok? {
        accounts := step.value;
        r := Pass;
      } else {
        r := Fail(step.error);
      }
    }

    method UpdateAdmin(acc: UpdateAdminInstruction.UpdateAdminAccounts, signers: set<Address>, newAdmin: Address)
      returns (r: Outcome)
      requires Valid()
      modifies this
      ensures Valid()
      ensures Applied(old(accounts), UpdateAdminInstruction.UpdateAdmin(old(accounts), acc, signers, newAdmin), accounts, r)
    {
      UpdateAdminInstruction.UpdateAdminKeepsInvariant(accounts, acc, signers, newAdmin);
      var step := UpdateAdminInstruction.UpdateAdmin(accounts, acc, signers, newAdmin);
      if step.Ok? {
        accounts := step.value;
        r := Pass;
      } else {
        r := Fail(step.error);
      }
    }

    method InitializeBounty(acc: InitializeBountyInstruction.InitializeBountyAccounts, signers: set<Address>,
                            args: InitializeBountyInstruction.InitializeBountyArgs, now: I64)
      returns (r: Outcome)
      requires Valid()
      modifies this
      ensures Valid()
      ensures Applied(old(accounts), InitializeBountyInstruction.InitializeBounty(old(accounts), acc, signers, args, now),
                      accounts, r)
    {
      InitializeBountyInstruction.InitializeBountyKeepsInvariant(accounts, acc, signers, args, now);
      var step := InitializeBountyInstruction.InitializeBounty(accounts, acc, signers, args, now);
      if step.Ok? {
        accounts := step.value;
        r := Pass;
      } else {
        r := Fail(step.error);
      }
    }

    method AssignContributor(acc: AssignContributorInstruction.AssignContributorAccounts, signers: set<Address>,
                             contributorGithubId: U64)
      returns (r: Outcome)
      requires Valid()
      modifies this
      ensures Valid()
      ensures Applied(old(accounts),
                      AssignContributorInstruction.AssignContributor(old(accounts), acc, signers, contributorGithubId),
                      accounts, r)
    {
      AssignContributorInstruction.AssignContributorKeepsInvariant(accounts, acc, signers, contributorGithubId);
      var step := AssignContributorInstruction.AssignContributor(accounts, acc, signers, contributorGithubId);
      if step.Ok? {
        accounts := step.value;
        r := Pass;
      } else {
        r := Fail(step.error);
      }
    }

    method CompleteBounty(acc: CompleteBountyInstruction.CompleteBountyAccounts, signers: set<Address>, bountyId: U64)
      returns (r: Outcome)
      requires Valid()
      modifies this
      ensures Valid()
      ensures Applied(old(accounts), CompleteBountyInstruction.CompleteBounty(old(accounts), acc, signers, bountyId),
                      accounts, r)
    {
      CompleteBountyInstruction.CompleteBountyKeepsInvariant(accounts, acc, signers, bountyId);
      var step := CompleteBountyInstruction.CompleteBounty(accounts, acc, signers, bountyId);
      if step.Ok? {
        accounts := step.value;
        r := Pass;
      } else {
        r := Fail(step.error);
      }
    }

    method CancelBounty(acc: CancelBountyInstruction.CancelBountyAccounts, signers: set<Address>, bountyId: U64)
      returns (r: Outcome)
      requires Valid()
      modifies this
      ensures Valid()
      ensures Applied(old(accounts), CancelBountyInstruction.CancelBounty(old(accounts), acc, signers, bountyId),
                      accounts, r)
    {
      CancelBountyInstruction.CancelBountyKeepsInvariant(accounts, acc, signers, bountyId);
      var step := CancelBountyInstruction.CancelBounty(accounts, acc, signers, bountyId);
      if step.Ok? {
        accounts := step.value;
        r := Pass;
      } else {
        r := Fail(step.error);
      }
    }

    method AdminAssignAndRelease(acc: AdminAssignAndReleaseInstruction.AdminAssignAndReleaseAccounts,
                                 signers: set<Address>, missing: AdminAssignAndReleaseInstruction.MissingFields)
      returns (r: Outcome)
      requires Valid()
      modifies this
      ensures Valid()
      ensures Applied(old(accounts),
                      AdminAssignAndReleaseInstruction.AdminAssignAndRelease(old(accounts), acc, signers, missing),
                      accounts, r)
    {
      AdminAssignAndReleaseInstruction.AdminAssignAndReleaseKeepsInvariant(accounts, acc, signers, missing);
      var step := AdminAssignAndReleaseInstruction.AdminAssignAndRelease(accounts, acc, signers, missing);
      if step.Ok? {
        accounts := step.value;
        r := Pass;
      } else {
        r := Fail(step.error);
      }
    }
  }
}
