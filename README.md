# Bounty escrow: the account-constraint layer

This project models the on-chain part of the Octasol bounty escrow, an
Anchor program on Solana. A maintainer funds a bounty for a GitHub issue,
assigns a contributor, and then completes or cancels it. A configured admin
can also close a fresh bounty in one step. The model covers what the
program's sources actually contain: the record layouts and their sizes, the
error enum, and the `#[derive(Accounts)]` structs of the seven instructions.

Those structs declare:

- which accounts must exist and of which type;
- who must sign;
- which keys must match (`has_one`, `constraint = ...`, `seeds`, associated
  token addresses);
- which accounts are created (`init`) and which are deleted
  (`close = maintainer`).

The runtime is modelled as one account store, `Accounts.Store`: a map from
address to account, where each account holds lamports and typed contents.
Each instruction is a function from a store to `Result<Store>`. It runs the
validation in the order the framework runs it:

1. It loads every non-`init` account in declaration order: existence, owner,
   record type, and the `Signer` check.
2. It creates the `init` accounts in declaration order: seeds or associated
   token address, then whether the address is already in use, then the
   payer's funds.
3. It checks the remaining constraints of each account in declaration order.
   Within one account the order is `seeds`, `associated_token`, `has_one`,
   raw constraints in written order, then the `close` target.

The function returns the first error. Otherwise it returns the new store,
with the `init` and `close` effects applied. `Ledger.ProgramLedger` holds
the store as a mutable field, as the runtime holds the accounts between
transactions. A transaction is atomic: when any check fails the runtime
discards every change, so each method commits the instruction's new store
only on success and otherwise leaves the field untouched. Each method also
keeps the store invariant (`Accounts.Invariant`):

- the configuration record sits only at its derived address;
- every bounty record sits at the address derived from its own id, and is
  live (Created with no contributor, or InProgress with one);
- every associated token account holds its address's mint for its address's
  wallet.

Addresses are a datatype. A program-derived address records its seeds and
bump, and an associated token address records its wallet and mint. So
derivation is injective, and different kinds of derivation never collide.
The hash the runtime actually computes is not modelled.

The instruction handlers are not part of the program's sources; the only
entry point is a stub. Where an instruction's purpose needs a handler effect,
that effect is stated as an explicit assumption and named as one:

- `InitializeBountyInstruction.NewBounty`, the new bounty record;
- `AssignContributorInstruction.Assigned`, the record after assignment;
- `InitializeConfigInstruction.FirstConfig`, the first configuration record;
- in `UpdateAdminInstruction.UpdateAdmin`, the write of the new admin;
- `Errors.ValidateAmount`, the funding check the error messages describe.

Where the code and the documented design disagree, the model
follows the code:

- Reassignment reports `ConstraintRaw`, not `ContributorAlreadyAssigned`.
  The `constraint = bounty.contributor.is_none()` in assign.rs carries no
  custom error.
- A caller other than the admin of `UpdateAdmin` gets `ConstraintHasOne`,
  not `Unauthorized`. update_admin.rs checks the admin with `has_one = admin`
  and no custom error.
- Assignment checks only that no contributor is recorded, not the state.
- Completion and cancellation check neither the bounty's state nor the
  recorded contributor.
- The admin path reads `bounty.mint` and `bounty.bump`, which the record
  does not have. It also names its errors in a `ContractError` enum that no
  source declares. The model takes the two fields as a parameter, gives the
  enum the variants that are used, and proves that the record extended by
  the two fields no longer fits the space `Bounty::LEN` reserves once a
  contributor or a contributor id is recorded.
- The admin path expects the escrow to be controlled by an `escrow_auth`
  derived address. The escrow `InitializeBounty` creates is controlled by
  the bounty itself. The model proves that the two never coincide.

## Model

| member | source | states |
|---|---|---|
| Numeric.LeBytesN | programs/octasol_contract/src/context/init.rs:13 | byte i of the n-byte encoding is `(x / 256^i) % 256`, digit i of the value in base 256, so the least significant byte comes first |
| Numeric.ToLeBytes | programs/octasol_contract/src/context/init.rs:13 | `bounty_id.to_le_bytes()` is exactly eight bytes |
| Numeric.FromLeBytes | programs/octasol_contract/src/context/init.rs:13 | the value of a little-endian byte string fits in that many bytes |
| Numeric.FromLeBytesN | programs/octasol_contract/src/context/init.rs:13 | decoding the n-byte encoding of a value below 256^n gives the value back |
| Numeric.LeBytesNOfValue | programs/octasol_contract/src/context/init.rs:13 | re-encoding a byte string's value in as many bytes gives the string back |
| Numeric.LeBytesRoundTrip | programs/octasol_contract/src/context/init.rs:13 | the eight little-endian bytes of every u64 decode back to it |
| Numeric.LeBytesOnto | programs/octasol_contract/src/context/init.rs:13 | every eight-byte string encodes exactly one u64 |
| Numeric.LeBytesInjective | programs/octasol_contract/src/context/init.rs:13 | two ids give the same seed bytes if and only if they are equal |
| Addresses.FindProgramAddress | programs/octasol_contract/src/context/config.rs:12-13 | `seeds = [...], bump` designates a program-derived address with exactly those seeds |
| Addresses.CreateProgramAddress | programs/octasol_contract/src/context/admin_ops.rs:26-27 | `seeds = [...], bump = b` designates the address with those seeds and that bump |
| Addresses.ConfigAddress | programs/octasol_contract/src/context/config.rs:12 | the configuration address is derived from the single seed `config` |
| Addresses.BountySeeds | programs/octasol_contract/src/context/init.rs:13 | the bounty seeds are the literal `bounty` and eight bytes that decode to the id |
| Addresses.BountyAddress | programs/octasol_contract/src/context/init.rs:13 | a bounty's address is derived from its seeds with the canonical bump, and is never the configuration address |
| Addresses.EscrowAuthorityAddress | programs/octasol_contract/src/context/admin_ops.rs:26-27 | the escrow authority is derived from `escrow_auth` and the bounty's key with the given bump, and is never the bounty itself |
| Addresses.BountyAddressInjective | programs/octasol_contract/src/context/init.rs:13 | two ids give the same bounty address if and only if they are equal |
| Addresses.BountyAddressOnto | programs/octasol_contract/src/context/init.rs:13 | every address derived from `bounty` and eight bytes is the bounty address of the id those bytes encode |
| Addresses.DerivedAddressesDistinct | programs/octasol_contract/src/context/admin_ops.rs:26 | the config address, any bounty address and any escrow authority are pairwise distinct |
| Addresses.EscrowAuthorityIsNotTheBounty | programs/octasol_contract/src/context/admin_ops.rs:25-30 | an escrow authority differs from its bounty, and so do their associated token accounts |
| BountyRecord.LenValue | programs/octasol_contract/src/state/bounty.rs:25-34 | `Bounty::LEN` is 123 |
| BountyRecord.StateTag | programs/octasol_contract/src/state/bounty.rs:3-9 | the serialized state byte is below 4 and decodes back to the state |
| BountyRecord.StateFromTag | programs/octasol_contract/src/state/bounty.rs:3-9 | a state byte denotes a state exactly when it is below 4 |
| BountyRecord.StateTagInjective | programs/octasol_contract/src/state/bounty.rs:3-9 | the four states are pairwise distinct: equal tags if and only if equal states |
| BountyRecord.OptionSize | programs/octasol_contract/src/state/bounty.rs:27 | an option takes at most one tag byte plus its payload, and all of it exactly when present |
| BountyRecord.SerializedSize | programs/octasol_contract/src/state/bounty.rs:12-34 | 8 plus a record's size is at most `LEN`, equal exactly when both options are present, and at least `LEN` minus 40 |
| BountyRecord.EncodeOptionU64 | programs/octasol_contract/src/state/bounty.rs:20 | an encoded `Option<u64>` takes the bytes `OptionSize` counts |
| BountyRecord.DecodeOptionU64 | programs/octasol_contract/src/state/bounty.rs:20 | a successful read of an `Option<u64>` consumes at least one byte |
| BountyRecord.OptionU64RoundTrip | programs/octasol_contract/src/state/bounty.rs:20 | decoding an encoded `Option<u64>` gives it back with the bytes that followed |
| BountyRecord.DecodeOptionU64Exact | programs/octasol_contract/src/state/bounty.rs:20 | whatever decodes is exactly the encoding of the decoded option followed by the remaining bytes |
| ConfigRecord.LenValue | programs/octasol_contract/src/state/config.rs:14-15 | `ConfigState::LEN` is 41, the discriminator plus the key plus the bump |
| ConfigRecord.SerializedSize | programs/octasol_contract/src/state/config.rs:5-16 | every configuration record fills exactly `LEN` with its discriminator |
| Errors.Code | programs/octasol_contract/src/util/errors.rs:3-17 | every error code lies in the six codes from 6000 |
| Errors.FromCode | programs/octasol_contract/src/util/errors.rs:3-17 | a code denotes an error exactly when it lies in those six |
| Errors.CodeRoundTrip | programs/octasol_contract/src/util/errors.rs:4-17 | an error's code decodes back to that error |
| Errors.CodesDistinct | programs/octasol_contract/src/util/errors.rs:4-17 | two errors have the same code if and only if they are the same error |
| Errors.ValidateAmount | programs/octasol_contract/src/util/errors.rs:7-12 | an amount passes if and only if it is at least 1000; zero fails with `ZeroAmount`, 1 to 999 with `InsufficientAmount` |
| Errors.ValidateAssignable | programs/octasol_contract/src/util/errors.rs:13-14 | assignment passes if and only if no contributor is recorded, and otherwise fails with `ContributorAlreadyAssigned` |
| Errors.CheckedAdd | programs/octasol_contract/src/util/errors.rs:15-16 | the sum is returned exactly when it fits in a u64, and otherwise `ArithmeticOverflow` is reported |
| Errors.CheckedAddAgreesWithWrapping | programs/octasol_contract/src/util/errors.rs:15-16 | the checked sum equals the wrapping sum when it succeeds, and fails exactly when wrapping would come out below an operand |
| Accounts.MinimumBalance | programs/octasol_contract/src/context/config.rs:10-11 | a rent-exempt deposit is positive |
| Accounts.LoadBounty | programs/octasol_contract/src/context/complete.rs:15 | `Account<Bounty>` loads exactly an existing bounty record; a missing account fails with `AccountNotInitialized` |
| Accounts.LoadConfig | programs/octasol_contract/src/context/update_admin.rs:15 | `Account<ConfigState>` loads exactly an existing configuration record |
| Accounts.LoadTokenAccount | programs/octasol_contract/src/context/init.rs:26 | `Account<TokenAccount>` loads exactly an existing token account |
| Accounts.LoadMint | programs/octasol_contract/src/context/init.rs:36 | `Account<Mint>` passes exactly for an existing mint |
| Accounts.CheckSigner | programs/octasol_contract/src/context/init.rs:19 | `Signer` succeeds exactly when the key signed, yielding that key, and otherwise fails with `AccountNotSigner` |
| Accounts.CheckAssociatedToken | programs/octasol_contract/src/context/init.rs:21-26 | passes exactly when the account's authority is the wallet and its address is ATA(wallet, mint); the owner is checked first |
| Accounts.Debit | programs/octasol_contract/src/context/init.rs:11 | the payer loses exactly the amount and nothing else changes |
| Accounts.Credit | programs/octasol_contract/src/context/complete.rs:11 | the target gains exactly the amount, keeps its contents, and nothing else changes |
| Accounts.CreateAccount | programs/octasol_contract/src/context/init.rs:9-12 | `init` succeeds exactly when the address is free and the payer can fund the deposit (`AccountAlreadyInUse` first, then `InsufficientLamports`); the new account holds the deposit, taken from the payer |
| Accounts.Close | programs/octasol_contract/src/context/complete.rs:11 | `close = maintainer` removes the account and credits its lamports to the target, which keeps its data or, if it held no account, becomes an empty wallet; nothing else changes |
| Accounts.BountyIdsUnique | programs/octasol_contract/src/context/init.rs:13 | under the invariant, two bounty records are the same account if and only if they have the same id |
| Accounts.CloseKeepsInvariant | programs/octasol_contract/src/context/cancel.rs:11 | closing an account to a target keeps the store invariant |
| InitializeConfigInstruction.FirstConfig | programs/octasol_contract/src/context/config.rs:6 | assumed handler effect: the signer becomes the first admin, with the bump of the config address |
| InitializeConfigInstruction.InitializeConfig | programs/octasol_contract/src/context/config.rs:3-17 | succeeds if and only if the admin signed, the address is the `config` address, no config exists and the admin can pay; each failure's error; on success the record is created with `LEN` bytes paid by the admin, who stays in the store with its data unchanged, and nothing else changes |
| InitializeConfigInstruction.SecondInitializeConfigFails | programs/octasol_contract/src/context/config.rs:9 | a second `InitializeConfig` always fails |
| InitializeConfigInstruction.InitializeConfigKeepsInvariant | programs/octasol_contract/src/context/config.rs:8-15 | a successful `InitializeConfig` keeps the store invariant |
| UpdateAdminInstruction.UpdateAdmin | programs/octasol_contract/src/context/update_admin.rs:4-16 | succeeds if and only if the current admin signed for the config at the `config` address; signer, existence, seeds and `has_one` errors in that order; on success only the admin changes (bump and deposit kept), and no other account changes |
| UpdateAdminInstruction.HandoverRevokesPreviousAdmin | programs/octasol_contract/src/context/update_admin.rs:13 | after a handover to another key, the previous admin is refused with `ConstraintHasOne` and the new admin is accepted |
| UpdateAdminInstruction.UpdateAdminKeepsInvariant | programs/octasol_contract/src/context/update_admin.rs:9-15 | a successful `UpdateAdmin` keeps the store invariant |
| InitializeBountyInstruction.NewBounty | programs/octasol_contract/src/context/init.rs:9-16 | assumed handler effect: the new record has the signer as maintainer, the given id and amount, and is Created with no contributor |
| InitializeBountyInstruction.InitializeBounty | programs/octasol_contract/src/context/init.rs:6-41 | succeeds if and only if every check passes; an unsigned maintainer gets `AccountNotSigner`, an occupied bounty address `AccountAlreadyInUse`; on success the record sits at the id's address and an empty escrow at ATA(bounty, mint), the maintainer paid both deposits and stays in the store with its data unchanged, and nothing else changed |
| InitializeBountyInstruction.UnderfundedBountyRefused | programs/octasol_contract/src/util/errors.rs:7-12 | an amount below 1000 is always refused, with `ZeroAmount` or `InsufficientAmount` when every other check passes |
| InitializeBountyInstruction.OneBountyPerId | programs/octasol_contract/src/context/init.rs:9-14 | while a record exists at an id's address, no bounty with that id can be created |
| InitializeBountyInstruction.InitializeBountyKeepsInvariant | programs/octasol_contract/src/context/init.rs:8-41 | a successful `InitializeBounty` keeps the store invariant |
| AssignContributorInstruction.Assigned | programs/octasol_contract/src/context/assign.rs:11-21 | assumed handler effect: the record is InProgress with the contributor's key, and stays live with its maintainer, amount and id |
| AssignContributorInstruction.AssignContributor | programs/octasol_contract/src/context/assign.rs:6-24 | succeeds if and only if the maintainer signed, the bounty exists, it is theirs and it has no contributor; signer, existence and `has_one` errors; on success only the bounty record changes |
| AssignContributorInstruction.ReassignmentRefused | programs/octasol_contract/src/context/assign.rs:15-16 | reassignment fails with `ConstraintRaw`, where the program's own check would report `ContributorAlreadyAssigned` |
| AssignContributorInstruction.SecondAssignKeepsFirstContributor | programs/octasol_contract/src/context/assign.rs:16 | after assigning C1, assigning C2 fails and C1 stays recorded |
| AssignContributorInstruction.AssignContributorKeepsInvariant | programs/octasol_contract/src/context/assign.rs:11-18 | a successful `AssignContributor` keeps the store invariant |
| CompleteBountyInstruction.CompleteBounty | programs/octasol_contract/src/context/complete.rs:5-41 | succeeds if and only if every account loads, the bounty sits at the id's address, it is the signer's, the escrow is ATA(bounty, mint) and the payout account is ATA(contributor, mint); existence, seeds and `has_one` errors; on success the record is gone, its deposit is credited to the maintainer, which keeps its data or becomes an empty wallet, and nothing else changes |
| CompleteBountyInstruction.CompleteIgnoresStateAndContributor | programs/octasol_contract/src/context/complete.rs:20-22 | the outcome and the error do not depend on the bounty's state or recorded contributor |
| CompleteBountyInstruction.CompleteBountyKeepsInvariant | programs/octasol_contract/src/context/complete.rs:8-15 | a successful `CompleteBounty` keeps the store invariant |
| CancelBountyInstruction.CancelBounty | programs/octasol_contract/src/context/cancel.rs:5-39 | succeeds if and only if every account loads, the bounty sits at the id's address, it is the signer's, the escrow is ATA(bounty, mint) and the refund account is ATA(maintainer, mint); existence, seeds and `has_one` errors; on success the record is gone, its deposit is credited to the maintainer, which keeps its data or becomes an empty wallet, and nothing else changes |
| CancelBountyInstruction.CancelIgnoresState | programs/octasol_contract/src/context/cancel.rs:8-15 | the outcome and the error do not depend on the bounty's state or contributor, so a Created or InProgress bounty can be cancelled |
| CancelBountyInstruction.CancelBountyKeepsInvariant | programs/octasol_contract/src/context/cancel.rs:11 | a successful `CancelBounty` keeps the store invariant |
| AdminAssignAndReleaseInstruction.ExtendedSize | programs/octasol_contract/src/state/bounty.rs:24-34 | a record carrying the `mint` and `bump` the admin path reads overflows `Bounty::LEN` if and only if a contributor or a contributor id is recorded; a fresh Created record still fits |
| AdminAssignAndReleaseInstruction.AdminAssignAndRelease | programs/octasol_contract/src/context/admin_ops.rs:5-56 | succeeds if and only if every check passes; once the accounts load, in declaration order: a config off its address gets `ConstraintSeeds`, a non-admin `Unauthorized`, a bounty not Created `InvalidBountyStateForOperation`, one with a contributor `ContributorAlreadyAssigned`, a `maintainer` account that is the bounty itself `ConstraintClose`, an escrow authority off its address `ConstraintSeeds`, a payout account of another mint `InvalidMint`, or of another owner `InvalidTokenAccount`, an escrow of another mint `InvalidMint`; on success the record is gone and its deposit is credited to the given maintainer account, which keeps its data or becomes an empty wallet, and nothing else changes |
| AdminAssignAndReleaseInstruction.RentRecipientUnchecked | programs/octasol_contract/src/context/admin_ops.rs:32-34 | any rent recipient other than the bounty gives the same outcome and is paid the deposit, whoever the bounty's maintainer is |
| AdminAssignAndReleaseInstruction.ContributorCheckNeverFires | programs/octasol_contract/src/context/admin_ops.rs:19-20 | under the invariant, the `ContributorAlreadyAssigned` check is never the one that fails |
| AdminAssignAndReleaseInstruction.EscrowAuthorityDoesNotOwnBountyEscrow | programs/octasol_contract/src/context/admin_ops.rs:25-30 | when the checked escrow is the bounty's associated token account, its authority is the bounty, not the escrow authority |
| AdminAssignAndReleaseInstruction.AdminAssignAndReleaseKeepsInvariant | programs/octasol_contract/src/context/admin_ops.rs:21 | a successful `AdminAssignAndRelease` keeps the store invariant |
| Lifecycle.NothingAfterCancel | programs/octasol_contract/src/context/cancel.rs:11 | after a cancel, cancel and complete of the same bounty fail with `AccountNotInitialized`; assignment fails with `AccountNotInitialized` when the maintainer signed and `AccountNotSigner` otherwise |
| Lifecycle.NothingAfterComplete | programs/octasol_contract/src/context/complete.rs:11 | after a completion, cancel and complete of the same bounty fail with `AccountNotInitialized`; assignment fails with `AccountNotInitialized` when the maintainer signed and `AccountNotSigner` otherwise |
| Lifecycle.IdFreeAfterCancel | programs/octasol_contract/src/context/cancel.rs:11-13 | after a cancel, no record with that id remains |
| Lifecycle.HappyPath | programs/octasol_contract/src/context/init.rs:8-16 | bounty 1 with 5000 tokens is created, assigned and completed; the maintainer ends up paying only the escrow's deposit |
| Lifecycle.UnderfundedScenario | programs/octasol_contract/src/util/errors.rs:11-12 | bounty 1 with 500 tokens is refused with `InsufficientAmount` |
| Ledger.ProgramLedger.InitializeConfig | programs/octasol_contract/src/context/config.rs:3-17 | applies `InitializeConfig` all-or-nothing and keeps the invariant |
| Ledger.ProgramLedger.UpdateAdmin | programs/octasol_contract/src/context/update_admin.rs:4-16 | applies `UpdateAdmin` all-or-nothing and keeps the invariant |
| Ledger.ProgramLedger.InitializeBounty | programs/octasol_contract/src/context/init.rs:6-41 | applies `InitializeBounty` all-or-nothing and keeps the invariant |
| Ledger.ProgramLedger.AssignContributor | programs/octasol_contract/src/context/assign.rs:6-24 | applies `AssignContributor` all-or-nothing and keeps the invariant |
| Ledger.ProgramLedger.CompleteBounty | programs/octasol_contract/src/context/complete.rs:5-41 | applies `CompleteBounty` all-or-nothing and keeps the invariant |
| Ledger.ProgramLedger.CancelBounty | programs/octasol_contract/src/context/cancel.rs:5-39 | applies `CancelBounty` all-or-nothing and keeps the invariant |
| Ledger.ProgramLedger.AdminAssignAndRelease | programs/octasol_contract/src/context/admin_ops.rs:5-56 | applies `AdminAssignAndRelease` all-or-nothing and keeps the invariant |

## Left out

- Handler bodies: programs/octasol_contract/src/lib.rs holds only a stub. The model does not cover token transfers (deposit into escrow, payout, refund) or the closing of the escrow token account. Token balances therefore never change, and the escrow's rent deposit is never returned.
- UpdateAdminInstruction.UpdateAdmin: any validation of `new_admin` would belong to the absent handler, so every key is accepted as the new admin.
- Events (programs/octasol_contract/src/util/events.rs) are log payloads with no emitting code; they are not modelled.
- `Program<...>` and `Sysvar<...>` accounts and the `address = anchor_spl::token::ID` check in cancel.rs:37: the model has no program accounts.
- `mut` (writability) is not modelled. Each instruction's effects are confined to the accounts it names, and those are the accounts marked `mut`.
- Creating an `init` account at an address that already holds lamports but no data is not modelled. The runtime tops such an account up. Here any account at the address is "in use".
- Bump search: the canonical bump of every derived address is 255. The off-curve check that can make the runtime try lower bumps is part of the foreign address hash.
- Runtime errors are named, not numbered. The framework's and the system program's numeric codes are not modelled.
- Transaction fees, and the runtime rule that refuses a transaction leaving a payer wallet with some lamports but fewer than its rent-exempt minimum: the only funding condition modelled is that the payer holds the deposit.
- Signature verification: a transaction's signers are given as a set of keys.
- The clock: the `created_at` timestamp is a parameter.
- Rent: the default schedule as an integer formula (overhead 128 bytes, 3480 lamports per byte-year, two years). The runtime computes it in floating point.
- `bounty.mint` and `bounty.bump`, read by admin_ops.rs, are parameters (`AdminAssignAndReleaseInstruction.MissingFields`). The bounty record lacks them, so the source as written does not compile against it.
- Framework and runtime error names are approximate. A token-program account of the wrong kind is reported as `AccountDidNotDeserialize`, where the token loaders raise a generic invalid-account-data error. An account of another owner is reported as `AccountOwnedByWrongProgram`, including a system account without lamports, which the framework reports as not initialized. An underfunded payer is reported as `InsufficientLamports`, where the system program reports a negative-lamports result. Which check fails first is modelled; the exact error value is not.
- Account data is kept as typed records. The full byte layout is modelled only through sizes and the `Option<u64>` encoding.
