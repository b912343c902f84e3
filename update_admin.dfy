/** `UpdateAdmin` (programs/octasol_contract/src/context/update_admin.rs): the
    current admin, signing, replaces the admin key of the configuration
    singleton. Only the configuration account changes. */
module UpdateAdminInstruction {
  import opened Addresses
  import opened Errors
  import opened Accounts
  import ConfigRecord

  /** The accounts the instruction is given, in declaration order. */
  datatype UpdateAdminAccounts = UpdateAdminAccounts(admin: Address, config: Address)

  /** Whether the accounts pass every check against store `s`. */
  ghost predicate Authorized(s: Store, acc: UpdateAdminAccounts, signers: set<Address>)
  {
    acc.admin in signers
    && acc.config in s && s[acc.config].data.ConfigData?
    && acc.config == ConfigAddress()
    && s[acc.config].data.config.admin == acc.admin
  }

  /** The instruction on store `s`; the (absent) handler is assumed to store
      `newAdmin` as the admin and nothing else. */
  function UpdateAdmin(s: Store, acc: UpdateAdminAccounts, signers: set<Address>, newAdmin: Address): (r: Result<Store>)
    ensures r.Ok? <==> Authorized(s, acc, signers)
    ensures acc.admin !in signers ==> r == Err(Framework(AccountNotSigner))
    ensures acc.admin in signers && acc.config !in s ==> r == Err(Framework(AccountNotInitialized))
    ensures acc.admin in signers && acc.config in s && s[acc.config].data.ConfigData? && acc.config != ConfigAddress()
            ==> r == Err(Framework(ConstraintSeeds))
    ensures acc.admin in signers && acc.config in s && s[acc.config].data.ConfigData? && acc.config == ConfigAddress()
            && s[acc.config].data.config.admin != acc.admin
            ==> r == Err(Framework(ConstraintHasOne))
    ensures r.Ok? ==>
      && acc.config in r.value && r.value[acc.config].data.ConfigData?
      && r.value[acc.config].data.config.admin == newAdmin
      && r.value[acc.config].data.config.bump == s[acc.config].data.config.bump
      && r.value[acc.config].lamports == s[acc.config].lamports
      && SameExcept(s, r.value, {acc.config})
  {
    // loading, in declaration order
    var admin :- CheckSigner(signers, acc.admin);
    var config :- LoadConfig(s, acc.config);
    // constraints of `config`: its seeds, then `has_one = admin`
    :- Need(acc.config == ConfigAddress(), Framework(ConstraintSeeds));
    :- Need(config.admin == admin, Framework(ConstraintHasOne));
    Ok(s[acc.config := s[acc.config].(data := ConfigData(config.(admin := newAdmin)))])
  }

  /** A handover is complete: after the admin hands the role to another key,
      the previous admin can no longer update it, and the new admin can. */
  lemma {:induction false} HandoverRevokesPreviousAdmin(
    s: Store, acc: UpdateAdminAccounts, signers: set<Address>, newAdmin: Address,
    signers2: set<Address>, next: Address)
    requires UpdateAdmin(s, acc, signers, newAdmin).Ok?
    requires newAdmin != acc.admin
    requires acc.admin in signers2
    ensures UpdateAdmin(UpdateAdmin(s, acc, signers, newAdmin).value, acc, signers2, next)
            == Err(Framework(ConstraintHasOne))
    ensures newAdmin in signers2 ==>
      UpdateAdmin(UpdateAdmin(s, acc, signers, newAdmin).value, UpdateAdminAccounts(newAdmin, acc.config), signers2, next).Ok?
  {
    var t := UpdateAdmin(s, acc, signers, newAdmin).value;
    assert acc.config in t && t[acc.config].data.config.admin == newAdmin;
  }

  lemma UpdateAdminKeepsInvariant(s: Store, acc: UpdateAdminAccounts, signers: set<Address>, newAdmin: Address)
    requires Invariant(s)
    ensures UpdateAdmin(s, acc, signers, newAdmin).Ok? ==> Invariant(UpdateAdmin(s, acc, signers, newAdmin).value)
  {
    if UpdateAdmin(s, acc, signers, newAdmin).Ok? {
      var t := UpdateAdmin(s, acc, signers, newAdmin).value;
      forall a | a in t && a != acc.config
        ensures a in s && t[a] == s[a]
      {
      }
    }
  }
}
