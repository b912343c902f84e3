/** `InitializeConfig` (programs/octasol_contract/src/context/config.rs):
    creates the configuration singleton at the address derived from
    `b"config"`, paid for by the signing admin, who becomes the first admin. */
module InitializeConfigInstruction {
  import opened Addresses
  import opened Errors
  import opened Accounts
  import ConfigRecord

  /** The accounts the instruction is given, in declaration order. */
  datatype InitializeConfigAccounts = InitializeConfigAccounts(admin: Address, config: Address)

  /** The record the (absent) handler is assumed to write: the signer as
      admin and the canonical bump of the configuration address. */
  function FirstConfig(admin: Address): (c: ConfigRecord.ConfigState)
    ensures c.admin == admin
    ensures ConfigAddress() == CreateProgramAddress([Literal(CONFIG_SEED)], c.bump)
  {
    ConfigRecord.ConfigState(admin, CanonicalBump([Literal(CONFIG_SEED)]))
  }

  /** The instruction on store `s`: the new store, or the first failing check. */
  function InitializeConfig(s: Store, acc: InitializeConfigAccounts, signers: set<Address>): (r: Result<Store>)
    ensures r.Ok? <==>
      acc.admin in signers && acc.config == ConfigAddress() && ConfigAddress() !in s
      && MinimumBalance(ConfigRecord.LEN) <= Lamports(s, acc.admin)
    ensures acc.admin !in signers ==> r == Err(Framework(AccountNotSigner))
    ensures acc.admin in signers && acc.config != ConfigAddress() ==> r == Err(Framework(ConstraintSeeds))
    ensures acc.admin in signers && acc.config == ConfigAddress() && ConfigAddress() in s
            ==> r == Err(Runtime(AccountAlreadyInUse))
    ensures acc.admin in signers && acc.config == ConfigAddress() && ConfigAddress() !in s
            && Lamports(s, acc.admin) < MinimumBalance(ConfigRecord.LEN)
            ==> r == Err(Runtime(InsufficientLamports))
    ensures r.Ok? ==>
      && ConfigAddress() in r.value
      && r.value[ConfigAddress()] == Account(MinimumBalance(ConfigRecord.LEN), ConfigData(FirstConfig(acc.admin)))
      && Lamports(r.value, acc.admin) == Lamports(s, acc.admin) - MinimumBalance(ConfigRecord.LEN)
      && SameExcept(s, r.value, {acc.admin, ConfigAddress()})
      && acc.admin in s && acc.admin in r.value && r.value[acc.admin].data == s[acc.admin].data
  {
    // loading, in declaration order: `admin` must sign; `config` is `init`
    var admin :- CheckSigner(signers, acc.admin);
    // `init` of `config`: its seeds, then an account of `LEN` bytes paid by `admin`
    :- Need(acc.config == ConfigAddress(), Framework(ConstraintSeeds));
    CreateAccount(s, admin, acc.config, ConfigRecord.LEN, ConfigData(FirstConfig(admin)))
  }

  /** Once the configuration exists, no call creates another or changes it:
      a second `InitializeConfig` always fails. */
  lemma {:induction false} SecondInitializeConfigFails(
    s: Store, acc1: InitializeConfigAccounts, signers1: set<Address>,
    acc2: InitializeConfigAccounts, signers2: set<Address>)
    requires InitializeConfig(s, acc1, signers1).Ok?
    ensures InitializeConfig(InitializeConfig(s, acc1, signers1).value, acc2, signers2).Err?
  {
    assert ConfigAddress() in InitializeConfig(s, acc1, signers1).value;
  }

  lemma InitializeConfigKeepsInvariant(s: Store, acc: InitializeConfigAccounts, signers: set<Address>)
    requires Invariant(s)
    ensures InitializeConfig(s, acc, signers).Ok? ==> Invariant(InitializeConfig(s, acc, signers).value)
  {
    if InitializeConfig(s, acc, signers).Ok? {
      var t := InitializeConfig(s, acc, signers).value;
      forall a | a in t && a != ConfigAddress() && a != acc.admin
        ensures a in s && t[a] == s[a]
      {
      }
    }
  }
}
