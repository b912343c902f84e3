/** The configuration record of programs/octasol_contract/src/state/config.rs:
    the single key authorized for the protected instructions. */
module ConfigRecord {
  import opened Numeric
  import opened Addresses

  /** `ConfigState`. */
  datatype ConfigState = ConfigState(admin: Address, bump: Byte)

  const BUMP_LEN: nat := 1

  /** `ConfigState::LEN`: discriminator, admin key, bump. */
  const LEN: nat := 8 + 32 + 1

  lemma LenValue()
    ensures LEN == 41
    ensures LEN == DISCRIMINATOR_LEN + PUBKEY_LEN + BUMP_LEN
  {
  }

  /** Serialized size of a configuration record's fields: fixed, because the
      record has no optional field, and exactly what `LEN` reserves. */
  function SerializedSize(c: ConfigState): (n: nat)
    ensures DISCRIMINATOR_LEN + n == LEN
  {
    PUBKEY_LEN + BUMP_LEN
  }
}
