/** Account addresses and their deterministic derivation.

    Program-derived addresses (hashing the seeds with the program id and a
    bump, then checking the result is off the curve) and associated token
    addresses are computed by the runtime and the associated-token program.
    Here each kind of derivation is a constructor of `Address`, so it is
    injective by construction and distinct kinds never collide. */
module Addresses {
  import opened Numeric

  /** One seed of a program-derived address: literal bytes, or the 32-byte
      key of another account (`bounty.key().as_ref()`). */
  datatype Seed = Literal(bytes: seq<Byte>) | KeyOf(key: Address)

  datatype Address =
    | Key(id: nat)                                     // an address held by a keypair: wallets, mints
    | ProgramDerived(seeds: seq<Seed>, bump: Byte)     // derived from this program's id, the seeds and a bump
    | AssociatedToken(wallet: Address, mint: Address)  // the canonical token account of (wallet, mint)

  /** Bytes of a serialized key, and of the discriminator every record of
      this program starts with. */
  const PUBKEY_LEN: nat := 32
  const DISCRIMINATOR_LEN: nat := 8

  const CONFIG_SEED: seq<Byte> := [0x63, 0x6f, 0x6e, 0x66, 0x69, 0x67]  // b"config"
  const BOUNTY_SEED: seq<Byte> := [0x62, 0x6f, 0x75, 0x6e, 0x74, 0x79]  // b"bounty"
  const ESCROW_AUTH_SEED: seq<Byte> :=                                     // b"escrow_auth"
    [0x65, 0x73, 0x63, 0x72, 0x6f, 0x77, 0x5f, 0x61, 0x75, 0x74, 0x68]

  /** The bump the runtime's search settles on for a seed list. The search
      itself is foreign; the model takes the first candidate, 255. */
  function CanonicalBump(seeds: seq<Seed>): Byte
  {
    255
  }

  /** The address `seeds = [...], bump` (without a value) designates. */
  function FindProgramAddress(seeds: seq<Seed>): (r: Address)
    ensures r.ProgramDerived? && r.seeds == seeds
  {
    ProgramDerived(seeds, CanonicalBump(seeds))
  }

  /** The address `seeds = [...], bump = b` designates. */
  function CreateProgramAddress(seeds: seq<Seed>, bump: Byte): (r: Address)
    ensures r.ProgramDerived? && r.seeds == seeds && r.bump == bump
  {
    ProgramDerived(seeds, bump)
  }

  /** The configuration singleton's address, from `seeds = [b"config"]`. */
  function ConfigAddress(): (r: Address)
    ensures r.ProgramDerived? && r.seeds == [Literal(CONFIG_SEED)]
  {
    FindProgramAddress([Literal(CONFIG_SEED)])
  }

  /** The seeds `[b"bounty", bounty_id.to_le_bytes()]`. */
  function BountySeeds(bountyId: U64): (r: seq<Seed>)
    ensures |r| == 2 && r[0] == Literal(BOUNTY_SEED)
    ensures r[1].Literal? && |r[1].bytes| == 8 && FromLeBytes(r[1].bytes) == bountyId
  {
    LeBytesRoundTrip(bountyId);
    [Literal(BOUNTY_SEED), Literal(ToLeBytes(bountyId))]
  }

  /** A bounty's address. */
  function BountyAddress(bountyId: U64): (r: Address)
    ensures r.ProgramDerived? && r.seeds == BountySeeds(bountyId) && r.bump == CanonicalBump(r.seeds)
    ensures r != ConfigAddress()
  {
    FindProgramAddress(BountySeeds(bountyId))
  }

  /** The escrow authority `seeds = [b"escrow_auth", bounty.key()], bump = b`. */
  function EscrowAuthorityAddress(bounty: Address, bump: Byte): (r: Address)
    ensures r.ProgramDerived? && r.bump == bump
    ensures r.seeds == [Literal(ESCROW_AUTH_SEED), KeyOf(bounty)]
    ensures r != bounty
  {
    var seeds := [Literal(ESCROW_AUTH_SEED), KeyOf(bounty)];
    assert seeds[1] == KeyOf(bounty);
    CreateProgramAddress(seeds, bump)
  }

  /** The associated token account of `wallet` for `mint`. */
  function AssociatedTokenAddress(wallet: Address, mint: Address): Address
  {
    AssociatedToken(wallet, mint)
  }

  /** At most one bounty address per id, and one id per bounty address. */
  lemma BountyAddressInjective(x: U64, y: U64)
    ensures BountyAddress(x) == BountyAddress(y) <==> x == y
  {
    if BountyAddress(x) == BountyAddress(y) {
      assert BountySeeds(x)[1] == BountySeeds(y)[1];
      LeBytesInjective(x, y);
    }
  }

  /** An address is a bounty address exactly when it is derived from
      `[b"bounty", eight bytes]` with the canonical bump; the id is then the
      little-endian value of the bytes. */
  lemma BountyAddressOnto(a: Address)
    requires a.ProgramDerived? && |a.seeds| == 2 && a.seeds[0] == Literal(BOUNTY_SEED)
    requires a.seeds[1].Literal? && |a.seeds[1].bytes| == 8
    requires a.bump == CanonicalBump(a.seeds)
    ensures FromLeBytes(a.seeds[1].bytes) < U64_LIMIT
    ensures BountyAddress(FromLeBytes(a.seeds[1].bytes)) == a
  {
    LeBytesOnto(a.seeds[1].bytes);
  }

  /** The three derivation labels give pairwise distinct addresses: the
      configuration, any bounty and any escrow authority never coincide. */
  lemma DerivedAddressesDistinct(id: U64, bounty: Address, bump: Byte)
    ensures ConfigAddress() != BountyAddress(id)
    ensures ConfigAddress() != EscrowAuthorityAddress(bounty, bump)
    ensures BountyAddress(id) != EscrowAuthorityAddress(bounty, bump)
  {
    assert BOUNTY_SEED[0] != ESCROW_AUTH_SEED[0];
  }

  /** An escrow authority is never the bounty it is derived from, so a token
      account whose authority is the bounty is never one whose authority is
      the bounty's escrow authority. */
  lemma EscrowAuthorityIsNotTheBounty(bounty: Address, bump: Byte, mint: Address)
    ensures EscrowAuthorityAddress(bounty, bump) != bounty
    ensures AssociatedTokenAddress(EscrowAuthorityAddress(bounty, bump), mint)
         != AssociatedTokenAddress(bounty, mint)
  {
    var seeds := [Literal(ESCROW_AUTH_SEED), KeyOf(bounty)];
    assert seeds[1] == KeyOf(bounty);
  }
}
