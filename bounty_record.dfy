/** The bounty record of programs/octasol_contract/src/state/bounty.rs and the
    space its account is allocated. Records are stored in the framework's
    binary layout: an 8-byte discriminator, then the fields in declaration
    order, an `Option` as a one-byte tag followed by the value when present,
    an enum as its one-byte variant index. */
module BountyRecord {
  import opened Numeric
  import opened Wrappers
  import opened Addresses

  /** `BountyState`. */
  datatype BountyState = Created | InProgress | Completed | Cancelled

  /** `Bounty`, field for field. */
  datatype Bounty = Bounty(
    maintainer: Address,
    contributor: Option<Address>,
    amount: U64,
    state: BountyState,
    bountyId: U64,
    githubIssueId: U64,
    maintainerGithubId: U64,
    contributorGithubId: Option<U64>,
    createdAt: I64)

  const U64_LEN: nat := 8
  const I64_LEN: nat := 8
  const ENUM_TAG_LEN: nat := 1

  /** `Bounty::LEN`: the space a bounty account is allocated. */
  const LEN: nat :=
    8 +   // discriminator
    32 +  // maintainer pubkey
    33 +  // contributor option pubkey
    8 +   // amount
    1 +   // state
    8 +   // bounty_id
    8 +   // github_issue_id
    8 +   // maintainer_github_id
    9 +   // contributor_github_id option
    8     // created_at

  lemma LenValue()
    ensures LEN == 123
  {
  }

  /** The serialized variant index of a state. */
  function StateTag(s: BountyState): (t: Byte)
    ensures t < 4
    ensures StateFromTag(t) == Some(s)
  {
    match s
    case Created => 0
    case InProgress => 1
    case Completed => 2
    case Cancelled => 3
  }

  /** The state a variant index denotes; indices from 4 on denote none. */
  function StateFromTag(t: Byte): (r: Option<BountyState>)
    ensures r.Some? <==> t < 4
  {
    if t == 0 then Some(Created)
    else if t == 1 then Some(InProgress)
    else if t == 2 then Some(Completed)
    else if t == 3 then Some(Cancelled)
    else None
  }

  /** The four states are distinct: distinct states have distinct tags. */
  lemma StateTagInjective(s1: BountyState, s2: BountyState)
    ensures StateTag(s1) == StateTag(s2) <==> s1 == s2
  {
    assert StateFromTag(StateTag(s1)) == Some(s1);
    assert StateFromTag(StateTag(s2)) == Some(s2);
  }

  /** Serialized size of an `Option` whose payload takes `inner` bytes. */
  function OptionSize<T>(o: Option<T>, inner: nat): (n: nat)
    ensures n <= 1 + inner
    ensures n == 1 + inner <==> o.Some? || inner == 0
  {
    if o.Some? then 1 + inner else 1
  }

  /** Serialized size of a bounty's fields (without the discriminator). */
  function SerializedSize(b: Bounty): (n: nat)
    ensures DISCRIMINATOR_LEN + n <= LEN
    ensures DISCRIMINATOR_LEN + n == LEN <==> b.contributor.Some? && b.contributorGithubId.Some?
    ensures DISCRIMINATOR_LEN + n >= LEN - PUBKEY_LEN - U64_LEN
  {
    PUBKEY_LEN
    + OptionSize(b.contributor, PUBKEY_LEN)
    + U64_LEN
    + ENUM_TAG_LEN
    + U64_LEN
    + U64_LEN
    + U64_LEN
    + OptionSize(b.contributorGithubId, U64_LEN)
    + I64_LEN
  }

  /** An `Option<u64>` field in its serialized form. */
  function EncodeOptionU64(o: Option<U64>): (r: seq<Byte>)
    ensures |r| == OptionSize(o, U64_LEN)
  {
    match o
    case None => [0]
    case Some(v) => [1] + ToLeBytes(v)
  }

  /** Reads an `Option<u64>` from the front of `s`, returning it and the rest. */
  function DecodeOptionU64(s: seq<Byte>): (r: Option<(Option<U64>, seq<Byte>)>)
    ensures r.Some? ==> |r.value.1| < |s|
  {
    if |s| == 0 then None
    else if s[0] == 0 then Some((None, s[1..]))
    else if s[0] == 1 && |s| >= 9 then
      (LeBytesOnto(s[1..9]);
       Some((Some(FromLeBytes(s[1..9])), s[9..])))
    else None
  }

  /** Decoding an encoded `Option<u64>` gives it back and leaves what follows. */
  lemma OptionU64RoundTrip(o: Option<U64>, rest: seq<Byte>)
    ensures DecodeOptionU64(EncodeOptionU64(o) + rest) == Some((o, rest))
  {
    var s := EncodeOptionU64(o) + rest;
    match o
    case None =>
      assert s[1..] == rest;
    case Some(v) =>
      assert s[1..9] == ToLeBytes(v);
      assert s[9..] == rest;
      LeBytesRoundTrip(v);
  }

  /** Conversely, whatever decodes was the encoding of the decoded value
      followed by the remaining bytes. */
  lemma DecodeOptionU64Exact(s: seq<Byte>)
    requires DecodeOptionU64(s).Some?
    ensures s == EncodeOptionU64(DecodeOptionU64(s).value.0) + DecodeOptionU64(s).value.1
  {
    if s[0] == 1 {
      LeBytesOnto(s[1..9]);
      assert s == [1] + s[1..9] + s[9..];
    } else {
      assert s == [0] + s[1..];
    }
  }
}
