/** The block data the light client works on, and how it is hashed. */
module Types {
  import opened Common
  import opened Merkle

  /** Heights are 64-bit but kept within the positive `i64` range. */
  type Height = h: nat | h <= I64_MAX

  /** The next height; the source panics when there is none. */
  function Increment(h: Height): Height
    requires h < I64_MAX
  {
    h + 1
  }

  /** Account addresses, as big-endian numbers (the source orders their bytes). */
  type Address = nat
  type PubKey = nat
  type Signature = seq<Byte>
  type ChainId = string

  const NANOS_PER_SECOND: nat := 1_000_000_000

  /** The last nanosecond of the year 9999, counted from the start of the year 1. */
  const MAX_TIME: nat := 315_537_897_600 * NANOS_PER_SECOND - 1

  /** Timestamps are confined to the years 1 to 9999. */
  type Time = t: nat | t <= MAX_TIME
  type Duration = nat

  function AddDuration(t: Time, d: Duration): Option<Time> {
    if t + d <= MAX_TIME then Some(t + d) else None
  }

  function SubDuration(t: Time, d: Duration): Option<Time> {
    if d <= t then Some(t - d) else None
  }

  datatype Hash = Sha256(bytes: Digest) | NoHash

  datatype PartSetHeader = PartSetHeader(total: nat, hash: Hash)

  datatype BlockId = BlockId(hash: Hash, partSetHeader: PartSetHeader)

  const DEFAULT_BLOCK_ID := BlockId(NoHash, PartSetHeader(0, NoHash))

  datatype Version = Version(block: U64, app: U64)

  datatype Header = Header(
    version: Version,
    chainId: ChainId,
    height: Height,
    time: Time,
    lastBlockId: Option<BlockId>,
    lastCommitHash: Option<Hash>,
    dataHash: Option<Hash>,
    validatorsHash: Hash,
    nextValidatorsHash: Hash,
    consensusHash: Hash,
    appHash: seq<Byte>,
    lastResultsHash: Option<Hash>,
    evidenceHash: Option<Hash>,
    proposerAddress: Address)

  /** Some hash of headers, for code that does not depend on which. */
  type HashFn = Header -> Hash

  /** The kinds of value that are encoded into leaves of the header's Merkle tree. */
  datatype Field =
    | VersionField(version: Version)
    | ChainIdField(chainId: ChainId)
    | HeightField(height: Height)
    | TimeField(time: Time)
    | BlockIdField(blockId: BlockId)
    | HashField(hash: Hash)
    | BytesField(bytes: seq<Byte>)
    | AddressField(address: Address)

  predicate SameKind(f: Field, g: Field) {
    match f
    case VersionField(_) => g.VersionField?
    case ChainIdField(_) => g.ChainIdField?
    case HeightField(_) => g.HeightField?
    case TimeField(_) => g.TimeField?
    case BlockIdField(_) => g.BlockIdField?
    case HashField(_) => g.HashField?
    case BytesField(_) => g.BytesField?
    case AddressField(_) => g.AddressField?
  }

  /** What a validator contributes to the Merkle tree of its set: no address, no priority. */
  datatype SimpleValidator = SimpleValidator(pubKey: PubKey, power: nat)

  datatype VoteType = Prevote | Precommit

  datatype CanonicalVote = CanonicalVote(
    voteType: VoteType,
    height: Height,
    round: nat,
    blockId: Option<BlockId>,
    timestamp: Option<Time>,
    chainId: ChainId)

  datatype SignedVote = SignedVote(vote: CanonicalVote, validatorAddress: Address, signature: Signature)

  /** The cryptography and the wire encodings, which the source takes from libraries. */
  datatype Crypto = Crypto(
    digest: DigestFn,
    encodeField: Field -> seq<Byte>,
    encodeValidator: SimpleValidator -> seq<Byte>,
    signBytes: CanonicalVote -> seq<Byte>,
    verifies: (PubKey, seq<Byte>, Signature) -> bool)

  /** Different values of one kind never encode alike. */
  ghost predicate EncodesFaithfully(c: Crypto) {
    && (forall f, g :: SameKind(f, g) && c.encodeField(f) == c.encodeField(g) ==> f == g)
    && (forall v, w :: c.encodeValidator(v) == c.encodeValidator(w) ==> v == w)
  }

  function UnwrapOr<T>(o: Option<T>, default: T): T {
    if o.Some? then o.value else default
  }

  function HeaderFields(h: Header): (fs: seq<Field>)
    ensures |fs| == 14
  {
    [ VersionField(h.version),
      ChainIdField(h.chainId),
      HeightField(h.height),
      TimeField(h.time),
      BlockIdField(UnwrapOr(h.lastBlockId, DEFAULT_BLOCK_ID)),
      HashField(UnwrapOr(h.lastCommitHash, NoHash)),
      HashField(UnwrapOr(h.dataHash, NoHash)),
      HashField(h.validatorsHash),
      HashField(h.nextValidatorsHash),
      HashField(h.consensusHash),
      BytesField(h.appHash),
      HashField(UnwrapOr(h.lastResultsHash, NoHash)),
      HashField(UnwrapOr(h.evidenceHash, NoHash)),
      AddressField(h.proposerAddress)
    ]
  }

  function HeaderLeaves(c: Crypto, h: Header): (leaves: seq<seq<Byte>>)
    ensures |leaves| == 14
  {
    var fs := HeaderFields(h);
    seq(|fs|, i requires 0 <= i < |fs| => c.encodeField(fs[i]))
  }

  /** The hash, or the empty one where there is none. */
  function GivenOrNone(o: Option<Hash>): Hash {
    match o
    case None => NoHash
    case Some(hash) => hash
  }

  /** The leaves are the header's fields in the order of the header. */
  lemma LeavesInOrder(c: Crypto, h: Header)
    ensures var leaves := HeaderLeaves(c, h);
            && leaves[0] == c.encodeField(VersionField(h.version))
            && leaves[1] == c.encodeField(ChainIdField(h.chainId))
            && leaves[2] == c.encodeField(HeightField(h.height))
            && leaves[3] == c.encodeField(TimeField(h.time))
            && leaves[4] == c.encodeField(BlockIdField(if h.lastBlockId.Some? then h.lastBlockId.value
                                                       else BlockId(NoHash, PartSetHeader(0, NoHash))))
            && leaves[5] == c.encodeField(HashField(GivenOrNone(h.lastCommitHash)))
            && leaves[6] == c.encodeField(HashField(GivenOrNone(h.dataHash)))
            && leaves[7] == c.encodeField(HashField(h.validatorsHash))
            && leaves[8] == c.encodeField(HashField(h.nextValidatorsHash))
            && leaves[9] == c.encodeField(HashField(h.consensusHash))
            && leaves[10] == c.encodeField(BytesField(h.appHash))
            && leaves[11] == c.encodeField(HashField(GivenOrNone(h.lastResultsHash)))
            && leaves[12] == c.encodeField(HashField(GivenOrNone(h.evidenceHash)))
            && leaves[13] == c.encodeField(AddressField(h.proposerAddress))
  {
  }

  function HeaderHash(c: Crypto, h: Header): Hash {
    Sha256(Root(c.digest, HeaderLeaves(c, h)))
  }

  /** The list of encoded fields, and the hasher on it. */
  method HashHeader(c: Crypto, h: Header) returns (hash: Hash)
    ensures hash == HeaderHash(c, h)
  {
    var fieldsBytes := [
      c.encodeField(VersionField(h.version)),
      c.encodeField(ChainIdField(h.chainId)),
      c.encodeField(HeightField(h.height)),
      c.encodeField(TimeField(h.time)),
      c.encodeField(BlockIdField(UnwrapOr(h.lastBlockId, DEFAULT_BLOCK_ID))),
      c.encodeField(HashField(UnwrapOr(h.lastCommitHash, NoHash))),
      c.encodeField(HashField(UnwrapOr(h.dataHash, NoHash))),
      c.encodeField(HashField(h.validatorsHash)),
      c.encodeField(HashField(h.nextValidatorsHash)),
      c.encodeField(HashField(h.consensusHash)),
      c.encodeField(BytesField(h.appHash)),
      c.encodeField(HashField(UnwrapOr(h.lastResultsHash, NoHash))),
      c.encodeField(HashField(UnwrapOr(h.evidenceHash, NoHash))),
      c.encodeField(AddressField(h.proposerAddress))];
    assert fieldsBytes == HeaderLeaves(c, h);
    var hasher := new IncrementalHasher(c.digest);
    var root := hasher.HashByteVectors(fieldsBytes);
    return Sha256(root);
  }

  /** The header with every absent optional field replaced by the default that is hashed for it. */
  function Canonical(h: Header): Header {
    h.(lastBlockId := Some(UnwrapOr(h.lastBlockId, DEFAULT_BLOCK_ID)),
       lastCommitHash := Some(UnwrapOr(h.lastCommitHash, NoHash)),
       dataHash := Some(UnwrapOr(h.dataHash, NoHash)),
       lastResultsHash := Some(UnwrapOr(h.lastResultsHash, NoHash)),
       evidenceHash := Some(UnwrapOr(h.evidenceHash, NoHash)))
  }

  function HeaderInputs(c: Crypto, h: Header): set<seq<Byte>> {
    Inputs(c.digest, HeaderLeaves(c, h))
  }

  lemma SameFieldsSameCanonical(a: Header, b: Header)
    ensures HeaderFields(a) == HeaderFields(b) <==> Canonical(a) == Canonical(b)
  {
    var fa, fb := HeaderFields(a), HeaderFields(b);
    if fa == fb {
      assert fa[0] == fb[0] && fa[1] == fb[1] && fa[2] == fb[2] && fa[3] == fb[3];
      assert fa[4] == fb[4] && fa[5] == fb[5] && fa[6] == fb[6] && fa[7] == fb[7];
      assert fa[8] == fb[8] && fa[9] == fb[9] && fa[10] == fb[10] && fa[11] == fb[11];
      assert fa[12] == fb[12] && fa[13] == fb[13];
    }
  }

  lemma SameLeavesSameFields(c: Crypto, a: Header, b: Header)
    requires EncodesFaithfully(c)
    ensures HeaderLeaves(c, a) == HeaderLeaves(c, b) <==> HeaderFields(a) == HeaderFields(b)
  {
    var fa, fb := HeaderFields(a), HeaderFields(b);
    var la, lb := HeaderLeaves(c, a), HeaderLeaves(c, b);
    if la == lb {
      forall i | 0 <= i < 14
        ensures fa[i] == fb[i]
      {
        assert la[i] == c.encodeField(fa[i]) && lb[i] == c.encodeField(fb[i]);
        assert SameKind(fa[i], fb[i]);
      }
    }
  }

  /**
   The header hash names a header up to the defaults filled in for absent
   fields, in both directions, wherever the digest does not collide.
   */
  lemma HeaderHashNamesHeader(c: Crypto, domain: set<seq<Byte>>, a: Header, b: Header)
    requires EncodesFaithfully(c) && CollisionFreeOn(c.digest, domain)
    requires HeaderInputs(c, a) <= domain && HeaderInputs(c, b) <= domain
    ensures HeaderHash(c, a) == HeaderHash(c, b) <==> Canonical(a) == Canonical(b)
  {
    RootBinds(c.digest, domain, HeaderLeaves(c, a), HeaderLeaves(c, b));
    SameLeavesSameFields(c, a, b);
    SameFieldsSameCanonical(a, b);
  }
}
