/** Where every run starts: the trusted block a light client is built with. */
module Builder {
  import opened Common
  import opened Types
  import opened Blocks
  import opened Validators
  import opened Verifier
  import opened LightStores
  import opened LightClient

  datatype BuilderError =
    | BuilderIo(io: IoError)
    | HeightMismatch(given: Height, found: Height)
    | HashMismatch(givenHash: Hash, foundHash: Hash)
    | InvalidTrustedBlock(error: VerificationError)

  /** The checks made on a block before it is trusted. */
  function Validate(c: Crypto, o: Options, now: Time, b: LightBlock): Check {
    var header := b.Header();
    var inPeriod := IsWithinTrustPeriod(header.time, o.trustingPeriod, now);
    if inPeriod.Err? then inPeriod else
    var past := IsHeaderFromPast(header.time, o.clockDrift, now);
    if past.Err? then past else
    var current := ValidatorSetsMatch(c, b.validators, header.validatorsHash);
    if current.Err? then current else
    NextValidatorsMatch(c, b.nextValidators, header.nextValidatorsHash)
  }

  /** Trusts the given block, if it passes validation, in the given store. */
  function TrustLightBlock(c: Crypto, cl: Client, st: State, b: LightBlock): Result<State, BuilderError> {
    match Validate(c, cl.options, cl.clock(st.tick), b)
    case Err(e) => Err(InvalidTrustedBlock(e))
    case Ok(_) => Ok(State(Insert(st.store, b, Trusted), map[], st.tick + 1))
  }

  /** Trusts the primary's block at a height, if it has the given hash and passes validation. */
  function TrustPrimaryAt(c: Crypto, cl: Client, st: State, height: Height, hash: Hash): Result<State, BuilderError> {
    match cl.fetch(st.tick, height)
    case Err(e) => Err(BuilderIo(e))
    case Ok(b) =>
      if b.Height() != height then Err(HeightMismatch(height, b.Height()))
      else if HeaderHash(c, b.Header()) != hash then Err(HashMismatch(hash, HeaderHash(c, b.Header())))
      else TrustLightBlock(c, cl, st, b)
  }

  /** The checks pass exactly if the block is recent, not from the future, and its sets are those of its header. */
  lemma ValidateIff(c: Crypto, o: Options, now: Time, b: LightBlock)
    ensures Validate(c, o, now, b).Ok? <==>
            && now < b.Time() + o.trustingPeriod <= MAX_TIME
            && b.Time() < now + o.clockDrift <= MAX_TIME
            && b.Header().validatorsHash == HashOf(c, b.validators.validators)
            && b.Header().nextValidatorsHash == HashOf(c, b.nextValidators.validators)
  {
  }

  /** Why a block does not pass. */
  lemma ValidateErrorIs(c: Crypto, o: Options, now: Time, b: LightBlock)
    requires Validate(c, o, now, b).Err?
    ensures var header, expiry, latest := b.Header(), b.Time() + o.trustingPeriod, now + o.clockDrift;
            var recent := now < expiry <= MAX_TIME;
            var past := b.Time() < latest <= MAX_TIME;
            match Validate(c, o, now, b).error
            case TimeOutOfRange => expiry > MAX_TIME || (recent && latest > MAX_TIME)
            case NotWithinTrustPeriod(expiresAt, at) => expiresAt == expiry <= MAX_TIME && expiry <= now == at
            case HeaderFromTheFuture(time, at, drift) =>
              recent && latest <= MAX_TIME && time == b.Time() >= latest && at == now && drift == o.clockDrift
            case InvalidValidatorSet(named, found) =>
              recent && past && named == header.validatorsHash != found == HashOf(c, b.validators.validators)
            case InvalidNextValidatorSet(named, found) =>
              && recent && past && header.validatorsHash == HashOf(c, b.validators.validators)
              && named == header.nextValidatorsHash != found == HashOf(c, b.nextValidators.validators)
            case _ => false
  {
  }

  /** A client is built from the primary exactly if its block has the given height and hash and passes. */
  lemma TrustPrimaryIs(c: Crypto, cl: Client, st: State, height: Height, hash: Hash)
    ensures var r, f := TrustPrimaryAt(c, cl, st, height, hash), cl.fetch(st.tick, height);
            if f.Err? then r == Err(BuilderIo(f.error))
            else if f.value.Height() != height then r == Err(HeightMismatch(height, f.value.Height()))
            else if HeaderHash(c, f.value.Header()) != hash then
              r == Err(HashMismatch(hash, HeaderHash(c, f.value.Header())))
            else if Validate(c, cl.options, cl.clock(st.tick), f.value).Err? then
              r == Err(InvalidTrustedBlock(Validate(c, cl.options, cl.clock(st.tick), f.value).error))
            else
              && r.Ok? && r.value.store == st.store[height := StoreEntry(f.value, Trusted)]
              && r.value.trace == map[]
  {
  }

  const EMPTY_STATE := State(map[], map[], 0)

  /** A built client knows one block, the trusted one, and its validator sets match its header. */
  lemma BuiltStateIff(c: Crypto, cl: Client, b: LightBlock)
    ensures var r := TrustLightBlock(c, cl, EMPTY_STATE, b);
            && (r.Ok? <==> Validate(c, cl.options, cl.clock(0), b).Ok?)
            && (r.Ok? ==>
                  && r.value.store == map[b.Height() := StoreEntry(b, Trusted)] && r.value.tick == 1
                  && WellKeyed(r.value.store)
                  && b.Header().validatorsHash == HashOf(c, b.validators.validators)
                  && b.Header().nextValidatorsHash == HashOf(c, b.nextValidators.validators))
  {
  }

  /** Trusting the primary means trusting the one block that has the given height and hash. */
  lemma BuiltFromPrimary(c: Crypto, cl: Client, height: Height, hash: Hash)
    requires TrustPrimaryAt(c, cl, EMPTY_STATE, height, hash).Ok?
    ensures cl.fetch(0, height).Ok?
    ensures var b := cl.fetch(0, height).value;
            && b.Height() == height && HeaderHash(c, b.Header()) == hash
            && TrustPrimaryAt(c, cl, EMPTY_STATE, height, hash) == TrustLightBlock(c, cl, EMPTY_STATE, b)
  {
  }
}
