/**
 Whole-run safety of forward verification: every block a run marks Verified or
 Trusted carries the header that the chain has at its height.

 What is supposed of the world outside is collected in `World` and
 `Environment`: a chain, fewer faulty validators than the security model
 allows, signatures that correct validators did not make are not made by
 others, and a digest that does not collide on the byte strings that occur.
 */
module Safety {
  import opened Common
  import opened Merkle
  import opened Types
  import opened Validators
  import opened TrustThresholds
  import opened Blocks
  import opened VotingPower
  import opened Verifier
  import opened LightStores
  import opened LightClient
  import opened BelievedBlocks
  import opened Builder
  import opened RunInvariant

  /**
   The chain: its headers, the keys and powers behind each header's
   next-validators hash, which keys are correct at which time, the light blocks
   that can be had from anyone at a given time, and the byte strings that are
   ever hashed.
   */
  datatype World = World(
    crypto: Crypto,
    chainId: ChainId,
    headers: map<Height, Header>,
    nextValidators: map<Height, seq<SimpleValidator>>,
    correct: (PubKey, Time) -> bool,
    available: (LightBlock, Time) -> bool,
    hashed: set<seq<Byte>>)

  function SimplePowers(ss: seq<SimpleValidator>): (ps: seq<nat>)
    ensures |ps| == |ss| && forall i :: 0 <= i < |ss| ==> ps[i] == ss[i].power
  {
    seq(|ss|, i requires 0 <= i < |ss| => ss[i].power)
  }

  /** The positions of the keys that are not correct at time `t`. */
  function Faulty(w: World, ss: seq<SimpleValidator>, t: Time): set<nat> {
    set i | 0 <= i < |ss| && !w.correct(ss[i].pubKey, t)
  }

  /** A chain header carries its height, the chain id and the hash of its next validators. */
  ghost predicate SoundHeader(w: World, h: Height)
    requires h in w.headers
  {
    && h in w.nextValidators
    && w.headers[h].height == h && w.headers[h].chainId == w.chainId
    && w.headers[h].nextValidatorsHash == HashOfSimple(w.crypto, w.nextValidators[h])
    && HeaderInputs(w.crypto, w.headers[h]) <= w.hashed
    && SimpleInputs(w.crypto, w.nextValidators[h]) <= w.hashed
  }

  /** All chain headers are sound, and nothing that is hashed collides. */
  ghost predicate SoundChain(w: World) {
    && EncodesFaithfully(w.crypto) && CollisionFreeOn(w.crypto.digest, w.hashed)
    && forall h {:trigger SoundHeader(w, h)} :: h in w.headers ==> SoundHeader(w, h)
  }

  /** Until a header's trusting period is over, at most a third of its next validators' power is faulty. */
  ghost predicate FewFaulty(w: World, period: Duration) {
    forall h, t: Time :: h in w.headers && h in w.nextValidators && t < w.headers[h].time + period ==>
      AtMostAThirdFaulty(w, w.nextValidators[h], t)
  }

  ghost predicate AtMostAThirdFaulty(w: World, ss: seq<SimpleValidator>, t: Time) {
    3 * PowerAt(SimplePowers(ss), Faulty(w, ss, t)) <= Total(SimplePowers(ss))
  }

  /** The chain has, at `height`, the header with this hash. */
  ghost predicate OnChain(w: World, height: Height, hash: Hash) {
    height in w.headers && HeaderHash(w.crypto, w.headers[height]) == hash
  }

  /**
   At time `t`, a valid precommit in the block's commit by a correct key names
   the chain's block.  (A default block id stands for a vote for nil and is
   encoded like one.)
   */
  ghost predicate HonestlySigned(w: World, b: LightBlock, t: Time) {
    var votes := NonAbsentVotes(b.signedHeader);
    votes.Ok? ==> forall vote, key ::
      && vote in votes.value && w.correct(key, t) && ValidVote(w.crypto, vote, key)
      && vote.vote.voteType == Precommit && vote.vote.chainId == w.chainId
      && vote.vote.blockId.Some? && vote.vote.blockId.value != DEFAULT_BLOCK_ID
      ==> OnChain(w, vote.vote.height, vote.vote.blockId.value.hash)
  }

  /**
   A block as it can be decoded: its validator sets are bounded, and what is
   hashed for it lies where the digest does not collide.  Decoding does not tie
   addresses to keys.
   */
  ghost predicate KnownData(w: World, b: LightBlock) {
    && Bounded(b.validators) && Bounded(b.nextValidators)
    && HeaderInputs(w.crypto, b.Header()) <= w.hashed
    && SimpleInputs(w.crypto, SimpleList(b.validators.validators)) <= w.hashed
    && SimpleInputs(w.crypto, SimpleList(b.nextValidators.validators)) <= w.hashed
  }

  /** What is available is honestly signed and of known data. */
  ghost predicate HonestBlocks(w: World) {
    forall b, t :: w.available(b, t) ==> KnownData(w, b) && HonestlySigned(w, b, t)
  }

  ghost predicate BlocksStayAvailable(w: World) {
    forall b, t, later :: w.available(b, t) && t <= later ==> w.available(b, later)
  }

  ghost predicate ClockNeverGoesBack(cl: Client) {
    forall i: nat, j: nat :: i <= j ==> cl.clock(i) <= cl.clock(j)
  }

  ghost predicate FetchesAvailable(w: World, cl: Client) {
    forall tick, h :: cl.fetch(tick, h).Ok? ==> w.available(cl.fetch(tick, h).value, cl.clock(tick))
  }

  /** What does not depend on the client. */
  ghost predicate SecurityModel(w: World, period: Duration) {
    SoundChain(w) && FewFaulty(w, period) && HonestBlocks(w) && BlocksStayAvailable(w)
  }

  /** No available block's next validators make the product with their total wrap around. */
  ghost predicate ThresholdFits(w: World, t: TrustThreshold) {
    forall b, time :: w.available(b, time) ==> Fits(t, SumPower(b.nextValidators.validators))
  }

  /** Any threshold with a numerator of at most sixteen is such. */
  lemma SmallNumeratorsFit(w: World, t: TrustThreshold)
    requires HonestBlocks(w) && t.numerator <= 16
    ensures ThresholdFits(w, t)
  {
    forall b, time | w.available(b, time)
      ensures Fits(t, SumPower(b.nextValidators.validators))
    {
      assert KnownData(w, b);
      SmallNumeratorFits(t, SumPower(b.nextValidators.validators));
    }
  }

  /**
   No available block's validators, and no available block's next validators,
   can be credited with power that has not signed.  The client does not check
   this: comparing each address with its key would.
   */
  ghost predicate CreditIsSigned(w: World, t: TrustThreshold) {
    forall b, time :: w.available(b, time) ==>
      FirstKeysSuffice(b.validators, TWO_THIRDS) && FirstKeysSuffice(b.nextValidators, t)
  }

  /** Whatever the threshold, it is enough that equal addresses mean equal keys in each set. */
  lemma NamedKeysAreSigned(w: World, t: TrustThreshold)
    requires forall b, time :: w.available(b, time) ==>
               KeysAgree(b.validators.validators) && KeysAgree(b.nextValidators.validators)
    ensures CreditIsSigned(w, t)
  {
    forall b, time | w.available(b, time)
      ensures FirstKeysSuffice(b.validators, TWO_THIRDS) && FirstKeysSuffice(b.nextValidators, t)
    {
      AgreeingKeysSuffice(b.validators, TWO_THIRDS);
      AgreeingKeysSuffice(b.nextValidators, t);
    }
  }

  /** What the client meets: a production verifier, a clock that does not go back, available blocks. */
  ghost predicate Surroundings(w: World, cl: Client) {
    && SecurityModel(w, cl.options.trustingPeriod)
    && ProductionVerifier(w.crypto, cl) && HonoursHeights(cl)
    && ClockNeverGoesBack(cl) && FetchesAvailable(w, cl)
  }

  /** And that its checks of voting power mean what they should. */
  ghost predicate Environment(w: World, cl: Client) {
    && Surroundings(w, cl)
    && ThresholdFits(w, cl.options.trustThreshold) && CreditIsSigned(w, cl.options.trustThreshold)
  }

  /** The block's header is the chain's header at its height, absent fields read as their defaults. */
  ghost predicate IsChainBlock(w: World, b: LightBlock) {
    b.Height() in w.headers && Canonical(b.Header()) == Canonical(w.headers[b.Height()])
  }

  // ---- One hop -------------------------------------------------------------

  /** Every vote of a commit is a precommit for its height, round and block, under the header's chain id. */
  lemma {:induction false} VotesNameCommit(sh: SignedHeader, n: nat)
    requires n <= |sh.commit.signatures| && CollectVotes(sh, n).Ok?
    ensures forall vote :: vote in CollectVotes(sh, n).value ==>
              && vote.vote.voteType == Precommit && vote.vote.height == sh.commit.height
              && vote.vote.round == sh.commit.round && vote.vote.blockId == Some(sh.commit.blockId)
              && vote.vote.chainId == sh.header.chainId
  {
    if n > 0 {
      VotesNameCommit(sh, n - 1);
    }
  }

  /** A set with the hash of a chain header's next validators consists of those validators. */
  lemma SetIsNextValidators(w: World, h: Height, vals: seq<Info>)
    requires SoundChain(w) && h in w.headers
    requires SimpleInputs(w.crypto, SimpleList(vals)) <= w.hashed
    requires HashOf(w.crypto, vals) == w.headers[h].nextValidatorsHash
    ensures h in w.nextValidators && SimpleList(vals) == w.nextValidators[h]
  {
    assert SoundHeader(w, h);
    SetHashNamesValidators(w.crypto, w.hashed, SimpleList(vals), w.nextValidators[h]);
  }

  /** If at most a third of a set is faulty, any commit that passes a check against it has a correct signer. */
  lemma CorrectSignerOf(w: World, votes: seq<SignedVote>, vs: ValidatorSet, t: TrustThreshold, now: Time)
    returns (i: nat)
    requires AtMostAThirdFaulty(w, SimpleList(vs.validators), now)
    requires FirstKeysSuffice(vs, t) && Fits(t, SumPower(vs.validators))
    requires Count(w.crypto, votes, {}, vs, t).result.Ok? && Count(w.crypto, votes, {}, vs, t).result.value.Enough()
    ensures i < |vs.validators| && w.correct(vs.validators[i].pubKey, now)
    ensures i in Signers(w.crypto, votes, vs.validators)
  {
    var ss := SimpleList(vs.validators);
    assert SimplePowers(ss) == Powers(vs.validators);
    i := CorrectSigner(w.crypto, votes, vs, t, Faulty(w, ss, now));
  }

  /** A valid vote by a correct key makes the block the chain's. */
  lemma CorrectVoteMeansChainBlock(w: World, u: LightBlock, vote: SignedVote, key: PubKey, now: Time)
    requires SoundChain(w) && KnownData(w, u) && HonestlySigned(w, u, now)
    requires HashesMatch(w.crypto, AsUntrustedState(u)) && u.Header().chainId == w.chainId
    requires NonAbsentVotes(u.signedHeader).Ok? && vote in NonAbsentVotes(u.signedHeader).value
    requires w.correct(key, now) && ValidVote(w.crypto, vote, key)
    ensures IsChainBlock(w, u)
  {
    var sh := u.signedHeader;
    VotesNameCommit(sh, |sh.commit.signatures|);
    assert vote.vote.blockId == Some(sh.commit.blockId);
    assert OnChain(w, sh.commit.height, sh.commit.blockId.hash);
    HashMakesChainBlock(w, u, sh.commit.height);
  }

  /** The next validators of a chain block, within its trusting period, are mostly correct. */
  lemma NextValidatorsMostlyCorrect(w: World, period: Duration, t: LightBlock, vals: seq<Info>, now: Time)
    requires SoundChain(w) && FewFaulty(w, period)
    requires IsChainBlock(w, t) && now < t.Time() + period
    requires SimpleInputs(w.crypto, SimpleList(vals)) <= w.hashed
    requires HashOf(w.crypto, vals) == t.Header().nextValidatorsHash
    ensures AtMostAThirdFaulty(w, SimpleList(vals), now)
  {
    ChainBlockFields(w, t);
    SetIsNextValidators(w, t.Height(), vals);
  }

  lemma ChainBlockFields(w: World, t: LightBlock)
    requires SoundChain(w) && IsChainBlock(w, t)
    ensures var header := w.headers[t.Height()];
            && t.Header().nextValidatorsHash == header.nextValidatorsHash
            && t.Header().time == header.time
            && t.Header().chainId == header.chainId == w.chainId
  {
    var header := w.headers[t.Height()];
    assert SoundHeader(w, t.Height());
    assert Canonical(t.Header()).nextValidatorsHash == Canonical(header).nextValidatorsHash;
    assert Canonical(t.Header()).time == Canonical(header).time;
    assert Canonical(t.Header()).chainId == Canonical(header).chainId;
  }

  /** A hop to the next height: its validators are the trusted header's next validators. */
  lemma AdjacentHop(w: World, period: Duration, u: LightBlock, t: LightBlock, now: Time)
    requires SoundChain(w) && FewFaulty(w, period)
    requires IsChainBlock(w, t) && now < t.Time() + period && u.Header().chainId == t.Header().chainId
    requires KnownData(w, u) && HonestlySigned(w, u, now) && HashesMatch(w.crypto, AsUntrustedState(u))
    requires u.Header().validatorsHash == t.Header().nextValidatorsHash && FirstKeysSuffice(u.validators, TWO_THIRDS)
    requires CheckSignersOverlap(w.crypto, u.signedHeader, u.validators).Ok?
    ensures IsChainBlock(w, u)
  {
    var votes := NonAbsentVotes(u.signedHeader).value;
    ChainBlockFields(w, t);
    NextValidatorsMostlyCorrect(w, period, t, u.validators.validators, now);
    SmallNumeratorFits(TWO_THIRDS, SumPower(u.validators.validators));
    var i := CorrectSignerOf(w, votes, u.validators, TWO_THIRDS, now);
    var v := u.validators.validators[i];
    CorrectVoteMeansChainBlock(w, u, FindVote(votes, v.address).value, v.pubKey, now);
  }

  /** A hop over a gap: enough of the trusted header's next validators signed. */
  lemma SkippingHop(w: World, o: Options, u: LightBlock, t: LightBlock, now: Time)
    requires SoundChain(w) && FewFaulty(w, o.trustingPeriod)
    requires Fits(o.trustThreshold, SumPower(t.nextValidators.validators))
    requires FirstKeysSuffice(t.nextValidators, o.trustThreshold)
    requires IsChainBlock(w, t) && now < t.Time() + o.trustingPeriod && u.Header().chainId == t.Header().chainId
    requires SetsMatch(w.crypto, t) && KnownData(w, t)
    requires KnownData(w, u) && HonestlySigned(w, u, now) && HashesMatch(w.crypto, AsUntrustedState(u))
    requires CheckEnoughTrustAndSigners(
               w.crypto, u.signedHeader, t.nextValidators, o.trustThreshold, u.validators).Ok?
    ensures IsChainBlock(w, u)
  {
    var votes := NonAbsentVotes(u.signedHeader).value;
    ChainBlockFields(w, t);
    NextValidatorsMostlyCorrect(w, o.trustingPeriod, t, t.nextValidators.validators, now);
    var i := CorrectSignerOf(w, votes, t.nextValidators, o.trustThreshold, now);
    var v := t.nextValidators.validators[i];
    CorrectVoteMeansChainBlock(w, u, FindVote(votes, v.address).value, v.pubKey, now);
  }

  /** Success against a chain block is only reported for a chain block. */
  lemma HopIsSafe(w: World, cl: Client, u: LightBlock, t: LightBlock, now: Time)
    requires SoundChain(w) && FewFaulty(w, cl.options.trustingPeriod)
    requires ProductionVerifier(w.crypto, cl)
    requires Fits(cl.options.trustThreshold, SumPower(t.nextValidators.validators))
    requires FirstKeysSuffice(t.nextValidators, cl.options.trustThreshold)
    requires FirstKeysSuffice(u.validators, TWO_THIRDS)
    requires IsChainBlock(w, t) && SetsMatch(w.crypto, t) && KnownData(w, t) && t.Height() < I64_MAX
    requires KnownData(w, u) && HonestlySigned(w, u, now)
    requires cl.verify(u, t, cl.options, now).Success?
    ensures IsChainBlock(w, u)
  {
    VerdictSuccessIff(w.crypto, AsUntrustedState(u), AsTrustedState(t), cl.options, now);
    if u.Height() == t.Height() + 1 {
      AdjacentHop(w, cl.options.trustingPeriod, u, t, now);
    } else {
      SkippingHop(w, cl.options, u, t, now);
    }
  }

  // ---- Whole runs ----------------------------------------------------------

  /** What a run keeps of its trusted and verified blocks. */
  ghost function OfTheChain(w: World): Property {
    (b: LightBlock) => IsChainBlock(w, b) && SetsMatch(w.crypto, b)
  }

  lemma ChainBlocksPassOn(w: World, cl: Client)
    requires Environment(w, cl)
    ensures PassesOn(cl, OfTheChain(w), w.available)
  {
    forall u: LightBlock, t: LightBlock, now: Time |
      && t.Height() < I64_MAX && OfTheChain(w)(t) && w.available(t, now) && w.available(u, now)
      && cl.verify(u, t, cl.options, now).Success?
      ensures OfTheChain(w)(u)
    {
      HopIsSafe(w, cl, u, t, now);
      AcceptedBlockMatches(w.crypto, u, t, cl.options, now);
    }
  }

  lemma EnvironmentSupplies(w: World, cl: Client)
    requires BlocksStayAvailable(w) && ClockNeverGoesBack(cl) && FetchesAvailable(w, cl)
    ensures Supplied(cl, w.available)
  {
    forall tick: nat
      ensures Lasting(cl, w.available, tick)
    {
      assert cl.clock(tick) <= cl.clock(tick + 1);
    }
  }

  lemma SingleBlockHolds(good: Property, have: Supply, b: LightBlock, now: Time)
    requires good(b) && have(b, now)
    ensures Holds(good, have, map[b.Height() := StoreEntry(b, Trusted)], now)
  {
  }

  /** A client built on the hash of a chain header starts with a chain block. */
  lemma BuiltOnChainBlock(w: World, cl: Client, height: Height, hash: Hash)
    requires SoundChain(w) && HonestBlocks(w) && FetchesAvailable(w, cl) && Supplied(cl, w.available)
    requires OnChain(w, height, hash) && TrustPrimaryAt(w.crypto, cl, EMPTY_STATE, height, hash).Ok?
    ensures var st := TrustPrimaryAt(w.crypto, cl, EMPTY_STATE, height, hash).value;
            Holds(OfTheChain(w), w.available, st.store, cl.clock(st.tick))
  {
    BuiltFromPrimary(w.crypto, cl, height, hash);
    var b := cl.fetch(0, height).value;
    BuiltStateIff(w.crypto, cl, b);
    assert w.available(b, cl.clock(0)) && Lasting(cl, w.available, 0);
    HashMakesChainBlock(w, b, height);
    SingleBlockHolds(OfTheChain(w), w.available, b, cl.clock(1));
  }

  /** All trusted or verified blocks are the chain's. */
  ghost predicate AllOnChain(w: World, s: StoreMap) {
    forall h: Height :: Believed(s, h) ==> IsChainBlock(w, s[h].lightBlock)
  }

  /** So before a round and after it, and so is the block it verifies against. */
  ghost predicate OnChainAround(w: World, cl: Client, m: Moment) {
    && AllOnChain(w, m.state.store) && AllOnChain(w, After(cl, m.state, m.current, m.target).store)
    && var t := HighestTrustedOrVerifiedBefore(m.state.store, m.target);
       t.Some? ==> IsChainBlock(w, t.value)
  }

  /**
   Every block that any sequence of calls on a built client ever marks Verified
   or Trusted, in any round, is the chain's block at its height, and so is every
   block that a further successful call returns.
   */
  lemma WholeRunSafety(w: World, cl: Client, height: Height, hash: Hash, targets: seq<Height>, last: Height)
    requires Environment(w, cl) && OnChain(w, height, hash)
    requires TrustPrimaryAt(w.crypto, cl, EMPTY_STATE, height, hash).Ok?
    ensures SensibleVerifier(cl)
    ensures var st := TrustPrimaryAt(w.crypto, cl, EMPTY_STATE, height, hash).value;
            && WellKeyed(st.store)
            && (var ms := RunRounds(cl, st, targets);
                forall i :: 0 <= i < |ms| ==> OnChainAround(w, cl, ms[i]))
            && var st' := Run(cl, st, targets);
               && AllOnChain(w, st'.store)
               && var (r, _) := VerifyToTarget(cl, st', last);
                  r.Ok? ==> r.value.Height() == last && IsChainBlock(w, r.value)
  {
    var st := TrustPrimaryAt(w.crypto, cl, EMPTY_STATE, height, hash).value;
    ProductionIsSensible(w.crypto, cl);
    ChainBlocksPassOn(w, cl);
    EnvironmentSupplies(w, cl);
    BuiltOnChainBlock(w, cl, height, hash);
    SafeRun(w, cl, st, targets, last);
    SafeRounds(w, cl, st, targets);
  }

  lemma SafeRun(w: World, cl: Client, st: State, targets: seq<Height>, last: Height)
    requires HonoursHeights(cl) && SensibleVerifier(cl)
    requires PassesOn(cl, OfTheChain(w), w.available) && Supplied(cl, w.available)
    requires Holds(OfTheChain(w), w.available, st.store, cl.clock(st.tick))
    ensures var st' := Run(cl, st, targets);
            && AllOnChain(w, st'.store)
            && var (r, _) := VerifyToTarget(cl, st', last);
               r.Ok? ==> r.value.Height() == last && IsChainBlock(w, r.value)
  {
    var good := OfTheChain(w);
    HoldsInEveryRun(cl, good, w.available, st, targets);
    CallReturnsGood(cl, good, w.available, Run(cl, st, targets), last);
  }

  lemma SafeRounds(w: World, cl: Client, st: State, targets: seq<Height>)
    requires HonoursHeights(cl) && SensibleVerifier(cl)
    requires PassesOn(cl, OfTheChain(w), w.available) && Supplied(cl, w.available)
    requires Holds(OfTheChain(w), w.available, st.store, cl.clock(st.tick))
    ensures var ms := RunRounds(cl, st, targets);
            forall i :: 0 <= i < |ms| ==> OnChainAround(w, cl, ms[i])
  {
    var ms := RunRounds(cl, st, targets);
    forall i | 0 <= i < |ms|
      ensures OnChainAround(w, cl, ms[i])
    {
      HoldsAtEveryRound(cl, OfTheChain(w), w.available, st, targets, i);
      AroundIsOnChain(w, cl, ms[i]);
    }
  }

  lemma AroundIsOnChain(w: World, cl: Client, m: Moment)
    requires HoldsAround(cl, OfTheChain(w), w.available, m)
    ensures OnChainAround(w, cl, m)
  {
  }

  lemma HashMakesChainBlock(w: World, b: LightBlock, height: Height)
    requires SoundChain(w) && KnownData(w, b)
    requires OnChain(w, height, HeaderHash(w.crypto, b.Header()))
    ensures IsChainBlock(w, b) && b.Height() == height
  {
    assert SoundHeader(w, height);
    HeaderHashNamesHeader(w.crypto, w.hashed, b.Header(), w.headers[height]);
    assert Canonical(b.Header()).height == Canonical(w.headers[height]).height;
  }
}
