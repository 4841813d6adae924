/**
 The hypotheses of success can be met: a chain of any length, signed by one
 validator, is well-formed, and an honest peer that serves it brings a client to
 every height.
 */
module LivenessWitness {
  import opened Common
  import opened Types
  import opened Validators
  import opened TrustThresholds
  import opened Blocks
  import opened VotingPower
  import opened SharedAddresses
  import opened Verifier
  import opened LightStores
  import opened LightClient
  import opened Builder
  import opened RunInvariant
  import opened Liveness
  import opened SafetyWitness
  import opened SafetyLimits

  /** The block at a height, signed by the only validator. */
  function SignedBlock(c: Crypto, h: Height, time: Time): LightBlock {
    var hash := HashOf(c, ALONE.validators);
    var header := HeaderAt(h, time, hash, hash);
    LightBlock(GroupSigned(header, BlockId(HeaderHash(c, header), PartSetHeader(0, NoHash)), ALONE.validators, {2}),
               ALONE, ALONE, 0)
  }

  /** Times and options that suit a chain of `n` blocks. */
  predicate Fitting(n: nat) {
    1 <= n < I64_MAX && 4 * n <= MAX_TIME
  }

  function BlockOf(c: Crypto, n: nat, h: Height): LightBlock
    requires Fitting(n) && h <= n
  {
    SignedBlock(c, h, n + h)
  }

  ghost function ChainOf(c: Crypto, n: nat): Chain
    requires Fitting(n)
  {
    ChainFrom(BlocksOf(c, n), n)
  }

  ghost function BlocksOf(c: Crypto, n: nat): Height -> LightBlock
    requires Fitting(n)
  {
    (h: Height) => BlockOf(c, n, if h <= n then h else n)
  }

  ghost function ChainFrom(blocks: Height -> LightBlock, n: nat): Chain {
    map h: Height | 1 <= h <= n :: blocks(h)
  }

  lemma AllWellFormedFrom(c: Crypto, blocks: Height -> LightBlock, n: nat)
    requires n < I64_MAX && forall h: Height :: 1 <= h <= n ==> WellFormed(c, "chain", OnlyKey(), h, blocks(h))
    ensures AllWellFormed(c, ChainFrom(blocks, n))
  {
  }

  function OptionsFor(n: nat, t: TrustThreshold): Options {
    Options(t, 2 * n, 1)
  }

  function TimeFor(n: nat): Time
    requires Fitting(n)
  {
    2 * n + 1
  }

  /** The key behind every address. */
  ghost function OnlyKey(): Address -> PubKey {
    (_: Address) => 1
  }

  lemma AloneIsEnough(c: Crypto, b: LightBlock)
    requires b.signedHeader.commit.signatures == GroupSignatures(ALONE.validators, {2})
    requires c.verifies == FirstKeyOnly(ALONE.validators) && b.validators == b.nextValidators == ALONE
    ensures WellSigned(c, OnlyKey(), b) && CommitFitsSet(b.signedHeader, b.validators)
  {
    var sh, vals := b.signedHeader, ALONE.validators;
    AloneHasVoted(c, sh);
    GroupHasVoted(sh, vals, {2});
    GroupFitsSet(sh, ALONE, {2}, 0);
    OnlyVoterIsCounted(c, NonAbsentVotes(sh).value);
  }

  lemma OnlyVoterIsCounted(c: Crypto, votes: seq<SignedVote>)
    requires HasVoted(c, votes, {}, ALONE.validators[0]) == Ok(true)
    ensures Count(c, votes, {}, ALONE, TWO_THIRDS).result == Ok(Tally(1, 1, TWO_THIRDS))
    ensures Tally(1, 1, TWO_THIRDS).Enough()
  {
    SingletonSum(ALONE.validators[0]);
  }

  lemma SignedBlockIsWellFormed(c: Crypto, h: Height, time: Time, b: LightBlock)
    requires c.verifies == FirstKeyOnly(ALONE.validators) && b == SignedBlock(c, h, time)
    ensures WellFormed(c, "chain", OnlyKey(), h, b)
  {
    AloneIsEnough(c, b);
  }

  lemma BlockIsTimely(c: Crypto, n: nat, t: TrustThreshold, h: Height)
    requires Fitting(n) && 1 <= h <= n
    ensures Timely(OptionsFor(n, t), BlockOf(c, n, h), TimeFor(n))
  {
  }

  lemma BlocksFollow(c: Crypto, n: nat, g: Height, h: Height)
    requires Fitting(n) && 1 <= g < h <= n
    ensures Follows(BlockOf(c, n, g), BlockOf(c, n, h))
  {
  }

  lemma ChainHas(c: Crypto, n: nat, h: Height)
    requires Fitting(n)
    ensures h in ChainOf(c, n) <==> 1 <= h <= n
    ensures h in ChainOf(c, n) ==> ChainOf(c, n)[h] == BlockOf(c, n, h) && ChainOf(c, n)[h].Height() == h
  {
  }

  ghost predicate AllWellFormed(c: Crypto, chain: Chain) {
    forall h :: h in chain ==> h < I64_MAX && WellFormed(c, "chain", OnlyKey(), h, chain[h])
  }

  ghost predicate AllFollow(chain: Chain) {
    forall g, h :: g in chain && h in chain && g < h ==> Follows(chain[g], chain[h])
  }

  ghost predicate AllTimely(o: Options, chain: Chain, now: Time) {
    forall h :: h in chain ==> Timely(o, chain[h], now)
  }

  lemma BlockIsSigned(c: Crypto, n: nat, h: Height)
    requires Fitting(n) && h <= n
    ensures BlockOf(c, n, h) == SignedBlock(c, h, n + h)
  {
  }

  lemma BlocksAreWellFormed(c: Crypto, n: nat)
    requires Fitting(n) && c.verifies == FirstKeyOnly(ALONE.validators)
    ensures AllWellFormed(c, ChainOf(c, n))
  {
    var blocks := BlocksOf(c, n);
    forall h: Height | 1 <= h <= n
      ensures WellFormed(c, "chain", OnlyKey(), h, blocks(h))
    {
      assert blocks(h) == BlockOf(c, n, h);
      BlockIsSigned(c, n, h);
      SignedBlockIsWellFormed(c, h, n + h, blocks(h));
    }
    AllWellFormedFrom(c, blocks, n);
  }

  lemma BlocksAreTimely(c: Crypto, n: nat, t: TrustThreshold)
    requires Fitting(n)
    ensures AllTimely(OptionsFor(n, t), ChainOf(c, n), TimeFor(n))
  {
    forall h | h in ChainOf(c, n)
      ensures Timely(OptionsFor(n, t), ChainOf(c, n)[h], TimeFor(n))
    {
      ChainHas(c, n, h);
      BlockIsTimely(c, n, t, h);
    }
  }

  lemma AllBlocksFollow(c: Crypto, n: nat)
    requires Fitting(n)
    ensures AllFollow(ChainOf(c, n))
  {
    var chain := ChainOf(c, n);
    forall g, h | g in chain && h in chain && g < h
      ensures Follows(chain[g], chain[h])
    {
      ChainHas(c, n, g);
      ChainHas(c, n, h);
      BlocksFollow(c, n, g, h);
    }
  }

  lemma AllMakeChain(c: Crypto, cl: Client, chain: Chain, now: Time, since: nat, until: nat)
    requires AllWellFormed(c, chain) && AllFollow(chain) && AllTimely(cl.options, chain, now)
    requires forall tick :: cl.clock(tick) == now
    ensures WellFormedChain(c, "chain", OnlyKey(), cl, chain, since, until)
  {
  }

  lemma FirstIsValid(c: Crypto, n: nat, t: TrustThreshold)
    requires Fitting(n)
    ensures Validate(c, OptionsFor(n, t), TimeFor(n), BlockOf(c, n, 1)).Ok?
  {
  }

  /** A client that is built on the first block. */
  ghost function ClientFor(c: Crypto, n: nat, t: TrustThreshold): Client
    requires Fitting(n)
  {
    HonestClient(c, OptionsFor(n, t), ChainOf(c, n), TimeFor(n))
  }

  lemma BuiltOnChain(c: Crypto, n: nat, t: TrustThreshold)
    requires Fitting(n)
    ensures var hash := HeaderHash(c, BlockOf(c, n, 1).Header());
            var built := TrustPrimaryAt(c, ClientFor(c, n, t), EMPTY_STATE, 1, hash);
            && built.Ok? && WellKeyed(built.value.store) && Believed(built.value.store, 1)
            && AllGood(OfChain(ChainOf(c, n)), built.value.store)
  {
    var cl, b := ClientFor(c, n, t), BlockOf(c, n, 1);
    ChainHas(c, n, 1);
    FirstIsValid(c, n, t);
    BuildingCanSucceed(c, OptionsFor(n, t), ChainOf(c, n), TimeFor(n), 1);
    BuiltFromPrimary(c, cl, 1, HeaderHash(c, b.Header()));
    BuiltStateIff(c, cl, b);
  }

  lemma ChainIsServed(c: Crypto, n: nat, t: TrustThreshold, target: Height)
    requires Fitting(n) && target <= n
    ensures var cl := ClientFor(c, n, t);
            HonoursHeights(cl) && ProductionVerifier(c, cl) && Serves(cl, ChainOf(c, n), 1, target)
  {
    var o, chain, now := OptionsFor(n, t), ChainOf(c, n), TimeFor(n);
    forall h: Height
      ensures h in chain <==> 1 <= h <= n
      ensures h in chain ==> chain[h].Height() == h
    {
      ChainHas(c, n, h);
    }
    HonestPeerHonoursHeights(c, o, chain, now);
    HonestClientIsProduction(c, o, chain, now);
  }

  /** What success supposes. */
  ghost predicate Hypotheses(c: Crypto, cl: Client, chain: Chain, until: nat, low: Height, st: State, target: Height) {
    && ProductionVerifier(c, cl) && HonoursHeights(cl)
    && WellFormedChain(c, "chain", OnlyKey(), cl, chain, st.tick, until) && Serves(cl, chain, low, target)
    && WellKeyed(st.store) && AllGood(OfChain(chain), st.store) && Believed(st.store, low) && low <= target
  }

  lemma HypothesesHold(c: Crypto, n: nat, t: TrustThreshold, target: Height, until: nat, st: State)
    requires Fitting(n) && 1 <= target <= n && c.verifies == FirstKeyOnly(ALONE.validators)
    requires WellKeyed(st.store) && AllGood(OfChain(ChainOf(c, n)), st.store) && Believed(st.store, 1)
    ensures Hypotheses(c, ClientFor(c, n, t), ChainOf(c, n), until, 1, st, target)
  {
    ChainIsServed(c, n, t, target);
    BlocksAreWellFormed(c, n);
    BlocksAreTimely(c, n, t);
    AllBlocksFollow(c, n);
    AllMakeChain(c, ClientFor(c, n, t), ChainOf(c, n), TimeFor(n), st.tick, until);
  }

  ghost predicate Delivers(cl: Client, chain: Chain, st: State, target: Height) {
    && HonoursHeights(cl) && SensibleVerifier(cl) && WellKeyed(st.store)
    && target in chain && VerifyToTarget(cl, st, target).0 == Ok(chain[target])
  }

  lemma HypothesesDeliver(c: Crypto, cl: Client, chain: Chain, low: Height, st: State, target: Height)
    requires forall until :: Hypotheses(c, cl, chain, until, low, st, target)
    ensures Delivers(cl, chain, st, target)
  {
    assert Hypotheses(c, cl, chain, 0, low, st, target);
    ProductionIsSensible(c, cl);
    var end := VerifyToTarget(cl, st, target).1.tick;
    assert Hypotheses(c, cl, chain, end, low, st, target);
    HonestPeerSuffices(c, "chain", OnlyKey(), cl, chain, end, low, st, target);
  }

  /** For every length, threshold and target, a client built on the first block meets them, and gets to the target. */
  lemma SuccessCanBeMet(c: Crypto, n: nat, t: TrustThreshold, target: Height)
    requires Fitting(n) && 1 <= target <= n && c.verifies == FirstKeyOnly(ALONE.validators)
    ensures var cl, chain := ClientFor(c, n, t), ChainOf(c, n);
            var built := TrustPrimaryAt(c, cl, EMPTY_STATE, 1, HeaderHash(c, BlockOf(c, n, 1).Header()));
            && built.Ok?
            && (forall until :: Hypotheses(c, cl, chain, until, 1, built.value, target))
            && Delivers(cl, chain, built.value, target)
  {
    var cl, chain := ClientFor(c, n, t), ChainOf(c, n);
    BuiltOnChain(c, n, t);
    var st := TrustPrimaryAt(c, cl, EMPTY_STATE, 1, HeaderHash(c, BlockOf(c, n, 1).Header())).value;
    forall until
      ensures Hypotheses(c, cl, chain, until, 1, st, target)
    {
      HypothesesHold(c, n, t, target, until, st);
    }
    HypothesesDeliver(c, cl, chain, 1, st, target);
  }
}
