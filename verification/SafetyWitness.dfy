/**
 The hypotheses of whole-run safety can be met together: any chain of
 consistent blocks, served by an honest peer, with all keys correct, is such a
 world.
 */
module SafetyWitness {
  import opened Common
  import opened Merkle
  import opened Types
  import opened Validators
  import opened TrustThresholds
  import opened Blocks
  import opened VotingPower
  import opened Verifier
  import opened LightClient
  import opened Builder
  import opened RunInvariant
  import opened Safety
  import opened Liveness
  import opened Backward

  /** A block of the chain: it matches its sets, its commit is for it, and equal addresses mean equal keys. */
  ghost predicate Consistent(
    c: Crypto, chainId: ChainId, hashed: set<seq<Byte>>, h: Height, b: LightBlock)
  {
    var header, commit := b.Header(), b.signedHeader.commit;
    && header.height == h == commit.height && header.chainId == chainId
    && commit.blockId.hash == HeaderHash(c, header)
    && SetsMatch(c, b) && Bounded(b.validators) && Bounded(b.nextValidators)
    && KeysAgree(b.validators.validators) && KeysAgree(b.nextValidators.validators)
    && HeaderInputs(c, header) <= hashed
    && SimpleInputs(c, SimpleList(b.validators.validators)) <= hashed
    && SimpleInputs(c, SimpleList(b.nextValidators.validators)) <= hashed
  }

  ghost predicate ConsistentChain(
    c: Crypto, chainId: ChainId, hashed: set<seq<Byte>>, chain: Chain)
  {
    forall h {:trigger chain[h]} :: h in chain ==> Consistent(c, chainId, hashed, h, chain[h])
  }

  ghost function HonestWorld(
    c: Crypto, chainId: ChainId, hashed: set<seq<Byte>>, chain: Chain): World
  {
    World(c, chainId,
          map h | h in chain :: chain[h].Header(),
          map h | h in chain :: SimpleList(chain[h].nextValidators.validators),
          (_, _) => true, (b: LightBlock, _) => InChain(chain, b), hashed)
  }

  ghost function HonestClient(c: Crypto, o: Options, chain: Chain, now: Time): Client {
    Client(o,
           (u: LightBlock, t: LightBlock, o: Options, now: Time) =>
             if t.Height() < I64_MAX then VerifyUpdateHeader(c, AsUntrustedState(u), AsTrustedState(t), o, now)
             else Invalid(TimeOutOfRange),
           (_, h: Height) => if h in chain then Ok(chain[h]) else Err(IoError(0)),
           _ => now)
  }

  lemma HonestChainIsSound(
    c: Crypto, chainId: ChainId, hashed: set<seq<Byte>>, chain: Chain)
    requires EncodesFaithfully(c) && CollisionFreeOn(c.digest, hashed)
    requires ConsistentChain(c, chainId, hashed, chain)
    ensures SoundChain(HonestWorld(c, chainId, hashed, chain))
  {
    var w := HonestWorld(c, chainId, hashed, chain);
    forall h | h in w.headers
      ensures SoundHeader(w, h)
    {
      assert Consistent(c, chainId, hashed, h, chain[h]);
    }
  }

  lemma {:induction false} NoPowerAtNone(powers: seq<nat>)
    ensures PowerAt(powers, {}) == 0
  {
    if powers != [] {
      NoPowerAtNone(powers[..|powers| - 1]);
    }
  }

  lemma NobodyIsFaulty(
    c: Crypto, chainId: ChainId, hashed: set<seq<Byte>>, chain: Chain, period: Duration)
    ensures FewFaulty(HonestWorld(c, chainId, hashed, chain), period)
  {
    var w := HonestWorld(c, chainId, hashed, chain);
    forall h, t: Time | h in w.headers && h in w.nextValidators && t < w.headers[h].time + period
      ensures AtMostAThirdFaulty(w, w.nextValidators[h], t)
    {
      assert Faulty(w, w.nextValidators[h], t) == {};
      NoPowerAtNone(SimplePowers(w.nextValidators[h]));
    }
  }

  /** If a commit is for a chain block, so are all its votes. */
  lemma HonestVotes(w: World, b: LightBlock, t: Time)
    requires OnChain(w, b.signedHeader.commit.height, b.signedHeader.commit.blockId.hash)
    ensures HonestlySigned(w, b, t)
  {
    var sh := b.signedHeader;
    if NonAbsentVotes(sh).Ok? {
      VotesNameCommit(sh, |sh.commit.signatures|);
    }
  }

  lemma ChainBlockIsHonest(
    c: Crypto, chainId: ChainId, hashed: set<seq<Byte>>, chain: Chain, b: LightBlock, t: Time)
    requires ConsistentChain(c, chainId, hashed, chain) && InChain(chain, b)
    ensures var w := HonestWorld(c, chainId, hashed, chain); KnownData(w, b) && HonestlySigned(w, b, t)
  {
    var w := HonestWorld(c, chainId, hashed, chain);
    var h := b.Height();
    assert Consistent(c, chainId, hashed, h, chain[h]);
    assert OnChain(w, h, b.signedHeader.commit.blockId.hash);
    HonestVotes(w, b, t);
  }

  lemma HonestBlocksOnly(
    c: Crypto, chainId: ChainId, hashed: set<seq<Byte>>, chain: Chain)
    requires ConsistentChain(c, chainId, hashed, chain)
    ensures var w := HonestWorld(c, chainId, hashed, chain); HonestBlocks(w) && BlocksStayAvailable(w)
  {
    var w := HonestWorld(c, chainId, hashed, chain);
    forall b, t | w.available(b, t)
      ensures KnownData(w, b) && HonestlySigned(w, b, t)
    {
      ChainBlockIsHonest(c, chainId, hashed, chain, b, t);
    }
  }

  lemma HonestKeysAreSigned(
    c: Crypto, chainId: ChainId, hashed: set<seq<Byte>>, chain: Chain, t: TrustThreshold)
    requires ConsistentChain(c, chainId, hashed, chain)
    ensures CreditIsSigned(HonestWorld(c, chainId, hashed, chain), t)
  {
    var w := HonestWorld(c, chainId, hashed, chain);
    forall b, time | w.available(b, time)
      ensures KeysAgree(b.validators.validators) && KeysAgree(b.nextValidators.validators)
    {
      assert Consistent(c, chainId, hashed, b.Height(), chain[b.Height()]);
    }
    NamedKeysAreSigned(w, t);
  }

  lemma HonestClientIsProduction(c: Crypto, o: Options, chain: Chain, now: Time)
    ensures ProductionVerifier(c, HonestClient(c, o, chain, now))
  {
  }

  ghost predicate Indexed(chain: Chain) {
    forall h :: h in chain ==> chain[h].Height() == h
  }

  lemma ConsistentIsIndexed(
    c: Crypto, chainId: ChainId, hashed: set<seq<Byte>>, chain: Chain)
    requires ConsistentChain(c, chainId, hashed, chain)
    ensures Indexed(chain)
  {
  }

  lemma HonestPeerHonoursHeights(c: Crypto, o: Options, chain: Chain, now: Time)
    requires Indexed(chain)
    ensures HonoursHeights(HonestClient(c, o, chain, now)) && ClockNeverGoesBack(HonestClient(c, o, chain, now))
  {
  }

  lemma HonestPeerHasBlocks(w: World, c: Crypto, o: Options, chain: Chain, now: Time)
    requires Indexed(chain) && forall b, t :: w.available(b, t) <==> InChain(chain, b)
    ensures FetchesAvailable(w, HonestClient(c, o, chain, now))
  {
  }

  /** Any consistent chain, with an honest peer and correct keys, meets all hypotheses of safety. */
  lemma HypothesesCanBeMet(
    c: Crypto, chainId: ChainId, hashed: set<seq<Byte>>, chain: Chain, o: Options, now: Time)
    requires EncodesFaithfully(c) && CollisionFreeOn(c.digest, hashed)
    requires ConsistentChain(c, chainId, hashed, chain)
    requires o.trustThreshold.numerator <= 16
    ensures Environment(HonestWorld(c, chainId, hashed, chain), HonestClient(c, o, chain, now))
  {
    HonestChainIsSound(c, chainId, hashed, chain);
    NobodyIsFaulty(c, chainId, hashed, chain, o.trustingPeriod);
    HonestBlocksOnly(c, chainId, hashed, chain);
    SmallNumeratorsFit(HonestWorld(c, chainId, hashed, chain), o.trustThreshold);
    HonestKeysAreSigned(c, chainId, hashed, chain, o.trustThreshold);
    HonestClientIsProduction(c, o, chain, now);
    ConsistentIsIndexed(c, chainId, hashed, chain);
    HonestPeerHonoursHeights(c, o, chain, now);
    HonestPeerHasBlocks(HonestWorld(c, chainId, hashed, chain), c, o, chain, now);
  }

  /** The block at `h` names the chain's block below it, or none. */
  ghost predicate NamesBelow(c: Crypto, chain: Chain, h: Height)
    requires h in chain
  {
    var id := chain[h].Header().lastBlockId;
    id.Some? && id.value != DEFAULT_BLOCK_ID ==>
      h > 0 && h - 1 in chain && HeaderHash(c, chain[h - 1].Header()) == id.value.hash
  }

  /** Then what is supposed for calls that go down is met as well. */
  lemma LinksCanBeMet(
    c: Crypto, chainId: ChainId, hashed: set<seq<Byte>>, chain: Chain)
    requires forall h :: h in chain ==> NamesBelow(c, chain, h)
    ensures ChainIsLinked(HonestWorld(c, chainId, hashed, chain))
  {
    var w := HonestWorld(c, chainId, hashed, chain);
    forall h | h in w.headers
      ensures NamesPredecessor(w, h)
    {
      assert NamesBelow(c, chain, h);
    }
  }

  /** A client of such a peer can be built on any chain block that is recent enough. */
  lemma BuildingCanSucceed(c: Crypto, o: Options, chain: Chain, now: Time, h: Height)
    requires h in chain && chain[h].Height() == h && Validate(c, o, now, chain[h]).Ok?
    ensures TrustPrimaryAt(c, HonestClient(c, o, chain, now), EMPTY_STATE, h, HeaderHash(c, chain[h].Header())).Ok?
  {
  }
}
