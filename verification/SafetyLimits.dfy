/**
 Whole-run safety needs what it supposes of voting power.  In worlds that meet
 everything else, with one of the two conditions left out, a client returns a
 block that is not the chain's.
 */
module SafetyLimits {
  import opened Common
  import opened Merkle
  import opened Types
  import opened Validators
  import opened TrustThresholds
  import opened Blocks
  import opened VotingPower
  import opened SharedAddresses
  import opened Verifier
  import opened LightStores
  import opened LightClient
  import opened Builder
  import opened RunInvariant
  import opened Safety
  import opened Liveness
  import opened SafetyWitness

  // ---- A block of the chain and one that is not ----------------------------

  ghost function TwoBlocks(t: LightBlock, u: LightBlock): Chain {
    map[t.Height() := t, u.Height() := u]
  }

  ghost function HashedFor(c: Crypto, b: LightBlock): set<seq<Byte>> {
    HeaderInputs(c, b.Header())
    + SimpleInputs(c, SimpleList(b.validators.validators))
    + SimpleInputs(c, SimpleList(b.nextValidators.validators))
  }

  /** The chain has the header of `t` alone; both blocks can be had. */
  ghost function SplitWorld(c: Crypto, t: LightBlock, u: LightBlock, correct: PubKey -> bool): World {
    World(c, t.Header().chainId,
          map[t.Height() := t.Header()],
          map[t.Height() := SimpleList(t.nextValidators.validators)],
          (key: PubKey, _) => correct(key), (b: LightBlock, _) => InChain(TwoBlocks(t, u), b),
          HashedFor(c, t) + HashedFor(c, u))
  }

  /** `t` has no votes, and no vote of `u` is a correct key's. */
  ghost predicate NotSignedByCorrect(c: Crypto, t: LightBlock, u: LightBlock, correct: PubKey -> bool) {
    && t.signedHeader.commit.signatures == []
    && NonAbsentVotes(u.signedHeader).Ok?
    && forall vote, key :: vote in NonAbsentVotes(u.signedHeader).value && correct(key) ==> !ValidVote(c, vote, key)
  }

  ghost predicate MostlyCorrect(vals: seq<Info>, correct: PubKey -> bool) {
    3 * PowerAt(Powers(vals), set i | 0 <= i < |vals| && !correct(vals[i].pubKey)) <= SumPower(vals)
  }

  ghost predicate AllBounded(b: LightBlock) {
    Bounded(b.validators) && Bounded(b.nextValidators)
  }

  lemma SplitIsSound(c: Crypto, t: LightBlock, u: LightBlock, correct: PubKey -> bool)
    requires EncodesFaithfully(c) && CollisionFreeOn(c.digest, HashedFor(c, t) + HashedFor(c, u))
    requires SetsMatch(c, t)
    ensures SoundChain(SplitWorld(c, t, u, correct))
  {
    assert SoundHeader(SplitWorld(c, t, u, correct), t.Height());
  }

  lemma SplitHasFewFaulty(c: Crypto, t: LightBlock, u: LightBlock, correct: PubKey -> bool, period: Duration)
    requires MostlyCorrect(t.nextValidators.validators, correct)
    ensures FewFaulty(SplitWorld(c, t, u, correct), period)
  {
    var w, vals := SplitWorld(c, t, u, correct), t.nextValidators.validators;
    forall h, time: Time | h in w.headers && h in w.nextValidators && time < w.headers[h].time + period
      ensures AtMostAThirdFaulty(w, w.nextValidators[h], time)
    {
      FaultyAreIncorrect(w, vals, correct, time);
    }
  }

  lemma FaultyAreIncorrect(w: World, vals: seq<Info>, correct: PubKey -> bool, time: Time)
    requires MostlyCorrect(vals, correct) && forall key :: w.correct(key, time) == correct(key)
    ensures AtMostAThirdFaulty(w, SimpleList(vals), time)
  {
    assert Faulty(w, SimpleList(vals), time) == set i | 0 <= i < |vals| && !correct(vals[i].pubKey);
    assert SimplePowers(SimpleList(vals)) == Powers(vals);
  }

  lemma BothAreAll(t: LightBlock, u: LightBlock, b: LightBlock)
    requires InChain(TwoBlocks(t, u), b)
    ensures b == t || b == u
  {
  }

  lemma SplitIsHonest(c: Crypto, t: LightBlock, u: LightBlock, correct: PubKey -> bool)
    requires AllBounded(t) && AllBounded(u) && NotSignedByCorrect(c, t, u, correct)
    ensures var w := SplitWorld(c, t, u, correct); HonestBlocks(w) && BlocksStayAvailable(w)
  {
    var w := SplitWorld(c, t, u, correct);
    forall b, time | w.available(b, time)
      ensures KnownData(w, b) && HonestlySigned(w, b, time)
    {
      BothAreAll(t, u, b);
      assert CollectVotes(t.signedHeader, 0) == Ok([]);
    }
  }

  /** A call from one trusted block that is granted in the first round. */
  lemma DirectCall(cl: Client, st: State, t: LightBlock, u: LightBlock)
    requires HonoursHeights(cl) && SensibleVerifier(cl)
    requires st.store == map[t.Height() := StoreEntry(t, Trusted)] && t.Height() < u.Height()
    requires cl.fetch(st.tick, u.Height()) == Ok(u) && cl.verify(u, t, cl.options, cl.clock(st.tick)).Success?
    requires WithinTrustPeriod(t, cl.options.trustingPeriod, cl.clock(st.tick))
    requires WithinTrustPeriod(u, cl.options.trustingPeriod, cl.clock(st.tick + 1))
    ensures VerifyToTarget(cl, st, u.Height()).0 == Ok(u)
  {
    var target := u.Height();
    assert Believed(st.store, t.Height()) && HighestBelieved(st.store, target, t.Height());
    HighestBeforeIff(st.store, target, t);
    TargetIsReady(st.store, target);
    FirstRoundGrants(cl, st, t, u);
    var st' := After(cl, st, target, target);
    RoundSchedulesValidly(cl, st, target, target);
    var next := NextHeight(st'.store, target, target);
    assert Forward(cl, st, target, target) == Forward(cl, st', next, target);
    assert DecisionIn(cl, st', next, target).finished == Some(Ok(u));
  }

  lemma FirstRoundGrants(cl: Client, st: State, t: LightBlock, u: LightBlock)
    requires HonoursHeights(cl) && SensibleVerifier(cl) && Ready(st.store, u.Height(), u.Height())
    requires st.store == map[t.Height() := StoreEntry(t, Trusted)] && t.Height() < u.Height()
    requires HighestTrustedOrVerifiedBefore(st.store, u.Height()) == Some(t)
    requires cl.fetch(st.tick, u.Height()) == Ok(u) && cl.verify(u, t, cl.options, cl.clock(st.tick)).Success?
    requires WithinTrustPeriod(t, cl.options.trustingPeriod, cl.clock(st.tick))
    ensures DecisionIn(cl, st, u.Height(), u.Height()).finished.None?
    ensures var st' := After(cl, st, u.Height(), u.Height());
            st'.tick == st.tick + 1 && HighestTrustedOrVerifiedBefore(st'.store, u.Height()) == Some(u)
  {
    RoundWrites(cl, st, u.Height(), u.Height());
    AcceptedBecomesHighest(st.store, u.Height(), u.Height(), u, Verified);
  }

  /** The two blocks fit into the security model. */
  ghost predicate FitsModel(c: Crypto, t: LightBlock, u: LightBlock, correct: PubKey -> bool) {
    && EncodesFaithfully(c) && CollisionFreeOn(c.digest, HashedFor(c, t) + HashedFor(c, u))
    && AllBounded(t) && AllBounded(u) && NotSignedByCorrect(c, t, u, correct)
    && SetsMatch(c, t) && MostlyCorrect(t.nextValidators.validators, correct)
  }

  /** A client can be built on the first block and accepts the second. */
  ghost predicate Accepted(c: Crypto, o: Options, t: LightBlock, u: LightBlock, now: Time) {
    && Validate(c, o, now, t).Ok? && t.Height() < u.Height()
    && VerifyUpdateHeader(c, AsUntrustedState(u), AsTrustedState(t), o, now).Success?
    && WithinTrustPeriod(t, o.trustingPeriod, now) && WithinTrustPeriod(u, o.trustingPeriod, now)
  }

  /** The client of a peer that serves both blocks. */
  ghost function ClientOfBoth(c: Crypto, o: Options, t: LightBlock, u: LightBlock, now: Time): Client {
    HonestClient(c, o, TwoBlocks(t, u), now)
  }

  lemma SplitIsModel(c: Crypto, t: LightBlock, u: LightBlock, correct: PubKey -> bool, period: Duration)
    requires FitsModel(c, t, u, correct)
    ensures SecurityModel(SplitWorld(c, t, u, correct), period)
  {
    SplitIsSound(c, t, u, correct);
    SplitHasFewFaulty(c, t, u, correct, period);
    SplitIsHonest(c, t, u, correct);
  }

  lemma BothAreServed(c: Crypto, o: Options, t: LightBlock, u: LightBlock, correct: PubKey -> bool, now: Time)
    ensures var w, cl := SplitWorld(c, t, u, correct), ClientOfBoth(c, o, t, u, now);
            && ProductionVerifier(c, cl) && HonoursHeights(cl)
            && ClockNeverGoesBack(cl) && FetchesAvailable(w, cl)
  {
    var w, chain := SplitWorld(c, t, u, correct), TwoBlocks(t, u);
    HonestClientIsProduction(c, o, chain, now);
    HonestPeerHonoursHeights(c, o, chain, now);
    HonestPeerHasBlocks(w, c, o, chain, now);
  }

  /** The client, built on the chain's header, returns a block that is not the chain's. */
  ghost predicate ReturnsOffChain(w: World, cl: Client, t: LightBlock, u: LightBlock)
    requires HonoursHeights(cl) && SensibleVerifier(cl)
  {
    var hash := HeaderHash(w.crypto, t.Header());
    var built := TrustPrimaryAt(w.crypto, cl, EMPTY_STATE, t.Height(), hash);
    && OnChain(w, t.Height(), hash) && built.Ok? && WellKeyed(built.value.store)
    && VerifyToTarget(cl, built.value, u.Height()).0 == Ok(u) && !IsChainBlock(w, u)
  }

  lemma BuiltOnFirst(c: Crypto, o: Options, t: LightBlock, u: LightBlock, now: Time)
    requires Validate(c, o, now, t).Ok? && t.Height() < u.Height()
    ensures var built := TrustPrimaryAt(c, ClientOfBoth(c, o, t, u, now), EMPTY_STATE,
                                        t.Height(), HeaderHash(c, t.Header()));
            && built.Ok? && WellKeyed(built.value.store)
            && built.value.store == map[t.Height() := StoreEntry(t, Trusted)]
  {
    var cl, hash := ClientOfBoth(c, o, t, u, now), HeaderHash(c, t.Header());
    BuildingCanSucceed(c, o, TwoBlocks(t, u), now, t.Height());
    BuiltFromPrimary(c, cl, t.Height(), hash);
    BuiltStateIff(c, cl, t);
  }

  lemma SecondIsReturned(c: Crypto, o: Options, t: LightBlock, u: LightBlock, now: Time, st: State)
    requires Accepted(c, o, t, u, now)
    requires HonoursHeights(ClientOfBoth(c, o, t, u, now)) && SensibleVerifier(ClientOfBoth(c, o, t, u, now))
    requires st.store == map[t.Height() := StoreEntry(t, Trusted)] && WellKeyed(st.store)
    ensures VerifyToTarget(ClientOfBoth(c, o, t, u, now), st, u.Height()).0 == Ok(u)
  {
    DirectCall(ClientOfBoth(c, o, t, u, now), st, t, u);
  }

  lemma SplitSurrounds(c: Crypto, o: Options, t: LightBlock, u: LightBlock, correct: PubKey -> bool, now: Time)
    requires FitsModel(c, t, u, correct)
    ensures var w, cl := SplitWorld(c, t, u, correct), ClientOfBoth(c, o, t, u, now);
            Surroundings(w, cl) && SensibleVerifier(cl)
  {
    SplitIsModel(c, t, u, correct, o.trustingPeriod);
    BothAreServed(c, o, t, u, correct, now);
    ProductionIsSensible(c, ClientOfBoth(c, o, t, u, now));
  }

  lemma OnlyFirstIsOnChain(c: Crypto, t: LightBlock, u: LightBlock, correct: PubKey -> bool)
    requires t.Height() < u.Height()
    ensures var w := SplitWorld(c, t, u, correct);
            w.crypto == c && OnChain(w, t.Height(), HeaderHash(c, t.Header())) && !IsChainBlock(w, u)
  {
  }

  lemma AcceptedIsReturned(c: Crypto, o: Options, t: LightBlock, u: LightBlock, correct: PubKey -> bool, now: Time)
    requires Accepted(c, o, t, u, now)
    requires HonoursHeights(ClientOfBoth(c, o, t, u, now)) && SensibleVerifier(ClientOfBoth(c, o, t, u, now))
    ensures ReturnsOffChain(SplitWorld(c, t, u, correct), ClientOfBoth(c, o, t, u, now), t, u)
  {
    var cl, hash := ClientOfBoth(c, o, t, u, now), HeaderHash(c, t.Header());
    OnlyFirstIsOnChain(c, t, u, correct);
    BuiltOnFirst(c, o, t, u, now);
    SecondIsReturned(c, o, t, u, now, TrustPrimaryAt(c, cl, EMPTY_STATE, t.Height(), hash).value);
  }

  // ---- Credit without signatures -------------------------------------------

  /** The chain's block: it names its next validators. */
  function ChainBlock(c: Crypto, next: ValidatorSet): LightBlock {
    var hash := HashOf(c, next.validators);
    LightBlock(SignedHeader(HeaderAt(1, 11, hash, hash), Commit(1, 0, DEFAULT_BLOCK_ID, [])), next, next, 0)
  }

  /** A block above it, signed with the first keys of a group of its validators. */
  function OtherBlock(c: Crypto, height: Height, vs: ValidatorSet, group: set<Address>): LightBlock {
    LightBlock(UntrustedOf(c, height, vs, group).signedHeader, vs, vs, 0)
  }

  lemma ChainBlockValidates(c: Crypto, next: ValidatorSet, f: TrustThreshold)
    ensures Validate(c, OptionsWith(f), NOW, ChainBlock(c, next)).Ok?
    ensures WithinTrustPeriod(ChainBlock(c, next), OptionsWith(f).trustingPeriod, NOW)
  {
  }

  lemma OtherBlockIsRecent(c: Crypto, height: Height, vs: ValidatorSet, group: set<Address>, f: TrustThreshold)
    ensures WithinTrustPeriod(OtherBlock(c, height, vs, group), OptionsWith(f).trustingPeriod, NOW)
    ensures AsUntrustedState(OtherBlock(c, height, vs, group)) == UntrustedOf(c, height, vs, group)
  {
  }

  /** Nothing but the voting power is left to be checked. */
  lemma OtherBlockIsAccepted(
    c: Crypto, next: ValidatorSet, height: Height, vs: ValidatorSet, group: set<Address>, f: TrustThreshold)
    requires height > 1 && (height == 2 ==> next == vs)
    requires CommitFitsSet(UntrustedOf(c, height, vs, group).signedHeader, vs)
    requires PowerCheck(c, UntrustedOf(c, height, vs, group), TrustedOf(c, next), OptionsWith(f)).Ok?
    ensures Accepted(c, OptionsWith(f), ChainBlock(c, next), OtherBlock(c, height, vs, group), NOW)
  {
    ChainBlockValidates(c, next, f);
    OtherBlockIsRecent(c, height, vs, group, f);
    assert AsTrustedState(ChainBlock(c, next)) == TrustedOf(c, next);
    UntrustedSucceeds(c, height, vs, group, next, f);
  }

  ghost predicate NoFirstKey(vals: seq<Info>, group: set<Address>, key: PubKey) {
    forall i :: 0 <= i < |vals| && vals[i].address in group ==> ByFirstKey(vals)[i].pubKey != key
  }

  /** All keys are correct but the first keys of a group of addresses. */
  ghost function AllButFirst(vals: seq<Info>, group: set<Address>): PubKey -> bool {
    (key: PubKey) => NoFirstKey(vals, group, key)
  }

  lemma GroupIsNotCorrect(c: Crypto, t: LightBlock, u: LightBlock, vals: seq<Info>, group: set<Address>)
    requires t.signedHeader.commit.signatures == [] && c.verifies == FirstKeyOnly(vals)
    requires u.signedHeader.commit.signatures == GroupSignatures(vals, group)
    ensures NotSignedByCorrect(c, t, u, AllButFirst(vals, group))
  {
    GroupHasVoted(u.signedHeader, vals, group);
    var correct := AllButFirst(vals, group);
    forall vote, key | vote in NonAbsentVotes(u.signedHeader).value && correct(key)
      ensures !ValidVote(c, vote, key)
    {
      var i := FirstHolder(vals, vote.validatorAddress);
      assert ByFirstKey(vals)[i] == vals[i];
    }
  }

  lemma BlocksAreBounded(c: Crypto, next: ValidatorSet, height: Height, vs: ValidatorSet, group: set<Address>)
    requires Bounded(next) && Bounded(vs)
    ensures AllBounded(ChainBlock(c, next)) && AllBounded(OtherBlock(c, height, vs, group))
    ensures SetsMatch(c, ChainBlock(c, next))
  {
  }

  lemma GroupIsAccepted(c: Crypto, vs: ValidatorSet, group: set<Address>)
    requires Bounded(vs) && EnoughAt(vs, TWO_THIRDS, Under(vs.validators, group))
    ensures var c' := With(c, FirstKeyOnly(vs.validators));
            Accepted(c', OptionsWith(TWO_THIRDS), ChainBlock(c', vs), OtherBlock(c', 2, vs, group), NOW)
  {
    var c' := With(c, FirstKeyOnly(vs.validators));
    var sh := OtherBlock(c', 2, vs, group).signedHeader;
    GroupPasses(c', sh, vs, group, TWO_THIRDS);
    EarlyExitIsExact(c', NonAbsentVotes(sh).value, vs, TWO_THIRDS);
    var i := EnoughMeansMember(vs, TWO_THIRDS, Under(vs.validators, group));
    GroupFitsSet(sh, vs, group, i);
    OtherBlockIsAccepted(c', vs, 2, vs, group, TWO_THIRDS);
  }

  /**
   If the power under a group of addresses is more than two thirds, although
   the first keys of those addresses are all that is faulty and have at most a
   third, then these keys alone can have a client return any block.
   */
  lemma CreditIsNeeded(c: Crypto, vs: ValidatorSet, group: set<Address>)
    requires Bounded(vs) && EnoughAt(vs, TWO_THIRDS, Under(vs.validators, group))
    requires MostlyCorrect(vs.validators, AllButFirst(vs.validators, group))
    requires var c' := With(c, FirstKeyOnly(vs.validators));
             && EncodesFaithfully(c')
             && CollisionFreeOn(c'.digest,
                                HashedFor(c', ChainBlock(c', vs)) + HashedFor(c', OtherBlock(c', 2, vs, group)))
    ensures var c' := With(c, FirstKeyOnly(vs.validators));
            var t, u := ChainBlock(c', vs), OtherBlock(c', 2, vs, group);
            var w := SplitWorld(c', t, u, AllButFirst(vs.validators, group));
            var cl := ClientOfBoth(c', OptionsWith(TWO_THIRDS), t, u, NOW);
            && Surroundings(w, cl) && ThresholdFits(w, TWO_THIRDS)
            && SensibleVerifier(cl) && ReturnsOffChain(w, cl, t, u)
  {
    var c', o := With(c, FirstKeyOnly(vs.validators)), OptionsWith(TWO_THIRDS);
    var t, u := ChainBlock(c', vs), OtherBlock(c', 2, vs, group);
    var correct := AllButFirst(vs.validators, group);
    BlocksAreBounded(c', vs, 2, vs, group);
    GroupIsNotCorrect(c', t, u, vs.validators, group);
    SplitSurrounds(c', o, t, u, correct, NOW);
    SmallNumeratorsFit(SplitWorld(c', t, u, correct), TWO_THIRDS);
    GroupIsAccepted(c, vs, group);
    AcceptedIsReturned(c', o, t, u, correct, NOW);
  }

  /** Three validators under one address are an example. */
  const THREE := Set([ONE, OTHER, Info(7, 3, 1, None, 0)], None, 3)

  lemma PowersOfThree()
    ensures Bounded(THREE) && PowerAt(Powers(THREE.validators), {0, 1, 2}) == 3
    ensures PowerAt(Powers(THREE.validators), {0}) == 1
  {
    var ps := Powers(THREE.validators);
    assert ps == [1, 1, 1] && ps[..2] == [1, 1] && [1, 1][..1] == [1] && [1][..0] == [];
    forall chosen: set<nat>
      ensures PowerAt(ps, chosen) == PowerAt([1, 1], chosen) + if 2 in chosen then 1 else 0
      ensures PowerAt([1, 1], chosen) == PowerAt([1], chosen) + if 1 in chosen then 1 else 0
      ensures PowerAt([1], chosen) == PowerAt([], chosen) + if 0 in chosen then 1 else 0
    {
    }
    assert Total(ps) == Total([1, 1]) + 1 && Total([1, 1]) == Total([1]) + 1 && Total([1]) == Total([]) + 1;
  }

  lemma ThreeMislead()
    ensures Bounded(THREE) && EnoughAt(THREE, TWO_THIRDS, Under(THREE.validators, {7}))
    ensures MostlyCorrect(THREE.validators, AllButFirst(THREE.validators, {7}))
  {
    var vals, correct := THREE.validators, AllButFirst(THREE.validators, {7});
    PowersOfThree();
    assert FirstHolder(vals, 7) == 0;
    assert forall i :: 0 <= i < 3 ==> ByFirstKey(vals)[i].pubKey == 1;
    assert Under(vals, {7}) == {0, 1, 2};
    assert forall key :: correct(key) <==> key != 1;
    assert (set i | 0 <= i < |vals| && !correct(vals[i].pubKey)) == {0};
  }

  // ---- Thresholds that wrap around -----------------------------------------

  /** For every numerator from 17 on there is a total of which one unit passes. */
  lemma UnitPasses(f: TrustThreshold) returns (total: nat)
    requires f.numerator >= 17
    ensures 3 <= total <= MAX_TOTAL_VOTING_POWER && IsEnoughPower(f, 1, total)
  {
    if f.numerator < TWO_64 / 2 {
      total := LargeNumeratorWraps(f);
      if total < 3 {
        assert total * f.numerator < TWO_64;
        FittingIsSound(f, 1, total);
      }
    } else {
      var m := TWO_64 - f.numerator;
      if 3 * m < TWO_64 {
        total := 3;
        assert (3 * f.numerator) % TWO_64 == TWO_64 - 3 * m;
      } else {
        total := 4;
        assert 4 * f.numerator == 2 * TWO_64 + (2 * TWO_64 - 4 * m);
        assert (4 * f.numerator) % TWO_64 == 2 * TWO_64 - 4 * m;
      }
    }
  }

  /** Two validators, one with a single unit of power. */
  function Unequal(total: nat): ValidatorSet
    requires 3 <= total <= MAX_TOTAL_VOTING_POWER
  {
    Set([Info(1, 2, total - 1, None, 0), Info(2, 1, 1, None, 0)], None, total)
  }

  /** The latter alone. */
  const ALONE := Set([Info(2, 1, 1, None, 0)], None, 1)

  /** Only the second of two validators has voted. */
  lemma SecondIsCounted(c: Crypto, votes: seq<SignedVote>, vs: ValidatorSet, f: TrustThreshold)
    requires |vs.validators| == 2 && FindVote(votes, vs.validators[0].address).None?
    requires HasVoted(c, votes, {}, vs.validators[1]) == Ok(true)
    requires IsEnoughPower(f, vs.validators[1].power, SumPower(vs.validators))
    ensures Count(c, votes, {}, vs, f)
         == Counted(Ok(Tally(SumPower(vs.validators), vs.validators[1].power, f)), {vs.validators[1].address})
  {
    var vals, tally := vs.validators, Tally(SumPower(vs.validators), 0, f);
    assert CountFrom(c, votes, {}, vals, 0, tally) == CountFrom(c, votes, {}, vals, 1, tally);
  }

  lemma OnlyIsCounted(c: Crypto, votes: seq<SignedVote>, checked: set<Address>, vs: ValidatorSet, f: TrustThreshold)
    requires |vs.validators| == 1 && vs.validators[0].address in checked
    requires FindVote(votes, vs.validators[0].address).Some?
    requires IsEnoughPower(f, vs.validators[0].power, SumPower(vs.validators))
    ensures Count(c, votes, checked, vs, f).result == Ok(Tally(SumPower(vs.validators), vs.validators[0].power, f))
  {
  }

  lemma UnequalSums(total: nat)
    requires 3 <= total <= MAX_TOTAL_VOTING_POWER
    ensures SumPower(Unequal(total).validators) == total && SumPower(ALONE.validators) == 1
    ensures Bounded(Unequal(total)) && Bounded(ALONE)
    ensures PowerAt(Powers(Unequal(total).validators), {1}) == 1
  {
    var vals := Unequal(total).validators;
    SingletonSum(vals[0]);
    SingletonSum(vals[1]);
    SumPowerSplits(vals, 1);
    assert vals[..1] == [vals[0]] && vals[1..] == [vals[1]];
    var ps := Powers(vals);
    assert PowerAt(ps, {1}) == PowerAt(ps[..1], {1}) + 1 && PowerAt(ps[..1], {1}) == PowerAt(ps[..1][..0], {1});
  }

  lemma AloneHasVoted(c: Crypto, sh: SignedHeader)
    requires sh.commit.signatures == GroupSignatures(ALONE.validators, {2})
    requires c.verifies == FirstKeyOnly(ALONE.validators)
    ensures NonAbsentVotes(sh).Ok?
    ensures var votes := NonAbsentVotes(sh).value;
            && FindVote(votes, 1).None? && FindVote(votes, 2).Some?
            && HasVoted(c, votes, {}, ALONE.validators[0]) == Ok(true)
  {
    var vals := ALONE.validators;
    assert FirstHolder(vals, 2) == 0;
    GroupHasVoted(sh, vals, {2});
    var votes := NonAbsentVotes(sh).value;
    assert FindVote(votes, 2).value.signature == SignatureOf(2);
  }

  lemma BothCountsPass(
    c: Crypto, sh: SignedHeader, first: ValidatorSet, f: TrustThreshold, second: ValidatorSet, one: Tally, two: Tally,
    checked: set<Address>)
    requires NonAbsentVotes(sh).Ok? && one.Enough() && two.Enough()
    requires Count(c, NonAbsentVotes(sh).value, {}, first, f) == Counted(Ok(one), checked)
    requires Count(c, NonAbsentVotes(sh).value, checked, second, TWO_THIRDS).result == Ok(two)
    ensures CheckEnoughTrustAndSigners(c, sh, first, f, second).Ok?
  {
  }

  lemma UnitIsCounted(c: Crypto, votes: seq<SignedVote>, f: TrustThreshold, total: nat)
    requires 3 <= total <= MAX_TOTAL_VOTING_POWER && IsEnoughPower(f, 1, total)
    requires FindVote(votes, 1).None? && FindVote(votes, 2).Some?
    requires HasVoted(c, votes, {}, ALONE.validators[0]) == Ok(true)
    ensures Count(c, votes, {}, Unequal(total), f) == Counted(Ok(Tally(total, 1, f)), {2})
    ensures Count(c, votes, {2}, ALONE, TWO_THIRDS).result == Ok(Tally(1, 1, TWO_THIRDS))
  {
    UnequalSums(total);
    SecondIsCounted(c, votes, Unequal(total), f);
    OnlyIsCounted(c, votes, {2}, ALONE, TWO_THIRDS);
  }

  lemma UnitIsEnough(c: Crypto, sh: SignedHeader, f: TrustThreshold, total: nat)
    requires 3 <= total <= MAX_TOTAL_VOTING_POWER && IsEnoughPower(f, 1, total)
    requires sh.commit.signatures == GroupSignatures(ALONE.validators, {2})
    requires c.verifies == FirstKeyOnly(ALONE.validators)
    ensures CheckEnoughTrustAndSigners(c, sh, Unequal(total), f, ALONE).Ok?
  {
    AloneHasVoted(c, sh);
    UnitIsCounted(c, NonAbsentVotes(sh).value, f, total);
    BothCountsPass(c, sh, Unequal(total), f, ALONE, Tally(total, 1, f), Tally(1, 1, TWO_THIRDS), {2});
  }

  lemma UnitIsAccepted(c: Crypto, f: TrustThreshold, total: nat)
    requires 3 <= total <= MAX_TOTAL_VOTING_POWER && IsEnoughPower(f, 1, total)
    requires c.verifies == FirstKeyOnly(ALONE.validators)
    ensures Accepted(c, OptionsWith(f), ChainBlock(c, Unequal(total)), OtherBlock(c, 3, ALONE, {2}), NOW)
  {
    var u := OtherBlock(c, 3, ALONE, {2});
    UnitIsEnough(c, u.signedHeader, f, total);
    GroupFitsSet(u.signedHeader, ALONE, {2}, 0);
    OtherBlockIsAccepted(c, Unequal(total), 3, ALONE, {2}, f);
  }

  lemma UnitIsFewEnough(total: nat)
    requires 3 <= total <= MAX_TOTAL_VOTING_POWER
    ensures MostlyCorrect(Unequal(total).validators, AllButFirst(ALONE.validators, {2}))
    ensures KeysAgree(Unequal(total).validators) && KeysAgree(ALONE.validators)
  {
    var vals, correct := Unequal(total).validators, AllButFirst(ALONE.validators, {2});
    UnequalSums(total);
    assert FirstHolder(ALONE.validators, 2) == 0;
    assert ByFirstKey(ALONE.validators)[0].pubKey == 1;
    assert correct(2) && !correct(1);
    assert (set i | 0 <= i < |vals| && !correct(vals[i].pubKey)) == {1};
  }

  lemma UnitFitsModel(c: Crypto, t: LightBlock, u: LightBlock, total: nat)
    requires 3 <= total <= MAX_TOTAL_VOTING_POWER && c.verifies == FirstKeyOnly(ALONE.validators)
    requires EncodesFaithfully(c) && CollisionFreeOn(c.digest, HashedFor(c, t) + HashedFor(c, u))
    requires t == ChainBlock(c, Unequal(total)) && u == OtherBlock(c, 3, ALONE, {2})
    ensures FitsModel(c, t, u, AllButFirst(ALONE.validators, {2}))
  {
    UnequalSums(total);
    UnitIsFewEnough(total);
    BlocksAreBounded(c, Unequal(total), 3, ALONE, {2});
    GroupIsNotCorrect(c, t, u, ALONE.validators, {2});
  }

  lemma KeysOfBothAgree(c: Crypto, t: LightBlock, u: LightBlock, correct: PubKey -> bool, f: TrustThreshold)
    requires KeysAgree(t.validators.validators) && KeysAgree(t.nextValidators.validators)
    requires KeysAgree(u.validators.validators) && KeysAgree(u.nextValidators.validators)
    ensures CreditIsSigned(SplitWorld(c, t, u, correct), f)
  {
    var w := SplitWorld(c, t, u, correct);
    forall b, time | w.available(b, time)
      ensures KeysAgree(b.validators.validators) && KeysAgree(b.nextValidators.validators)
    {
      BothAreAll(t, u, b);
    }
    NamedKeysAreSigned(w, f);
  }

  /**
   For every threshold and total of which one unit of power passes, a faulty
   validator with that one unit can have a client return any block.
   */
  lemma FittingIsNeeded(c: Crypto, f: TrustThreshold, total: nat)
    requires 3 <= total <= MAX_TOTAL_VOTING_POWER && IsEnoughPower(f, 1, total)
    requires c.verifies == FirstKeyOnly(ALONE.validators) && EncodesFaithfully(c)
    requires CollisionFreeOn(
               c.digest, HashedFor(c, ChainBlock(c, Unequal(total))) + HashedFor(c, OtherBlock(c, 3, ALONE, {2})))
    ensures var t, u := ChainBlock(c, Unequal(total)), OtherBlock(c, 3, ALONE, {2});
            var w := SplitWorld(c, t, u, AllButFirst(ALONE.validators, {2}));
            var cl := ClientOfBoth(c, OptionsWith(f), t, u, NOW);
            && Surroundings(w, cl) && CreditIsSigned(w, f)
            && SensibleVerifier(cl) && ReturnsOffChain(w, cl, t, u)
  {
    var t, u := ChainBlock(c, Unequal(total)), OtherBlock(c, 3, ALONE, {2});
    var correct := AllButFirst(ALONE.validators, {2});
    UnitFitsModel(c, t, u, total);
    UnitIsFewEnough(total);
    KeysOfBothAgree(c, t, u, correct, f);
    SplitSurrounds(c, OptionsWith(f), t, u, correct, NOW);
    UnitIsAccepted(c, f, total);
    AcceptedIsReturned(c, OptionsWith(f), t, u, correct, NOW);
  }
}
