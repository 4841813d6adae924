/**
 Calls succeed: an honest peer that serves a well-formed chain brings every call
 to its target.
 */
module Liveness {
  import opened Common
  import opened Types
  import opened Validators
  import opened TrustThresholds
  import opened Blocks
  import opened VotingPower
  import opened Verifier
  import opened LightStores
  import opened LightClient
  import opened BelievedBlocks
  import opened RunInvariant

  // ---- Any verifier that accepts good blocks -------------------------------

  /** The peer has a good block at every height above `low`, up to `high`. */
  ghost predicate ServesGood(cl: Client, good: Property, low: Height, high: Height) {
    forall tick, h :: low < h <= high ==> cl.fetch(tick, h).Ok? && good(cl.fetch(tick, h).value)
  }

  /** From `since` to before `until` no good block is invalid on the strength of a lower one, and none expires. */
  ghost predicate VerifiesGood(cl: Client, good: Property, since: nat, until: nat) {
    && (forall u: LightBlock, t: LightBlock, tick ::
          since <= tick < until && good(u) && good(t) && t.Height() < u.Height() ==>
            !cl.verify(u, t, cl.options, cl.clock(tick)).Invalid?)
    && (forall b, tick :: since <= tick < until && good(b) ==>
          WithinTrustPeriod(b, cl.options.trustingPeriod, cl.clock(tick)))
  }

  ghost predicate AllGood(good: Property, s: StoreMap) {
    forall h :: h in s ==> good(s[h].lightBlock)
  }

  /** Some trusted or verified block lies between `low` and the target. */
  ghost predicate Reaches(s: StoreMap, low: Height, target: Height) {
    var t := HighestTrustedOrVerifiedBefore(s, target);
    t.Some? && low <= t.value.Height()
  }

  /** The block of a round is good, and so is the store after it. */
  lemma RoundStaysGood(cl: Client, good: Property, low: Height, st: State, current: Height, target: Height)
    requires HonoursHeights(cl) && ServesGood(cl, good, low, target)
    requires Ready(st.store, current, target) && AllGood(good, st.store) && Reaches(st.store, low, target)
    ensures AllGood(good, After(cl, st, current, target).store)
    ensures var d := DecisionIn(cl, st, current, target); d.updated.Some? ==> good(d.updated.value.0)
  {
    RoundWrites(cl, st, current, target);
    if DecisionIn(cl, st, current, target).updated.Some? {
      RoundVerdict(cl, st, current, target);
    }
  }

  /** A round goes on, or is the last and succeeds. */
  lemma RoundSucceeds(
    cl: Client, good: Property, low: Height, until: nat, st: State, current: Height, target: Height)
    requires HonoursHeights(cl) && ServesGood(cl, good, low, target)
    requires VerifiesGood(cl, good, st.tick, until) && st.tick < until
    requires Ready(st.store, current, target) && AllGood(good, st.store) && Reaches(st.store, low, target)
    ensures var d := DecisionIn(cl, st, current, target); d.finished.Some? ==> d.finished.value.Ok?
  {
    var t := HighestTrustedOrVerifiedBefore(st.store, target).value;
    HighestBeforeIff(st.store, target, t);
    assert good(t);
    RoundWrites(cl, st, current, target);
    RoundStaysGood(cl, good, low, st, current, target);
    if DecisionIn(cl, st, current, target).updated.Some? {
      RoundVerdict(cl, st, current, target);
    }
  }

  lemma {:induction false} ForwardSucceeds(
    cl: Client, good: Property, low: Height, until: nat, st: State, current: Height, target: Height)
    requires HonoursHeights(cl) && SensibleVerifier(cl) && ServesGood(cl, good, low, target)
    requires Ready(st.store, current, target) && AllGood(good, st.store) && Reaches(st.store, low, target)
    requires VerifiesGood(cl, good, st.tick, until) && Forward(cl, st, current, target).1.tick <= until
    ensures var (r, st') := Forward(cl, st, current, target); r.Ok? && AllGood(good, st'.store)
    decreases target - TrustedHeight(st.store, target), current - TrustedHeight(st.store, target)
  {
    ForwardTicks(cl, st, current, target);
    RoundSucceeds(cl, good, low, until, st, current, target);
    RoundStaysGood(cl, good, low, st, current, target);
    if DecisionIn(cl, st, current, target).finished.None? {
      RoundProgress(cl, st, current, target);
      RoundSchedulesValidly(cl, st, current, target);
      var st' := After(cl, st, current, target);
      ForwardSucceeds(cl, good, low, until, st', NextHeight(st'.store, current, target), target);
    }
  }

  lemma BelievedReaches(s: StoreMap, low: Height, target: Height)
    requires WellKeyed(s) && Believed(s, low) && low <= target
    ensures Reaches(s, low, target)
  {
    NoneBelievedIff(s, target);
    HighestBeforeIff(s, target, HighestTrustedOrVerifiedBefore(s, target).value);
  }

  /** A call with a target at or above a believed block returns the good block of that height. */
  lemma CallSucceeds(cl: Client, good: Property, low: Height, until: nat, st: State, target: Height)
    requires HonoursHeights(cl) && SensibleVerifier(cl) && ServesGood(cl, good, low, target)
    requires WellKeyed(st.store) && AllGood(good, st.store) && Believed(st.store, low) && low <= target
    requires VerifiesGood(cl, good, st.tick, until) && VerifyToTarget(cl, st, target).1.tick <= until
    ensures var (r, st') := VerifyToTarget(cl, st, target);
            r.Ok? && r.value.Height() == target && AllGood(good, st'.store)
  {
    BelievedReaches(st.store, low, target);
    TargetIsReady(st.store, target);
    HighestBeforeIff(st.store, target, HighestTrustedOrVerifiedBefore(st.store, target).value);
    if GetTrustedOrVerified(st.store, target).None? {
      ForwardSucceeds(cl, good, low, until, st, target, target);
    }
    VerifyToTargetDelivers(cl, st, target);
  }

  // ---- The production verifier on a well-formed chain ----------------------

  /** The keys of a set are those behind its addresses. */
  ghost predicate Named(keyOf: Address -> PubKey, vals: seq<Info>) {
    forall v :: v in vals ==> v.pubKey == keyOf(v.address)
  }

  ghost predicate ValidVotes(c: Crypto, keyOf: Address -> PubKey, votes: seq<SignedVote>) {
    forall vote :: vote in votes ==> ValidVote(c, vote, keyOf(vote.validatorAddress))
  }

  /** All votes of the commit are valid, and two thirds of the block's validators have voted. */
  ghost predicate WellSigned(c: Crypto, keyOf: Address -> PubKey, b: LightBlock) {
    && NonAbsentVotes(b.signedHeader).Ok? && ValidVotes(c, keyOf, NonAbsentVotes(b.signedHeader).value)
    && CheckSignersOverlap(c, b.signedHeader, b.validators).Ok?
    && Named(keyOf, b.validators.validators) && Named(keyOf, b.nextValidators.validators)
  }

  /** With valid votes, no tally over any set of named validators fails. */
  lemma {:induction false} ValidVotesAreCounted(
    c: Crypto, keyOf: Address -> PubKey, votes: seq<SignedVote>, checked: set<Address>,
    vals: seq<Info>, k: nat, tally: Tally)
    requires ValidVotes(c, keyOf, votes) && Named(keyOf, vals) && k <= |vals|
    ensures CountFrom(c, votes, checked, vals, k, tally).result.Ok?
    decreases |vals| - k
  {
    if k < |vals| {
      assert vals[k] in vals;
      match HasVoted(c, votes, checked, vals[k])
      case Ok(false) => ValidVotesAreCounted(c, keyOf, votes, checked, vals, k + 1, tally);
      case Ok(true) =>
        ValidVotesAreCounted(c, keyOf, votes, checked + {vals[k].address}, vals, k + 1,
                             tally.(tallied := tally.tallied + vals[k].power));
    }
  }

  lemma NamedKeysMatch(keyOf: Address -> PubKey, xs: seq<Info>, ys: seq<Info>)
    requires Named(keyOf, xs) && Named(keyOf, ys)
    ensures FirstKeysMatch(xs, ys)
  {
    FirstKeysAgree(xs);
    FirstKeysAgree(ys);
    assert KeysAgree(xs) && KeysAgree(ys);
  }

  /** A well-signed commit passes, or lacks overlap with the trusted validators; it is never in error. */
  lemma WellSignedNeverInvalid(
    c: Crypto, keyOf: Address -> PubKey, b: LightBlock, trusted: ValidatorSet, threshold: TrustThreshold)
    requires WellSigned(c, keyOf, b) && Named(keyOf, trusted.validators)
    ensures var check := CheckEnoughTrustAndSigners(c, b.signedHeader, trusted, threshold, b.validators);
            check.Ok? || check.error.NotEnoughTrustError?
  {
    var votes := NonAbsentVotes(b.signedHeader).value;
    NamedKeysMatch(keyOf, trusted.validators, b.validators.validators);
    SharedCacheIsEquivalent(c, b.signedHeader, trusted, threshold, b.validators, TWO_THIRDS);
    ValidVotesAreCounted(c, keyOf, votes, {}, trusted.validators, 0,
                         Tally(SumPower(trusted.validators), 0, threshold));
  }

  type Chain = map<Height, LightBlock>

  ghost predicate InChain(chain: Chain, b: LightBlock) {
    b.Height() in chain && chain[b.Height()] == b
  }

  /** A block that can be verified from those below it. */
  ghost predicate WellFormed(c: Crypto, chainId: ChainId, keyOf: Address -> PubKey, h: Height, b: LightBlock) {
    var u := AsUntrustedState(b);
    && b.Height() == h && b.Header().chainId == chainId
    && HashesMatch(c, u) && CommitFitsSet(b.signedHeader, b.validators) && WellSigned(c, keyOf, b)
  }

  /** Times go up with heights, and each block's validators are those announced by the block below. */
  ghost predicate Follows(lower: LightBlock, higher: LightBlock) {
    && lower.Time() < higher.Time()
    && (higher.Height() == lower.Height() + 1 ==> higher.Header().validatorsHash == lower.Header().nextValidatorsHash)
  }

  /** At this time the block is neither expired nor from the future. */
  ghost predicate Timely(o: Options, b: LightBlock, now: Time) {
    && now < b.Time() + o.trustingPeriod <= MAX_TIME
    && b.Time() < now + o.clockDrift <= MAX_TIME
    && WithinTrustPeriod(b, o.trustingPeriod, now)
  }

  /** The timeliness is asked for from `since` to before `until`. */
  ghost predicate WellFormedChain(
    c: Crypto, chainId: ChainId, keyOf: Address -> PubKey, cl: Client, chain: Chain, since: nat, until: nat)
  {
    && (forall h {:trigger WellFormed(c, chainId, keyOf, h, chain[h])} :: h in chain ==>
          h < I64_MAX && WellFormed(c, chainId, keyOf, h, chain[h]))
    && (forall g, h {:trigger Follows(chain[g], chain[h])} :: g in chain && h in chain && g < h ==>
          Follows(chain[g], chain[h]))
    && (forall h, tick {:trigger Timely(cl.options, chain[h], cl.clock(tick))} ::
          h in chain && since <= tick < until ==> Timely(cl.options, chain[h], cl.clock(tick)))
  }

  /** The peer answers with the chain's blocks. */
  ghost predicate Serves(cl: Client, chain: Chain, low: Height, high: Height) {
    && (forall h: Height :: low < h <= high ==> h in chain)
    && (forall tick, h :: low < h <= high && h in chain ==> cl.fetch(tick, h) == Ok(chain[h]))
  }

  lemma ChainPairPasses(
    c: Crypto, chainId: ChainId, keyOf: Address -> PubKey, o: Options, u: LightBlock, t: LightBlock, now: Time)
    requires WellFormed(c, chainId, keyOf, u.Height(), u) && WellFormed(c, chainId, keyOf, t.Height(), t)
    requires t.Height() < u.Height() && Follows(t, u) && Timely(o, u, now) && Timely(o, t, now)
    ensures PassesAllButPower(c, AsUntrustedState(u), AsTrustedState(t), o, now)
  {
  }

  lemma ChainPairNeverInvalid(
    c: Crypto, chainId: ChainId, keyOf: Address -> PubKey, o: Options, u: LightBlock, t: LightBlock, now: Time)
    requires WellFormed(c, chainId, keyOf, u.Height(), u) && WellFormed(c, chainId, keyOf, t.Height(), t)
    requires t.Height() < u.Height() && Follows(t, u) && Timely(o, u, now) && Timely(o, t, now)
    ensures t.Height() < I64_MAX && !VerifyUpdateHeader(c, AsUntrustedState(u), AsTrustedState(t), o, now).Invalid?
  {
    ChainPairPasses(c, chainId, keyOf, o, u, t, now);
    WellSignedNeverInvalid(c, keyOf, u, t.nextValidators, o.trustThreshold);
    VerdictNotInvalidIff(c, AsUntrustedState(u), AsTrustedState(t), o, now);
  }

  ghost function OfChain(chain: Chain): Property {
    (b: LightBlock) => InChain(chain, b)
  }

  lemma ChainVerifies(
    c: Crypto, chainId: ChainId, keyOf: Address -> PubKey, cl: Client, chain: Chain, since: nat, until: nat)
    requires ProductionVerifier(c, cl) && WellFormedChain(c, chainId, keyOf, cl, chain, since, until)
    ensures VerifiesGood(cl, OfChain(chain), since, until)
  {
    forall u: LightBlock, t: LightBlock, tick |
      since <= tick < until && InChain(chain, u) && InChain(chain, t) && t.Height() < u.Height()
      ensures !cl.verify(u, t, cl.options, cl.clock(tick)).Invalid?
    {
      ChainBlockAt(c, chainId, keyOf, cl, chain, since, until, u, tick);
      ChainBlockAt(c, chainId, keyOf, cl, chain, since, until, t, tick);
      assert Follows(chain[t.Height()], chain[u.Height()]);
      ChainPairNeverInvalid(c, chainId, keyOf, cl.options, u, t, cl.clock(tick));
    }
    forall b, tick | since <= tick < until && InChain(chain, b)
      ensures WithinTrustPeriod(b, cl.options.trustingPeriod, cl.clock(tick))
    {
      ChainBlockAt(c, chainId, keyOf, cl, chain, since, until, b, tick);
    }
  }

  lemma ChainBlockAt(
    c: Crypto, chainId: ChainId, keyOf: Address -> PubKey, cl: Client, chain: Chain, since: nat, until: nat,
    b: LightBlock, tick: nat)
    requires WellFormedChain(c, chainId, keyOf, cl, chain, since, until) && InChain(chain, b) && since <= tick < until
    ensures WellFormed(c, chainId, keyOf, b.Height(), b) && Timely(cl.options, b, cl.clock(tick))
  {
    var h := b.Height();
    assert WellFormed(c, chainId, keyOf, h, chain[h]) && Timely(cl.options, chain[h], cl.clock(tick));
  }

  /**
   With the production verifier and a peer that serves a well-formed chain, every
   call from a chain block upwards ends and returns the chain's block at its
   target, if the chain's blocks are timely until then.
   */
  lemma HonestPeerSuffices(
    c: Crypto, chainId: ChainId, keyOf: Address -> PubKey, cl: Client, chain: Chain, until: nat,
    low: Height, st: State, target: Height)
    requires ProductionVerifier(c, cl) && HonoursHeights(cl)
    requires WellFormedChain(c, chainId, keyOf, cl, chain, st.tick, until) && Serves(cl, chain, low, target)
    requires WellKeyed(st.store) && AllGood(OfChain(chain), st.store) && Believed(st.store, low) && low <= target
    ensures SensibleVerifier(cl)
    ensures var (r, st') := VerifyToTarget(cl, st, target);
            st'.tick <= until ==> target in chain && r == Ok(chain[target])
  {
    var good := OfChain(chain);
    ProductionIsSensible(c, cl);
    if VerifyToTarget(cl, st, target).1.tick <= until {
      ChainVerifies(c, chainId, keyOf, cl, chain, st.tick, until);
      ServesChain(c, chainId, keyOf, cl, chain, st.tick, until, low, target);
      CallSucceeds(cl, good, low, until, st, target);
      DeliveredIsGood(cl, good, st, target);
    }
  }

  lemma ServesChain(
    c: Crypto, chainId: ChainId, keyOf: Address -> PubKey, cl: Client, chain: Chain, since: nat, until: nat,
    low: Height, high: Height)
    requires WellFormedChain(c, chainId, keyOf, cl, chain, since, until)
    requires Serves(cl, chain, low, high)
    ensures ServesGood(cl, OfChain(chain), low, high)
  {
    forall tick, h | low < h <= high
      ensures cl.fetch(tick, h).Ok? && InChain(chain, cl.fetch(tick, h).value)
    {
      assert WellFormed(c, chainId, keyOf, h, chain[h]);
    }
  }

  lemma DeliveredIsGood(cl: Client, good: Property, st: State, target: Height)
    requires HonoursHeights(cl) && SensibleVerifier(cl) && WellKeyed(st.store)
    requires var (r, st') := VerifyToTarget(cl, st, target); r.Ok? && AllGood(good, st'.store)
    ensures good(VerifyToTarget(cl, st, target).0.value)
  {
    VerifyToTargetDelivers(cl, st, target);
    VerifyToTargetKeepsKeys(cl, st, target);
  }
}
