/**
 What every run keeps, whatever the primary answers: the validator sets of a
 trusted or verified block are those its header commits to, and all such
 blocks belong to one chain.  The verifier relies on the first of these for the
 trusted block it is given.
 */
module RunInvariant {
  import opened Common
  import opened Types
  import opened Validators
  import opened Blocks
  import opened Verifier
  import opened LightStores
  import opened LightClient
  import opened BelievedBlocks
  import opened Builder

  /** The client uses the production verifier. */
  ghost predicate ProductionVerifier(c: Crypto, cl: Client) {
    forall u: LightBlock, t: LightBlock, o, now :: t.Height() < I64_MAX ==>
      cl.verify(u, t, o, now) == VerifyUpdateHeader(c, AsUntrustedState(u), AsTrustedState(t), o, now)
  }

  lemma ProductionIsSensible(c: Crypto, cl: Client)
    requires ProductionVerifier(c, cl)
    ensures SensibleVerifier(cl)
  {
    forall u: LightBlock, t: LightBlock, o, now | t.Height() < I64_MAX
      ensures cl.verify(u, t, o, now).Success? ==> u.Height() > t.Height()
      ensures cl.verify(u, t, o, now).NotEnoughTrust? ==> u.Height() > t.Height() + 1
    {
      var us, ts := AsUntrustedState(u), AsTrustedState(t);
      VerdictSuccessIff(c, us, ts, o, now);
      if cl.verify(u, t, o, now).NotEnoughTrust? {
        NotEnoughTrustMeansSkipping(c, us, ts, o, now);
      }
    }
  }

  /** The validator sets carried by a block are those of its header. */
  ghost predicate SetsMatch(c: Crypto, b: LightBlock) {
    && b.Header().validatorsHash == HashOf(c, b.validators.validators)
    && b.Header().nextValidatorsHash == HashOf(c, b.nextValidators.validators)
  }

  /** The property of believed blocks that every run keeps. */
  ghost function Matching(c: Crypto, chainId: ChainId): Property {
    (b: LightBlock) => SetsMatch(c, b) && b.Header().chainId == chainId
  }

  /** Blocks are not restricted. */
  ghost function Anything(): Supply {
    (_, _) => true
  }

  lemma AcceptedBlockMatches(c: Crypto, u: LightBlock, t: LightBlock, o: Options, now: Time)
    requires t.Height() < I64_MAX
    requires VerifyUpdateHeader(c, AsUntrustedState(u), AsTrustedState(t), o, now).Success?
    ensures SetsMatch(c, u) && u.Header().chainId == t.Header().chainId
  {
    VerdictSuccessIff(c, AsUntrustedState(u), AsTrustedState(t), o, now);
  }

  lemma MatchingPassesOn(c: Crypto, cl: Client, chainId: ChainId)
    requires ProductionVerifier(c, cl)
    ensures PassesOn(cl, Matching(c, chainId), Anything())
  {
    forall u: LightBlock, t: LightBlock, now: Time |
      && t.Height() < I64_MAX && Matching(c, chainId)(t)
      && cl.verify(u, t, cl.options, now).Success?
      ensures Matching(c, chainId)(u)
    {
      AcceptedBlockMatches(c, u, t, cl.options, now);
    }
  }

  /** All trusted or verified blocks match their headers and have this chain id. */
  ghost predicate AllMatch(c: Crypto, chainId: ChainId, s: StoreMap) {
    forall h: Height :: Believed(s, h) ==>
      SetsMatch(c, s[h].lightBlock) && s[h].lightBlock.Header().chainId == chainId
  }

  /** So before a round and after it, and the block it verifies against is as the verifier demands. */
  ghost predicate MatchAround(c: Crypto, chainId: ChainId, cl: Client, m: Moment) {
    && AllMatch(c, chainId, m.state.store)
    && AllMatch(c, chainId, After(cl, m.state, m.current, m.target).store)
    && var t := HighestTrustedOrVerifiedBefore(m.state.store, m.target);
       t.Some? ==>
         && HashOf(c, t.value.nextValidators.validators) == t.value.Header().nextValidatorsHash
         && t.value.Header().chainId == chainId
  }

  /**
   At every round of any calls on any built client, and after the calls, the
   validator sets of each trusted or verified block hash to the values in its
   header, and all these blocks have the chain id of the first.  So every round
   is given such a block to verify against, as the verifier demands.
   */
  lemma InvariantInEveryRun(c: Crypto, cl: Client, trusted: LightBlock, targets: seq<Height>)
    requires HonoursHeights(cl) && ProductionVerifier(c, cl)
    requires TrustLightBlock(c, cl, EMPTY_STATE, trusted).Ok?
    ensures SensibleVerifier(cl)
    ensures var st := TrustLightBlock(c, cl, EMPTY_STATE, trusted).value;
            var chainId := trusted.Header().chainId;
            && WellKeyed(st.store)
            && AllMatch(c, chainId, Run(cl, st, targets).store)
            && var ms := RunRounds(cl, st, targets);
               forall i :: 0 <= i < |ms| ==> MatchAround(c, chainId, cl, ms[i])
  {
    var chainId := trusted.Header().chainId;
    var good, have := Matching(c, chainId), Anything();
    ProductionIsSensible(c, cl);
    BuiltStateIff(c, cl, trusted);
    MatchingPassesOn(c, cl, chainId);
    var st := TrustLightBlock(c, cl, EMPTY_STATE, trusted).value;
    HoldsInEveryRun(cl, good, have, st, targets);
    var ms := RunRounds(cl, st, targets);
    forall i | 0 <= i < |ms|
      ensures MatchAround(c, chainId, cl, ms[i])
    {
      HoldsAtEveryRound(cl, good, have, st, targets, i);
    }
  }
}
