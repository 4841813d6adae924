/** What each error of the verifier says, and that no earlier check has failed. */
module Verdicts {
  import opened Common
  import opened Types
  import opened Validators
  import opened TrustThresholds
  import opened Blocks
  import opened VotingPower
  import opened Verifier

  // ---- Errors of the tally -------------------------------------------------

  /** The slot holds a vote for the block under this address. */
  ghost predicate NamesAt(sh: SignedHeader, i: nat, a: Address) {
    var sigs := sh.commit.signatures;
    i < |sigs| && sigs[i].CommitSigFor? && sigs[i].address == a
  }

  /** Two slots do. */
  ghost predicate VotesTwice(sh: SignedHeader, a: Address) {
    exists i, j :: i < j && NamesAt(sh, i, a) && NamesAt(sh, j, a)
  }

  ghost predicate LacksSignature(sh: SignedHeader) {
    var sigs := sh.commit.signatures;
    exists i :: 0 <= i < |sigs| && sigs[i].CommitSigFor? && sigs[i].signature.None?
  }

  lemma SignedIffNoneLacks(sh: SignedHeader)
    ensures var slots := CommitSlots(sh.commit.signatures, |sh.commit.signatures|);
            AllSigned(sh.commit.signatures, slots) <==> !LacksSignature(sh)
  {
    var sigs := sh.commit.signatures;
    var slots := CommitSlots(sigs, |sigs|);
    if LacksSignature(sh) {
      var i :| 0 <= i < |sigs| && sigs[i].CommitSigFor? && sigs[i].signature.None?;
      assert i in slots;
      var k :| 0 <= k < |slots| && slots[k] == i;
      assert !SlotSigned(sigs, slots[k]);
    } else {
      forall k | 0 <= k < |slots|
        ensures SlotSigned(sigs, slots[k])
      {
      }
    }
  }

  lemma SlotOfVote(sh: SignedHeader, votes: seq<SignedVote>, k: nat)
    requires VotesOfAll(sh, CommitSlots(sh.commit.signatures, |sh.commit.signatures|), votes) && k < |votes|
    ensures NamesAt(sh, CommitSlots(sh.commit.signatures, |sh.commit.signatures|)[k], votes[k].validatorAddress)
  {
    var slots := CommitSlots(sh.commit.signatures, |sh.commit.signatures|);
    assert VoteOfSlot(sh, slots[k], votes[k]);
  }

  lemma VoteOfNamed(sh: SignedHeader, votes: seq<SignedVote>, i: nat, a: Address) returns (k: nat)
    requires VotesOfAll(sh, CommitSlots(sh.commit.signatures, |sh.commit.signatures|), votes) && NamesAt(sh, i, a)
    ensures k < |votes| && votes[k].validatorAddress == a
    ensures CommitSlots(sh.commit.signatures, |sh.commit.signatures|)[k] == i
  {
    var slots := CommitSlots(sh.commit.signatures, |sh.commit.signatures|);
    assert i in slots;
    k :| 0 <= k < |slots| && slots[k] == i;
    assert VoteOfSlot(sh, slots[k], votes[k]);
  }

  lemma RepeatedVotesTwice(sh: SignedHeader, votes: seq<SignedVote>, k: nat, m: nat)
    requires VotesOfAll(sh, CommitSlots(sh.commit.signatures, |sh.commit.signatures|), votes)
    requires k < m < |votes| && votes[k].validatorAddress == votes[m].validatorAddress
    ensures VotesTwice(sh, votes[k].validatorAddress)
  {
    SlotOfVote(sh, votes, k);
    SlotOfVote(sh, votes, m);
  }

  lemma RepeatedIffVotesTwice(sh: SignedHeader, votes: seq<SignedVote>, a: Address)
    requires VotesOfAll(sh, CommitSlots(sh.commit.signatures, |sh.commit.signatures|), votes)
    ensures a in DuplicatedAddresses(votes) <==> VotesTwice(sh, a)
  {
    if a in DuplicatedAddresses(votes) {
      var k :| 0 <= k < |votes| && DuplicateAt(votes, k) && votes[k].validatorAddress == a;
      var m :| 0 <= m < |votes| && m != k && votes[m].validatorAddress == votes[k].validatorAddress;
      RepeatedVotesTwice(sh, votes, if k < m then k else m, if k < m then m else k);
    }
    if VotesTwice(sh, a) {
      var i, j :| i < j && NamesAt(sh, i, a) && NamesAt(sh, j, a);
      var k := VoteOfNamed(sh, votes, i, a);
      var m := VoteOfNamed(sh, votes, j, a);
      assert DuplicateAt(votes, k);
    }
  }

  /**
   The votes of a commit: an error if a signature is missing, or else if an
   address votes twice, naming the least such address.
   */
  lemma VotesAre(sh: SignedHeader)
    ensures var r := NonAbsentVotes(sh);
            && (LacksSignature(sh) <==> r == Err(MissingSignature))
            && (r.Ok? <==> !LacksSignature(sh) && forall a :: !VotesTwice(sh, a))
            && (forall a :: r == Err(DuplicateValidator(a)) <==>
                  !LacksSignature(sh) && VotesTwice(sh, a) && forall b :: VotesTwice(sh, b) ==> a <= b)
            && (r.Ok? ==> VotesOfAll(sh, CommitSlots(sh.commit.signatures, |sh.commit.signatures|), r.value))
  {
    var n := |sh.commit.signatures|;
    VotesOfSlots(sh, n);
    SignedIffNoneLacks(sh);
    if !LacksSignature(sh) {
      var votes := CollectVotes(sh, n).value;
      forall a
        ensures a in DuplicatedAddresses(votes) <==> VotesTwice(sh, a)
      {
        RepeatedIffVotesTwice(sh, votes, a);
      }
    }
  }

  /** The tally of a set for a commit's votes is an error exactly if a vote that it gets to is invalid. */
  ghost predicate TallyFails(
    c: Crypto, votes: seq<SignedVote>, vs: ValidatorSet, t: TrustThreshold, e: VerificationError)
  {
    var vals := ByFirstKey(vs.validators);
    exists i :: StopsAt(c, votes, vals, Tally(SumPower(vs.validators), 0, t), 0, i, Err(e))
  }

  /** It is this tally exactly if the loop stops with it. */
  ghost predicate TallyEnds(c: Crypto, votes: seq<SignedVote>, vs: ValidatorSet, t: TrustThreshold, tally: Tally) {
    var vals := ByFirstKey(vs.validators);
    exists i :: StopsAt(c, votes, vals, Tally(SumPower(vs.validators), 0, t), 0, i, Ok(tally))
  }

  /** What a tally over all votes ends with. */
  lemma CountIs(c: Crypto, votes: seq<SignedVote>, vs: ValidatorSet, t: TrustThreshold)
    ensures match Count(c, votes, {}, vs, t).result
            case Err(e) => TallyFails(c, votes, vs, t, e)
            case Ok(tally) => TallyEnds(c, votes, vs, t, tally)
  {
    var vals := ByFirstKey(vs.validators);
    CountedByFirstKey(c, votes, vs, t);
    assert vals[..0] == [];
    var i := UncachedStops(c, votes, vals, 0, Tally(SumPower(vs.validators), 0, t));
  }

  // ---- Errors of the verdict -----------------------------------------------

  /** The slot is not empty, and its address is not in the set. */
  ghost predicate UnknownAt(sh: SignedHeader, vs: ValidatorSet, i: nat) {
    i < |sh.commit.signatures| && !sh.commit.signatures[i].AbsentSig?
    && !HasAddress(vs, sh.commit.signatures[i].address)
  }

  /** Why the commit does not fit the validator set. */
  ghost predicate CommitIsWrong(sh: SignedHeader, vs: ValidatorSet, e: VerificationError) {
    var sigs := sh.commit.signatures;
    var present := exists i :: 0 <= i < |sigs| && !sigs[i].AbsentSig?;
    match e
    case NoSignatureForCommit => !present
    case MismatchPreCommitLength(slots, validators) => present && slots == |sigs| != validators == |vs.validators|
    case FaultySigner(signer, set_) =>
      && present && |sigs| == |vs.validators| && set_ == vs
      && exists i: nat :: UnknownAt(sh, vs, i) && sigs[i].address == signer
                          && forall j :: 0 <= j < i ==> !UnknownAt(sh, vs, j)
    case _ => false
  }

  /** Why the block itself is not in order. */
  ghost predicate BlockIsWrong(c: Crypto, u: UntrustedBlockState, e: VerificationError) {
    var header := u.signedHeader.header;
    var validatorsOk := header.validatorsHash == HashOf(c, u.validators.validators);
    var nextOk := u.nextValidators.Some? ==> header.nextValidatorsHash == HashOf(c, u.nextValidators.value.validators);
    match e
    case InvalidValidatorSet(named, found) =>
      named == header.validatorsHash != found == HashOf(c, u.validators.validators)
    case InvalidNextValidatorSet(named, found) =>
      && validatorsOk && u.nextValidators.Some?
      && named == header.nextValidatorsHash != found == HashOf(c, u.nextValidators.value.validators)
    case InvalidCommitValue(found, named) =>
      validatorsOk && nextOk && found == HeaderHash(c, header) != named == u.signedHeader.commit.blockId.hash
    case _ => HashesMatch(c, u) && CommitIsWrong(u.signedHeader, u.validators, e)
  }

  lemma {:induction false} FaultySignerIs(sh: SignedHeader, vs: ValidatorSet, k: nat) returns (i: nat)
    requires k <= |sh.commit.signatures| && AllSignersKnown(sh.commit.signatures, vs, k).Err?
    ensures k <= i && UnknownAt(sh, vs, i) && forall j :: k <= j < i ==> !UnknownAt(sh, vs, j)
    ensures AllSignersKnown(sh.commit.signatures, vs, k) == Err(FaultySigner(sh.commit.signatures[i].address, vs))
    decreases |sh.commit.signatures| - k
  {
    i := k;
    if !UnknownAt(sh, vs, k) {
      i := FaultySignerIs(sh, vs, k + 1);
    }
  }

  lemma CommitErrorIs(sh: SignedHeader, vs: ValidatorSet)
    ensures var r := ValidCommit(sh, vs); r.Err? ==> CommitIsWrong(sh, vs, r.error)
  {
    ValidCommitIff(sh, vs);
    if AllSignersKnown(sh.commit.signatures, vs, 0).Err? {
      var i := FaultySignerIs(sh, vs, 0);
    }
  }

  lemma HashErrorIs(c: Crypto, u: UntrustedBlockState)
    requires !HashesMatch(c, u)
    ensures var v := VerifyValidatorSets(c, u); v.Invalid? && BlockIsWrong(c, u, v.error)
  {
  }

  lemma PastHashes(c: Crypto, u: UntrustedBlockState)
    requires HashesMatch(c, u)
    ensures VerifyValidatorSets(c, u) == ToVerdict(ValidCommit(u.signedHeader, u.validators))
  {
  }

  lemma BlockErrorIs(c: Crypto, u: UntrustedBlockState)
    requires !VerifyValidatorSets(c, u).Success?
    ensures var v := VerifyValidatorSets(c, u); v.Invalid? && BlockIsWrong(c, u, v.error)
  {
    if HashesMatch(c, u) {
      PastHashes(c, u);
      CommitErrorIs(u.signedHeader, u.validators);
    } else {
      HashErrorIs(c, u);
    }
  }

  /** Why the block does not follow the trusted one. */
  ghost predicate DoesNotFollow(
    u: UntrustedBlockState, t: TrustedBlockState, o: Options, now: Time, e: VerificationError)
  {
    var header := u.signedHeader.header;
    var expiry, latest := t.headerTime + o.trustingPeriod, now + o.clockDrift;
    var inPeriod := now < expiry <= MAX_TIME;
    var later := t.headerTime < header.time;
    var sameChain := header.chainId == t.chainId;
    var heightOk := if header.height == t.height + 1 then header.validatorsHash == t.nextValidatorsHash
                    else t.height < header.height;
    match e
    case TimeOutOfRange => expiry > MAX_TIME || (inPeriod && later && sameChain && heightOk && latest > MAX_TIME)
    case NotWithinTrustPeriod(expiresAt, at) => expiresAt == expiry <= MAX_TIME && expiry <= now == at
    case NonMonotonicBftTime(time, trusted) => inPeriod && time == header.time <= trusted == t.headerTime
    case ChainIdMismatch(got, expected) => inPeriod && later && got == header.chainId != expected == t.chainId
    case InvalidNextValidatorSet(got, expected) =>
      && inPeriod && later && sameChain && header.height == t.height + 1
      && got == header.validatorsHash != expected == t.nextValidatorsHash
    case NonIncreasingHeight(got, expected) =>
      inPeriod && later && sameChain && got == header.height <= t.height && expected == t.height + 1
    case HeaderFromTheFuture(time, at, drift) =>
      && inPeriod && later && sameChain && heightOk && latest <= MAX_TIME
      && time == header.time >= latest && at == now && drift == o.clockDrift
    case _ => false
  }

  lemma FollowingErrorIs(u: UntrustedBlockState, t: TrustedBlockState, o: Options, now: Time)
    requires t.height < I64_MAX
    ensures var v := ValidateAgainstTrusted(u, t, o, now);
            !v.Success? ==> v.Invalid? && DoesNotFollow(u, t, o, now, v.error)
    ensures var v, w := ValidateAgainstTrusted(u, t, o, now), CheckHeaderIsFromPast(u, o, now);
            v.Success? && !w.Success? ==> w.Invalid? && DoesNotFollow(u, t, o, now, w.error)
  {
  }

  /** The votes or the tally are in error, or the tally is not enough. */
  ghost predicate LacksSigners(c: Crypto, sh: SignedHeader, vs: ValidatorSet, e: VerificationError) {
    match NonAbsentVotes(sh)
    case Err(error) => e == error
    case Ok(votes) =>
      if e.InsufficientSignersOverlap?
      then TallyEnds(c, votes, vs, TWO_THIRDS, e.tally) && !e.tally.Enough()
      else TallyFails(c, votes, vs, TWO_THIRDS, e)
  }

  lemma AdjacentPowerErrorIs(c: Crypto, sh: SignedHeader, vs: ValidatorSet)
    ensures var r := CheckSignersOverlap(c, sh, vs);
            && (r.Err? ==> LacksSigners(c, sh, vs, r.error))
            && (r.Ok? ==>
                  && NonAbsentVotes(sh).Ok?
                  && exists t :: TallyEnds(c, NonAbsentVotes(sh).value, vs, TWO_THIRDS, t) && t.Enough())
  {
    if NonAbsentVotes(sh).Ok? {
      CountIs(c, NonAbsentVotes(sh).value, vs, TWO_THIRDS);
    }
  }

  /**
   Over a gap: the trusted validators are counted first, then the block's own
   with the votes that were checked, and only then is either tally compared.
   */
  lemma SkippingPowerErrorIs(
    c: Crypto, sh: SignedHeader, trusted: ValidatorSet, t: TrustThreshold, untrusted: ValidatorSet)
    requires FirstKeysMatch(trusted.validators, untrusted.validators)
    ensures var r := CheckEnoughTrustAndSigners(c, sh, trusted, t, untrusted);
            match NonAbsentVotes(sh)
            case Err(e) => r == Err(e)
            case Ok(votes) =>
              var one, two := Count(c, votes, {}, trusted, t).result, Count(c, votes, {}, untrusted, TWO_THIRDS).result;
              r == if one.Err? then Err(one.error)
                   else if two.Err? then Err(two.error)
                   else if !one.value.Enough() then Err(NotEnoughTrustError(one.value))
                   else if !two.value.Enough() then Err(InsufficientSignersOverlap(two.value))
                   else Ok(())
  {
    SharedCacheIsEquivalent(c, sh, trusted, t, untrusted, TWO_THIRDS);
  }

  ghost predicate BlockInOrder(c: Crypto, u: UntrustedBlockState) {
    HashesMatch(c, u) && CommitFitsSet(u.signedHeader, u.validators)
  }

  lemma NotFollowing(c: Crypto, u: UntrustedBlockState, t: TrustedBlockState, o: Options, now: Time)
    requires t.height < I64_MAX && VerifyUpdateHeader(c, u, t, o, now).Invalid?
    requires VerifyValidatorSets(c, u).Success? && !Succeeds(u, t, o, now)
    ensures DoesNotFollow(u, t, o, now, VerifyUpdateHeader(c, u, t, o, now).error)
  {
    AgainstTrustedIff(u, t, o, now);
    FollowingErrorIs(u, t, o, now);
  }

  lemma LackingPower(c: Crypto, u: UntrustedBlockState, t: TrustedBlockState, o: Options, now: Time)
    requires t.height < I64_MAX && VerifyUpdateHeader(c, u, t, o, now).Invalid?
    requires VerifyValidatorSets(c, u).Success? && Succeeds(u, t, o, now)
    ensures var e := VerifyUpdateHeader(c, u, t, o, now).error;
            && PowerCheck(c, u, t, o) == Err(e)
            && (u.Height() == t.height + 1 ==> LacksSigners(c, u.signedHeader, u.validators, e))
  {
    AgainstTrustedIff(u, t, o, now);
    AdjacentPowerErrorIs(c, u.signedHeader, u.validators);
  }

  /** An error of the verdict is about the block itself, or else about how it follows, or else about voting power. */
  lemma VerdictExplained(c: Crypto, u: UntrustedBlockState, t: TrustedBlockState, o: Options, now: Time)
    requires t.height < I64_MAX && VerifyUpdateHeader(c, u, t, o, now).Invalid?
    ensures var e := VerifyUpdateHeader(c, u, t, o, now).error;
            if !BlockInOrder(c, u) then BlockIsWrong(c, u, e)
            else if !Succeeds(u, t, o, now) then DoesNotFollow(u, t, o, now, e)
            else PowerCheck(c, u, t, o) == Err(e)
                 && (u.Height() == t.height + 1 ==> LacksSigners(c, u.signedHeader, u.validators, e))
  {
    ValidatorSetsIff(c, u);
    if !BlockInOrder(c, u) {
      BlockErrorIs(c, u);
    } else if !Succeeds(u, t, o, now) {
      NotFollowing(c, u, t, o, now);
    } else {
      LackingPower(c, u, t, o, now);
    }
  }
}
