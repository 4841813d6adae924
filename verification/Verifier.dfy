/** The predicates and the verifier of the light-client-verifier crate. */
module Verifier {
  import opened Common
  import opened Types
  import opened Validators
  import opened TrustThresholds
  import opened Blocks
  import opened VotingPower

  datatype UntrustedBlockState = UntrustedBlockState(
    signedHeader: SignedHeader,
    validators: ValidatorSet,
    nextValidators: Option<ValidatorSet>)
  {
    function Height(): Height { signedHeader.header.height }
  }

  datatype TrustedBlockState = TrustedBlockState(
    chainId: ChainId,
    headerTime: Time,
    height: Height,
    nextValidators: ValidatorSet,
    nextValidatorsHash: Hash)

  function AsUntrustedState(b: LightBlock): UntrustedBlockState {
    UntrustedBlockState(b.signedHeader, b.validators, Some(b.nextValidators))
  }

  function AsTrustedState(b: LightBlock): TrustedBlockState {
    var h := b.Header();
    TrustedBlockState(h.chainId, h.time, h.height, b.nextValidators, h.nextValidatorsHash)
  }

  // ---- Predicates ----------------------------------------------------------

  function ValidatorSetsMatch(c: Crypto, vs: ValidatorSet, headerHash: Hash): Check {
    var hash := HashOf(c, vs.validators);
    if headerHash == hash then Ok(()) else Err(InvalidValidatorSet(headerHash, hash))
  }

  function NextValidatorsMatch(c: Crypto, vs: ValidatorSet, headerHash: Hash): Check {
    var hash := HashOf(c, vs.validators);
    if headerHash == hash then Ok(()) else Err(InvalidNextValidatorSet(headerHash, hash))
  }

  function HeaderMatchesCommit(c: Crypto, h: Header, commitHash: Hash): Check {
    var hash := HeaderHash(c, h);
    if hash == commitHash then Ok(()) else Err(InvalidCommitValue(hash, commitHash))
  }

  predicate HasPresentSignature(signatures: seq<CommitSig>) {
    exists i :: 0 <= i < |signatures| && !signatures[i].AbsentSig?
  }

  predicate HasAddress(vs: ValidatorSet, address: Address) {
    exists i :: 0 <= i < |vs.validators| && vs.validators[i].address == address
  }

  /** The first signature from `k` on whose address is not in the set is an error. */
  function AllSignersKnown(signatures: seq<CommitSig>, vs: ValidatorSet, k: nat): Check
    requires k <= |signatures|
    decreases |signatures| - k
  {
    if k == |signatures| then Ok(())
    else if signatures[k].AbsentSig? || HasAddress(vs, signatures[k].address)
    then AllSignersKnown(signatures, vs, k + 1)
    else Err(FaultySigner(signatures[k].address, vs))
  }

  function ValidCommit(sh: SignedHeader, vs: ValidatorSet): Check {
    var signatures := sh.commit.signatures;
    if !HasPresentSignature(signatures) then Err(NoSignatureForCommit)
    else if |signatures| != |vs.validators| then
      Err(MismatchPreCommitLength(|signatures|, |vs.validators|))
    else AllSignersKnown(signatures, vs, 0)
  }

  function IsWithinTrustPeriod(trustedTime: Time, period: Duration, now: Time): Check {
    match AddDuration(trustedTime, period)
    case None => Err(TimeOutOfRange)
    case Some(expiresAt) => if expiresAt > now then Ok(()) else Err(NotWithinTrustPeriod(expiresAt, now))
  }

  function IsHeaderFromPast(headerTime: Time, drift: Duration, now: Time): Check {
    match AddDuration(now, drift)
    case None => Err(TimeOutOfRange)
    case Some(drifted) => if headerTime < drifted then Ok(()) else Err(HeaderFromTheFuture(headerTime, now, drift))
  }

  function IsMonotonicBftTime(untrustedTime: Time, trustedTime: Time): Check {
    if untrustedTime > trustedTime then Ok(()) else Err(NonMonotonicBftTime(untrustedTime, trustedTime))
  }

  function IsMonotonicHeight(untrusted: Height, trusted: Height): Check
    requires trusted < I64_MAX
  {
    if untrusted > trusted then Ok(()) else Err(NonIncreasingHeight(untrusted, Increment(trusted)))
  }

  function IsMatchingChainId(untrusted: ChainId, trusted: ChainId): Check {
    if untrusted == trusted then Ok(()) else Err(ChainIdMismatch(untrusted, trusted))
  }

  function ValidNextValidatorSet(untrustedHash: Hash, trustedNextHash: Hash): Check {
    if trustedNextHash == untrustedHash then Ok(()) else Err(InvalidNextValidatorSet(untrustedHash, trustedNextHash))
  }

  // ---- The verifier --------------------------------------------------------

  function ToVerdict(check: Check): Verdict {
    match check
    case Ok(_) => Success
    case Err(NotEnoughTrustError(tally)) => NotEnoughTrust(tally)
    case Err(e) => Invalid(e)
  }

  function VerifyValidatorSets(c: Crypto, u: UntrustedBlockState): Verdict {
    var header := u.signedHeader.header;
    var current := ToVerdict(ValidatorSetsMatch(c, u.validators, header.validatorsHash));
    if !current.Success? then current else
    var next := if u.nextValidators.None? then Success
                else ToVerdict(NextValidatorsMatch(c, u.nextValidators.value, header.nextValidatorsHash));
    if !next.Success? then next else
    var matches := ToVerdict(HeaderMatchesCommit(c, header, u.signedHeader.commit.blockId.hash));
    if !matches.Success? then matches else
    ToVerdict(ValidCommit(u.signedHeader, u.validators))
  }

  function ValidateAgainstTrusted(u: UntrustedBlockState, t: TrustedBlockState, o: Options, now: Time): Verdict
    requires t.height < I64_MAX
  {
    var header := u.signedHeader.header;
    var inPeriod := ToVerdict(IsWithinTrustPeriod(t.headerTime, o.trustingPeriod, now));
    if !inPeriod.Success? then inPeriod else
    var later := ToVerdict(IsMonotonicBftTime(header.time, t.headerTime));
    if !later.Success? then later else
    var chain := ToVerdict(IsMatchingChainId(header.chainId, t.chainId));
    if !chain.Success? then chain else
    if u.Height() == Increment(t.height)
    then ToVerdict(ValidNextValidatorSet(header.validatorsHash, t.nextValidatorsHash))
    else ToVerdict(IsMonotonicHeight(header.height, t.height))
  }

  function CheckHeaderIsFromPast(u: UntrustedBlockState, o: Options, now: Time): Verdict {
    ToVerdict(IsHeaderFromPast(u.signedHeader.header.time, o.clockDrift, now))
  }

  function VerifyCommitAgainstTrusted(c: Crypto, u: UntrustedBlockState, t: TrustedBlockState, o: Options): Verdict
    requires t.height < I64_MAX
  {
    if u.Height() != Increment(t.height)
    then ToVerdict(CheckEnoughTrustAndSigners(c, u.signedHeader, t.nextValidators, o.trustThreshold, u.validators))
    else ToVerdict(CheckSignersOverlap(c, u.signedHeader, u.validators))
  }

  function VerifyUpdateHeader(c: Crypto, u: UntrustedBlockState, t: TrustedBlockState, o: Options, now: Time): Verdict
    requires t.height < I64_MAX
  {
    var sets := VerifyValidatorSets(c, u);
    if !sets.Success? then sets else
    var against := ValidateAgainstTrusted(u, t, o, now);
    if !against.Success? then against else
    var past := CheckHeaderIsFromPast(u, o, now);
    if !past.Success? then past else
    VerifyCommitAgainstTrusted(c, u, t, o)
  }

  // ---- What a verdict means ------------------------------------------------

  /** The hashes in the header are those of the validator sets and of the header itself. */
  ghost predicate HashesMatch(c: Crypto, u: UntrustedBlockState) {
    var header := u.signedHeader.header;
    && header.validatorsHash == HashOf(c, u.validators.validators)
    && (u.nextValidators.Some? ==> header.nextValidatorsHash == HashOf(c, u.nextValidators.value.validators))
    && u.signedHeader.commit.blockId.hash == HeaderHash(c, header)
  }

  /** Every slot of the commit belongs to the set: one slot per validator, one present, all known. */
  ghost predicate CommitFitsSet(sh: SignedHeader, vs: ValidatorSet) {
    var signatures := sh.commit.signatures;
    && |signatures| == |vs.validators|
    && (exists i :: 0 <= i < |signatures| && !signatures[i].AbsentSig?)
    && (forall i :: 0 <= i < |signatures| && !signatures[i].AbsentSig? ==> HasAddress(vs, signatures[i].address))
  }

  lemma {:induction false} AllSignersKnownIff(signatures: seq<CommitSig>, vs: ValidatorSet, k: nat)
    requires k <= |signatures|
    ensures AllSignersKnown(signatures, vs, k).Ok? <==>
            forall i :: k <= i < |signatures| && !signatures[i].AbsentSig? ==> HasAddress(vs, signatures[i].address)
    ensures AllSignersKnown(signatures, vs, k).Err? ==> AllSignersKnown(signatures, vs, k).error.FaultySigner?
    decreases |signatures| - k
  {
    if k < |signatures| {
      AllSignersKnownIff(signatures, vs, k + 1);
    }
  }

  lemma ValidCommitIff(sh: SignedHeader, vs: ValidatorSet)
    ensures ToVerdict(ValidCommit(sh, vs)).Success? <==> CommitFitsSet(sh, vs)
    ensures !ToVerdict(ValidCommit(sh, vs)).NotEnoughTrust?
  {
    AllSignersKnownIff(sh.commit.signatures, vs, 0);
  }

  /** The untrusted header comes after the trusted one, in time, and while that is still trusted. */
  ghost predicate Succeeds(u: UntrustedBlockState, t: TrustedBlockState, o: Options, now: Time) {
    var header := u.signedHeader.header;
    && now < t.headerTime + o.trustingPeriod <= MAX_TIME
    && t.headerTime < header.time < now + o.clockDrift <= MAX_TIME
    && t.height < header.height
    && header.chainId == t.chainId
    && (header.height == t.height + 1 ==> header.validatorsHash == t.nextValidatorsHash)
  }

  /** The voting-power check that applies: both sets when heights are skipped, else the new set alone. */
  ghost function PowerCheck(c: Crypto, u: UntrustedBlockState, t: TrustedBlockState, o: Options): Check {
    if u.Height() != t.height + 1
    then CheckEnoughTrustAndSigners(c, u.signedHeader, t.nextValidators, o.trustThreshold, u.validators)
    else CheckSignersOverlap(c, u.signedHeader, u.validators)
  }

  ghost predicate PassesAllButPower(c: Crypto, u: UntrustedBlockState, t: TrustedBlockState, o: Options, now: Time) {
    HashesMatch(c, u) && CommitFitsSet(u.signedHeader, u.validators) && Succeeds(u, t, o, now)
  }

  lemma ValidatorSetsIff(c: Crypto, u: UntrustedBlockState)
    ensures VerifyValidatorSets(c, u).Success? <==> HashesMatch(c, u) && CommitFitsSet(u.signedHeader, u.validators)
    ensures !VerifyValidatorSets(c, u).NotEnoughTrust?
  {
    ValidCommitIff(u.signedHeader, u.validators);
  }

  lemma AgainstTrustedIff(u: UntrustedBlockState, t: TrustedBlockState, o: Options, now: Time)
    requires t.height < I64_MAX
    ensures ValidateAgainstTrusted(u, t, o, now).Success? && CheckHeaderIsFromPast(u, o, now).Success?
            <==> Succeeds(u, t, o, now)
    ensures !ValidateAgainstTrusted(u, t, o, now).NotEnoughTrust?
    ensures !CheckHeaderIsFromPast(u, o, now).NotEnoughTrust?
  {
  }

  /** The verdict is Success exactly when every condition holds. */
  lemma VerdictSuccessIff(c: Crypto, u: UntrustedBlockState, t: TrustedBlockState, o: Options, now: Time)
    requires t.height < I64_MAX
    ensures VerifyUpdateHeader(c, u, t, o, now).Success?
            <==> PassesAllButPower(c, u, t, o, now) && PowerCheck(c, u, t, o).Ok?
  {
    ValidatorSetsIff(c, u);
    AgainstTrustedIff(u, t, o, now);
  }

  /** The block is not invalid exactly when all that can be wrong is a lack of trust. */
  lemma VerdictNotInvalidIff(c: Crypto, u: UntrustedBlockState, t: TrustedBlockState, o: Options, now: Time)
    requires t.height < I64_MAX
    ensures !VerifyUpdateHeader(c, u, t, o, now).Invalid?
            <==> && PassesAllButPower(c, u, t, o, now)
                 && (PowerCheck(c, u, t, o).Ok? || PowerCheck(c, u, t, o).error.NotEnoughTrustError?)
  {
    ValidatorSetsIff(c, u);
    AgainstTrustedIff(u, t, o, now);
  }

  lemma SignersOverlapNeverLacksTrust(c: Crypto, sh: SignedHeader, vs: ValidatorSet)
    ensures !ToVerdict(CheckSignersOverlap(c, sh, vs)).NotEnoughTrust?
  {
    match NonAbsentVotes(sh)
    case Err(_) =>
      CollectErrorsAreMissingSignatures(sh, |sh.commit.signatures|);
    case Ok(votes) =>
      var vals := vs.validators;
      CountErrorsAreSignatures(c, votes, {}, vals, 0, Tally(SumPower(vals), 0, TWO_THIRDS));
  }

  lemma {:induction false} CollectErrorsAreMissingSignatures(sh: SignedHeader, n: nat)
    requires n <= |sh.commit.signatures|
    ensures CollectVotes(sh, n).Err? ==> CollectVotes(sh, n).error.MissingSignature?
  {
    if n > 0 {
      CollectErrorsAreMissingSignatures(sh, n - 1);
    }
  }

  lemma {:induction false} CountErrorsAreSignatures(
    c: Crypto, votes: seq<SignedVote>, checked: set<Address>, vals: seq<Info>, k: nat, tally: Tally)
    requires k <= |vals|
    ensures var r := CountFrom(c, votes, checked, vals, k, tally).result;
            r.Err? ==> r.error.InvalidSignature?
    decreases |vals| - k
  {
    if k < |vals| {
      match HasVoted(c, votes, checked, vals[k])
      case Err(_) =>
      case Ok(false) =>
        CountErrorsAreSignatures(c, votes, checked, vals, k + 1, tally);
      case Ok(true) =>
        var tally' := tally.(tallied := tally.tallied + vals[k].power);
        if !tally'.Enough() {
          CountErrorsAreSignatures(c, votes, checked + {vals[k].address}, vals, k + 1, tally');
        }
    }
  }

  /**
   Lacking trust is only ever reported for a block that passes every other
   check and skips at least one height.
   */
  lemma NotEnoughTrustMeansSkipping(c: Crypto, u: UntrustedBlockState, t: TrustedBlockState, o: Options, now: Time)
    requires t.height < I64_MAX
    requires VerifyUpdateHeader(c, u, t, o, now).NotEnoughTrust?
    ensures PassesAllButPower(c, u, t, o, now) && u.Height() > t.height + 1
  {
    ValidatorSetsIff(c, u);
    AgainstTrustedIff(u, t, o, now);
    SignersOverlapNeverLacksTrust(c, u.signedHeader, u.validators);
  }
}
