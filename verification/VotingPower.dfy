/**
 What the tally of light-client-verifier/src/operations/voting_power.rs
 computes, stated with linear lookup in the commit and a set of addresses whose
 signatures need no second check.  `CommitVotes.dfy` has the sorting, searching
 and flag-setting form of the same computation.
 */
module VotingPower {
  import opened Common
  import opened Extrema
  import opened Types
  import opened Validators
  import opened TrustThresholds
  import opened Blocks

  /** The signed vote of a commit signature, unless it is absent or for nil. */
  function VoteOf(sig: CommitSig, commit: Commit, chainId: ChainId): Option<Result<SignedVote, VerificationError>> {
    match sig
    case AbsentSig => None
    case NilSig(_, _, _) => None
    case CommitSigFor(address, timestamp, None) => Some(Err(MissingSignature))
    case CommitSigFor(address, timestamp, Some(signature)) =>
      var vote := CanonicalVote(Precommit, commit.height, commit.round, Some(commit.blockId), Some(timestamp), chainId);
      Some(Ok(SignedVote(vote, address, signature)))
  }

  /** The votes of the first `n` signatures, in order, or the first error among them. */
  function CollectVotes(sh: SignedHeader, n: nat): Result<seq<SignedVote>, VerificationError>
    requires n <= |sh.commit.signatures|
  {
    if n == 0 then Ok([])
    else
      match CollectVotes(sh, n - 1)
      case Err(e) => Err(e)
      case Ok(votes) =>
        match VoteOf(sh.commit.signatures[n - 1], sh.commit, sh.header.chainId)
        case None => Ok(votes)
        case Some(Err(e)) => Err(e)
        case Some(Ok(vote)) => Ok(votes + [vote])
  }

  /** The slots among the first `n` that hold a vote for the block, in order. */
  function CommitSlots(signatures: seq<CommitSig>, n: nat): (slots: seq<nat>)
    requires n <= |signatures|
    ensures forall k :: 0 <= k < |slots| ==> slots[k] < n && signatures[slots[k]].CommitSigFor?
    ensures forall j, k :: 0 <= j < k < |slots| ==> slots[j] < slots[k]
    ensures forall i :: 0 <= i < n && signatures[i].CommitSigFor? ==> i in slots
  {
    if n == 0 then []
    else if signatures[n - 1].CommitSigFor? then CommitSlots(signatures, n - 1) + [n - 1]
    else CommitSlots(signatures, n - 1)
  }

  /** The vote says what the signer of this slot has signed: a precommit for the commit's block. */
  ghost predicate VoteOfSlot(sh: SignedHeader, i: nat, vote: SignedVote)
    requires i < |sh.commit.signatures|
  {
    var sig, v := sh.commit.signatures[i], vote.vote;
    && sig.CommitSigFor? && sig.signature == Some(vote.signature) && sig.address == vote.validatorAddress
    && v.voteType == Precommit && v.height == sh.commit.height && v.round == sh.commit.round
    && v.blockId == Some(sh.commit.blockId) && v.timestamp == Some(sig.timestamp)
    && v.chainId == sh.header.chainId
  }

  /** The slot holds a vote for the block, and its signature. */
  ghost predicate SlotSigned(signatures: seq<CommitSig>, i: nat) {
    i < |signatures| && signatures[i].CommitSigFor? && signatures[i].signature.Some?
  }

  ghost predicate AllSigned(signatures: seq<CommitSig>, slots: seq<nat>) {
    forall k :: 0 <= k < |slots| ==> SlotSigned(signatures, slots[k])
  }

  ghost predicate VotesOfAll(sh: SignedHeader, slots: seq<nat>, votes: seq<SignedVote>) {
    && |votes| == |slots|
    && forall k :: 0 <= k < |slots| ==>
         slots[k] < |sh.commit.signatures| && VoteOfSlot(sh, slots[k], votes[k])
  }

  lemma VoteOfSlotIff(sh: SignedHeader, i: nat)
    requires i < |sh.commit.signatures|
    ensures var sig, r := sh.commit.signatures[i], VoteOf(sh.commit.signatures[i], sh.commit, sh.header.chainId);
            if !sig.CommitSigFor? then r.None?
            else if sig.signature.None? then r == Some(Err(MissingSignature))
            else r.Some? && r.value.Ok? && VoteOfSlot(sh, i, r.value.value)
  {
  }

  lemma OneMoreSlot(signatures: seq<CommitSig>, slots: seq<nat>, i: nat)
    ensures AllSigned(signatures, slots + [i]) <==> AllSigned(signatures, slots) && SlotSigned(signatures, i)
  {
    var more := slots + [i];
    assert more[|slots|] == i && forall k :: 0 <= k < |slots| ==> more[k] == slots[k];
  }

  lemma OneMoreVote(sh: SignedHeader, slots: seq<nat>, votes: seq<SignedVote>, i: nat, vote: SignedVote)
    requires VotesOfAll(sh, slots, votes) && i < |sh.commit.signatures| && VoteOfSlot(sh, i, vote)
    ensures VotesOfAll(sh, slots + [i], votes + [vote])
  {
  }

  /** What collecting gives for the slots: their votes, or an error if a signature is missing. */
  ghost predicate CollectedIs(sh: SignedHeader, slots: seq<nat>, r: Result<seq<SignedVote>, VerificationError>) {
    if AllSigned(sh.commit.signatures, slots) then r.Ok? && VotesOfAll(sh, slots, r.value)
    else r == Err(MissingSignature)
  }

  lemma CollectStep(sh: SignedHeader, n: nat, slots: seq<nat>)
    requires n < |sh.commit.signatures| && CollectedIs(sh, slots, CollectVotes(sh, n))
    ensures CollectedIs(sh, if sh.commit.signatures[n].CommitSigFor? then slots + [n] else slots,
                        CollectVotes(sh, n + 1))
  {
    var sigs, r := sh.commit.signatures, CollectVotes(sh, n);
    VoteOfSlotIff(sh, n);
    if sigs[n].CommitSigFor? {
      OneMoreSlot(sigs, slots, n);
      if r.Ok? && sigs[n].signature.Some? {
        OneMoreVote(sh, slots, r.value, n, VoteOf(sigs[n], sh.commit, sh.header.chainId).value.value);
      }
    }
  }

  /** Each slot with a vote for the block gives one vote, in order; one without signature is an error. */
  lemma {:induction false} VotesOfSlots(sh: SignedHeader, n: nat)
    requires n <= |sh.commit.signatures|
    ensures CollectedIs(sh, CommitSlots(sh.commit.signatures, n), CollectVotes(sh, n))
  {
    if n > 0 {
      VotesOfSlots(sh, n - 1);
      CollectStep(sh, n - 1, CommitSlots(sh.commit.signatures, n - 1));
    }
  }

  predicate DuplicateAt(votes: seq<SignedVote>, i: nat)
    requires i < |votes|
  {
    exists j :: 0 <= j < |votes| && j != i && votes[j].validatorAddress == votes[i].validatorAddress
  }

  /** The addresses that voted more than once. */
  function DuplicatedAddresses(votes: seq<SignedVote>): set<Address> {
    set i | 0 <= i < |votes| && DuplicateAt(votes, i) :: votes[i].validatorAddress
  }

  /** All commit votes of a header; an address that votes twice is an error, the least one is named. */
  function NonAbsentVotes(sh: SignedHeader): Result<seq<SignedVote>, VerificationError> {
    match CollectVotes(sh, |sh.commit.signatures|)
    case Err(e) => Err(e)
    case Ok(votes) =>
      var repeated := DuplicatedAddresses(votes);
      if repeated == {} then Ok(votes) else Err(DuplicateValidator(Least(repeated)))
  }

  /** The first vote cast under an address. */
  function FindVote(votes: seq<SignedVote>, address: Address): (v: Option<SignedVote>)
    ensures v.Some? ==> v.value in votes && v.value.validatorAddress == address
    ensures v.None? ==> forall w :: w in votes ==> w.validatorAddress != address
  {
    if votes == [] then None
    else if votes[0].validatorAddress == address then Some(votes[0])
    else FindVote(votes[1..], address)
  }

  predicate ValidVote(c: Crypto, vote: SignedVote, key: PubKey) {
    c.verifies(key, c.signBytes(vote.vote), vote.signature)
  }

  /** Whether `v` voted; its signature is checked unless its address was checked before. */
  function HasVoted(c: Crypto, votes: seq<SignedVote>, checked: set<Address>, v: Info)
    : Result<bool, VerificationError>
  {
    match FindVote(votes, v.address)
    case None => Ok(false)
    case Some(vote) =>
      if v.address in checked || ValidVote(c, vote, v.pubKey) then Ok(true)
      else Err(InvalidSignature(vote.signature, v, c.signBytes(vote.vote)))
  }

  datatype Counted = Counted(result: Result<Tally, VerificationError>, checked: set<Address>)

  /** The loop over validators from position `k` on: it stops at an error or at enough power. */
  function CountFrom(
    c: Crypto, votes: seq<SignedVote>, checked: set<Address>, vals: seq<Info>, k: nat, tally: Tally): Counted
    requires k <= |vals|
    decreases |vals| - k
  {
    if k == |vals| then Counted(Ok(tally), checked)
    else
      match HasVoted(c, votes, checked, vals[k])
      case Err(e) => Counted(Err(e), checked)
      case Ok(false) => CountFrom(c, votes, checked, vals, k + 1, tally)
      case Ok(true) =>
        var tally' := tally.(tallied := tally.tallied + vals[k].power);
        var checked' := checked + {vals[k].address};
        if tally'.Enough() then Counted(Ok(tally'), checked')
        else CountFrom(c, votes, checked', vals, k + 1, tally')
  }

  function Count(
    c: Crypto, votes: seq<SignedVote>, checked: set<Address>, vs: ValidatorSet, threshold: TrustThreshold): Counted
  {
    CountFrom(c, votes, checked, vs.validators, 0, Tally(SumPower(vs.validators), 0, threshold))
  }

  function VotingPowerIn(
    c: Crypto, sh: SignedHeader, vs: ValidatorSet, threshold: TrustThreshold): Result<Tally, VerificationError>
  {
    match NonAbsentVotes(sh)
    case Err(e) => Err(e)
    case Ok(votes) => Count(c, votes, {}, vs, threshold).result
  }

  /** Two sets in one pass: signatures checked for the first set are not checked again for the second. */
  function VotingPowerInSets(
    c: Crypto, sh: SignedHeader,
    first: ValidatorSet, firstThreshold: TrustThreshold,
    second: ValidatorSet, secondThreshold: TrustThreshold): Result<(Tally, Tally), VerificationError>
  {
    match NonAbsentVotes(sh)
    case Err(e) => Err(e)
    case Ok(votes) =>
      var one := Count(c, votes, {}, first, firstThreshold);
      match one.result
      case Err(e) => Err(e)
      case Ok(t1) =>
        match Count(c, votes, one.checked, second, secondThreshold).result
        case Err(e) => Err(e)
        case Ok(t2) => Ok((t1, t2))
  }

  function CheckEnoughTrustAndSigners(
    c: Crypto, sh: SignedHeader, trusted: ValidatorSet, threshold: TrustThreshold, untrusted: ValidatorSet): Check
  {
    match VotingPowerInSets(c, sh, trusted, threshold, untrusted, TWO_THIRDS)
    case Err(e) => Err(e)
    case Ok((trustedPower, untrustedPower)) =>
      if !trustedPower.Enough() then Err(NotEnoughTrustError(trustedPower))
      else if !untrustedPower.Enough() then Err(InsufficientSignersOverlap(untrustedPower))
      else Ok(())
  }

  function CheckSignersOverlap(c: Crypto, sh: SignedHeader, untrusted: ValidatorSet): Check {
    match VotingPowerIn(c, sh, untrusted, TWO_THIRDS)
    case Err(e) => Err(e)
    case Ok(power) =>
      if power.Enough() then Ok(()) else Err(InsufficientSignersOverlap(power))
  }

  // ---- What the cache changes ----------------------------------------------

  /** Equal addresses mean equal keys. */
  ghost predicate KeysAgree(vals: seq<Info>) {
    forall v, w :: v in vals && w in vals && v.address == w.address ==> v.pubKey == w.pubKey
  }

  /** Every checked address has a vote that is valid for each validator of that address. */
  ghost predicate Sound(c: Crypto, votes: seq<SignedVote>, checked: set<Address>, vals: seq<Info>) {
    forall v :: v in vals && v.address in checked ==>
      var vote := FindVote(votes, v.address);
      vote.Some? && ValidVote(c, vote.value, v.pubKey)
  }

  lemma SoundStep(c: Crypto, votes: seq<SignedVote>, checked: set<Address>, vals: seq<Info>, v: Info)
    requires KeysAgree(vals) && Sound(c, votes, checked, vals) && v in vals
    requires HasVoted(c, votes, checked, v) == Ok(true)
    ensures Sound(c, votes, checked + {v.address}, vals)
  {
  }

  /** Where keys agree, a sound cache gives the result of no cache, and stays sound for all validators in view. */
  lemma {:induction false} CacheIsTransparent(
    c: Crypto, votes: seq<SignedVote>, checked: set<Address>, all: seq<Info>, vals: seq<Info>, k: nat, tally: Tally)
    requires k <= |vals|
    requires KeysAgree(all) && (forall v :: v in vals ==> v in all)
    requires Sound(c, votes, checked, all)
    ensures CountFrom(c, votes, checked, vals, k, tally).result == UncachedFrom(c, votes, vals, k, tally)
    ensures Sound(c, votes, CountFrom(c, votes, checked, vals, k, tally).checked, all)
    decreases |vals| - k
  {
    if k < |vals| {
      var v := vals[k];
      assert v in all;
      match HasVoted(c, votes, checked, v)
      case Err(_) =>
      case Ok(false) =>
        CacheIsTransparent(c, votes, checked, all, vals, k + 1, tally);
      case Ok(true) =>
        SoundStep(c, votes, checked, all, v);
        var tally' := tally.(tallied := tally.tallied + v.power);
        if !tally'.Enough() {
          CacheIsTransparent(c, votes, checked + {v.address}, all, vals, k + 1, tally');
        }
    }
  }

  /** The loop with every signature checked afresh. */
  function UncachedFrom(
    c: Crypto, votes: seq<SignedVote>, vals: seq<Info>, k: nat, tally: Tally): Result<Tally, VerificationError>
    requires k <= |vals|
    decreases |vals| - k
  {
    if k == |vals| then Ok(tally)
    else
      match HasVoted(c, votes, {}, vals[k])
      case Err(e) => Err(e)
      case Ok(false) => UncachedFrom(c, votes, vals, k + 1, tally)
      case Ok(true) =>
        var tally' := tally.(tallied := tally.tallied + vals[k].power);
        if tally'.Enough() then Ok(tally')
        else UncachedFrom(c, votes, vals, k + 1, tally')
  }

  /** The position of the first validator with an address, or the length if there is none. */
  function FirstHolder(vals: seq<Info>, address: Address): (i: nat)
    ensures i <= |vals|
    ensures i < |vals| ==> vals[i].address == address
    ensures forall j :: 0 <= j < i ==> vals[j].address != address
  {
    if vals == [] || vals[0].address == address then 0 else 1 + FirstHolder(vals[1..], address)
  }

  /** Each validator with the key of the first one that has its address. */
  function ByFirstKey(vals: seq<Info>): (ks: seq<Info>)
    ensures |ks| == |vals|
    ensures forall i :: 0 <= i < |vals| ==>
              var first := FirstHolder(vals, vals[i].address);
              first <= i && ks[i] == vals[i].(pubKey := vals[first].pubKey)
    ensures Powers(ks) == Powers(vals)
  {
    seq(|vals|, i requires 0 <= i < |vals| => vals[i].(pubKey := vals[FirstHolder(vals, vals[i].address)].pubKey))
  }

  lemma FirstKeysAgree(vals: seq<Info>)
    ensures KeysAgree(ByFirstKey(vals))
    ensures KeysAgree(vals) <==> ByFirstKey(vals) == vals
  {
    if KeysAgree(vals) {
      forall i | 0 <= i < |vals|
        ensures ByFirstKey(vals)[i] == vals[i]
      {
        assert vals[i] in vals && vals[FirstHolder(vals, vals[i].address)] in vals;
      }
    }
  }

  /** The validators seen so far that voted are in the cache. */
  ghost predicate SeenAreChecked(votes: seq<SignedVote>, checked: set<Address>, vals: seq<Info>, k: nat)
    requires k <= |vals|
  {
    forall j :: 0 <= j < k && FindVote(votes, vals[j].address).Some? ==> vals[j].address in checked
  }

  lemma FirstKeyAnswers(c: Crypto, votes: seq<SignedVote>, checked: set<Address>, vals: seq<Info>, k: nat)
    requires k < |vals| && SeenAreChecked(votes, checked, vals, k)
    ensures HasVoted(c, votes, checked, vals[k]) == HasVoted(c, votes, checked, ByFirstKey(vals)[k])
  {
    var v := vals[k];
    if FindVote(votes, v.address).Some? && v.address !in checked {
      assert FirstHolder(vals, v.address) == k;
      assert ByFirstKey(vals)[k] == v;
    }
  }

  lemma SeenStep(c: Crypto, votes: seq<SignedVote>, checked: set<Address>, vals: seq<Info>, k: nat)
    requires k < |vals| && SeenAreChecked(votes, checked, vals, k) && HasVoted(c, votes, checked, vals[k]).Ok?
    ensures HasVoted(c, votes, checked, vals[k]).value ==>
              SeenAreChecked(votes, checked + {vals[k].address}, vals, k + 1)
    ensures !HasVoted(c, votes, checked, vals[k]).value ==> SeenAreChecked(votes, checked, vals, k + 1)
  {
  }

  /** So the loop gets to check a key only if it is the first one of its address. */
  lemma {:induction false} OnlyFirstKeysAreChecked(
    c: Crypto, votes: seq<SignedVote>, checked: set<Address>, vals: seq<Info>, k: nat, tally: Tally)
    requires k <= |vals| && SeenAreChecked(votes, checked, vals, k)
    ensures CountFrom(c, votes, checked, vals, k, tally) == CountFrom(c, votes, checked, ByFirstKey(vals), k, tally)
    decreases |vals| - k
  {
    if k < |vals| {
      var v, ks := vals[k], ByFirstKey(vals);
      FirstKeyAnswers(c, votes, checked, vals, k);
      assert ks[k].address == v.address && ks[k].power == v.power;
      match HasVoted(c, votes, checked, v)
      case Err(_) =>
      case Ok(voted) =>
        SeenStep(c, votes, checked, vals, k);
        if !voted {
          OnlyFirstKeysAreChecked(c, votes, checked, vals, k + 1, tally);
        } else {
          var tally' := tally.(tallied := tally.tallied + v.power);
          if !tally'.Enough() {
            OnlyFirstKeysAreChecked(c, votes, checked + {v.address}, vals, k + 1, tally');
          }
        }
    }
  }

  /** Every set is counted as if each validator had the first key of its address, each signature checked. */
  lemma CountedByFirstKey(c: Crypto, votes: seq<SignedVote>, vs: ValidatorSet, t: TrustThreshold)
    ensures Count(c, votes, {}, vs, t).result
         == UncachedFrom(c, votes, ByFirstKey(vs.validators), 0, Tally(SumPower(vs.validators), 0, t))
  {
    var vals, tally := vs.validators, Tally(SumPower(vs.validators), 0, t);
    var ks := ByFirstKey(vals);
    OnlyFirstKeysAreChecked(c, votes, {}, vals, 0, tally);
    FirstKeysAgree(vals);
    CacheIsTransparent(c, votes, {}, ks, ks, 0, tally);
  }

  /** One set, with every signature checked. */
  function UncachedPowerIn(
    c: Crypto, sh: SignedHeader, vs: ValidatorSet, threshold: TrustThreshold): Result<Tally, VerificationError>
  {
    match NonAbsentVotes(sh)
    case Err(e) => Err(e)
    case Ok(votes) => UncachedFrom(c, votes, vs.validators, 0, Tally(SumPower(vs.validators), 0, threshold))
  }

  /** The two tallies taken one after the other, each on its own. */
  function IndependentTallies(
    c: Crypto, sh: SignedHeader,
    first: ValidatorSet, firstThreshold: TrustThreshold,
    second: ValidatorSet, secondThreshold: TrustThreshold): Result<(Tally, Tally), VerificationError>
  {
    match VotingPowerIn(c, sh, first, firstThreshold)
    case Err(e) => Err(e)
    case Ok(t1) =>
      match VotingPowerIn(c, sh, second, secondThreshold)
      case Err(e) => Err(e)
      case Ok(t2) => Ok((t1, t2))
  }

  /** An address in both sets has the same first key in both. */
  ghost predicate FirstKeysMatch(first: seq<Info>, second: seq<Info>) {
    forall v, w :: v in ByFirstKey(first) && w in ByFirstKey(second) && v.address == w.address ==>
      v.pubKey == w.pubKey
  }

  lemma MatchingFirstKeysAgree(first: seq<Info>, second: seq<Info>)
    requires FirstKeysMatch(first, second)
    ensures KeysAgree(ByFirstKey(first) + ByFirstKey(second))
  {
    FirstKeysAgree(first);
    FirstKeysAgree(second);
  }

  /** Sharing the cache over two sets whose first keys match gives what two separate calls give, errors included. */
  lemma SharedCacheIsEquivalent(
    c: Crypto, sh: SignedHeader,
    first: ValidatorSet, firstThreshold: TrustThreshold,
    second: ValidatorSet, secondThreshold: TrustThreshold)
    requires FirstKeysMatch(first.validators, second.validators)
    ensures VotingPowerInSets(c, sh, first, firstThreshold, second, secondThreshold)
         == IndependentTallies(c, sh, first, firstThreshold, second, secondThreshold)
  {
    match NonAbsentVotes(sh)
    case Err(_) =>
    case Ok(votes) =>
      var ks1, ks2 := ByFirstKey(first.validators), ByFirstKey(second.validators);
      var tally1 := Tally(SumPower(first.validators), 0, firstThreshold);
      var tally2 := Tally(SumPower(second.validators), 0, secondThreshold);
      MatchingFirstKeysAgree(first.validators, second.validators);
      OnlyFirstKeysAreChecked(c, votes, {}, first.validators, 0, tally1);
      CacheIsTransparent(c, votes, {}, ks1 + ks2, ks1, 0, tally1);
      var checked := Count(c, votes, {}, first, firstThreshold).checked;
      OnlyFirstKeysAreChecked(c, votes, checked, second.validators, 0, tally2);
      CacheIsTransparent(c, votes, checked, ks1 + ks2, ks2, 0, tally2);
      CountedByFirstKey(c, votes, second, secondThreshold);
  }

  // ---- Early exit changes nothing ------------------------------------------

  /** The positions of the validators with a valid commit vote. */
  function Signers(c: Crypto, votes: seq<SignedVote>, vals: seq<Info>): set<nat> {
    set i | 0 <= i < |vals| && FindVote(votes, vals[i].address).Some?
            && ValidVote(c, FindVote(votes, vals[i].address).value, vals[i].pubKey)
  }

  lemma PowerAtExtends(vals: seq<Info>, chosen: set<nat>, k: nat)
    requires k < |vals|
    ensures PowerAt(Powers(vals[..k + 1]), chosen)
         == PowerAt(Powers(vals[..k]), chosen) + if k in chosen then vals[k].power else 0
  {
    assert Powers(vals[..k + 1])[..k] == Powers(vals[..k]);
  }

  lemma {:induction false} PowerAtPrefix(vals: seq<Info>, chosen: set<nat>, k: nat)
    requires k <= |vals|
    ensures PowerAt(Powers(vals[..k]), chosen) <= PowerAt(Powers(vals), chosen)
    decreases |vals| - k
  {
    if k == |vals| {
      assert vals[..k] == vals;
    } else {
      PowerAtExtends(vals, chosen, k);
      PowerAtPrefix(vals, chosen, k + 1);
    }
  }

  /** The tally of the loop: exact power of the signers seen, or early but enough. */
  lemma {:induction false} UncachedIsExact(c: Crypto, votes: seq<SignedVote>, vals: seq<Info>, k: nat, tally: Tally)
    requires k <= |vals|
    requires tally.tallied == PowerAt(Powers(vals[..k]), Signers(c, votes, vals))
    ensures var r := UncachedFrom(c, votes, vals, k, tally);
            r.Ok? ==>
              && r.value.total == tally.total && r.value.threshold == tally.threshold
              && tally.tallied <= r.value.tallied <= PowerAt(Powers(vals), Signers(c, votes, vals))
              && (r.value.tallied == PowerAt(Powers(vals), Signers(c, votes, vals)) || r.value.Enough())
    decreases |vals| - k
  {
    var signers := Signers(c, votes, vals);
    PowerAtPrefix(vals, signers, k);
    if k == |vals| {
      assert vals[..k] == vals;
    } else {
      PowerAtExtends(vals, signers, k);
      match HasVoted(c, votes, {}, vals[k])
      case Err(_) =>
      case Ok(false) =>
        assert k !in signers;
        UncachedIsExact(c, votes, vals, k + 1, tally);
      case Ok(true) =>
        assert k in signers;
        var tally' := tally.(tallied := tally.tallied + vals[k].power);
        PowerAtPrefix(vals, signers, k + 1);
        if !tally'.Enough() {
          UncachedIsExact(c, votes, vals, k + 1, tally');
        }
    }
  }

  /** The validator's vote does not verify. */
  ghost predicate InvalidAt(c: Crypto, votes: seq<SignedVote>, vals: seq<Info>, i: nat) {
    && i < |vals| && FindVote(votes, vals[i].address).Some?
    && !ValidVote(c, FindVote(votes, vals[i].address).value, vals[i].pubKey)
  }

  /** The power of the valid votes among the first `j` validators. */
  function PowerUpTo(c: Crypto, votes: seq<SignedVote>, vals: seq<Info>, j: nat): nat
    requires j <= |vals|
  {
    PowerAt(Powers(vals[..j]), Signers(c, votes, vals))
  }

  /** With the vote of the last of the first `j` validators there is enough power. */
  ghost predicate EnoughAfter(c: Crypto, votes: seq<SignedVote>, vals: seq<Info>, t: Tally, j: nat) {
    && 0 < j <= |vals| && j - 1 in Signers(c, votes, vals)
    && IsEnoughPower(t.threshold, PowerUpTo(c, votes, vals, j), t.total)
  }

  /** The loop from `k` on stops before or at `i`, and why. */
  ghost predicate StopsAt(
    c: Crypto, votes: seq<SignedVote>, vals: seq<Info>, t: Tally, k: nat, i: nat, r: Result<Tally, VerificationError>)
  {
    && k <= i <= |vals|
    && (forall j :: k <= j < i ==> !InvalidAt(c, votes, vals, j))
    && (forall j :: k < j < i ==> !EnoughAfter(c, votes, vals, t, j))
    && match r
       case Err(e) =>
         && InvalidAt(c, votes, vals, i) && (k < i ==> !EnoughAfter(c, votes, vals, t, i))
         && var vote := FindVote(votes, vals[i].address).value;
            e == InvalidSignature(vote.signature, vals[i], c.signBytes(vote.vote))
       case Ok(tally) =>
         && tally == Tally(t.total, PowerUpTo(c, votes, vals, i), t.threshold)
         && (i == |vals| || (k < i && EnoughAfter(c, votes, vals, t, i)))
  }

  lemma StopsLater(
    c: Crypto, votes: seq<SignedVote>, vals: seq<Info>, t: Tally, t': Tally, k: nat, i: nat,
    r: Result<Tally, VerificationError>)
    requires StopsAt(c, votes, vals, t', k + 1, i, r) && t'.total == t.total && t'.threshold == t.threshold
    requires !InvalidAt(c, votes, vals, k) && !EnoughAfter(c, votes, vals, t, k + 1)
    ensures StopsAt(c, votes, vals, t, k, i, r)
  {
    forall j | k < j < i
      ensures !EnoughAfter(c, votes, vals, t, j)
    {
      if j > k + 1 {
        assert !EnoughAfter(c, votes, vals, t', j);
      }
    }
  }

  /** What one validator adds. */
  lemma PowerUpToNext(c: Crypto, votes: seq<SignedVote>, vals: seq<Info>, k: nat)
    requires k < |vals|
    ensures PowerUpTo(c, votes, vals, k + 1)
         == PowerUpTo(c, votes, vals, k) + if HasVoted(c, votes, {}, vals[k]) == Ok(true) then vals[k].power else 0
    ensures HasVoted(c, votes, {}, vals[k]).Err? <==> InvalidAt(c, votes, vals, k)
    ensures HasVoted(c, votes, {}, vals[k]) == Ok(true) <==> k in Signers(c, votes, vals)
  {
    PowerAtExtends(vals, Signers(c, votes, vals), k);
  }

  /** It stops at the first invalid vote or at the first validator with whom there is enough power, or at the end. */
  lemma {:induction false} UncachedStops(c: Crypto, votes: seq<SignedVote>, vals: seq<Info>, k: nat, tally: Tally)
    returns (i: nat)
    requires k <= |vals| && tally.tallied == PowerUpTo(c, votes, vals, k)
    ensures StopsAt(c, votes, vals, tally, k, i, UncachedFrom(c, votes, vals, k, tally))
    decreases |vals| - k
  {
    i := k;
    if k < |vals| {
      PowerUpToNext(c, votes, vals, k);
      var r := UncachedFrom(c, votes, vals, k, tally);
      match HasVoted(c, votes, {}, vals[k])
      case Err(_) =>
      case Ok(voted) =>
        var tally' := if voted then tally.(tallied := tally.tallied + vals[k].power) else tally;
        if voted && tally'.Enough() {
          i := k + 1;
        } else {
          i := UncachedStops(c, votes, vals, k + 1, tally');
          StopsLater(c, votes, vals, tally, tally', k, i, r);
        }
    }
  }

  ghost predicate Exact(t: TrustThreshold, vs: ValidatorSet) {
    SumPower(vs.validators) * t.denominator < TWO_64
  }

  /** The full power of all validators with a valid commit vote. */
  function SignedPower(c: Crypto, votes: seq<SignedVote>, vs: ValidatorSet): nat {
    PowerAt(Powers(vs.validators), Signers(c, votes, vs.validators))
  }

  /** The positions whose address has a vote that is valid for the first key of the address. */
  function Credited(c: Crypto, votes: seq<SignedVote>, vals: seq<Info>): set<nat> {
    Signers(c, votes, ByFirstKey(vals))
  }

  /** The full power that the loop credits with votes. */
  function CreditedPower(c: Crypto, votes: seq<SignedVote>, vs: ValidatorSet): nat {
    PowerAt(Powers(vs.validators), Credited(c, votes, vs.validators))
  }

  /** An Ok tally is within the credited power, and equal to it unless it is already enough. */
  lemma TallyIsCreditedPower(c: Crypto, votes: seq<SignedVote>, vs: ValidatorSet, t: TrustThreshold)
    requires Count(c, votes, {}, vs, t).result.Ok?
    ensures var r := Count(c, votes, {}, vs, t).result.value;
            && r.threshold == t
            && r.tallied <= CreditedPower(c, votes, vs) <= r.total == SumPower(vs.validators)
            && (r.tallied == CreditedPower(c, votes, vs) || r.Enough())
  {
    var ks := ByFirstKey(vs.validators);
    assert ks[..0] == [];
    CountedByFirstKey(c, votes, vs, t);
    UncachedIsExact(c, votes, ks, 0, Tally(SumPower(ks), 0, t));
    var credited := Credited(c, votes, vs.validators);
    PowerAtSubset(Powers(ks), credited, credited);
  }

  /**
   Whatever the loop skipped by leaving early, an Ok tally passes its check if
   and only if the full credited power passes it, and it never exceeds the total.
   */
  lemma EarlyExitIsExact(c: Crypto, votes: seq<SignedVote>, vs: ValidatorSet, t: TrustThreshold)
    requires Exact(t, vs)
    requires Count(c, votes, {}, vs, t).result.Ok?
    ensures var r := Count(c, votes, {}, vs, t).result.value;
            && (r.Enough() <==> ExactlyEnough(t, CreditedPower(c, votes, vs), SumPower(vs.validators)))
            && r.tallied <= CreditedPower(c, votes, vs) <= r.total == SumPower(vs.validators)
  {
    var r := Count(c, votes, {}, vs, t).result.value;
    TallyIsCreditedPower(c, votes, vs, t);
    ComparisonIsExact(t, r.tallied, r.total);
    ProductsBelow(r.tallied, CreditedPower(c, votes, vs), t.denominator, t.denominator);
  }

  /** If only the product with the total fits, a tally that passes still means enough credited power. */
  lemma EarlyExitIsSound(c: Crypto, votes: seq<SignedVote>, vs: ValidatorSet, t: TrustThreshold)
    requires Fits(t, SumPower(vs.validators))
    requires Count(c, votes, {}, vs, t).result.Ok? && Count(c, votes, {}, vs, t).result.value.Enough()
    ensures ExactlyEnough(t, CreditedPower(c, votes, vs), SumPower(vs.validators))
  {
    var r := Count(c, votes, {}, vs, t).result.value;
    TallyIsCreditedPower(c, votes, vs, t);
    FittingIsSound(t, r.tallied, r.total);
    ProductsBelow(r.tallied, CreditedPower(c, votes, vs), t.denominator, t.denominator);
  }

  // ---- Credit without a signature ------------------------------------------

  /** The positions under a group of addresses. */
  function Under(vals: seq<Info>, group: set<Address>): set<nat> {
    set i | 0 <= i < |vals| && vals[i].address in group
  }

  /** Those among them that have the first key of their address. */
  function WithFirstKey(vals: seq<Info>, group: set<Address>): set<nat> {
    set i | 0 <= i < |vals| && vals[i].address in group && ByFirstKey(vals)[i] == vals[i]
  }

  /** Whenever the power under a group of addresses is enough, so is the part of it that has first keys. */
  ghost predicate FirstKeysSuffice(vs: ValidatorSet, t: TrustThreshold) {
    forall group :: EnoughAt(vs, t, Under(vs.validators, group)) ==>
      EnoughAt(vs, t, WithFirstKey(vs.validators, group))
  }

  predicate EnoughAt(vs: ValidatorSet, t: TrustThreshold, chosen: set<nat>) {
    ExactlyEnough(t, PowerAt(Powers(vs.validators), chosen), SumPower(vs.validators))
  }

  /** In particular if equal addresses mean equal keys. */
  lemma AgreeingKeysSuffice(vs: ValidatorSet, t: TrustThreshold)
    requires KeysAgree(vs.validators)
    ensures FirstKeysSuffice(vs, t)
  {
    var vals := vs.validators;
    FirstKeysAgree(vals);
    forall group
      ensures WithFirstKey(vals, group) == Under(vals, group)
    {
    }
  }

  lemma EnoughIsMonotonic(vs: ValidatorSet, t: TrustThreshold, a: set<nat>, b: set<nat>)
    requires EnoughAt(vs, t, a) && forall i :: 0 <= i < |vs.validators| && i in a ==> i in b
    ensures EnoughAt(vs, t, b)
  {
    var powers := Powers(vs.validators);
    PowerAtSubset(powers, a, b);
    ProductsBelow(PowerAt(powers, a), PowerAt(powers, b), t.denominator, t.denominator);
  }

  /** The addresses whose vote is valid for their first key. */
  function CreditedAddresses(c: Crypto, votes: seq<SignedVote>, vals: seq<Info>): set<Address> {
    set i | i in Credited(c, votes, vals) :: ByFirstKey(vals)[i].address
  }

  lemma CreditIsByAddress(c: Crypto, votes: seq<SignedVote>, vals: seq<Info>)
    ensures var group := CreditedAddresses(c, votes, vals);
            && Credited(c, votes, vals) == Under(vals, group)
            && WithFirstKey(vals, group) <= Signers(c, votes, vals)
  {
    var ks, group := ByFirstKey(vals), CreditedAddresses(c, votes, vals);
    FirstKeysAgree(vals);
    forall i | i in Under(vals, group)
      ensures i in Credited(c, votes, vals)
    {
      var j :| j in Credited(c, votes, vals) && ks[j].address == vals[i].address;
      assert ks[i].address == ks[j].address && ks[i].pubKey == ks[j].pubKey;
    }
  }

  /** Then a tally that passes means enough power of valid votes. */
  lemma PassingIsSigned(c: Crypto, votes: seq<SignedVote>, vs: ValidatorSet, t: TrustThreshold)
    requires FirstKeysSuffice(vs, t) && Fits(t, SumPower(vs.validators))
    requires Count(c, votes, {}, vs, t).result.Ok? && Count(c, votes, {}, vs, t).result.value.Enough()
    ensures ExactlyEnough(t, SignedPower(c, votes, vs), SumPower(vs.validators))
  {
    var vals := vs.validators;
    var group := CreditedAddresses(c, votes, vals);
    EarlyExitIsSound(c, votes, vs, t);
    CreditIsByAddress(c, votes, vals);
    assert EnoughAt(vs, t, Under(vals, group));
    EnoughIsMonotonic(vs, t, WithFirstKey(vals, group), Signers(c, votes, vals));
  }

  // ---- Quorums in commits --------------------------------------------------

  /** A passed 2/3 check credits more than two thirds of the set's power. */
  lemma CommitHasQuorum(c: Crypto, sh: SignedHeader, vs: ValidatorSet)
    requires Bounded(vs) && CheckSignersOverlap(c, sh, vs).Ok?
    ensures NonAbsentVotes(sh).Ok?
    ensures 3 * CreditedPower(c, NonAbsentVotes(sh).value, vs) > 2 * SumPower(vs.validators)
  {
    EarlyExitIsExact(c, NonAbsentVotes(sh).value, vs, TWO_THIRDS);
  }

  /** Any two commits that pass the 2/3 check against one set credit a shared part of more than a third of it. */
  lemma CommitsIntersect(c: Crypto, a: SignedHeader, b: SignedHeader, vs: ValidatorSet)
    requires Bounded(vs) && CheckSignersOverlap(c, a, vs).Ok? && CheckSignersOverlap(c, b, vs).Ok?
    ensures NonAbsentVotes(a).Ok? && NonAbsentVotes(b).Ok?
    ensures 3 * PowerAt(Powers(vs.validators),
                        Credited(c, NonAbsentVotes(a).value, vs.validators) *
                        Credited(c, NonAbsentVotes(b).value, vs.validators)) > SumPower(vs.validators)
  {
    CommitHasQuorum(c, a, vs);
    CommitHasQuorum(c, b, vs);
    QuorumsIntersect(Powers(vs.validators),
                     Credited(c, NonAbsentVotes(a).value, vs.validators),
                     Credited(c, NonAbsentVotes(b).value, vs.validators));
  }

  /** A passed check against any valid threshold means a valid vote by a validator outside `faulty`. */
  lemma CorrectSigner(c: Crypto, votes: seq<SignedVote>, vs: ValidatorSet, t: TrustThreshold, faulty: set<nat>)
    returns (i: nat)
    requires FirstKeysSuffice(vs, t) && Fits(t, SumPower(vs.validators))
    requires Count(c, votes, {}, vs, t).result.Ok? && Count(c, votes, {}, vs, t).result.value.Enough()
    requires 3 * PowerAt(Powers(vs.validators), faulty) <= SumPower(vs.validators)
    ensures i < |vs.validators| && i !in faulty && i in Signers(c, votes, vs.validators)
  {
    PassingIsSigned(c, votes, vs, t);
    EnoughIsMoreThanAThird(t, SignedPower(c, votes, vs), SumPower(vs.validators));
    i := SomeMemberOutside(Powers(vs.validators), Signers(c, votes, vs.validators), faulty);
  }
}
