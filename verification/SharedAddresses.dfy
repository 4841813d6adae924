/**
 Validator sets in which one address stands for several keys.  Decoding lets
 them through (tendermint/src/validator.rs:311-326), and the hash of a set does
 not cover addresses.  Here is exactly what the signature cache of
 light-client-verifier/src/operations/voting_power.rs then changes.
 */
module SharedAddresses {
  import opened Common
  import opened Types
  import opened Validators
  import opened TrustThresholds
  import opened Blocks
  import opened VotingPower
  import opened Verifier

  type Verify = (PubKey, seq<Byte>, Signature) -> bool

  /** The same digest and encodings with another way of verifying signatures. */
  function With(c: Crypto, verify: Verify): Crypto {
    c.(verifies := verify)
  }

  /** All of the power has to be exceeded: no loop leaves early. */
  const FULL: TrustThreshold := Fraction(1, 1)

  /** A header of which only the height, the time and the hashes of validators matter. */
  function HeaderAt(height: Height, time: Time, validatorsHash: Hash, nextValidatorsHash: Hash): Header {
    Header(Version(11, 0), "chain", height, time, None, None, None,
           validatorsHash, nextValidatorsHash, NoHash, [], None, None, 0)
  }

  // ---- Commits signed with first keys only ---------------------------------

  /** A signature that tells its address. */
  function SignatureOf(address: Address): (s: Signature)
    ensures |s| == address
  {
    seq(address, _ => 0)
  }

  /** It is valid for the first key of the address, and for no other. */
  function FirstKeyOnly(vals: seq<Info>): Verify {
    (key: PubKey, _, s: Signature) => var i := FirstHolder(vals, |s|); i < |vals| && vals[i].pubKey == key
  }

  ghost predicate ChecksFirstKeys(c: Crypto, vals: seq<Info>) {
    forall key, bytes, s :: c.verifies(key, bytes, s) <==> FirstKeyOnly(vals)(key, bytes, s)
  }

  /** The first validator of each address of a group has signed. */
  function GroupSignatures(vals: seq<Info>, group: set<Address>): (sigs: seq<CommitSig>)
    ensures |sigs| == |vals|
    ensures forall i :: 0 <= i < |vals| ==> sigs[i] == GroupSignature(vals, group, i)
  {
    seq(|vals|, i requires 0 <= i < |vals| => GroupSignature(vals, group, i))
  }

  function GroupSignature(vals: seq<Info>, group: set<Address>, i: nat): CommitSig
    requires i < |vals|
  {
    var a := vals[i].address;
    if a in group && FirstHolder(vals, a) == i then CommitSigFor(a, 0, Some(SignatureOf(a))) else AbsentSig
  }

  function GroupSigned(header: Header, id: BlockId, vals: seq<Info>, group: set<Address>): SignedHeader {
    SignedHeader(header, Commit(header.height, 0, id, GroupSignatures(vals, group)))
  }

  predicate Distinct(votes: seq<SignedVote>) {
    forall i, j :: 0 <= i < j < |votes| ==> votes[i].validatorAddress != votes[j].validatorAddress
  }

  /** These are the votes of the group among the first `n` validators. */
  ghost predicate GroupVotes(votes: seq<SignedVote>, vals: seq<Info>, group: set<Address>, n: nat) {
    && Distinct(votes)
    && (forall vote :: vote in votes ==>
          var a := vote.validatorAddress;
          a in group && FirstHolder(vals, a) < n && vote.signature == SignatureOf(a))
    && (forall a :: a in group && FirstHolder(vals, a) < n ==> FindVote(votes, a).Some?)
  }

  lemma FindVoteAppends(votes: seq<SignedVote>, vote: SignedVote, a: Address)
    ensures FindVote(votes + [vote], a).Some? <==> FindVote(votes, a).Some? || vote.validatorAddress == a
  {
    if FindVote(votes, a).Some? {
      assert FindVote(votes, a).value in votes + [vote];
    }
    assert vote in votes + [vote];
  }

  lemma GroupVotesStep(
    votes: seq<SignedVote>, vote: SignedVote, vals: seq<Info>, group: set<Address>, n: nat)
    requires n < |vals| && GroupVotes(votes, vals, group, n)
    requires var a := vals[n].address;
             a in group && FirstHolder(vals, a) == n && vote.validatorAddress == a && vote.signature == SignatureOf(a)
    ensures GroupVotes(votes + [vote], vals, group, n + 1)
  {
    forall i | 0 <= i < |votes|
      ensures votes[i].validatorAddress != vote.validatorAddress
    {
      assert votes[i] in votes;
    }
    forall a | a in group && FirstHolder(vals, a) < n + 1
      ensures FindVote(votes + [vote], a).Some?
    {
      FindVoteAppends(votes, vote, a);
    }
  }

  lemma GroupVotesSkip(votes: seq<SignedVote>, vals: seq<Info>, group: set<Address>, n: nat)
    requires n < |vals| && GroupVotes(votes, vals, group, n)
    requires vals[n].address !in group || FirstHolder(vals, vals[n].address) != n
    ensures GroupVotes(votes, vals, group, n + 1)
  {
    forall a | a in group && FirstHolder(vals, a) < n + 1
      ensures FindVote(votes, a).Some?
    {
      assert FirstHolder(vals, a) != n;
    }
  }

  lemma GroupCollectsNext(sh: SignedHeader, vals: seq<Info>, group: set<Address>, n: nat)
    requires sh.commit.signatures == GroupSignatures(vals, group) && n < |vals|
    requires CollectVotes(sh, n).Ok? && GroupVotes(CollectVotes(sh, n).value, vals, group, n)
    ensures CollectVotes(sh, n + 1).Ok? && GroupVotes(CollectVotes(sh, n + 1).value, vals, group, n + 1)
  {
    var votes, a := CollectVotes(sh, n).value, vals[n].address;
    var next := VoteOf(sh.commit.signatures[n], sh.commit, sh.header.chainId);
    assert sh.commit.signatures[n] == GroupSignature(vals, group, n);
    if a in group && FirstHolder(vals, a) == n {
      GroupVotesStep(votes, next.value.value, vals, group, n);
    } else {
      GroupVotesSkip(votes, vals, group, n);
    }
  }

  lemma {:induction false} GroupIsCollected(sh: SignedHeader, vals: seq<Info>, group: set<Address>, n: nat)
    requires sh.commit.signatures == GroupSignatures(vals, group) && n <= |vals|
    ensures CollectVotes(sh, n).Ok? && GroupVotes(CollectVotes(sh, n).value, vals, group, n)
  {
    if n > 0 {
      GroupIsCollected(sh, vals, group, n - 1);
      GroupCollectsNext(sh, vals, group, n - 1);
    }
  }

  lemma GroupHasVoted(sh: SignedHeader, vals: seq<Info>, group: set<Address>)
    requires sh.commit.signatures == GroupSignatures(vals, group)
    ensures NonAbsentVotes(sh).Ok? && GroupVotes(NonAbsentVotes(sh).value, vals, group, |vals|)
  {
    GroupIsCollected(sh, vals, group, |vals|);
    var votes := CollectVotes(sh, |vals|).value;
    forall i | 0 <= i < |votes|
      ensures !DuplicateAt(votes, i)
    {
    }
    assert DuplicatedAddresses(votes) == {};
  }

  /** Such a commit credits all validators of the group, and is signed by those with first keys. */
  lemma GroupIsCredited(c: Crypto, votes: seq<SignedVote>, vals: seq<Info>, group: set<Address>)
    requires GroupVotes(votes, vals, group, |vals|) && ChecksFirstKeys(c, vals)
    ensures Credited(c, votes, vals) == Under(vals, group)
    ensures Signers(c, votes, vals) == WithFirstKey(vals, group)
  {
    var ks := ByFirstKey(vals);
    forall i | 0 <= i < |vals|
      ensures i in Credited(c, votes, vals) <==> i in Under(vals, group)
      ensures i in Signers(c, votes, vals) <==> i in WithFirstKey(vals, group)
    {
      var a := vals[i].address;
      var vote := FindVote(votes, a);
      assert vote.Some? <==> a in group;
      assert ks[i] == vals[i].(pubKey := vals[FirstHolder(vals, a)].pubKey);
      if vote.Some? {
        assert vote.value.signature == SignatureOf(a);
      }
    }
  }

  /** With valid votes only, the loop without a cache ends well. */
  lemma {:induction false} ValidVotesPass(c: Crypto, votes: seq<SignedVote>, vals: seq<Info>, k: nat, tally: Tally)
    requires k <= |vals|
    requires forall i :: 0 <= i < |vals| && FindVote(votes, vals[i].address).Some? ==> i in Signers(c, votes, vals)
    ensures UncachedFrom(c, votes, vals, k, tally).Ok?
    decreases |vals| - k
  {
    if k < |vals| {
      ValidVotesPass(c, votes, vals, k + 1, tally);
      ValidVotesPass(c, votes, vals, k + 1, tally.(tallied := tally.tallied + vals[k].power));
    }
  }

  lemma GroupPasses(c: Crypto, sh: SignedHeader, vs: ValidatorSet, group: set<Address>, t: TrustThreshold)
    requires sh.commit.signatures == GroupSignatures(vs.validators, group) && ChecksFirstKeys(c, vs.validators)
    ensures NonAbsentVotes(sh).Ok? && VotingPowerIn(c, sh, vs, t).Ok?
    ensures Credited(c, NonAbsentVotes(sh).value, vs.validators) == Under(vs.validators, group)
    ensures Signers(c, NonAbsentVotes(sh).value, vs.validators) == WithFirstKey(vs.validators, group)
  {
    var ks := ByFirstKey(vs.validators);
    GroupHasVoted(sh, vs.validators, group);
    var votes := NonAbsentVotes(sh).value;
    GroupIsCredited(c, votes, vs.validators, group);
    forall i | 0 <= i < |ks| && FindVote(votes, ks[i].address).Some?
      ensures i in Signers(c, votes, ks)
    {
      assert i in Under(vs.validators, group);
    }
    ValidVotesPass(c, votes, ks, 0, Tally(SumPower(vs.validators), 0, t));
    CountedByFirstKey(c, votes, vs, t);
  }

  // ---- When a passed check means signatures --------------------------------

  /** If the check passes, there is enough power of valid votes. */
  ghost predicate PassesOnlySigned(c: Crypto, sh: SignedHeader, vs: ValidatorSet, t: TrustThreshold) {
    var r := VotingPowerIn(c, sh, vs, t);
    r.Ok? && r.value.Enough() ==> EnoughAt(vs, t, Signers(c, NonAbsentVotes(sh).value, vs.validators))
  }

  lemma GroupPassesUnsigned(c: Crypto, sh: SignedHeader, vs: ValidatorSet, group: set<Address>, t: TrustThreshold)
    requires sh.commit.signatures == GroupSignatures(vs.validators, group) && Exact(t, vs)
    requires ChecksFirstKeys(c, vs.validators)
    requires EnoughAt(vs, t, Under(vs.validators, group)) && !EnoughAt(vs, t, WithFirstKey(vs.validators, group))
    ensures VotingPowerIn(c, sh, vs, t).Ok? && VotingPowerIn(c, sh, vs, t).value.Enough()
    ensures !PassesOnlySigned(c, sh, vs, t)
  {
    GroupPasses(c, sh, vs, group, t);
    EarlyExitIsExact(c, NonAbsentVotes(sh).value, vs, t);
  }

  /**
   For every way of verifying signatures and every commit, the check passes only
   with enough signed power: if and only if first keys suffice.
   */
  lemma PassingIsSignedIff(c: Crypto, vs: ValidatorSet, t: TrustThreshold)
    requires Exact(t, vs)
    ensures (forall verify, sh :: PassesOnlySigned(With(c, verify), sh, vs, t)) <==> FirstKeysSuffice(vs, t)
  {
    var vals := vs.validators;
    ProductsBelow(SumPower(vals), SumPower(vals), t.numerator, t.denominator);
    if FirstKeysSuffice(vs, t) {
      forall verify, sh
        ensures PassesOnlySigned(With(c, verify), sh, vs, t)
      {
        var c' := With(c, verify);
        if VotingPowerIn(c', sh, vs, t).Ok? && VotingPowerIn(c', sh, vs, t).value.Enough() {
          PassingIsSigned(c', NonAbsentVotes(sh).value, vs, t);
        }
      }
    } else {
      var group :| EnoughAt(vs, t, Under(vals, group)) && !EnoughAt(vs, t, WithFirstKey(vals, group));
      var sh := GroupSigned(HeaderAt(2, 12, NoHash, NoHash), DEFAULT_BLOCK_ID, vals, group);
      GroupPassesUnsigned(With(c, FirstKeyOnly(vals)), sh, vs, group, t);
    }
  }

  // ---- When the cache is transparent ---------------------------------------

  lemma PrefixBelowTotal(vals: seq<Info>, k: nat)
    requires k <= |vals|
    ensures SumPower(vals[..k]) <= SumPower(vals)
  {
    SumPowerSplits(vals, k);
  }

  /** Against the full threshold the loop without a cache checks every vote. */
  lemma {:induction false} FullChecksAll(
    c: Crypto, votes: seq<SignedVote>, vals: seq<Info>, k: nat, tally: Tally, i: nat)
    requires k <= i < |vals| && tally.threshold == FULL && tally.total == SumPower(vals) < TWO_64
    requires tally.tallied <= SumPower(vals[..k])
    requires UncachedFrom(c, votes, vals, k, tally).Ok? && FindVote(votes, vals[i].address).Some?
    ensures i in Signers(c, votes, vals)
    decreases |vals| - k
  {
    SumPowerExtends(vals, k);
    PrefixBelowTotal(vals, k + 1);
    if k < i {
      match HasVoted(c, votes, {}, vals[k])
      case Ok(false) => FullChecksAll(c, votes, vals, k + 1, tally, i);
      case Ok(true) =>
        FullChecksAll(c, votes, vals, k + 1, tally.(tallied := tally.tallied + vals[k].power), i);
    }
  }

  ghost predicate SameWithoutCache(c: Crypto, sh: SignedHeader, vs: ValidatorSet, t: TrustThreshold) {
    VotingPowerIn(c, sh, vs, t) == UncachedPowerIn(c, sh, vs, t)
  }

  lemma SharedAddressDiffers(c: Crypto, vs: ValidatorSet, i: nat)
    requires Bounded(vs) && i < |vs.validators| && ByFirstKey(vs.validators)[i] != vs.validators[i]
    ensures var sh := GroupSigned(HeaderAt(2, 12, NoHash, NoHash), DEFAULT_BLOCK_ID,
                                  vs.validators, {vs.validators[i].address});
            !SameWithoutCache(With(c, FirstKeyOnly(vs.validators)), sh, vs, FULL)
  {
    var vals, a := vs.validators, vs.validators[i].address;
    var c' := With(c, FirstKeyOnly(vals));
    var sh := GroupSigned(HeaderAt(2, 12, NoHash, NoHash), DEFAULT_BLOCK_ID, vals, {a});
    GroupPasses(c', sh, vs, {a}, FULL);
    GroupHasVoted(sh, vals, {a});
    var votes := NonAbsentVotes(sh).value;
    assert FindVote(votes, a).Some? && i !in Signers(c', votes, vals);
    var tally := Tally(SumPower(vals), 0, FULL);
    if UncachedFrom(c', votes, vals, 0, tally).Ok? {
      FullChecksAll(c', votes, vals, 0, tally, i);
    }
  }

  /** The cache never changes the result for a set if and only if equal addresses mean equal keys in it. */
  lemma CacheIsTransparentIff(c: Crypto, vs: ValidatorSet)
    requires Bounded(vs)
    ensures (forall verify, sh, t :: SameWithoutCache(With(c, verify), sh, vs, t)) <==> KeysAgree(vs.validators)
  {
    var vals := vs.validators;
    FirstKeysAgree(vals);
    if KeysAgree(vals) {
      forall verify, sh, t: TrustThreshold
        ensures SameWithoutCache(With(c, verify), sh, vs, t)
      {
        if NonAbsentVotes(sh).Ok? {
          CountedByFirstKey(With(c, verify), NonAbsentVotes(sh).value, vs, t);
        }
      }
    } else {
      var i :| 0 <= i < |vals| && ByFirstKey(vals)[i] != vals[i];
      SharedAddressDiffers(c, vs, i);
    }
  }

  // ---- When two sets can share the cache -----------------------------------

  ghost predicate SameAsSeparate(
    c: Crypto, sh: SignedHeader, first: ValidatorSet, t1: TrustThreshold, second: ValidatorSet, t2: TrustThreshold)
  {
    VotingPowerInSets(c, sh, first, t1, second, t2) == IndependentTallies(c, sh, first, t1, second, t2)
  }

  /** Against the full threshold the loop ends with every address in the cache that voted. */
  lemma {:induction false} FullCachesAll(
    c: Crypto, votes: seq<SignedVote>, checked: set<Address>, vals: seq<Info>, k: nat, tally: Tally, a: Address)
    requires k <= |vals| && tally.threshold == FULL && tally.total == SumPower(vals) < TWO_64
    requires tally.tallied <= SumPower(vals[..k])
    requires CountFrom(c, votes, checked, vals, k, tally).result.Ok? && FindVote(votes, a).Some?
    requires a in checked || k <= FirstHolder(vals, a) < |vals|
    ensures a in CountFrom(c, votes, checked, vals, k, tally).checked
    decreases |vals| - k
  {
    if k < |vals| {
      SumPowerExtends(vals, k);
      PrefixBelowTotal(vals, k + 1);
      match HasVoted(c, votes, checked, vals[k])
      case Ok(false) => FullCachesAll(c, votes, checked, vals, k + 1, tally, a);
      case Ok(true) =>
        FullCachesAll(c, votes, checked + {vals[k].address}, vals, k + 1,
                      tally.(tallied := tally.tallied + vals[k].power), a);
    }
  }

  /** If all votes are in the cache, no signature is checked. */
  lemma {:induction false} CachedVotesPass(
    c: Crypto, votes: seq<SignedVote>, checked: set<Address>, vals: seq<Info>, k: nat, tally: Tally)
    requires k <= |vals| && forall vote :: vote in votes ==> vote.validatorAddress in checked
    ensures CountFrom(c, votes, checked, vals, k, tally).result.Ok?
    decreases |vals| - k
  {
    if k < |vals| {
      CachedVotesPass(c, votes, checked, vals, k + 1, tally);
      CachedVotesPass(c, votes, checked + {vals[k].address}, vals, k + 1,
                      tally.(tallied := tally.tallied + vals[k].power));
    }
  }

  /** A vote under an address that both sets have is not checked with the key of the second. */
  lemma SharedPasses(c: Crypto, sh: SignedHeader, first: ValidatorSet, second: ValidatorSet, a: Address)
    requires Bounded(first) && FirstHolder(first.validators, a) < |first.validators|
    requires sh.commit.signatures == GroupSignatures(first.validators, {a})
    ensures VotingPowerInSets(With(c, FirstKeyOnly(first.validators)), sh, first, FULL, second, FULL).Ok?
  {
    var c', vals := With(c, FirstKeyOnly(first.validators)), first.validators;
    GroupPasses(c', sh, first, {a}, FULL);
    GroupHasVoted(sh, vals, {a});
    var votes := NonAbsentVotes(sh).value;
    FullCachesAll(c', votes, {}, vals, 0, Tally(SumPower(vals), 0, FULL), a);
    CachedVotesPass(c', votes, Count(c', votes, {}, first, FULL).checked, second.validators, 0,
                    Tally(SumPower(second.validators), 0, FULL));
  }

  /** On its own it is. */
  lemma SeparateFails(c: Crypto, sh: SignedHeader, first: ValidatorSet, second: ValidatorSet, i: nat)
    requires Bounded(second) && i < |second.validators|
    requires var w := ByFirstKey(second.validators)[i];
             && sh.commit.signatures == GroupSignatures(first.validators, {w.address})
             && FirstHolder(first.validators, w.address) < |first.validators|
             && first.validators[FirstHolder(first.validators, w.address)].pubKey != w.pubKey
    ensures VotingPowerIn(With(c, FirstKeyOnly(first.validators)), sh, second, FULL).Err?
  {
    var c', ks := With(c, FirstKeyOnly(first.validators)), ByFirstKey(second.validators);
    var a := ks[i].address;
    GroupHasVoted(sh, first.validators, {a});
    var votes := NonAbsentVotes(sh).value;
    assert FindVote(votes, a).value.signature == SignatureOf(a);
    assert i !in Signers(c', votes, ks);
    var tally := Tally(SumPower(ks), 0, FULL);
    CountedByFirstKey(c', votes, second, FULL);
    if UncachedFrom(c', votes, ks, 0, tally).Ok? {
      FullChecksAll(c', votes, ks, 0, tally, i);
    }
  }

  lemma DifferentFirstKeysDiffer(c: Crypto, first: ValidatorSet, second: ValidatorSet, i: nat, j: nat)
    requires Bounded(first) && Bounded(second) && i < |first.validators| && j < |second.validators|
    requires var v, w := ByFirstKey(first.validators)[i], ByFirstKey(second.validators)[j];
             v.address == w.address && v.pubKey != w.pubKey
    ensures var sh := GroupSigned(HeaderAt(2, 12, NoHash, NoHash), DEFAULT_BLOCK_ID,
                                  first.validators, {first.validators[i].address});
            !SameAsSeparate(With(c, FirstKeyOnly(first.validators)), sh, first, FULL, second, FULL)
  {
    var a := first.validators[i].address;
    var sh := GroupSigned(HeaderAt(2, 12, NoHash, NoHash), DEFAULT_BLOCK_ID, first.validators, {a});
    SharedPasses(c, sh, first, second, a);
    SeparateFails(c, sh, first, second, j);
  }

  /**
   Sharing the cache is what the documentation says, equivalent to two separate
   calls, if and only if an address in both sets has the same first key in both.
   */
  lemma SharedCacheIff(c: Crypto, first: ValidatorSet, second: ValidatorSet)
    requires Bounded(first) && Bounded(second)
    ensures (forall verify, sh, t1, t2 :: SameAsSeparate(With(c, verify), sh, first, t1, second, t2))
            <==> FirstKeysMatch(first.validators, second.validators)
  {
    if FirstKeysMatch(first.validators, second.validators) {
      forall verify, sh, t1: TrustThreshold, t2: TrustThreshold
        ensures SameAsSeparate(With(c, verify), sh, first, t1, second, t2)
      {
        SharedCacheIsEquivalent(With(c, verify), sh, first, t1, second, t2);
      }
    } else {
      var v, w :| && v in ByFirstKey(first.validators) && w in ByFirstKey(second.validators)
                  && v.address == w.address && v.pubKey != w.pubKey;
      var i :| 0 <= i < |first.validators| && ByFirstKey(first.validators)[i] == v;
      var j :| 0 <= j < |second.validators| && ByFirstKey(second.validators)[j] == w;
      DifferentFirstKeysDiffer(c, first, second, i, j);
    }
  }

  // ---- What a verdict then means -------------------------------------------

  /** An adjacent block of this set that is accepted has enough signed power. */
  ghost predicate AcceptedOnlySigned(
    c: Crypto, vs: ValidatorSet, u: UntrustedBlockState, t: TrustedBlockState, o: Options, now: Time)
  {
    && t.height < I64_MAX && u.Height() == t.height + 1 && u.validators == vs
    && VerifyUpdateHeader(c, u, t, o, now).Success?
    ==> EnoughAt(vs, TWO_THIRDS, Signers(c, NonAbsentVotes(u.signedHeader).value, vs.validators))
  }

  /** A block after `TrustedOf`, with the group's signatures. */
  function UntrustedOf(c: Crypto, height: Height, vs: ValidatorSet, group: set<Address>): UntrustedBlockState {
    var hash := HashOf(c, vs.validators);
    var header := HeaderAt(height, 12, hash, hash);
    var id := BlockId(HeaderHash(c, header), PartSetHeader(0, NoHash));
    UntrustedBlockState(GroupSigned(header, id, vs.validators, group), vs, Some(vs))
  }

  function TrustedOf(c: Crypto, vs: ValidatorSet): TrustedBlockState {
    TrustedBlockState("chain", 11, 1, vs, HashOf(c, vs.validators))
  }

  const NOW: Time := 12

  function OptionsWith(t: TrustThreshold): Options {
    Options(t, 10, 10)
  }

  lemma GroupFitsSet(sh: SignedHeader, vs: ValidatorSet, group: set<Address>, i: nat)
    requires sh.commit.signatures == GroupSignatures(vs.validators, group)
    requires i < |vs.validators| && vs.validators[i].address in group
    ensures CommitFitsSet(sh, vs)
  {
    var first := FirstHolder(vs.validators, vs.validators[i].address);
    assert !sh.commit.signatures[first].AbsentSig?;
  }

  lemma {:induction false} PowerMeansMember(powers: seq<nat>, chosen: set<nat>) returns (i: nat)
    requires PowerAt(powers, chosen) > 0
    ensures i < |powers| && i in chosen
  {
    var last := |powers| - 1;
    if last in chosen {
      i := last;
    } else {
      i := PowerMeansMember(powers[..last], chosen);
    }
  }

  lemma EnoughMeansMember(vs: ValidatorSet, t: TrustThreshold, chosen: set<nat>) returns (i: nat)
    requires EnoughAt(vs, t, chosen)
    ensures i < |vs.validators| && i in chosen
  {
    var power := PowerAt(Powers(vs.validators), chosen);
    assert power * t.denominator > 0;
    i := PowerMeansMember(Powers(vs.validators), chosen);
  }

  lemma UntrustedPasses(
    c: Crypto, height: Height, vs: ValidatorSet, group: set<Address>, next: ValidatorSet, f: TrustThreshold)
    requires height > 1 && (height == 2 ==> next == vs)
    requires CommitFitsSet(UntrustedOf(c, height, vs, group).signedHeader, vs)
    ensures PassesAllButPower(c, UntrustedOf(c, height, vs, group), TrustedOf(c, next), OptionsWith(f), NOW)
  {
  }

  lemma UntrustedSucceeds(
    c: Crypto, height: Height, vs: ValidatorSet, group: set<Address>, next: ValidatorSet, f: TrustThreshold)
    requires height > 1 && (height == 2 ==> next == vs)
    requires CommitFitsSet(UntrustedOf(c, height, vs, group).signedHeader, vs)
    requires PowerCheck(c, UntrustedOf(c, height, vs, group), TrustedOf(c, next), OptionsWith(f)).Ok?
    ensures VerifyUpdateHeader(c, UntrustedOf(c, height, vs, group), TrustedOf(c, next), OptionsWith(f), NOW).Success?
  {
    UntrustedPasses(c, height, vs, group, next, f);
    VerdictSuccessIff(c, UntrustedOf(c, height, vs, group), TrustedOf(c, next), OptionsWith(f), NOW);
  }

  lemma UnsignedIsAccepted(c: Crypto, vs: ValidatorSet, group: set<Address>)
    requires Bounded(vs)
    requires EnoughAt(vs, TWO_THIRDS, Under(vs.validators, group))
    requires !EnoughAt(vs, TWO_THIRDS, WithFirstKey(vs.validators, group))
    ensures var c' := With(c, FirstKeyOnly(vs.validators));
            !AcceptedOnlySigned(c', vs, UntrustedOf(c', 2, vs, group), TrustedOf(c', vs), OptionsWith(TWO_THIRDS), NOW)
  {
    var c' := With(c, FirstKeyOnly(vs.validators));
    var sh := UntrustedOf(c', 2, vs, group).signedHeader;
    GroupPassesUnsigned(c', sh, vs, group, TWO_THIRDS);
    var i := EnoughMeansMember(vs, TWO_THIRDS, Under(vs.validators, group));
    GroupFitsSet(sh, vs, group, i);
    UntrustedSucceeds(c', 2, vs, group, vs, TWO_THIRDS);
  }

  /** Adjacent blocks of a set are only accepted with enough signed power if and only if its first keys suffice. */
  lemma VerdictIsSignedIff(c: Crypto, vs: ValidatorSet)
    requires Bounded(vs)
    ensures (forall verify, u, t, o, now :: AcceptedOnlySigned(With(c, verify), vs, u, t, o, now))
            <==> FirstKeysSuffice(vs, TWO_THIRDS)
  {
    if FirstKeysSuffice(vs, TWO_THIRDS) {
      forall verify, u, t, o, now
        ensures AcceptedOnlySigned(With(c, verify), vs, u, t, o, now)
      {
        AcceptedIsSigned(With(c, verify), vs, u, t, o, now);
      }
    } else {
      var group :| && EnoughAt(vs, TWO_THIRDS, Under(vs.validators, group))
                   && !EnoughAt(vs, TWO_THIRDS, WithFirstKey(vs.validators, group));
      UnsignedIsAccepted(c, vs, group);
    }
  }

  lemma AcceptedIsSigned(
    c: Crypto, vs: ValidatorSet, u: UntrustedBlockState, t: TrustedBlockState, o: Options, now: Time)
    requires Bounded(vs) && FirstKeysSuffice(vs, TWO_THIRDS)
    ensures AcceptedOnlySigned(c, vs, u, t, o, now)
  {
    if && t.height < I64_MAX && u.Height() == t.height + 1 && u.validators == vs
       && VerifyUpdateHeader(c, u, t, o, now).Success? {
      VerdictSuccessIff(c, u, t, o, now);
      PassingIsSigned(c, NonAbsentVotes(u.signedHeader).value, vs, TWO_THIRDS);
    }
  }

  // ---- The same over a gap -------------------------------------------------

  /** A block over a gap that is accepted has enough signed power of the trusted next validators. */
  ghost predicate SkippedOnlySigned(
    c: Crypto, next: ValidatorSet, f: TrustThreshold, u: UntrustedBlockState, t: TrustedBlockState, o: Options,
    now: Time)
  {
    && t.height < I64_MAX && u.Height() != t.height + 1 && t.nextValidators == next && o.trustThreshold == f
    && VerifyUpdateHeader(c, u, t, o, now).Success?
    ==> EnoughAt(next, f, Signers(c, NonAbsentVotes(u.signedHeader).value, next.validators))
  }

  /** The validators with their first keys, and all power with one of them. */
  function Concentrated(vals: seq<Info>, p: nat): (ks: seq<Info>)
    ensures |ks| == |vals|
    ensures forall i :: 0 <= i < |vals| ==>
              ks[i] == ByFirstKey(vals)[i].(power := if i == p then 1 else 0)
  {
    seq(|vals|, i requires 0 <= i < |vals| => ByFirstKey(vals)[i].(power := if i == p then 1 else 0))
  }

  ghost predicate SameAddresses(xs: seq<Info>, ys: seq<Info>) {
    |xs| == |ys| && forall i :: 0 <= i < |xs| ==> xs[i].address == ys[i].address
  }

  lemma SameFirstHolder(xs: seq<Info>, ys: seq<Info>, a: Address)
    requires SameAddresses(xs, ys)
    ensures FirstHolder(xs, a) == FirstHolder(ys, a)
  {
  }

  lemma SameGroups(xs: seq<Info>, ys: seq<Info>, group: set<Address>)
    requires SameAddresses(xs, ys)
    ensures GroupSignatures(xs, group) == GroupSignatures(ys, group) && Under(xs, group) == Under(ys, group)
  {
    forall i | 0 <= i < |xs|
      ensures GroupSignature(xs, group, i) == GroupSignature(ys, group, i)
    {
      SameFirstHolder(xs, ys, xs[i].address);
    }
  }

  /** Each first key is the same. */
  ghost predicate SameFirsts(xs: seq<Info>, ys: seq<Info>) {
    SameAddresses(xs, ys) && forall i :: 0 <= i < |xs| && FirstHolder(xs, xs[i].address) == i ==>
      xs[i].pubKey == ys[i].pubKey
  }

  lemma SameFirstsCheckAlike(c: Crypto, xs: seq<Info>, ys: seq<Info>)
    requires SameFirsts(xs, ys) && ChecksFirstKeys(c, xs)
    ensures ChecksFirstKeys(c, ys)
  {
    forall key, bytes, s
      ensures c.verifies(key, bytes, s) <==> FirstKeyOnly(ys)(key, bytes, s)
    {
      SameFirstHolder(xs, ys, |s|);
      assert c.verifies(key, bytes, s) <==> FirstKeyOnly(xs)(key, bytes, s);
    }
  }

  lemma SameFirstsMatch(xs: seq<Info>, ys: seq<Info>)
    requires SameFirsts(xs, ys)
    ensures FirstKeysMatch(xs, ys)
  {
    forall i, j | 0 <= i < |xs| && 0 <= j < |ys| && xs[i].address == ys[j].address
      ensures ByFirstKey(xs)[i].pubKey == ByFirstKey(ys)[j].pubKey
    {
      SameFirstHolder(xs, ys, xs[i].address);
    }
  }

  lemma ConcentratedIsAlike(vals: seq<Info>, p: nat)
    ensures SameFirsts(vals, Concentrated(vals, p))
  {
  }

  lemma ConcentratedPower(vals: seq<Info>, p: nat, chosen: set<nat>)
    requires p < |vals| && p in chosen
    ensures SumPower(Concentrated(vals, p)) == 1 && PowerAt(Powers(Concentrated(vals, p)), chosen) == 1
  {
    var ps := Powers(Concentrated(vals, p));
    UnitPower(ps, p, chosen);
  }

  lemma {:induction false} UnitPower(ps: seq<nat>, p: nat, chosen: set<nat>)
    requires p in chosen && forall i :: 0 <= i < |ps| ==> ps[i] == if i == p then 1 else 0
    ensures Total(ps) == PowerAt(ps, chosen) == if p < |ps| then 1 else 0
  {
    if ps != [] {
      UnitPower(ps[..|ps| - 1], p, chosen);
    }
  }

  function ConcentratedSet(vs: ValidatorSet, p: nat): ValidatorSet {
    Set(Concentrated(vs.validators, p), None, 1)
  }

  /** A commit of the group for the concentrated set passes both checks. */
  lemma GroupPassesBoth(
    c: Crypto, sh: SignedHeader, next: ValidatorSet, group: set<Address>, f: TrustThreshold, p: nat)
    requires sh.commit.signatures == GroupSignatures(next.validators, group) && ChecksFirstKeys(c, next.validators)
    requires Exact(f, next) && EnoughAt(next, f, Under(next.validators, group)) && p in Under(next.validators, group)
    ensures CheckEnoughTrustAndSigners(c, sh, next, f, ConcentratedSet(next, p)).Ok?
  {
    var vs := ConcentratedSet(next, p);
    ConcentratedIsAlike(next.validators, p);
    SameGroups(next.validators, vs.validators, group);
    SameFirstsCheckAlike(c, next.validators, vs.validators);
    SameFirstsMatch(next.validators, vs.validators);
    SharedCacheIsEquivalent(c, sh, next, f, vs, TWO_THIRDS);
    GroupPasses(c, sh, next, group, f);
    EarlyExitIsExact(c, NonAbsentVotes(sh).value, next, f);
    GroupPasses(c, sh, vs, group, TWO_THIRDS);
    ConcentratedPower(next.validators, p, Under(vs.validators, group));
    EarlyExitIsExact(c, NonAbsentVotes(sh).value, vs, TWO_THIRDS);
  }

  lemma UnsignedIsSkippedTo(c: Crypto, next: ValidatorSet, f: TrustThreshold, group: set<Address>, p: nat)
    requires Exact(f, next) && ChecksFirstKeys(c, next.validators)
    requires EnoughAt(next, f, Under(next.validators, group)) && p in Under(next.validators, group)
    requires !EnoughAt(next, f, WithFirstKey(next.validators, group))
    ensures !SkippedOnlySigned(c, next, f, UntrustedOf(c, 3, ConcentratedSet(next, p), group), TrustedOf(c, next),
                               OptionsWith(f), NOW)
  {
    var vs := ConcentratedSet(next, p);
    var sh := UntrustedOf(c, 3, vs, group).signedHeader;
    ConcentratedIsAlike(next.validators, p);
    SameGroups(next.validators, vs.validators, group);
    GroupPassesBoth(c, sh, next, group, f, p);
    GroupFitsSet(sh, vs, group, p);
    UntrustedSucceeds(c, 3, vs, group, next, f);
    GroupPasses(c, sh, next, group, f);
  }

  lemma SkippedIsSigned(
    c: Crypto, next: ValidatorSet, f: TrustThreshold, u: UntrustedBlockState, t: TrustedBlockState, o: Options,
    now: Time)
    requires Fits(f, SumPower(next.validators)) && FirstKeysSuffice(next, f)
    ensures SkippedOnlySigned(c, next, f, u, t, o, now)
  {
    if && t.height < I64_MAX && u.Height() != t.height + 1 && t.nextValidators == next && o.trustThreshold == f
       && VerifyUpdateHeader(c, u, t, o, now).Success? {
      VerdictSuccessIff(c, u, t, o, now);
      PassingIsSigned(c, NonAbsentVotes(u.signedHeader).value, next, f);
    }
  }

  /**
   Over a gap, blocks are only accepted with enough signed power of the trusted
   next validators if and only if the first keys of those suffice.
   */
  lemma SkippingIsSignedIff(c: Crypto, next: ValidatorSet, f: TrustThreshold)
    requires Exact(f, next)
    ensures (forall verify, u, t, o, now :: SkippedOnlySigned(With(c, verify), next, f, u, t, o, now))
            <==> FirstKeysSuffice(next, f)
  {
    var vals := next.validators;
    if FirstKeysSuffice(next, f) {
      ProductsBelow(SumPower(vals), SumPower(vals), f.numerator, f.denominator);
      forall verify, u, t, o, now
        ensures SkippedOnlySigned(With(c, verify), next, f, u, t, o, now)
      {
        SkippedIsSigned(With(c, verify), next, f, u, t, o, now);
      }
    } else {
      var group :| EnoughAt(next, f, Under(vals, group)) && !EnoughAt(next, f, WithFirstKey(vals, group));
      var p := EnoughMeansMember(next, f, Under(vals, group));
      UnsignedIsSkippedTo(With(c, FirstKeyOnly(vals)), next, f, group, p);
    }
  }

  // ---- Two validators under one address ------------------------------------

  const ONE := Info(7, 1, 1, None, 0)
  const OTHER := Info(7, 2, 1, None, 0)
  const BOTH := Set([ONE, OTHER], None, 2)

  lemma PowersOfBoth(chosen: set<nat>)
    ensures SumPower(BOTH.validators) == 2
    ensures PowerAt(Powers(BOTH.validators), chosen) == (if 0 in chosen then 1 else 0) + (if 1 in chosen then 1 else 0)
  {
    var ps := Powers(BOTH.validators);
    assert ps == [1, 1] && ps[..1] == [1] && [1][..0] == [];
    assert PowerAt(ps, chosen) == PowerAt([1], chosen) + if 1 in chosen then 1 else 0;
    assert PowerAt([1], chosen) == PowerAt([], chosen) + if 0 in chosen then 1 else 0;
    assert Total(ps) == Total([1]) + 1 && Total([1]) == Total([]) + 1;
  }

  lemma FirstOfBoth()
    ensures Under(BOTH.validators, {7}) == {0, 1} && WithFirstKey(BOTH.validators, {7}) == {0}
  {
    var vals := BOTH.validators;
    assert FirstHolder(vals, 7) == 0;
    assert ByFirstKey(vals)[0] == vals[0] && ByFirstKey(vals)[1] == vals[1].(pubKey := 1);
  }

  /** Of a total of two, one does not pass. */
  lemma BothAreNeeded(r: Tally)
    requires r.total == 2 && r.tallied <= 2 && r.threshold == TWO_THIRDS && (r.tallied == 2 || r.Enough())
    ensures r == Tally(2, 2, TWO_THIRDS) && r.Enough()
  {
  }

  lemma HalfIsSigned(c: Crypto, votes: seq<SignedVote>, vs: ValidatorSet)
    requires Count(c, votes, {}, vs, TWO_THIRDS).result.Ok?
    requires CreditedPower(c, votes, vs) == 2 == SumPower(vs.validators)
    ensures Count(c, votes, {}, vs, TWO_THIRDS).result == Ok(Tally(2, 2, TWO_THIRDS))
  {
    TallyIsCreditedPower(c, votes, vs, TWO_THIRDS);
    BothAreNeeded(Count(c, votes, {}, vs, TWO_THIRDS).result.value);
  }

  /** One valid vote counts for both, and passes the check although half of the power has not signed. */
  lemma VoteCountsTwice(c: Crypto, header: Header, id: BlockId)
    ensures var c' := With(c, FirstKeyOnly(BOTH.validators));
            var sh := GroupSigned(header, id, BOTH.validators, {7});
            && VotingPowerIn(c', sh, BOTH, TWO_THIRDS) == Ok(Tally(2, 2, TWO_THIRDS))
            && Tally(2, 2, TWO_THIRDS).Enough()
            && NonAbsentVotes(sh).Ok? && SignedPower(c', NonAbsentVotes(sh).value, BOTH) == 1
  {
    FirstOfBoth();
    PowersOfBoth({0, 1});
    PowersOfBoth({0});
    var c', vs := With(c, FirstKeyOnly(BOTH.validators)), BOTH;
    var sh := GroupSigned(header, id, vs.validators, {7});
    GroupPasses(c', sh, vs, {7}, TWO_THIRDS);
    HalfIsSigned(c', NonAbsentVotes(sh).value, vs);
    BothAreNeeded(Tally(2, 2, TWO_THIRDS));
  }

  lemma SingletonIsBounded(v: Info)
    requires v.power == 1
    ensures Bounded(Set([v], None, 1)) && ByFirstKey([v]) == [v]
  {
    SingletonSum(v);
  }

  /** The validators in two sets: taken together they are counted, taken separately the second is an error. */
  lemma SharedIsNotSeparate(c: Crypto)
    ensures var c' := With(c, FirstKeyOnly([ONE]));
            var sh := GroupSigned(HeaderAt(2, 12, NoHash, NoHash), DEFAULT_BLOCK_ID, [ONE], {7});
            var first, second := Set([ONE], None, 1), Set([OTHER], None, 1);
            && VotingPowerInSets(c', sh, first, FULL, second, FULL).Ok?
            && IndependentTallies(c', sh, first, FULL, second, FULL).Err?
  {
    var sh := GroupSigned(HeaderAt(2, 12, NoHash, NoHash), DEFAULT_BLOCK_ID, [ONE], {7});
    var first, second := Set([ONE], None, 1), Set([OTHER], None, 1);
    SingletonIsBounded(ONE);
    SingletonIsBounded(OTHER);
    SharedPasses(c, sh, first, second, 7);
    SeparateFails(c, sh, first, second, 0);
  }
}
