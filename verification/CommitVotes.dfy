/**
 The tally as voting_power.rs carries it out: votes sorted by address, duplicates
 found in neighbouring pairs, lookup by binary search, a flag on each vote whose
 signature was checked, and a loop that leaves as soon as the power suffices.
 Every method is tied to the linear form in `VotingPower`.
 */
module CommitVotes {
  import opened Common
  import opened Extrema
  import opened Sorting
  import opened Types
  import opened Validators
  import opened TrustThresholds
  import opened Blocks
  import opened VotingPower

  datatype NonAbsentCommitVote = NonAbsentCommitVote(signedVote: SignedVote, verified: bool)

  predicate ByAddress(a: SignedVote, b: SignedVote) {
    a.validatorAddress <= b.validatorAddress
  }

  ghost predicate StrictByAddress(votes: seq<SignedVote>) {
    forall i, j :: 0 <= i < j < |votes| ==> votes[i].validatorAddress < votes[j].validatorAddress
  }

  function Unmarked(votes: seq<SignedVote>): (r: seq<NonAbsentCommitVote>)
    ensures |r| == |votes| && forall i :: 0 <= i < |r| ==> r[i] == NonAbsentCommitVote(votes[i], false)
  {
    seq(|votes|, i requires 0 <= i < |votes| => NonAbsentCommitVote(votes[i], false))
  }

  function RawVotes(votes: seq<NonAbsentCommitVote>): (r: seq<SignedVote>)
    ensures |r| == |votes| && forall i :: 0 <= i < |r| ==> r[i] == votes[i].signedVote
  {
    seq(|votes|, i requires 0 <= i < |votes| => votes[i].signedVote)
  }

  function MarkedAddresses(votes: seq<NonAbsentCommitVote>): set<Address> {
    set i | 0 <= i < |votes| && votes[i].verified :: votes[i].signedVote.validatorAddress
  }

  // ---- Sorting does not change lookups or duplicates -----------------------

  lemma DuplicatedAfterRearranging(a: seq<SignedVote>, b: seq<SignedVote>)
    requires multiset(a) == multiset(b)
    ensures DuplicatedAddresses(b) <= DuplicatedAddresses(a)
  {
    forall x | x in DuplicatedAddresses(b)
      ensures x in DuplicatedAddresses(a)
    {
      var i :| 0 <= i < |b| && DuplicateAt(b, i) && b[i].validatorAddress == x;
      var j :| 0 <= j < |b| && j != i && b[j].validatorAddress == b[i].validatorAddress;
      var p, q := PositionsAfterRearranging(a, b, if i < j then i else j, if i < j then j else i);
      assert DuplicateAt(a, p);
    }
  }

  /** In sorted votes, an address that occurs twice occurs at two neighbouring positions. */
  lemma DuplicateIsNeighbour(sorted: seq<SignedVote>, x: Address) returns (p: nat)
    requires Sorted(ByAddress, sorted) && x in DuplicatedAddresses(sorted)
    ensures p + 1 < |sorted| && sorted[p].validatorAddress == sorted[p + 1].validatorAddress == x
  {
    var i :| 0 <= i < |sorted| && DuplicateAt(sorted, i) && sorted[i].validatorAddress == x;
    var j :| 0 <= j < |sorted| && j != i && sorted[j].validatorAddress == sorted[i].validatorAddress;
    p := if i < j then i else j;
    var q := if i < j then j else i;
    assert ByAddress(sorted[p], sorted[p + 1]);
    assert p + 1 == q || ByAddress(sorted[p + 1], sorted[q]);
  }

  /** The first equal pair of neighbours in the sorted votes shows the least duplicated address. */
  lemma FirstEqualPair(sorted: seq<SignedVote>, w: nat)
    requires Sorted(ByAddress, sorted) && w + 1 < |sorted|
    requires sorted[w].validatorAddress == sorted[w + 1].validatorAddress
    requires forall k :: 0 <= k < w ==> sorted[k].validatorAddress != sorted[k + 1].validatorAddress
    ensures sorted[w].validatorAddress in DuplicatedAddresses(sorted)
    ensures Least(DuplicatedAddresses(sorted)) == sorted[w].validatorAddress
  {
    assert DuplicateAt(sorted, w);
    forall x | x in DuplicatedAddresses(sorted)
      ensures sorted[w].validatorAddress <= x
    {
      var p := DuplicateIsNeighbour(sorted, x);
      assert w == p || ByAddress(sorted[w], sorted[p]);
    }
  }

  lemma {:induction false} NeighboursDecideOrder(sorted: seq<SignedVote>, i: nat, j: nat)
    requires Sorted(ByAddress, sorted) && i < j < |sorted|
    requires forall k :: 0 <= k < |sorted| - 1 ==> sorted[k].validatorAddress != sorted[k + 1].validatorAddress
    ensures sorted[i].validatorAddress < sorted[j].validatorAddress
  {
    assert ByAddress(sorted[i], sorted[i + 1]);
    if i + 1 < j {
      assert ByAddress(sorted[i + 1], sorted[j]);
    }
  }

  lemma NoDuplicatesWhenStrict(votes: seq<SignedVote>)
    requires StrictByAddress(votes)
    ensures DuplicatedAddresses(votes) == {}
  {
    assert forall i :: 0 <= i < |votes| ==> !DuplicateAt(votes, i);
  }

  lemma DistinctWhenNoDuplicates(votes: seq<SignedVote>, i: nat, j: nat)
    requires DuplicatedAddresses(votes) == {} && i < |votes| && j < |votes|
    requires votes[i].validatorAddress == votes[j].validatorAddress
    ensures i == j
  {
    assert votes[i].validatorAddress !in DuplicatedAddresses(votes);
    assert !DuplicateAt(votes, i);
  }

  /** Lookup by address gives one answer in all arrangements of votes without duplicates. */
  lemma LookupIsOrderFree(a: seq<SignedVote>, b: seq<SignedVote>, address: Address)
    requires multiset(a) == multiset(b) && DuplicatedAddresses(a) == {}
    ensures FindVote(a, address) == FindVote(b, address)
  {
    var x, y := FindVote(a, address), FindVote(b, address);
    assert forall v :: v in a <==> v in multiset(a);
    assert forall v :: v in b <==> v in multiset(b);
    if x.Some? && y.Some? {
      var i :| 0 <= i < |a| && a[i] == x.value;
      var j :| 0 <= j < |a| && a[j] == y.value;
      DistinctWhenNoDuplicates(a, i, j);
    }
  }

  lemma {:induction false} CountIsOrderFree(
    c: Crypto, a: seq<SignedVote>, b: seq<SignedVote>, checked: set<Address>, vals: seq<Info>, k: nat, tally: Tally)
    requires multiset(a) == multiset(b) && DuplicatedAddresses(a) == {}
    requires k <= |vals|
    ensures CountFrom(c, a, checked, vals, k, tally) == CountFrom(c, b, checked, vals, k, tally)
    decreases |vals| - k
  {
    if k < |vals| {
      LookupIsOrderFree(a, b, vals[k].address);
      match HasVoted(c, a, checked, vals[k])
      case Err(_) =>
      case Ok(false) =>
        CountIsOrderFree(c, a, b, checked, vals, k + 1, tally);
      case Ok(true) =>
        var tally' := tally.(tallied := tally.tallied + vals[k].power);
        if !tally'.Enough() {
          CountIsOrderFree(c, a, b, checked + {vals[k].address}, vals, k + 1, tally');
        }
    }
  }

  // ---- The collection of votes ---------------------------------------------

  class NonAbsentCommitVotes {
    const crypto: Crypto
    var votes: seq<NonAbsentCommitVote>
    var signBytes: seq<Byte>

    ghost predicate Valid()
      reads this
    {
      StrictByAddress(RawVotes(votes))
    }

    constructor (crypto: Crypto, votes: seq<SignedVote>)
      requires StrictByAddress(votes)
      ensures this.crypto == crypto && Valid() && RawVotes(this.votes) == votes
      ensures MarkedAddresses(this.votes) == {}
    {
      this.crypto := crypto;
      this.votes := Unmarked(votes);
      this.signBytes := [];
    }

    /** The position of the vote cast under `address`, if there is one. */
    method Search(address: Address) returns (found: Option<nat>)
      requires Valid()
      ensures found.Some? ==> found.value < |votes| && votes[found.value].signedVote.validatorAddress == address
      ensures found.None? ==> forall i :: 0 <= i < |votes| ==> votes[i].signedVote.validatorAddress != address
    {
      var lo, hi := 0, |votes|;
      while lo < hi
        invariant 0 <= lo <= hi <= |votes|
        invariant forall i :: 0 <= i < lo ==> RawVotes(votes)[i].validatorAddress < address
        invariant forall i :: hi <= i < |votes| ==> address < RawVotes(votes)[i].validatorAddress
      {
        var mid := (lo + hi) / 2;
        var here := RawVotes(votes)[mid].validatorAddress;
        if here == address {
          return Some(mid);
        } else if here < address {
          lo := mid + 1;
        } else {
          hi := mid;
        }
      }
      forall i | 0 <= i < |votes|
        ensures votes[i].signedVote.validatorAddress != address
      {
        assert RawVotes(votes)[i] == votes[i].signedVote;
      }
      return None;
    }

    /** Looks the validator's vote up and checks its signature unless that was done before. */
    method HasVoted(validator: Info) returns (r: Result<bool, VerificationError>)
      requires Valid()
      modifies this
      ensures Valid() && RawVotes(votes) == old(RawVotes(votes))
      ensures r == VotingPower.HasVoted(crypto, RawVotes(votes), old(MarkedAddresses(votes)), validator)
      ensures MarkedAddresses(votes)
           == old(MarkedAddresses(votes)) + if r == Ok(true) then {validator.address} else {}
    {
      var found := Search(validator.address);
      if found.None? {
        NotFound(votes, validator.address);
        return Ok(false);
      }
      var vote := votes[found.value];
      FoundAt(votes, found.value);
      if !vote.verified {
        signBytes := crypto.signBytes(vote.signedVote.vote);
        if !crypto.verifies(validator.pubKey, signBytes, vote.signedVote.signature) {
          return Err(InvalidSignature(vote.signedVote.signature, validator, signBytes));
        }
      }
      MarkAt(votes, found.value);
      votes := votes[found.value := vote.(verified := true)];
      return Ok(true);
    }
  }

  lemma NotFound(votes: seq<NonAbsentCommitVote>, address: Address)
    requires forall i :: 0 <= i < |votes| ==> votes[i].signedVote.validatorAddress != address
    ensures FindVote(RawVotes(votes), address) == None
  {
  }

  lemma FoundAt(votes: seq<NonAbsentCommitVote>, k: nat)
    requires StrictByAddress(RawVotes(votes)) && k < |votes|
    ensures FindVote(RawVotes(votes), votes[k].signedVote.validatorAddress) == Some(votes[k].signedVote)
    ensures votes[k].verified <==> votes[k].signedVote.validatorAddress in MarkedAddresses(votes)
  {
    var raw := RawVotes(votes);
    var address := raw[k].validatorAddress;
    assert raw[k] in raw;
    var v := FindVote(raw, address);
    var j :| 0 <= j < |raw| && raw[j] == v.value;
    if address in MarkedAddresses(votes) {
      var i :| 0 <= i < |votes| && votes[i].verified && votes[i].signedVote.validatorAddress == address;
      assert raw[i].validatorAddress == address;
    }
  }

  lemma MarkAt(votes: seq<NonAbsentCommitVote>, k: nat)
    requires k < |votes|
    ensures var marked := votes[k := votes[k].(verified := true)];
            && RawVotes(marked) == RawVotes(votes)
            && MarkedAddresses(marked) == MarkedAddresses(votes) + {votes[k].signedVote.validatorAddress}
  {
    var marked := votes[k := votes[k].(verified := true)];
    assert marked[k].verified;
    forall x | x in MarkedAddresses(votes)
      ensures x in MarkedAddresses(marked)
    {
      var i :| 0 <= i < |votes| && votes[i].verified && votes[i].signedVote.validatorAddress == x;
      assert marked[i].verified && marked[i].signedVote.validatorAddress == x;
    }
    forall x | x in MarkedAddresses(marked)
      ensures x in MarkedAddresses(votes) + {votes[k].signedVote.validatorAddress}
    {
      var i :| 0 <= i < |marked| && marked[i].verified && marked[i].signedVote.validatorAddress == x;
      assert i == k || votes[i].verified;
    }
  }

  /** Scans neighbouring pairs of the sorted votes for an address that occurs twice. */
  method FindDuplicate(sorted: seq<SignedVote>) returns (duplicate: Option<Address>)
    requires Sorted(ByAddress, sorted)
    ensures duplicate.None? ==> StrictByAddress(sorted)
    ensures duplicate.Some? ==>
              DuplicatedAddresses(sorted) != {} && duplicate.value == Least(DuplicatedAddresses(sorted))
  {
    var i := 0;
    while i + 1 < |sorted|
      invariant 0 <= i
      invariant forall k :: 0 <= k < i && k + 1 < |sorted| ==>
                  sorted[k].validatorAddress != sorted[k + 1].validatorAddress
    {
      if sorted[i].validatorAddress == sorted[i + 1].validatorAddress {
        FirstEqualPair(sorted, i);
        return Some(sorted[i].validatorAddress);
      }
      i := i + 1;
    }
    forall a, b | 0 <= a < b < |sorted|
      ensures sorted[a].validatorAddress < sorted[b].validatorAddress
    {
      NeighboursDecideOrder(sorted, a, b);
    }
    return None;
  }

  /** The votes of a header: collected, sorted and scanned for duplicates in neighbouring pairs. */
  method NewCommitVotes(crypto: Crypto, sh: SignedHeader)
    returns (r: Result<NonAbsentCommitVotes, VerificationError>)
    ensures r.Err? <==> NonAbsentVotes(sh).Err?
    ensures r.Err? ==> r.error == NonAbsentVotes(sh).error
    ensures r.Ok? ==>
              && fresh(r.value) && r.value.Valid() && r.value.crypto == crypto
              && multiset(RawVotes(r.value.votes)) == multiset(NonAbsentVotes(sh).value)
              && DuplicatedAddresses(NonAbsentVotes(sh).value) == {}
              && MarkedAddresses(r.value.votes) == {}
  {
    var votes: seq<SignedVote> := [];
    var signatures := sh.commit.signatures;
    for idx := 0 to |signatures|
      invariant CollectVotes(sh, idx) == Ok(votes)
    {
      var next := VoteOf(signatures[idx], sh.commit, sh.header.chainId);
      if next.Some? {
        if next.value.Err? {
          CollectStopsAtError(sh, idx + 1, |signatures|);
          return Err(next.value.error);
        }
        votes := votes + [next.value.value];
      }
    }
    var sorted := Sort(ByAddress, votes);
    SortSorts(ByAddress, votes);
    SortPermutes(ByAddress, votes);
    DuplicatedAfterRearranging(votes, sorted);
    DuplicatedAfterRearranging(sorted, votes);
    var duplicate := FindDuplicate(sorted);
    if duplicate.Some? {
      return Err(DuplicateValidator(duplicate.value));
    }
    NoDuplicatesWhenStrict(sorted);
    var collected := new NonAbsentCommitVotes(crypto, sorted);
    return Ok(collected);
  }

  lemma {:induction false} CollectStopsAtError(sh: SignedHeader, n: nat, m: nat)
    requires n <= m <= |sh.commit.signatures| && CollectVotes(sh, n).Err?
    ensures CollectVotes(sh, m) == CollectVotes(sh, n)
    decreases m
  {
    if n < m {
      CollectStopsAtError(sh, n, m - 1);
    }
  }

  /** Adds up the powers of the validators that voted, until that is enough. */
  method CountVotes(votes: NonAbsentCommitVotes, vs: ValidatorSet, threshold: TrustThreshold)
    returns (r: Result<Tally, VerificationError>)
    requires votes.Valid()
    modifies votes
    ensures votes.Valid() && RawVotes(votes.votes) == old(RawVotes(votes.votes))
    ensures Counted(r, MarkedAddresses(votes.votes))
         == Count(votes.crypto, RawVotes(votes.votes), old(MarkedAddresses(votes.votes)), vs, threshold)
  {
    var vals := vs.validators;
    var power := Tally(SumPower(vals), 0, threshold);
    ghost var raw := RawVotes(votes.votes);
    ghost var whole := Count(votes.crypto, raw, MarkedAddresses(votes.votes), vs, threshold);
    for k := 0 to |vals|
      invariant votes.Valid() && RawVotes(votes.votes) == raw
      invariant whole == CountFrom(votes.crypto, raw, MarkedAddresses(votes.votes), vals, k, power)
    {
      ghost var marked := MarkedAddresses(votes.votes);
      assert marked + {} == marked;
      var voted := votes.HasVoted(vals[k]);
      if voted.Err? {
        return Err(voted.error);
      }
      if voted.value {
        power := power.(tallied := power.tallied + vals[k].power);
        if power.Enough() {
          return Ok(power);
        }
      }
    }
    return Ok(power);
  }

  method ComputeVotingPowerIn(crypto: Crypto, sh: SignedHeader, vs: ValidatorSet, threshold: TrustThreshold)
    returns (r: Result<Tally, VerificationError>)
    ensures r == VotingPowerIn(crypto, sh, vs, threshold)
  {
    var votes := NewCommitVotes(crypto, sh);
    if votes.Err? {
      return Err(votes.error);
    }
    SameCount(crypto, NonAbsentVotes(sh).value, RawVotes(votes.value.votes), {}, vs, threshold);
    r := CountVotes(votes.value, vs, threshold);
  }

  method ComputeVotingPowerInSets(
    crypto: Crypto, sh: SignedHeader,
    first: ValidatorSet, firstThreshold: TrustThreshold,
    second: ValidatorSet, secondThreshold: TrustThreshold)
    returns (r: Result<(Tally, Tally), VerificationError>)
    ensures r == VotingPowerInSets(crypto, sh, first, firstThreshold, second, secondThreshold)
  {
    var votes := NewCommitVotes(crypto, sh);
    if votes.Err? {
      return Err(votes.error);
    }
    SameCount(crypto, NonAbsentVotes(sh).value, RawVotes(votes.value.votes), {}, first, firstThreshold);
    var firstTally := CountVotes(votes.value, first, firstThreshold);
    if firstTally.Err? {
      return Err(firstTally.error);
    }
    SameCount(crypto, NonAbsentVotes(sh).value, RawVotes(votes.value.votes),
              MarkedAddresses(votes.value.votes), second, secondThreshold);
    var secondTally := CountVotes(votes.value, second, secondThreshold);
    if secondTally.Err? {
      return Err(secondTally.error);
    }
    return Ok((firstTally.value, secondTally.value));
  }

  lemma SameCount(
    c: Crypto, a: seq<SignedVote>, b: seq<SignedVote>, checked: set<Address>, vs: ValidatorSet, t: TrustThreshold)
    requires multiset(a) == multiset(b) && DuplicatedAddresses(a) == {}
    ensures Count(c, a, checked, vs, t) == Count(c, b, checked, vs, t)
  {
    CountIsOrderFree(c, a, b, checked, vs.validators, 0, Tally(SumPower(vs.validators), 0, t));
  }
}
