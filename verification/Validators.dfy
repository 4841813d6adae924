/** Validators and validator sets of tendermint/src/validator.rs, and the arithmetic of quorums. */
module Validators {
  import opened Common
  import opened Merkle
  import opened Types
  import opened Sorting
  import TrustThresholds

  /** Voting power is a `u64` within the positive `i64` range. */
  type Power = p: nat | p <= I64_MAX

  datatype Info = Info(
    address: Address,
    pubKey: PubKey,
    power: Power,
    name: Option<string>,
    proposerPriority: int)

  function Powers(vals: seq<Info>): (ps: seq<nat>)
    ensures |ps| == |vals| && forall i :: 0 <= i < |vals| ==> ps[i] == vals[i].power
  {
    seq(|vals|, i requires 0 <= i < |vals| => vals[i].power)
  }

  /** The sum of the powers at the `chosen` positions. */
  function PowerAt(powers: seq<nat>, chosen: set<nat>): nat {
    if powers == [] then 0
    else
      var last := |powers| - 1;
      PowerAt(powers[..last], chosen) + if last in chosen then powers[last] else 0
  }

  function Total(powers: seq<nat>): nat {
    if powers == [] then 0
    else Total(powers[..|powers| - 1]) + powers[|powers| - 1]
  }

  function SumPower(vals: seq<Info>): nat {
    Total(Powers(vals))
  }

  lemma SumPowerExtends(vals: seq<Info>, k: nat)
    requires k < |vals|
    ensures SumPower(vals[..k + 1]) == SumPower(vals[..k]) + vals[k].power
  {
    var ps := Powers(vals[..k + 1]);
    assert ps[..k] == Powers(vals[..k]);
  }

  lemma {:induction false} TotalOfConcatenation(a: seq<nat>, b: seq<nat>)
    ensures Total(a + b) == Total(a) + Total(b)
  {
    if b == [] {
      assert a + b == a;
    } else {
      var last := |b| - 1;
      assert (a + b)[..|a + b| - 1] == a + b[..last];
      TotalOfConcatenation(a, b[..last]);
    }
  }

  lemma SumPowerSplits(vals: seq<Info>, k: nat)
    requires k <= |vals|
    ensures SumPower(vals) == SumPower(vals[..k]) + SumPower(vals[k..])
  {
    assert Powers(vals) == Powers(vals[..k]) + Powers(vals[k..]);
    TotalOfConcatenation(Powers(vals[..k]), Powers(vals[k..]));
  }

  // ---- Validator sets ------------------------------------------------------

  datatype ValidatorSet = Set(validators: seq<Info>, proposer: Option<Info>, totalVotingPower: Power)

  /** What `TryFromParts`, the only way to make a set, guarantees of it. */
  ghost predicate Bounded(s: ValidatorSet) {
    SumPower(s.validators) == s.totalVotingPower <= TrustThresholds.MAX_TOTAL_VOTING_POWER
  }

  /** First by power, descending, then by address, ascending. */
  predicate ByPowerThenAddress(a: Info, b: Info) {
    a.power > b.power || (a.power == b.power && a.address <= b.address)
  }

  /** Sorted that way, a set starts with the most power, and addresses go up where power is equal. */
  lemma SortedMeans(vals: seq<Info>, i: nat, j: nat)
    requires Sorted(ByPowerThenAddress, vals) && i < j < |vals|
    ensures vals[i].power >= vals[j].power
    ensures vals[i].power == vals[j].power ==> vals[i].address <= vals[j].address
  {
  }

  datatype SetError = TotalVotingPowerOverflow | NegativePower | TotalVotingPowerMismatch

  lemma {:induction false} SortKeepsSum(vals: seq<Info>)
    ensures SumPower(Sort(ByPowerThenAddress, vals)) == SumPower(vals)
  {
    if vals == [] {
      assert Sort(ByPowerThenAddress, vals) == [];
    } else {
      SortKeepsSum(vals[1..]);
      InsertAddsPower(vals[0], Sort(ByPowerThenAddress, vals[1..]));
      SumPowerSplits(vals, 1);
      SingletonSum(vals[0]);
      assert vals[..1] == [vals[0]];
    }
  }

  lemma SingletonSum(x: Info)
    ensures SumPower([x]) == x.power
  {
    var ps := Powers([x]);
    assert Total(ps) == Total(ps[..0]) + ps[0];
  }

  lemma {:induction false} InsertAddsPower(x: Info, s: seq<Info>)
    ensures SumPower(Insert(ByPowerThenAddress, x, s)) == x.power + SumPower(s)
  {
    SingletonSum(x);
    if s == [] || ByPowerThenAddress(x, s[0]) {
      SumPowerSplits([x] + s, 1);
      assert ([x] + s)[..1] == [x] && ([x] + s)[1..] == s;
    } else {
      var rest := Insert(ByPowerThenAddress, x, s[1..]);
      InsertAddsPower(x, s[1..]);
      SumPowerSplits([s[0]] + rest, 1);
      SumPowerSplits(s, 1);
      assert ([s[0]] + rest)[..1] == s[..1] == [s[0]] && ([s[0]] + rest)[1..] == rest;
    }
  }

  /**
   Accepts a list exactly when its power sums to at most the bound and agrees
   with the total that came with it (0 standing for "not given").  The running
   total saturates at the 64-bit limit and therefore never wraps.
   */
  method TryFromParts(validators: seq<Info>, proposer: Option<Info>, unvalidatedTotal: int)
    returns (r: Result<ValidatorSet, SetError>)
    requires -I64_MAX - 1 <= unvalidatedTotal <= I64_MAX
    ensures r.Ok? <==>
            && SumPower(validators) <= TrustThresholds.MAX_TOTAL_VOTING_POWER
            && (unvalidatedTotal == 0 || unvalidatedTotal == SumPower(validators))
    ensures r.Ok? ==>
              && Bounded(r.value)
              && multiset(r.value.validators) == multiset(validators)
              && Sorted(ByPowerThenAddress, r.value.validators)
              && r.value.validators == Sort(ByPowerThenAddress, validators)
              && r.value.proposer == proposer
              && r.value.totalVotingPower == SumPower(validators)
    ensures r.Err? ==>
              (r.error.TotalVotingPowerOverflow? <==>
                 SumPower(validators) > TrustThresholds.MAX_TOTAL_VOTING_POWER)
    ensures r.Err? && r.error.NegativePower? ==> unvalidatedTotal < 0
  {
    var total: U64 := 0;
    for i := 0 to |validators|
      invariant total == if SumPower(validators[..i]) < TWO_64 then SumPower(validators[..i]) else TWO_64 - 1
    {
      SumPowerExtends(validators, i);
      total := if total + validators[i].power < TWO_64 then total + validators[i].power else TWO_64 - 1;
    }
    assert validators[..|validators|] == validators;
    if total > TrustThresholds.MAX_TOTAL_VOTING_POWER {
      return Err(TotalVotingPowerOverflow);
    }
    if unvalidatedTotal != 0 {
      if unvalidatedTotal < 0 {
        return Err(NegativePower);
      }
      if unvalidatedTotal != total {
        return Err(TotalVotingPowerMismatch);
      }
    }
    var sorted := Sort(ByPowerThenAddress, validators);
    SortKeepsSum(validators);
    SortPermutes(ByPowerThenAddress, validators);
    SortSorts(ByPowerThenAddress, validators);
    return Ok(Set(sorted, proposer, total));
  }

  /**
   For a set that `TryFromParts` accepted, every sum of powers a tally can
   reach, and both products it is compared by, fit into 64 bits when the
   threshold's denominator is at most 16; the comparison is then exact.
   */
  lemma ArithmeticFits(s: ValidatorSet, k: nat, t: TrustThresholds.TrustThreshold, signed: nat)
    requires Bounded(s) && k <= |s.validators|
    requires t.denominator <= 16 && signed <= SumPower(s.validators)
    ensures SumPower(s.validators[..k]) <= SumPower(s.validators) < TWO_64 / 16
    ensures signed * t.denominator < TWO_64 && SumPower(s.validators) * t.numerator < TWO_64
    ensures TrustThresholds.IsEnoughPower(t, signed, SumPower(s.validators))
            <==> TrustThresholds.ExactlyEnough(t, signed, SumPower(s.validators))
  {
    SumPowerSplits(s.validators, k);
    TrustThresholds.ProductsBelow(
      SumPower(s.validators), TrustThresholds.MAX_TOTAL_VOTING_POWER, t.denominator, 16);
    TrustThresholds.ComparisonIsExact(t, signed, SumPower(s.validators));
  }

  /**
   Two orderings of one list of validators with different keys give one sorted
   list, hence one set and one hash.
   */
  lemma SetIsOrderFree(c: Crypto, xs: seq<Info>, ys: seq<Info>)
    requires multiset(xs) == multiset(ys)
    requires forall i, j :: 0 <= i < j < |xs| ==>
               xs[i].power != xs[j].power || xs[i].address != xs[j].address
    ensures Sort(ByPowerThenAddress, xs) == Sort(ByPowerThenAddress, ys)
    ensures HashOf(c, Sort(ByPowerThenAddress, xs)) == HashOf(c, Sort(ByPowerThenAddress, ys))
  {
    SortIsCanonical(ByPowerThenAddress, xs, ys);
  }

  // ---- Hashing -------------------------------------------------------------

  function Simple(v: Info): SimpleValidator {
    SimpleValidator(v.pubKey, v.power)
  }

  function SimpleList(vals: seq<Info>): (ss: seq<SimpleValidator>)
    ensures |ss| == |vals| && forall i :: 0 <= i < |vals| ==> ss[i] == Simple(vals[i])
  {
    seq(|vals|, i requires 0 <= i < |vals| => Simple(vals[i]))
  }

  function Leaves(c: Crypto, ss: seq<SimpleValidator>): (ls: seq<seq<Byte>>)
    ensures |ls| == |ss| && forall i :: 0 <= i < |ss| ==> ls[i] == c.encodeValidator(ss[i])
  {
    seq(|ss|, i requires 0 <= i < |ss| => c.encodeValidator(ss[i]))
  }

  function HashOfSimple(c: Crypto, ss: seq<SimpleValidator>): Hash {
    Sha256(Root(c.digest, Leaves(c, ss)))
  }

  function HashOf(c: Crypto, vals: seq<Info>): Hash {
    HashOfSimple(c, SimpleList(vals))
  }

  /** The hash of a set is the root over its validators' keys and powers, in the order of the set. */
  lemma SetHashIs(c: Crypto, vals: seq<Info>, leaves: seq<seq<Byte>>)
    requires |leaves| == |vals|
    requires forall i :: 0 <= i < |vals| ==>
               leaves[i] == c.encodeValidator(SimpleValidator(vals[i].pubKey, vals[i].power))
    ensures HashOf(c, vals) == Sha256(Root(c.digest, leaves))
  {
    assert Leaves(c, SimpleList(vals)) == leaves;
  }

  method HashValidators(c: Crypto, vals: seq<Info>) returns (hash: Hash)
    ensures hash == HashOf(c, vals)
  {
    var validatorBytes := seq(|vals|, i requires 0 <= i < |vals| => c.encodeValidator(Simple(vals[i])));
    assert forall i :: 0 <= i < |vals| ==> validatorBytes[i] == c.encodeValidator(Simple(vals[i]));
    SetHashIs(c, vals, validatorBytes);
    var hasher := new IncrementalHasher(c.digest);
    var root := hasher.HashByteVectors(validatorBytes);
    return Sha256(root);
  }

  function SimpleInputs(c: Crypto, ss: seq<SimpleValidator>): set<seq<Byte>> {
    Inputs(c.digest, Leaves(c, ss))
  }

  /** The hash of a validator set names its keys and powers, in order. */
  lemma SetHashNamesValidators(
    c: Crypto, domain: set<seq<Byte>>, xs: seq<SimpleValidator>, ys: seq<SimpleValidator>)
    requires EncodesFaithfully(c) && CollisionFreeOn(c.digest, domain)
    requires SimpleInputs(c, xs) <= domain && SimpleInputs(c, ys) <= domain
    ensures HashOfSimple(c, xs) == HashOfSimple(c, ys) <==> xs == ys
  {
    RootBinds(c.digest, domain, Leaves(c, xs), Leaves(c, ys));
    if Leaves(c, xs) == Leaves(c, ys) {
      forall i | 0 <= i < |xs|
        ensures xs[i] == ys[i]
      {
        assert Leaves(c, xs)[i] == Leaves(c, ys)[i];
      }
    }
  }

  // ---- Quorums -------------------------------------------------------------

  lemma {:induction false} PowerAtSubset(powers: seq<nat>, a: set<nat>, b: set<nat>)
    requires forall i :: 0 <= i < |powers| && i in a ==> i in b
    ensures PowerAt(powers, a) <= PowerAt(powers, b) <= Total(powers)
  {
    if powers != [] {
      PowerAtSubset(powers[..|powers| - 1], a, b);
    }
  }

  lemma {:induction false} PowerAtInclusionExclusion(powers: seq<nat>, a: set<nat>, b: set<nat>)
    ensures PowerAt(powers, a) + PowerAt(powers, b) == PowerAt(powers, a + b) + PowerAt(powers, a * b)
  {
    if powers != [] {
      PowerAtInclusionExclusion(powers[..|powers| - 1], a, b);
    }
  }

  /** Two groups of more than two thirds each share members with more than a third. */
  lemma QuorumsIntersect(powers: seq<nat>, a: set<nat>, b: set<nat>)
    requires 3 * PowerAt(powers, a) > 2 * Total(powers)
    requires 3 * PowerAt(powers, b) > 2 * Total(powers)
    ensures 3 * PowerAt(powers, a * b) > Total(powers)
  {
    PowerAtInclusionExclusion(powers, a, b);
    PowerAtSubset(powers, a + b, a + b);
  }

  /** A group of more than a third is not contained in one of at most a third. */
  lemma SomeMemberOutside(powers: seq<nat>, signers: set<nat>, faulty: set<nat>) returns (i: nat)
    requires 3 * PowerAt(powers, signers) > Total(powers)
    requires 3 * PowerAt(powers, faulty) <= Total(powers)
    ensures i < |powers| && i in signers && i !in faulty
  {
    if forall i :: 0 <= i < |powers| && i in signers ==> i in faulty {
      PowerAtSubset(powers, signers, faulty);
    }
    i :| 0 <= i < |powers| && i in signers && i !in faulty;
  }
}
