# A verified model of tendermint-rs

This project models the parts of tendermint-rs that other code has to trust, and
proves what they promise:

- the light client that verifies headers by bisection, with its verifier,
  voting-power tally, validator sets, Merkle roots, stores, trace and builder;
- the detector that finds where two providers' chains first part;
- the length-delimited codec of ABCI connections;
- the printer and the grammar of RPC event queries;
- the framing of encrypted peer-to-peer connections.

`dafny verify dfyconfig.toml` checks the whole project.

## Main results

- **Safety of whole runs** (`Safety.WholeRunSafety`). Start a client on the hash of
  a chain header, call it any number of times with any targets: every block it ever
  marks Verified or Trusted, in any round, and every block it returns, has the header of
  the chain at its height. The proof follows a correct signer through the overlap of
  validator sets for skipping hops, and equal next-validator hashes for adjacent ones. It
  rests on two conditions on voting power that the client does not check itself; without
  either it fails (`SafetyLimits.CreditIsNeeded`, `SafetyLimits.FittingIsNeeded`).
- **Safety of mixed runs** (`MixedRuns.MixedRunSafety`). The same for the build in which
  calls may also go down, where validator sets of blocks reached downwards are never looked
  at: such a block is never the one that a later round verifies against.
- **Termination** (`LightClient.Forward`, `LightClient.RoundProgress`). Bisection ends
  for every peer that answers with the height it was asked for. Each round raises the
  trusted height, or keeps it and lowers the current one; every schedule in a run meets
  the scheduler's contract. No more rejections follow each other than the logarithm of the
  gap, which bounds the rounds of a call (`Bisection.RejectionsAreFew`,
  `Bisection.CallRoundsAreBounded`).
- **Success** (`Liveness.HonestPeerSuffices`,
  `BackwardOutcomes.HonestPeerSufficesDownwards`). With the production verifier and a peer
  that serves a well-formed chain, every call from a chain block upwards returns the chain's
  block at its target. So does every call downwards from a root in its trusting period, if
  the peer serves a hash-linked chain.
- **Every error has its cause** (`Outcomes.CallErrorHasCause`, `Verdicts.VerdictExplained`,
  `BackwardOutcomes.DownwardErrorHasCause`, `DetectorOutcomes.LaterErrorHasCause`,
  `AbciOutcomes.DrainIs`, `SecretOutcomes.WriteIs`). A call fails only where one of its
  rounds or steps does, and with the error of the check, fetch or verdict that failed there.
- **The run invariant** (`RunInvariant.InvariantInEveryRun`), **trace linkage**
  (`TraceLinkage.TraceIsLinked`), **backward verification** (`Backward.BackwardIsLinked`,
  `Backward.BackwardIsSafe`) and **store refinement** (`SledStores.StoresAgreeInEveryRun`,
  `SledMixedRuns.StoresServeAlikeInEveryRun`).
- **The tally** (`VotingPower.EarlyExitIsExact`, `SharedAddresses.SharedCacheIff`,
  `VotingPower.CommitsIntersect`, `TrustThresholds.ComparisonExactIff`). Sorting, window
  scan, binary search, signature cache and early exit compute the same answer as adding
  up the power credited to votes. That is what checking every signature gives if and only
  if equal addresses mean equal keys (`SharedAddresses.CacheIsTransparentIff`). In 64-bit
  arithmetic the comparison is exact up to denominators of 16, and never accepts too little
  up to numerators of 16 (`TrustThresholds.ComparisonSoundIff`).
- **Merkle binding** (`Merkle.BindingOrCollision`). Two different lists with one root give
  two different digest inputs with one digest; the split is the one of section 2.1 of
  RFC 6962.
- **The first bifurcation** (`Detector.FirstBifurcation`, `DetectorOutcomes.DivergenceIsFound`).
  What is reported is the first block on which the source does not agree, and it is reported
  whenever the source can show and verify its own block there.
- **Streams** (`AbciCodec.NextIsCutFree`, `AbciCodec.SentMessagesArrive`,
  `SecretConnection.Lockstep`, `SecretConnection.TamperedLockstep`,
  `SecretConnection.EverythingArrives`).
- **Queries** (`Queries.RoundTripIff`, `QueryPeg.QueryIffGrammar`). Parsing what was printed
  gives the query back if and only if each condition can be written in the grammar. What can
  be parsed is exactly what the source's parsing expression grammar takes.

## Layout

Pure code is modelled by datatypes and functions. Code that changes things in place is
modelled twice: as a function on values, about which the properties are proved, and as
classes, arrays and loops that are proved to compute that function.

| files | component |
|---|---|
| `Types`, `Blocks`, `Common` | headers, commits, light blocks, times and hashes |
| `Merkle`, `Validators`, `TrustThreshold` | Merkle roots, validator sets, thresholds |
| `VotingPower`, `CommitVotes`, `Verifier`, `Verdicts`, `SharedAddresses` | the tally, its loops, the verifier's predicates, the causes of its errors, and sets with several keys for an address |
| `LightStore`, `SledStore`, `SledMixedRuns`, `Scheduler`, `Bisection` | stores, the bisection schedule and how many rounds it takes |
| `LightClient`, `LightClientImpl`, `Outcomes`, `Builder` | one round, the loop, calls in sequence, how they end, the first state |
| `BelievedBlocks`, `RunInvariant`, `Safety`, `SafetyWitness`, `SafetyLimits`, `Liveness`, `LivenessWitness`, `TraceLinkage`, `Traces`, `Backward`, `BackwardOutcomes`, `MixedRuns`, `Providers` | what runs keep and reach |
| `Detector`, `DetectorImpl`, `DetectorOutcomes` | examination of a conflicting header |
| `AbciCodec`, `AbciCodecImpl`, `AbciOutcomes` | length-delimited messages |
| `QueryGrammar`, `QueryPeg`, `Query` | event queries |
| `SecretConnection`, `SecretConnectionImpl`, `SecretOutcomes` | encrypted frames and nonces |
| `Sorting`, `Extrema` | library sort, greatest and least element |

## Assumptions

They appear as hypotheses of the theorems that use them. Those of whole-run safety can be
met together: any consistent chain served by an honest peer does so
(`SafetyWitness.HypothesesCanBeMet`). So can those of success
(`LivenessWitness.SuccessCanBeMet`).

- A digest of 32 bytes cannot be injective, so collision-freeness is assumed on the finite
  set of inputs that occur (`Merkle.CollisionFreeOn`). The Merkle lemma does not assume it:
  it produces the collision.
- The protobuf encodings of header fields and validators are injective on each kind of
  field. A header hash fills absent optional fields with defaults, so equal hashes mean
  equal headers up to that filling (`Types.Canonical`).
- Signatures are ideal: a valid precommit of a key that is correct at that time names the
  chain's block of that height. Nothing is supposed of other votes. Whether a key is correct depends on the time.
- At most a third of the power of a chain header's next validators is faulty within the
  trusting period.
- The peer answers with a block of the height it was asked for; the source relies on it
  without checking (light-client/src/light_client.rs:378-385). The peer and the clock are
  otherwise arbitrary functions of a tick that moves on with each round. Clock readings do
  not go back, and blocks that can be had at one time can be had later.
- The total power of the next validators of blocks that can be had, times the numerator of
  the trust threshold, fits 64 bits. Every numerator of at most 16 will do.
- For calls that go down, a chain header that names a predecessor names the chain's header
  below it.
- The validator sets of blocks that can be had are such that the power under a group of
  addresses is only enough if the part of it with first keys is (`Safety.CreditIsSigned`).
  The first key of an address is that of the first validator of the set that has it.
  Decoding does not enforce it and the hash of a set does not cover addresses: a caller
  must compare each address with its key, as `Info::new` derives it. Calls that go down do
  not need it.
- Arithmetic on 64 bits wraps around, as in a release build.
- Opening an encrypted frame undoes sealing it (section 2.8 of RFC 8439). For streams that
  are tampered with, the hypothesis is that a frame opens only if it is the writer's, with
  its own nonce.
- A panic of the source is an outcome of the model and ends the run.

## Where code and documentation differ

- The threshold constructor is documented to accept fractions from a third to one. It does
  so exactly if three times the numerator fits 64 bits
  (`TrustThresholds.NewMeetsDocumentation`).
- The comment at the end of the examination gives as a cause of "no divergence" that a
  trace block's hash differs from the target's. It is the opposite: a trace block has the
  target's height and hash, or the trace ends below the target
  (`Detector.NoDivergenceMeansNoConflict`).
- The tally over two sets is documented to be equivalent to two separate calls
  (light-client-verifier/src/operations/voting_power.rs:151). The cache of checked
  signatures goes by address, and decoded validators may share one
  (tendermint/src/validator.rs:311-326), so this holds exactly if shared addresses have
  the same first key (`SharedAddresses.SharedCacheIff`). For the same reason a tally counts
  signed power only, exactly if first keys suffice (`SharedAddresses.PassingIsSignedIff`).
  (The sketch in that documentation also takes the first set twice; the code does not.)
- The receive buffer of a secret connection is never filled: the copy that would fill it
  panics instead, exactly if the destination is shorter than the chunk
  (`SecretConnection.HonestReadIff`).
- Printed queries are not always read back; quotes, backslashes, signed numbers that are not
  negative, floats printed without a point and conditions written like event types are the
  exceptions (`Queries.RoundTripIff` and the lemmas after it).

## Model

| member | source | states |
|---|---|---|
| `Merkle.Split` | tendermint/src/merkle.rs:51-63 | the split point is a power of two below the length, and at least half of it |
| `Merkle.SplitIsRfc6962` | tendermint/src/merkle.rs:51-63 | half the next power of two is the largest power of two strictly below the length, as in section 2.1 of RFC 6962 |
| `Merkle.RootIsRfc6962` | tendermint/src/merkle.rs:51-105 | the root of any list is the tree hash of that section: the digest of nothing, of 0x00 and the leaf, or of 0x01 and the roots of the two parts, the first of them as long as the largest power of two below the length |
| `Merkle.RootIsDigestOfTopInput` | tendermint/src/merkle.rs:77-105 | every root is the digest of a prefixed input, and that input is among those of the tree |
| `Merkle.BindingOrCollision` | tendermint/src/merkle.rs:51-105 | different leaf lists with one root, of any lengths, yield two different digest inputs with one digest |
| `Merkle.RootBinds` | tendermint/src/merkle.rs:51-105 | without collisions among the inputs, equal roots mean equal lists |
| `Merkle.IncrementalHasher.EmptyHash` | tendermint/src/merkle.rs:77-81 | the hash of no bytes, leaving the hasher reset |
| `Merkle.IncrementalHasher.LeafHash` | tendermint/src/merkle.rs:83-92 | the digest of the leaf prefix and the bytes, leaving the hasher reset |
| `Merkle.IncrementalHasher.InnerHash` | tendermint/src/merkle.rs:94-105 | the digest of the inner prefix and both hashes, leaving the hasher reset |
| `Merkle.IncrementalHasher.HashByteVectors` | tendermint/src/merkle.rs:51-63 | the recursion over slices with one shared hasher computes the root |
| `Merkle.NonIncrementalLeafHash` | tendermint/src/merkle.rs:123-130 | the buffer filled in place gives the same leaf hash |
| `Merkle.NonIncrementalInnerHash` | tendermint/src/merkle.rs:132-141 | the buffer filled in place gives the same inner hash |
| `Types.HeaderHashNamesHeader` | tendermint/src/block/header.rs:77-104 | without collisions, equal header hashes mean equal headers up to defaults of absent fields |
| `Types.SameFieldsSameCanonical` | tendermint/src/block/header.rs:77-104 | the fourteen hashed fields determine the header up to those defaults |
| `Types.LeavesInOrder` | tendermint/src/block/header.rs:88-103 | each of the fourteen leaves is the encoding of its own field, version first and proposer last, an absent field read as its default |
| `Types.HashHeader` | tendermint/src/block/header.rs:77-105 | the list of encoded fields, hashed by the shared hasher, gives the header hash |
| `TrustThresholds.New` | tendermint/src/trust_threshold.rs:53-66 | every accepted fraction lies between a third and one, and is kept; every such fraction is accepted unless three times its numerator overflows; too large and undefined are reported exactly for their cause |
| `TrustThresholds.NewMeetsDocumentation` | tendermint/src/trust_threshold.rs:37-66 | acceptance is the documented range for every denominator if and only if three times the numerator fits 64 bits |
| `TrustThresholds.ComparisonIsExact` | tendermint/src/trust_threshold.rs:97-101 | with products below 2^64 the machine comparison is the exact comparison of fractions |
| `TrustThresholds.SmallDenominatorsAreExact` | tendermint/src/trust_threshold.rs:97-101 | for denominators up to 16 and every accepted validator set the products stay below 2^64 |
| `TrustThresholds.LargeDenominatorsWrap` | tendermint/src/trust_threshold.rs:97-101 | for every larger denominator some accepted total makes the machine comparison wrong |
| `TrustThresholds.LargeNumeratorWraps` | tendermint/src/trust_threshold.rs:97-101 | for every numerator above 16 there is a total for which power one counts as enough |
| `TrustThresholds.SmallNumeratorWraps` | tendermint/src/trust_threshold.rs:97-101 | for every smaller one there is a total for which all of it does not count as enough |
| `TrustThresholds.ComparisonExactIff` | tendermint/src/trust_threshold.rs:97-101 | the comparison is exact for all accepted sets if and only if the denominator is at most 16 |
| `TrustThresholds.FittingIsSound` | tendermint/src/trust_threshold.rs:97-101 | if the product with the total fits 64 bits, what the machine finds enough is enough, even if the other product wraps around |
| `TrustThresholds.ComparisonSoundIff` | tendermint/src/trust_threshold.rs:97-101 | the machine never finds too little power enough, for any accepted set, if and only if the numerator is at most 16 |
| `TrustThresholds.EnoughIsMoreThanAThird` | tendermint/src/trust_threshold.rs:53-101 | enough power under a valid threshold is more than a third of the total |
| `Validators.TryFromParts` | tendermint/src/validator.rs:37-71 | a set is accepted exactly if its powers sum to at most the maximum and the given total is zero or that sum, and is then the sorted permutation with that total; the error tells which |
| `Validators.SortedMeans` | tendermint/src/validator.rs:112-115 | sorted that way, power goes down and, where it is equal, addresses go up |
| `Validators.ArithmeticFits` | tendermint/src/validator.rs:37-71 | for an accepted set and a denominator of at most 16, all partial sums and both products stay below 2^64 and the machine comparison is the exact one |
| `Validators.SetIsOrderFree` | tendermint/src/validator.rs:112-115 | two arrangements of the same validators, none equal in power and address, give the same sorted set and hash |
| `Validators.SetHashIs` | tendermint/src/validator.rs:131-142 | the hash of a set is the Merkle root over the encodings of its validators' keys and powers, in the order of the set |
| `Validators.HashValidators` | tendermint/src/validator.rs:131-142 | collecting the encodings and hashing them with the shared hasher gives the hash of the set |
| `Validators.SetHashNamesValidators` | tendermint/src/validator.rs:131-142 | without collisions, equal set hashes mean equal lists of keys and powers |
| `Validators.QuorumsIntersect` | light-client-verifier/src/operations/voting_power.rs:97-128 | two groups with more than two thirds of a set's power share more than a third of it |
| `Validators.SomeMemberOutside` | light-client-verifier/src/verifier.rs:50-52 | signers with more than a third of the power include one outside any group with at most a third |
| `VotingPower.FindVote` | light-client-verifier/src/operations/voting_power.rs:333-339 | a vote is found exactly if one has the address, and is then such a vote |
| `VotingPower.VotesOfSlots` | light-client-verifier/src/operations/voting_power.rs:219-300 | if every slot for the block is signed there is exactly one vote for each, in order: a precommit for the height, round and block of the commit with the time, address and signature of its slot; otherwise the first slot that is not signed is the error |
| `Verdicts.VotesAre` | light-client-verifier/src/operations/voting_power.rs:287-322 | the votes are those exactly if every such slot is signed and no address votes twice, and each error is for its cause |
| `VotingPower.CountedByFirstKey` | light-client-verifier/src/operations/voting_power.rs:329-424 | every set, whatever its addresses, is counted as if each validator had the key of the first one with its address and every signature were checked |
| `VotingPower.SharedCacheIsEquivalent` | light-client-verifier/src/operations/voting_power.rs:369-404 | if an address in both sets has the same first key in both, the tally over two sets with one cache returns what two separate tallies return, errors included |
| `VotingPower.UncachedIsExact` | light-client-verifier/src/operations/voting_power.rs:407-424 | the tally never exceeds the power of the validators with a valid vote, and is equal to it unless it already suffices |
| `VotingPower.UncachedStops` | light-client-verifier/src/operations/voting_power.rs:407-424 | the loop stops at the first validator after which the power is enough, at the first with an invalid vote, or at the end, with the power of exactly the validators before that have voted |
| `Verdicts.CountIs` | light-client-verifier/src/operations/voting_power.rs:407-424 | so does the tally with its cache, for every set; an error is that of the vote it stops at |
| `VotingPower.EarlyExitIsExact` | light-client-verifier/src/operations/voting_power.rs:407-424 | for every set, stopping early passes the check if and only if the full power credited to votes passes exactly; what is tallied never exceeds the total |
| `VotingPower.TallyIsCreditedPower` | light-client-verifier/src/operations/voting_power.rs:407-424 | for every set and threshold an Ok tally is within the credited power, which is within the total, and is equal to it unless it already passes |
| `VotingPower.EarlyExitIsSound` | light-client-verifier/src/operations/voting_power.rs:407-424 | if only the product with the total fits, a tally that passes still means enough credited power |
| `VotingPower.PassingIsSigned` | light-client-verifier/src/operations/voting_power.rs:407-424 | if the power under any group of addresses is only enough when the part of it with first keys is, then a passing tally means enough power of valid votes |
| `VotingPower.AgreeingKeysSuffice` | tendermint/src/validator.rs:186-195 | that is so if equal addresses mean equal keys |
| `VotingPower.CommitHasQuorum` | light-client-verifier/src/operations/voting_power.rs:97-128 | a commit that passes the two-thirds check credits more than two thirds of the power |
| `VotingPower.CommitsIntersect` | light-client-verifier/src/operations/voting_power.rs:97-128 | two commits passing two thirds of one set credit a shared part of more than a third of its power |
| `VotingPower.CorrectSigner` | light-client-verifier/src/verifier.rs:50-52 | a commit that passes a valid threshold has a correct signer if at most a third of the power is faulty, the product with the total fits and first keys suffice |
| `SharedAddresses.CacheIsTransparentIff` | light-client-verifier/src/operations/voting_power.rs:329-424 | for all ways of verifying, commits and thresholds the cache changes no tally of a set, if and only if equal addresses mean equal keys in it |
| `SharedAddresses.SharedCacheIff` | light-client-verifier/src/operations/voting_power.rs:147-175 | for all ways of verifying, commits and thresholds the tally over two sets is what two separate calls give, as documented, if and only if an address in both has the same first key in both |
| `SharedAddresses.PassingIsSignedIff` | light-client-verifier/src/operations/voting_power.rs:407-424 | for all ways of verifying and commits a passing tally means enough signed power, if and only if first keys suffice |
| `SharedAddresses.VerdictIsSignedIff` | light-client-verifier/src/verifier.rs:229-308 | so for the verdict on adjacent blocks of a set |
| `SharedAddresses.SkippingIsSignedIff` | light-client-verifier/src/verifier.rs:229-308 | and for the verdict over a gap, about the trusted next validators and any threshold |
| `SharedAddresses.VoteCountsTwice` | light-client-verifier/src/operations/voting_power.rs:341-360 | with two keys under one address, one valid vote passes the check though half of the power has not signed |
| `SharedAddresses.SharedIsNotSeparate` | light-client-verifier/src/operations/voting_power.rs:383-404 | with the two in two sets, the shared tally is Ok and the separate one an error |
| `CommitVotes.NonAbsentCommitVotes.Search` | light-client-verifier/src/operations/voting_power.rs:333-339 | binary search finds an address exactly if it is there |
| `CommitVotes.NonAbsentCommitVotes.HasVoted` | light-client-verifier/src/operations/voting_power.rs:329-360 | agrees with linear lookup and the set of addresses checked before, and marks exactly the vote whose signature is valid |
| `CommitVotes.FindDuplicate` | light-client-verifier/src/operations/voting_power.rs:307-321 | scanning neighbours of the sorted votes finds the least duplicated address, and none exactly if there is none |
| `CommitVotes.NewCommitVotes` | light-client-verifier/src/operations/voting_power.rs:287-322 | fails exactly when linear collection fails, with the same error; otherwise keeps the same votes, sorted by address, none of them marked |
| `CommitVotes.CountVotes` | light-client-verifier/src/operations/voting_power.rs:407-424 | the loop with its mutable tally and marks computes the tally and the set of checked addresses of the value form |
| `CommitVotes.ComputeVotingPowerIn` | light-client-verifier/src/operations/voting_power.rs:369-382 | the whole computation for one set equals its value form, errors included |
| `CommitVotes.ComputeVotingPowerInSets` | light-client-verifier/src/operations/voting_power.rs:384-404 | the whole computation for two sets with a shared cache equals its value form |
| `CommitVotes.LookupIsOrderFree` | light-client-verifier/src/operations/voting_power.rs:305-339 | without duplicates, sorting the votes does not change what is found for an address |
| `CommitVotes.CountIsOrderFree` | light-client-verifier/src/operations/voting_power.rs:407-424 | nor what is counted |
| `Verifier.AllSignersKnownIff` | light-client-verifier/src/operations/commit_validator.rs:39-64 | the full check passes exactly if every non-absent signature is of a validator of the set |
| `Verifier.ValidCommitIff` | light-client-verifier/src/operations/commit_validator.rs:13-64 | a commit is valid exactly if it has a signature, one slot per validator, and only known signers |
| `Verifier.ValidatorSetsIff` | light-client-verifier/src/verifier.rs:119-148 | the first stage succeeds exactly if validators, next validators and commit match the header and the commit is valid |
| `Verifier.AgainstTrustedIff` | light-client-verifier/src/verifier.rs:152-194 | the second stage succeeds exactly if chain id, time and height follow on, within the trusting period, and adjacent blocks have the announced validators |
| `Verifier.VerdictSuccessIff` | light-client-verifier/src/verifier.rs:295-308 | success if and only if all predicates hold and the powers suffice, against the trusted next validators only when skipping |
| `Verifier.VerdictNotInvalidIff` | light-client-verifier/src/verifier.rs:295-308 | the verdict is not Invalid if and only if all that can be wrong is a lack of trust |
| `Verifier.SignersOverlapNeverLacksTrust` | light-client-verifier/src/verifier.rs:238-256 | lack of two thirds of the block's own power is an invalid block, never a lack of trust |
| `Verifier.NotEnoughTrustMeansSkipping` | light-client-verifier/src/verifier.rs:238-256 | a lack of trust is only reported across a gap of two heights or more, with every other check passed |
| `Verdicts.BlockErrorIs` | light-client-verifier/src/verifier.rs:119-148 | an error of the first stage names the first of its checks that fails, with the values compared or the first unknown signer |
| `Verdicts.FollowingErrorIs` | light-client-verifier/src/verifier.rs:152-227 | so does an error of the second stage |
| `Verdicts.SkippingPowerErrorIs` | light-client-verifier/src/operations/voting_power.rs:97-117 | over a gap an error is that of the votes, of the trusted tally, of the own tally, or a lack of trust, or a lack of signers, in this order |
| `Verdicts.VerdictExplained` | light-client-verifier/src/verifier.rs:229-308 | every Invalid verdict is caused by the block itself, or else by how it follows the trusted one, or else by voting power |
| `LightStores.HighestBeforeOfStatus` | light-client/src/store/memory.rs:75-82 | the highest block of a status up to a height is the one with the greatest such height, and there is none exactly if no block up to it has the status |
| `LightStores.EndsOfStatus` | light-client/src/store/memory.rs:67-90 | so are the highest and the lowest of a status, without the limit |
| `LightStores.HighestBeforeIff` | light-client/src/store.rs:83-91 | the highest trusted or verified block up to a height is the one with the greatest such height |
| `LightStores.NoneBelievedIff` | light-client/src/store.rs:83-91 | there is none exactly if no block up to that height is trusted or verified |
| `LightStores.LowestIff` | light-client/src/store.rs:93-101 | the lowest trusted or verified block is the one with the least such height |
| `LightStores.GetNonFailedIff` | light-client/src/store.rs:57-71 | a block is found with its status exactly if it is stored and has not failed |
| `LightStores.MemoryStore.InsertBlock` | light-client/src/store/memory.rs:50-53 | the block replaces whatever was stored at its height |
| `LightStores.MemoryStore.UpdateBlock` | light-client/src/store/memory.rs:63-65 | updating is inserting with the new status |
| `LightStores.MemoryStore.RemoveBlock` | light-client/src/store/memory.rs:55-61 | only a block of that height and status goes, and every other query is unchanged |
| `Scheduler.Midpoint` | light-client/src/components/scheduler.rs:123-127 | halfway between its arguments, rounded up; strictly inside a gap of two or more |
| `Scheduler.ScheduleIsValidIff` | light-client/src/components/scheduler.rs:56-121 | the bisecting schedule meets the contract if and only if the current height is not right above the trusted one |
| `Bisection.HalvingsIsLogarithm` | light-client/src/components/scheduler.rs:56-127 | a gap can be halved, rounding up, as often as its logarithm to base two says |
| `Bisection.RejectionsAreFew` | light-client/src/light_client.rs:176-252 | no more rejections follow each other in a call than the logarithm of the gap, rounded up |
| `Bisection.CallRoundsAreBounded` | light-client/src/light_client.rs:141-253 | a call makes at most one round for each height to go, times that logarithm and one more |
| `LightClient.RoundWrites` | light-client/src/light_client.rs:169-253 | a round files at most one block, the one it looks at, under the current height |
| `LightClient.WithinTrustPeriodIff` | light-client/src/contracts.rs:22-32 | a block is within the trusting period exactly if the clock has reached the period and is before the time of the block plus the period |
| `LightClient.RoundVerdict` | light-client/src/light_client.rs:193-246 | whatever a round files is the stored or fetched block of the current height, with the status that follows from verifying it against the trusted block within its trusting period |
| `LightClient.RoundProgress` | light-client/src/light_client.rs:169-253 | a round that is not the last makes its block the highest trusted one, or rejects it across a gap of two or more |
| `LightClient.RoundSchedulesValidly` | light-client/src/light_client.rs:248-251 | every schedule asked for in a run meets the scheduler's contract, and the loop can go on |
| `LightClient.ForwardPreserves` | light-client/src/light_client.rs:169-253 | what every round keeps, the whole loop keeps |
| `LightClient.Run` | light-client/src/light_client.rs:141-166 | any calls in sequence keep every block filed under its own height |
| `LightClient.RunPreserves` | light-client/src/light_client.rs:141-166 | what every round keeps, any calls in sequence keep |
| `LightClient.ForwardRoundsFollow` | light-client/src/light_client.rs:176-252 | the rounds listed for a call follow each other: each leaves the state of the next |
| `LightClient.ForwardRoundsEnd` | light-client/src/light_client.rs:176-252 | and the last leaves the state that the loop ends with |
| `LightClient.CallRoundsAreAll` | light-client/src/light_client.rs:141-166 | a call makes just these rounds, or changes nothing |
| `LightClient.HoldsAtRunRounds` | light-client/src/light_client.rs:141-253 | what every round keeps holds before every round of any calls in sequence |
| `LightClient.VerifyToTargetDelivers` | light-client/src/light_client.rs:141-253 | a successful call returns the trusted or verified block of the target height in the store |
| `Outcomes.RoundWithoutTrust` | light-client/src/light_client.rs:179-183 | with no trusted or verified block up to the target a round stops with that error and leaves everything alone |
| `Outcomes.RoundExpired` | light-client/src/light_client.rs:193-198 | with an expired one it stops with just that error, store and trace unchanged |
| `Outcomes.RoundArrived` | light-client/src/light_client.rs:200-207 | at the target it stops with the trusted block |
| `Outcomes.RoundUnanswered` | light-client/src/light_client.rs:209-211 | with no block to be had at the current height it stops with the peer's error and files nothing |
| `Outcomes.RoundJudges` | light-client/src/light_client.rs:209-246 | otherwise the block is filed by the verdict, as Trusted if it was and else as Verified, as Unverified, or as Failed; only Invalid stops the call |
| `Outcomes.CallKnown` | light-client/src/light_client.rs:141-152 | a target that is trusted or verified is returned as stored, and nothing changes |
| `Outcomes.CallWithoutTrust` | light-client/src/light_client.rs:153-157 | without any trusted or verified block a call fails with that error |
| `Outcomes.CallBelowTrust` | light-client/src/light_client.rs:255-273 | below every such block a call of the default build is refused, with both heights |
| `Outcomes.CallExpired` | light-client/src/light_client.rs:141-198 | with the highest such block below a new target expired, a call returns exactly that error and leaves store and trace unchanged |
| `Outcomes.CallErrorHasCause` | light-client/src/light_client.rs:141-253 | every other error of a call is caused in its last round: expiry, the peer's error, or an Invalid verdict, each with its values |
| `LightClientImpl.ClientState.TraceBlock` | light-client/src/state.rs:39-47 | the target's trace holds the height from now on, no trace loses anything, no other changes, and if every trace held its own target, every one still does |
| `LightClientImpl.ClientState.GetTrace` | light-client/src/state.rs:51-62 | collecting in any order and sorting gives the trusted or verified blocks of the trace, ascending |
| `LightClientImpl.LightClientInstance.GetOrFetchBlock` | light-client/src/light_client.rs:367-386 | the stored block that has not failed, or else the fetched one, which is then stored as Unverified |
| `LightClientImpl.LightClientInstance.RecordVerdict` | light-client/src/light_client.rs:214-246 | verifies, files the block with its new status and traces the link |
| `LightClientImpl.LightClientInstance.CheckCurrent` | light-client/src/light_client.rs:209-246 | gets the current block and judges it, as in the value form |
| `LightClientImpl.LightClientInstance.Round` | light-client/src/light_client.rs:177-251 | one turn of the loop equals its value form in result, store, trace and tick |
| `LightClientImpl.LightClientInstance.VerifyForward` | light-client/src/light_client.rs:169-253 | the loop terminates and equals its value form |
| `LightClientImpl.LightClientInstance.VerifyToTarget` | light-client/src/light_client.rs:141-166 | the call on a store that changes in place equals its value form |
| `Traces.BlocksAtLists` | light-client/src/state.rs:51-62 | the trace lists exactly the trusted or verified blocks at its heights, each once, strictly ascending |
| `Traces.SortedListing` | light-client/src/state.rs:51-62 | sorting any such listing by height gives that list |
| `Builder.BuiltStateIff` | light-client/src/builder/light_client.rs:131-141 | building succeeds exactly if validation does, and then the store holds just the trusted block, whose sets match its header |
| `Builder.BuiltFromPrimary` | light-client/src/builder/light_client.rs:153-177 | building from the primary trusts the one block with the given height and hash |
| `Builder.ValidateIff` | light-client/src/builder/light_client.rs:179-206 | a block passes exactly if it is within the period, not from the future, and its sets are those its header names |
| `Builder.ValidateErrorIs` | light-client/src/builder/light_client.rs:179-206 | an error names the first check that fails and the values compared |
| `Builder.TrustPrimaryIs` | light-client/src/builder/light_client.rs:153-177 | building from the primary fails exactly on its error, another height, another hash or a block that does not pass, in this order |
| `BelievedBlocks.RoundHolds` | light-client/src/light_client.rs:169-253 | a property that passes from trusted to accepted blocks holds of all trusted or verified blocks after a round |
| `BelievedBlocks.HoldsInEveryRun` | light-client/src/light_client.rs:141-253 | and in every state of any run |
| `BelievedBlocks.HoldsAtEveryRound` | light-client/src/light_client.rs:141-253 | and before and after every round of any run, and of the block that each round verifies against |
| `BelievedBlocks.CallReturnsGood` | light-client/src/light_client.rs:141-253 | and of every block that a call returns |
| `RunInvariant.ProductionIsSensible` | light-client-verifier/src/verifier.rs:295-308 | the production verifier accepts only higher blocks and lacks trust only across a gap |
| `RunInvariant.AcceptedBlockMatches` | light-client-verifier/src/verifier.rs:119-194 | an accepted block's validator sets match its header and its chain id is the trusted one's |
| `RunInvariant.InvariantInEveryRun` | light-client-verifier/src/verifier.rs:291-308 | before and after every round of any calls on a built client, all believed blocks match their headers and share one chain id, and so does the block handed to the verifier, which is its demand on its caller |
| `Safety.VotesNameCommit` | light-client-verifier/src/operations/voting_power.rs:219-255 | every collected vote is a precommit for the commit's block at its height and round on the header's chain |
| `Safety.SetIsNextValidators` | light-client-verifier/src/predicates.rs:236-249 | a set with the announced hash is the chain's next validator set, by key and power |
| `Safety.CorrectSignerOf` | light-client-verifier/src/verifier.rs:50-52 | when at most a third of the power is faulty, a passing tally has a correct signer with a valid vote, if the product with the total fits and first keys suffice |
| `Safety.CorrectVoteMeansChainBlock` | light-client-verifier/src/verifier.rs:295-308 | a block whose sets match its header and that has a correct key's valid vote is a chain block |
| `Safety.AdjacentHop` | light-client-verifier/src/verifier.rs:295-308 | an accepted block right above a chain block is a chain block, if the first keys of its validators suffice |
| `Safety.SkippingHop` | light-client-verifier/src/verifier.rs:295-308 | an accepted block further above a chain block is a chain block, if the threshold fits the next validators' total and their first keys suffice |
| `Safety.HopIsSafe` | light-client-verifier/src/verifier.rs:295-308 | whatever the verifier accepts on the strength of a chain block, within the trusting period, is a chain block, under these conditions on the two sets |
| `Safety.BuiltOnChainBlock` | light-client/src/builder/light_client.rs:153-206 | a client built on the hash of a chain header starts with the chain's block |
| `Safety.WholeRunSafety` | light-client/src/light_client.rs:117-253 | every block ever marked Verified or Trusted, in any round of any calls, every block verified against, and every block returned is the chain's block at its height |
| `Safety.SmallNumeratorsFit` | tendermint/src/trust_threshold.rs:97-101 | the demand on the threshold is met by every threshold with a numerator of at most 16, whatever blocks there are |
| `Safety.NamedKeysAreSigned` | tendermint/src/validator.rs:186-195 | the demand on first keys is met, for every threshold, by sets in which equal addresses mean equal keys |
| `SafetyLimits.CreditIsNeeded` | light-client/src/light_client.rs:117-253 | without the demand on first keys: if the power under some addresses passes two thirds though their first keys have at most a third and alone are faulty, a client in a world that meets all else returns a block off the chain |
| `SafetyLimits.ThreeMislead` | tendermint/src/validator.rs:311-326 | three validators under one address are such a set |
| `SafetyLimits.FittingIsNeeded` | light-client/src/light_client.rs:117-253 | without the demand on the threshold: where one unit of power passes, a faulty validator with that unit has a client in a world that meets all else return a block off the chain |
| `SafetyLimits.UnitPasses` | tendermint/src/trust_threshold.rs:97-101 | such a total exists for every numerator from 17 on |
| `SafetyWitness.HypothesesCanBeMet` | light-client/src/light_client.rs:27-31 | any consistent chain with an honest peer, correct keys and a numerator of at most 16 meets every hypothesis of whole-run safety |
| `SafetyWitness.LinksCanBeMet` | light-client/src/light_client.rs:326-339 | and, if its blocks name their predecessors, those for calls that go down |
| `SafetyWitness.BuildingCanSucceed` | light-client/src/builder/light_client.rs:153-206 | and a client can be built on each of its blocks that passes validation |
| `Liveness.RoundSucceeds` | light-client/src/light_client.rs:169-253 | with good blocks that are not invalid and not expired at its tick, a round goes on or is the last and succeeds |
| `Liveness.CallSucceeds` | light-client/src/light_client.rs:141-253 | so every call with a target at or above a believed block returns the block of that height, if this holds during the call |
| `Liveness.ValidVotesAreCounted` | light-client-verifier/src/operations/voting_power.rs:407-424 | with valid votes no tally over any set of validators fails |
| `Liveness.WellSignedNeverInvalid` | light-client-verifier/src/operations/voting_power.rs:97-117 | a well-signed commit passes or lacks overlap with the trusted validators, whatever these are |
| `Liveness.ChainPairNeverInvalid` | light-client-verifier/src/verifier.rs:295-308 | a block of a well-formed chain is never invalid on the strength of a lower one |
| `Liveness.HonestPeerSuffices` | light-client/src/light_client.rs:117-253 | a peer that serves a well-formed chain, timely until the call ends, brings every call to the chain's block at its target |
| `LivenessWitness.SuccessCanBeMet` | light-client/src/light_client.rs:117-253 | for every length, threshold and target, a chain signed by one validator meets these hypotheses, and the client gets to the target |
| `TraceLinkage.AcceptedExtendsChain` | light-client/src/light_client.rs:222-230 | filing an accepted block keeps neighbouring believed blocks verified directly against each other and recorded so |
| `TraceLinkage.RejectedStaysChained` | light-client/src/light_client.rs:231-246 | so does filing a rejected one |
| `TraceLinkage.ForwardStaysChained` | light-client/src/light_client.rs:169-253 | throughout the loop, neighbouring believed blocks were verified directly against each other |
| `TraceLinkage.TraceIsLinked` | light-client/src/light_client.rs:200-229 | after success from one trusted block the trace is strictly ascending, has two blocks or more, ends at the target, each block verified during the call directly against the one before, the first being or verified against the initial one |
| `TraceLinkage.ForwardKeepsFirst` | light-client/src/light_client.rs:169-253 | the initial trusted block is never replaced |
| `TraceLinkage.ForwardDeliversStored` | light-client/src/light_client.rs:209-211 | if a block at the target is stored and has not failed, success returns that very block |
| `SledStores.SledStore.InsertBlock` | light-client/src/store/sled.rs:68-72 | the block is found under its status, and every other query about a height and a status is answered as before, also for its own height |
| `SledStores.SledStore.RemoveBlock` | light-client/src/store/sled.rs:74-76 | nothing is found there any more, and every other query is answered as before |
| `SledStores.SledStore.UpdateBlock` | light-client/src/store/sled.rs:56-66 | the loop removes the height from the other trees before inserting, so one tree has it |
| `SledStores.AgreeingStoresAnswerAlike` | light-client/src/store/sled.rs:51-93 | agreeing stores give equal answers to get, highest, highest before and lowest for every status |
| `SledStores.AgreeingTreesAreDisjoint` | light-client/src/store/sled.rs:51-93 | no height is in two of the four trees |
| `SledStores.UpdateKeepsAgreement` | light-client/src/store/sled.rs:56-66 | updating both stores keeps them in agreement |
| `SledStores.InsertKeepsAgreementIff` | light-client/src/store/sled.rs:68-72 | inserting under any status keeps agreement if and only if nothing is stored at that height under another one |
| `SledStores.FailedDiffersWithinRound` | light-client/src/store/sled.rs:56-72 | when a failed block is fetched again the stores disagree on Failed within the round, and agree again once the round has given the block its status |
| `SledStores.RoundsAgree` | light-client/src/light_client.rs:169-253 | a round takes the same decision on both stores; stores that agree on every status still do, and trees that lead the map still do |
| `SledStores.SledForward` | light-client/src/light_client.rs:169-253 | so forward verification on the trees returns the same result as on the map |
| `SledStores.SledVerifyToTarget` | light-client/src/light_client.rs:141-166 | so does a call |
| `SledStores.StoresAgreeInEveryRun` | light-client/src/store/sled.rs:51-93 | over every run from one trusted block both stores give equal answers to get, highest, highest before and lowest for every status, and no height is in two trees |
| `SledStores.DerivedAnswersAgree` | light-client/src/store.rs:57-106 | if the trees lead the map (what comes first in order of trust is what the map has, and copies are equal) all queries that the client makes are answered alike |
| `SledStores.GetAgreesIff` | light-client/src/store/sled.rs:51-54 | then a single query is answered alike exactly if the height is not also stored under a status that comes before |
| `SledStores.AgreeIffDisjoint` | light-client/src/store/sled.rs:51-93 | and all queries exactly if no height is in two trees |
| `SledMixedRuns.StepsDownAgree` | light-client/src/light_client.rs:323-350 | a step down gives the same block on both stores and leaves the trees leading |
| `SledMixedRuns.StepDownShadows` | light-client/src/light_client.rs:347-348 | but from the lowest believed block it always leaves the block below under two statuses, so the stores disagree |
| `SledMixedRuns.SledVerifyEitherWay` | light-client/src/light_client.rs:141-356 | a call up or down on the trees returns the same result as on the map |
| `SledMixedRuns.StoresServeAlikeInEveryRun` | light-client/src/light_client.rs:141-356 | after any mix of calls from one trusted block all client queries, the trace and the result of a further call are alike, and single queries exactly as above |
| `Backward.StepDownInPlace` | light-client/src/light_client.rs:323-350 | one step of the loop on the changing store equals its value form |
| `Backward.DescendInPlace` | light-client/src/light_client.rs:318-355 | the loop ends and equals its value form |
| `Backward.VerifyBackwardInPlace` | light-client/src/light_client.rs:294-356 | with the two assertions of the source in place, neither of which can fail, the call equals its value form |
| `Backward.VerifyEitherWayInPlace` | light-client/src/light_client.rs:141-166 | the dispatch between going up and going down equals its value form, and its branch is what the first assertion needs |
| `Backward.EitherWayIs` | light-client/src/light_client.rs:141-166 | the unstable build does what the default build does, except for targets below every trusted or verified block |
| `Backward.BackwardIsLinked` | light-client/src/light_client.rs:294-356 | a call that goes down starts at the lowest trusted or verified block and, on success, returns the block of the target height with every height up to the root stored Trusted and linked by hash |
| `Backward.RootIsLowest` | light-client/src/light_client.rs:301-307 | a root above the target is the lowest trusted or verified block |
| `BackwardOutcomes.CheckLinkIff` | light-client/src/light_client.rs:326-339 | a link is accepted exactly if the upper block names the hash of the lower one; without a name and with another one the errors say so |
| `BackwardOutcomes.StepSucceeds` | light-client/src/light_client.rs:323-350 | along a hash-linked chain a step down succeeds, trusts both blocks, traces the link and changes nothing else |
| `BackwardOutcomes.HonestPeerSufficesDownwards` | light-client/src/light_client.rs:294-356 | with the root in the trusting period and a peer that serves a hash-linked chain, a call down returns the chain's block at its target and leaves the chain's blocks Trusted up to the root |
| `BackwardOutcomes.DownwardExpired` | light-client/src/light_client.rs:309-316 | from an expired root a call down returns exactly that error and leaves store and trace unchanged |
| `BackwardOutcomes.DownwardErrorHasCause` | light-client/src/light_client.rs:318-356 | every other error is that of the step after those that succeed: the peer's, a missing name or a wrong hash |
| `Backward.PredecessorIsChainBlock` | light-client/src/light_client.rs:326-339 | a block whose hash a chain block names as its predecessor is the chain's block below it |
| `Backward.BackwardIsSafe` | light-client/src/light_client.rs:294-356 | from a chain block as root, with blocks that can be had, success leaves the chain's block at every height from the target to the root, and returns the one at the target |
| `MixedRuns.TrustedIsFull` | light-client/src/light_client.rs:179-183 | the block a round verifies against has no believed block above it, so it was not reached downwards and its sets have been checked |
| `MixedRuns.RoundStaysGuarded` | light-client/src/light_client.rs:169-253 | a round keeps: every believed block is good, and fully so where the block above is not believed |
| `MixedRuns.StepStaysGuarded` | light-client/src/light_client.rs:323-350 | so does a step down, whether or not it succeeds, and it moves the lower end down by one |
| `MixedRuns.CallStaysGuarded` | light-client/src/light_client.rs:141-356 | so does a call either way, which returns a good block of the target height |
| `MixedRuns.RunStatesEnd` | light-client/src/light_client.rs:141-356 | the states listed for calls in sequence end with the one they leave |
| `MixedRuns.MixedRunSafety` | light-client/src/light_client.rs:141-356 | over any mix of calls up and down, every block marked Verified or Trusted in any state on the way, and every block returned, is the chain's block at its height |
| `Detector.NewTraceIs` | light-client-detector/src/trace.rs:12-21 | fewer than two blocks are refused; any others are rearranged in the order of their heights |
| `Detector.SkippingLeadsToTarget` | light-client-detector/src/examine.rs:189-210 | the source fails, or its trace leads upwards from the trusted block to the very target block, each verified during the call against the one before; such a trace is never too short |
| `Detector.SkippingGoesUp` | light-client-detector/src/examine.rs:189-210 | in the default build, verifying a block that is not above the trusted one fails |
| `Detector.StepFinds` | light-client-detector/src/examine.rs:125-187 | a step extends the agreement by one block, or finds a bifurcation right after it, or fails |
| `Detector.FirstBifurcation` | light-client-detector/src/examine.rs:24-187 | a result names the first trace block on which the source does not agree by hash, with the source's verified trace up to another block of that height or up to the lower target; without divergence it agrees on every trace block; all it shows and accepts, it does during the examination |
| `Detector.NoDivergenceMeansNoConflict` | light-client-detector/src/examine.rs:63-67 | no divergence means that the trace ends below the target or contains a block with its height and hash |
| `Detector.ConflictIsFound` | light-client-detector/src/examine.rs:19-67 | a trace that ends at the target's height with another hash never gives no divergence |
| `DetectorOutcomes.SkippingIs` | light-client-detector/src/examine.rs:189-210 | the source fails exactly if its light client does, with that very error |
| `DetectorOutcomes.DivergenceIsFound` | light-client-detector/src/examine.rs:24-187 | if the source goes along with the first blocks of a trace and shows and can verify another block at the height of the next, the examination is Ok, names that block and gives the source's trace to the other |
| `DetectorOutcomes.LunaticIsFound` | light-client-detector/src/examine.rs:134-158 | the same if the next block is beyond a target that is not earlier: the source's trace leads to the target |
| `DetectorOutcomes.EarlyErrorHasCause` | light-client-detector/src/examine.rs:24-121 | an error before the walk is a low target, a first block after the target, a failed fetch with its error, or another hash |
| `DetectorOutcomes.LaterErrorHasCause` | light-client-detector/src/examine.rs:40-187 | an error in the walk is that of the step after those that go on: a late block, or a fetch or a verification of the source that failed, with that very error; no divergence only at the end of the trace |
| `Providers.PromiseIsKept` | light-client/src/light_client.rs:358-385 | if fetches give blocks of the client's peer, every lookup in every state of any mix of calls does, as the function's contract demands |
| `Providers.SkippingPromiseIff` | light-client-detector/src/examine.rs:189-210 | in an examination the contract is kept throughout if and only if the target block, if looked at, is the peer's |
| `DetectorImpl.VerifySkippingInPlace` | light-client-detector/src/examine.rs:189-210 | the fresh store, the call and the sorted trace equal the value form |
| `DetectorImpl.FetchFrom` | light-client-detector/src/provider.rs:44-51 | the source's block is the target at its own height and fetched into an empty store elsewhere |
| `DetectorImpl.CheckTrustedBlockInPlace` | light-client-detector/src/examine.rs:76-121 | the check of the first trace block equals the value form |
| `DetectorImpl.ExamineBlockInPlace` | light-client-detector/src/examine.rs:125-187 | one step equals the value form |
| `DetectorImpl.ExamineInPlace` | light-client-detector/src/examine.rs:24-68 | the loop that replaces the previously verified block equals the value form |
| `AbciCodec.VarintRoundTrip` | abci/src/codec.rs:124-152 | every 64-bit length is decoded from its encoding, and what follows is left |
| `AbciOutcomes.VarintIs` | abci/src/codec.rs:124-137 | an encoded length is its number in groups of seven bits, least first, marked on all but the last, without a needless last group |
| `AbciOutcomes.LengthDecodes` | abci/src/codec.rs:139-152 | bytes so marked, of at most 64 bits, are decoded as their number |
| `AbciOutcomes.DecodedIsLength` | abci/src/codec.rs:139-152 | and nothing else is decoded |
| `AbciCodec.DecodeFrame` | abci/src/codec.rs:139-166 | a decoded frame takes at least one byte |
| `AbciOutcomes.FrameWithLength` | abci/src/codec.rs:139-166 | after a length, what follows is too little, a message, or bytes that are no message and are consumed |
| `AbciOutcomes.FrameWithoutLength` | abci/src/codec.rs:145-152 | without one the codec waits up to sixteen bytes and fails beyond |
| `AbciCodec.DecodeExtends` | abci/src/codec.rs:139-166 | more bytes never change what has been decoded, nor an error |
| `AbciCodec.FrameDecodes` | abci/src/codec.rs:124-166 | a whole frame is decoded to its message, whatever follows |
| `AbciCodec.CutFrameWaits` | abci/src/codec.rs:145-154 | any proper first part of a frame decodes to nothing yet |
| `AbciCodec.NextIsCutFree` | abci/src/codec.rs:69-91 | for any bytes in any non-empty pieces, the item and the bytes left are those of decoding everything at once |
| `AbciCodec.NextConsumesWholeFrames` | abci/src/codec.rs:69-91 | whatever the stream does, bytes are only consumed as a whole frame at the front |
| `AbciOutcomes.NextEnds` | abci/src/codec.rs:69-91 | iterating ends, or fails with the stream's error, exactly where the stream ends or breaks with no whole frame read before |
| `AbciCodec.MessagesArriveInOrder` | abci/src/codec.rs:69-166 | the frames of any messages, cut anyhow, give exactly those messages in order and then the end |
| `AbciCodec.DrainConserves` | abci/src/codec.rs:102-119 | the write loop ends, moves bytes from the buffer to the stream in order, and succeeds only with an empty buffer |
| `AbciOutcomes.DrainIs` | abci/src/codec.rs:102-117 | emptying the buffer is Ok exactly if every write takes some bytes and the flush works; each error is that of the call it stops at, or of a write that takes none |
| `AbciOutcomes.SendIs` | abci/src/codec.rs:100-120 | sending fails without a trace if the message cannot be encoded, and otherwise ends as emptying the buffer does |
| `AbciCodec.SendsConserve` | abci/src/codec.rs:100-136 | across any sends the stream followed by the buffer is the concatenation of all frames encoded |
| `AbciCodec.SentMessagesArrive` | abci/src/codec.rs:62-136 | after any sends a reader gets the first messages in order and no others, all of them once the buffer is empty |
| `AbciCodecImpl.Codec.DecodeLengthDelimited` | abci/src/codec.rs:139-166 | the read buffer is advanced only over a whole frame |
| `AbciCodecImpl.Codec.NextItem` | abci/src/codec.rs:69-91 | the read loop ends and equals the value form |
| `AbciCodecImpl.Codec.SendMessage` | abci/src/codec.rs:100-120 | the write loop ends and equals the value form |
| `AbciCodecImpl.Stream.Read` | abci/src/codec.rs:80-89 | the window is filled from the front with the bytes taken off the stream |
| `QueryGrammar.StringRule` | rpc/src/query.rs:219-220 | a text read between quotes has no quote in it |
| `QueryGrammar.TagRule` | rpc/src/query.rs:293-294 | a key read is a valid key |
| `QueryGrammar.OperandRule` | rpc/src/query.rs:296-297 | an operand read is a text without quotes, a negative signed number, or of another kind |
| `QueryGrammar.ConditionRule` | rpc/src/query.rs:299-326 | a condition read has a valid key and such an operand |
| `QueryGrammar.TermRule` | rpc/src/query.rs:320-329 | so has a condition read as a term |
| `QueryPeg.OperandTakes` | rpc/src/query.rs:219-297 | the rule for operands takes just what the grammar as written takes |
| `QueryPeg.SignedTakes` | rpc/src/query.rs:228-232 | so does the rule for signed numbers, and its value is that of the text |
| `QueryPeg.ConditionTakes` | rpc/src/query.rs:299-326 | so does the rule for conditions, which reads the key once and not anew for each alternative |
| `QueryPeg.QueryIffGrammar` | rpc/src/query.rs:211-334 | a text can be parsed if and only if the parsing expression grammar, written out as a value, takes all of it |
| `Queries.EscapedIsSameIff` | rpc/src/query.rs:651-660 | escaping leaves a text without quotes alone exactly if it has no backslash |
| `Queries.UnescapedEscaped` | rpc/src/query.rs:651-660 | for every text, the escapes can be undone and no quote is left without one |
| `Queries.DecimalReads` | rpc/src/query.rs:529-534 | decimal digits stand for the number, without leading zeros |
| `Queries.OperandReads` | rpc/src/query.rs:267-297 | a printed text, negative or unsigned number is read back, up to escapes, whatever follows; so is a float, date or time that its library prints in the grammar's shape and reads back |
| `Queries.NonNegativeReads` | rpc/src/query.rs:529-534 | a signed number that is not negative is printed as its digits and read back as the same number, unsigned |
| `Queries.OperationReads` | rpc/src/query.rs:299-318 | each printed operation is read by its own alternative and by none before it |
| `Queries.ConditionReads` | rpc/src/query.rs:299-326 | a printed condition is read back, up to escapes |
| `Queries.EventTypeReads` | rpc/src/query.rs:320-323 | a printed event type is read back |
| `Queries.EventTypeIsCondition` | rpc/src/query.rs:320-329 | whatever is read as an event type would otherwise be read as that condition |
| `Queries.TermReads` | rpc/src/query.rs:320-329 | a printed condition is read as an event type exactly if it is written like one |
| `Queries.MoreTermsRead` | rpc/src/query.rs:331-332 | any further conditions are read back as terms, one by one |
| `Queries.QueryReads` | rpc/src/query.rs:195-332 | the printed form of a query with readable conditions is read as its terms to the end |
| `Queries.ParsedIsWritable` | rpc/src/query.rs:357-375 | whatever text is parsed, the keys are valid, the texts have no quotes and the signed numbers are negative |
| `Queries.SeparateIsFixedIff` | rpc/src/query.rs:345-355 | separating the terms gives the conditions back exactly if each comes back as it was |
| `Queries.RoundTripIff` | rpc/src/query.rs:195-393 | parsing what was printed gives the query back if and only if every condition is printable, for queries of any length |
| `Queries.QuoteIsLost` | rpc/src/query.rs:651-660 | a text with a quote does not come back |
| `Queries.BackslashIsLost` | rpc/src/query.rs:651-660 | a text with a backslash does not come back |
| `Queries.SignIsLost` | rpc/src/query.rs:228-232 | a signed number that is not negative does not come back |
| `Queries.WholeFloatIsLost` | rpc/src/query.rs:535-535 | a float that is printed without a point does not come back |
| `Queries.EventConditionIsLost` | rpc/src/query.rs:320-329 | a condition written like an event type does not come back |
| `Queries.Escape` | rpc/src/query.rs:651-660 | the loop puts a backslash before every backslash and quote, and quotes around |
| `Queries.Join` | rpc/src/query.rs:377-393 | the loop puts the separator between any two items |
| `Queries.SeparateTerms` | rpc/src/query.rs:345-355 | the fold keeps event types and conditions in order, apart |
| `Queries.SeparateOne` | rpc/src/query.rs:345-355 | one term goes to its own kind |
| `Queries.SeparateBoth` | rpc/src/query.rs:345-355 | and more terms go part by part, each kind kept in order |
| `Queries.AssembleIs` | rpc/src/query.rs:357-375 | a query is refused exactly if two of its terms name the event type; else it has the one that is named, if any |
| `Queries.FromStr` | rpc/src/query.rs:357-375 | parses the whole text and rejects a second event type |
| `SecretConnection.IncrementCounts` | p2p/src/secret_connection/nonce.rs:21-29 | counting goes through all nonces in turn and stops instead of wrapping around |
| `SecretConnection.NoncesDiffer` | p2p/src/secret_connection/nonce.rs:21-29 | nonces of different counts are different |
| `SecretOutcomes.NonceIs` | p2p/src/secret_connection/nonce.rs:9-29 | the nonce of a frame is four zero bytes and the frame's number in eight bytes, least first |
| `SecretOutcomes.IncrementIs` | p2p/src/secret_connection/nonce.rs:21-29 | any nonce of twelve bytes keeps its first four and counts up in the other eight; at the last count, and for another size, it panics |
| `SecretConnection.FrameRoundTrip` | p2p/src/secret_connection.rs:516-524 | the chunk in a frame is the one that was put there, by its length in front |
| `SecretOutcomes.FrameIs` | p2p/src/secret_connection.rs:516-524 | every byte of a frame: the length of the chunk in four bytes, the chunk, and zeros up to 1028 |
| `SecretOutcomes.DecryptIs` | p2p/src/secret_connection.rs:563-593 | opening fails exactly for want of a tag, for want of room, or because the cipher refuses |
| `SecretOutcomes.DecryptOpens` | p2p/src/secret_connection.rs:526-593 | with room for it, whatever was sealed is opened |
| `SecretConnection.WriteChunkLeaves` | p2p/src/secret_connection.rs:546-557 | after a chunk the nonce counts the frames and the stream holds them in order, the last in part if its write failed |
| `SecretConnection.WriteLeaves` | p2p/src/secret_connection.rs:540-560 | the sealed chunks of a write are its data in order, all of it on success; an error ends the connection |
| `SecretOutcomes.WriteChunkIs` | p2p/src/secret_connection.rs:546-557 | one chunk: sealed and logged, then the nonce moved on, then the frame written as far as it goes; each failure and panic for its cause |
| `SecretOutcomes.WriteIs` | p2p/src/secret_connection.rs:423-560 | data are cut into chunks of 1024 bytes but the last, written up to the first failure; refused after an error, and an error ends the connection |
| `SecretConnection.WritesLeave` | p2p/src/secret_connection.rs:382-393 | over any writes, what has been sealed is a first part of what was to be written, all of it while the connection is up |
| `SecretConnection.ReadKeeps` | p2p/src/secret_connection.rs:595-658 | a read gives the next chunk whole and leaves nothing buffered; it panics only for a short destination or at the counter's end |
| `SecretOutcomes.ReadFrameIs` | p2p/src/secret_connection.rs:617-651 | taking a frame off any stream: each failure exactly for its cause, and otherwise the chunk by its length |
| `SecretOutcomes.ReadIs` | p2p/src/secret_connection.rs:595-658 | a read with nothing buffered gives the chunk, or panics if there is no room for it |
| `SecretOutcomes.BufferedReadIs` | p2p/src/secret_connection.rs:600-615 | a read with something buffered panics unless the destination can be filled |
| `SecretConnection.GenuineReads` | p2p/src/secret_connection.rs:595-658 | the bytes read are those of the first frames, one per successful read, and the nonce counts them |
| `SecretConnection.HonestReadIff` | p2p/src/secret_connection.rs:653-657 | with a whole frame there a read panics if and only if the destination is shorter than the chunk, and gives the chunk otherwise |
| `SecretConnection.ShortReadPanics` | p2p/src/secret_connection.rs:653-657 | a chunk just written panics a reader with less room |
| `SecretConnection.NoNonceRepeats` | p2p/src/secret_connection.rs:546-550 | no two frames of a run have the same nonce |
| `SecretConnection.Lockstep` | p2p/src/secret_connection.rs:510-658 | for any writes and reads over a stream cut anywhere, the bytes read are a first part of those written, one frame for each successful read, both nonces count their frames and each frame has the nonce of its place |
| `SecretConnection.UnforgedLockstep` | p2p/src/secret_connection.rs:563-658 | the same for any other stream, if each frame on it that opens is the writer's at its own number |
| `SecretConnection.TamperedIsUnforged` | p2p/src/secret_connection.rs:595-633 | such are all streams that drop, repeat and reorder frames and add others that do not open, when a frame opens with no nonce but its own |
| `SecretConnection.TamperedLockstep` | p2p/src/secret_connection.rs:563-658 | so tampering of that kind only makes the reader stop early |
| `SecretConnection.SuchCiphersExist` | p2p/src/secret_connection.rs:526-532 | a cipher that opens what it seals, and only with its own nonce, is given |
| `SecretConnection.EverythingArrives` | p2p/src/secret_connection.rs:510-658 | while the connection is up, a reader with room for any chunk gets all bytes written with one read for each frame, and no read panics |
| `SecretConnectionImpl.NonceCounter.Advance` | p2p/src/secret_connection/nonce.rs:21-29 | rewrites the counter bytes in place to the next nonce, or panics and leaves them |
| `SecretConnectionImpl.EncryptFrame` | p2p/src/secret_connection.rs:510-537 | the frame filled and sealed in place is the sealed frame of the chunk, and an impossible chunk panics |
| `SecretConnectionImpl.SendingEnd.SendChunk` | p2p/src/secret_connection.rs:546-557 | sealing, counting and writing one chunk equals the value form |
| `SecretConnectionImpl.SendingEnd.EncryptAndWrite` | p2p/src/secret_connection.rs:540-560 | the loop over chunks equals the value form |
| `SecretConnectionImpl.SendingEnd.WriteData` | p2p/src/secret_connection.rs:423-429 | the termination flag around it equals the value form |
| `SecretConnectionImpl.ReceivingEnd.ReceiveChunk` | p2p/src/secret_connection.rs:617-651 | reading, opening and unpacking a frame equals the value form |
| `SecretConnectionImpl.ReceivingEnd.ReadBuffered` | p2p/src/secret_connection.rs:595-658 | the destination array, the buffer and the panics equal the value form |
| `SecretConnectionImpl.ReceivingEnd.ReadData` | p2p/src/secret_connection.rs:451-457 | the termination flag around it equals the value form |

## Left out

- Real cryptography (SHA-256, Ed25519, X25519, HKDF, ChaCha20-Poly1305) and the handshake of secret connections: functions with stated laws stand for the former.
- Protobuf, JSON and Amino encodings: only the length prefix of ABCI frames is concrete.
- RPC clients, transports, endpoints, configuration, command line and WASM: plumbing without logic of this kind.
- `ProdIo`, the system clock and retries: they enter as arbitrary functions of a tick.
- light-client-detector/src/detect.rs and evidence.rs: comparison against witnesses and list filtering, which would only add easy members.
- `Instance::trust_block`, `trust_from_store` and stores loaded from disk: they admit blocks without the checks that the run invariant needs.
- `verify_misbehaviour_header`, `verify_to_highest` and the iterators over stores: thin variants of what is modelled.
- Supervisor, peer lists and fork detection outside the detector crate.
- Debug builds, where arithmetic overflow panics: release builds are modelled.
- Safety.WholeRunSafety: supposes that the total of each available block's next validators times the numerator of the threshold fits 64 bits, and that first keys suffice; where they do not, the source does accept too little power (`TrustThresholds.ComparisonSoundIff`, `SharedAddresses.VerdictIsSignedIff`, `SharedAddresses.SkippingIsSignedIff`) and returns blocks off the chain (`SafetyLimits.FittingIsNeeded`, `SafetyLimits.CreditIsNeeded`).
- MixedRuns.MixedRunSafety: supposes the same.
- Backward.BackwardIsSafe: says nothing about the validator sets of blocks reached downwards, which the source does not check.
- LightClient.VerifyToTargetDelivers: for the default build, which refuses targets below every trusted block; `MixedRuns.CallStaysGuarded` has the other one.
- Builder.BuiltStateIff: the builder is modelled on values, as its one insertion into the store is the only change it makes.
- Queries.RoundTripIff: supposes of float, date and date-time operands that their libraries print them in the grammar's shape and read them back, as the texts are the libraries'.
- Queries.FromStr: the `and_*` builders, which push one condition, are left out.
- SecretConnection.Lockstep: one direction of a connection; the two directions share nothing but the termination flag, and threads using both halves at once are not modelled.
