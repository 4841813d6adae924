/** Commits, light blocks, and the outcomes of verifying them. */
module Blocks {
  import opened Common
  import opened Types
  import opened Validators
  import opened TrustThresholds

  datatype CommitSig =
    | AbsentSig
    | CommitSigFor(address: Address, timestamp: Time, signature: Option<Signature>)
    | NilSig(address: Address, timestamp: Time, signature: Option<Signature>)

  datatype Commit = Commit(height: Height, round: nat, blockId: BlockId, signatures: seq<CommitSig>)

  datatype SignedHeader = SignedHeader(header: Header, commit: Commit)

  datatype LightBlock = LightBlock(
    signedHeader: SignedHeader,
    validators: ValidatorSet,
    nextValidators: ValidatorSet,
    provider: nat)
  {
    function Header(): Header { signedHeader.header }
    function Height(): Height { signedHeader.header.height }
    function Time(): Time { signedHeader.header.time }
  }

  /** Verification status of a light block. */
  datatype Status = Failed | Unverified | Verified | Trusted
  {
    function Rank(): nat {
      match this
      case Failed => 0
      case Unverified => 1
      case Verified => 2
      case Trusted => 3
    }
  }

  function MostTrusted(a: Status, b: Status): Status {
    if a.Rank() > b.Rank() then a else b
  }

  datatype Options = Options(trustThreshold: TrustThreshold, trustingPeriod: Duration, clockDrift: Duration)

  /** The power counted for a commit so far, against a total and a threshold. */
  datatype Tally = Tally(total: nat, tallied: nat, threshold: TrustThreshold)
  {
    predicate Enough() {
      IsEnoughPower(threshold, tallied, total)
    }
  }

  datatype VerificationError =
    | TimeOutOfRange
    | HeaderFromTheFuture(headerTime: Time, now: Time, maxClockDrift: Duration)
    | NotEnoughTrustError(tally: Tally)
    | InsufficientSignersOverlap(tally: Tally)
    | DuplicateValidator(address: Address)
    | MissingSignature
    | InvalidSignature(signature: Signature, validator: Info, signBytes: seq<Byte>)
    | InvalidCommitValue(headerHash: Hash, commitHash: Hash)
    | InvalidNextValidatorSet(headerNextValidatorsHash: Hash, nextValidatorsHash: Hash)
    | InvalidValidatorSet(headerValidatorsHash: Hash, validatorsHash: Hash)
    | NonIncreasingHeight(got: Height, expected: Height)
    | ChainIdMismatch(gotId: ChainId, expectedId: ChainId)
    | NonMonotonicBftTime(headerBftTime: Time, trustedHeaderBftTime: Time)
    | NotWithinTrustPeriod(expiresAt: Time, at: Time)
    | NoSignatureForCommit
    | MismatchPreCommitLength(preCommitLength: nat, validatorLength: nat)
    | FaultySigner(signer: Address, validatorSet: ValidatorSet)

  type Check = Result<(), VerificationError>

  datatype Verdict = Success | NotEnoughTrust(tally: Tally) | Invalid(error: VerificationError)
}
