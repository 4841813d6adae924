/**
 The examination as light-client-detector/src/examine.rs runs it: a loop over
 the trace that replaces the previously verified block, and for each step a
 fresh store that the source's light client works on.
 */
module DetectorImpl {
  import opened Common
  import opened Types
  import opened Blocks
  import opened LightStores
  import LightClient
  import opened LightClientImpl
  import opened Detector

  method VerifySkippingInPlace(source: LightClientInstance, trusted: LightBlock, target: LightBlock)
    returns (r: Result<seq<LightBlock>, DetectorError>)
    requires LightClient.HonoursHeights(source.client) && LightClient.SensibleVerifier(source.client)
    modifies source
    ensures (r, source.tick) == VerifySkipping(source.client, old(source.tick), trusted, target)
  {
    var store := new MemoryStore();
    store.InsertBlock(trusted, Trusted);
    store.InsertBlock(target, Unverified);
    var state := new ClientState(store);
    var verified := source.VerifyToTarget(target.Height(), state);
    if verified.Err? {
      return Err(SourceFailed(verified.error));
    }
    SkippingKeepsKeys(source.client, old(source.tick), trusted, target);
    var blocks := state.GetTrace(target.Height());
    r := NewTrace(blocks);
  }

  lemma SkippingKeepsKeys(cl: Client, tick: nat, trusted: LightBlock, target: LightBlock)
    requires LightClient.HonoursHeights(cl) && LightClient.SensibleVerifier(cl)
    ensures WellKeyed(SkippingState(tick, trusted, target).store)
    ensures WellKeyed(LightClient.VerifyToTarget(cl, SkippingState(tick, trusted, target), target.Height()).1.store)
  {
    LightClient.VerifyToTargetKeepsKeys(cl, SkippingState(tick, trusted, target), target.Height());
  }

  /** The source's block at the height of a trace block. */
  method FetchFrom(source: LightClientInstance, height: Height, target: LightBlock)
    returns (r: Result<LightBlock, DetectorError>)
    modifies source
    ensures r == SourceBlock(source.client, old(source.tick), height, target)
    ensures source.tick == old(source.tick) + 1
  {
    var now := source.tick;
    source.tick := now + 1;
    if height == target.Height() {
      return Ok(target);
    }
    var store := new MemoryStore();
    var state := new ClientState(store);
    var fetched := source.GetOrFetchBlock(now, height, state);
    match fetched {
      case Err(e) => return Err(SourceFailed(e));
      case Ok((b, _)) => return Ok(b);
    }
  }

  /** The first block of the trace must be one the source has too. */
  method CheckTrustedBlockInPlace(hash: HashFn, source: LightClientInstance, trusted: LightBlock, target: LightBlock)
    returns (r: Result<LightBlock, DetectorError>)
    modifies source
    ensures r == CheckTrustedBlock(hash, source.client, old(source.tick), trusted, target)
    ensures trusted.Height() <= target.Height() ==> source.tick == old(source.tick) + 1
  {
    if trusted.Height() > target.Height() {
      if trusted.Time() > target.Time() {
        return Err(TraceBlockAfterTargetBlock(trusted.Time(), target.Time()));
      }
    }
    var shown := FetchFrom(source, trusted.Height(), target);
    if shown.Err? {
      return Err(shown.error);
    }
    var sourceHash, traceHash := hash(shown.value.Header()), hash(trusted.Header());
    if sourceHash != traceHash {
      return Err(TrustedHashDifferentFromSourceFirstBlock(sourceHash, traceHash));
    }
    return shown;
  }

  method ExamineBlockInPlace(
    hash: HashFn, source: LightClientInstance, block: LightBlock, target: LightBlock, previous: LightBlock)
    returns (r: Result<Examination, DetectorError>)
    requires LightClient.HonoursHeights(source.client) && LightClient.SensibleVerifier(source.client)
    modifies source
    ensures (r, source.tick) == ExamineBlock(hash, source.client, old(source.tick), block, target, previous)
  {
    if block.Height() > target.Height() {
      if block.Time() > target.Time() {
        return Err(TraceBlockAfterTargetBlock(block.Time(), target.Time()));
      }
      if previous.Height() != target.Height() {
        var t := VerifySkippingInPlace(source, previous, target);
        if t.Err? {
          return Err(t.error);
        }
        return Ok(Divergence(t.value, block));
      }
    }
    var shown := FetchFrom(source, block.Height(), target);
    if shown.Err? {
      return Err(shown.error);
    }
    var t := VerifySkippingInPlace(source, previous, shown.value);
    if t.Err? {
      return Err(t.error);
    }
    if hash(shown.value.Header()) != hash(block.Header()) {
      return Ok(Divergence(t.value, block));
    }
    return Ok(Continue(shown.value));
  }

  /** The examination of a trace against a source that has shown a conflicting target block. */
  method ExamineInPlace(hash: HashFn, source: LightClientInstance, trace: seq<LightBlock>, target: LightBlock)
    returns (r: Found)
    requires LightClient.HonoursHeights(source.client) && LightClient.SensibleVerifier(source.client)
    requires |trace| >= 2
    modifies source
    ensures (r, source.tick) == Examine(hash, source.client, old(source.tick), trace, target)
  {
    var trusted := trace[0];
    if target.Height() < trusted.Height() {
      return Err(TargetBlockLowerThanTrusted(target.Height(), trusted.Height()));
    }
    var first := CheckTrustedBlockInPlace(hash, source, trusted, target);
    if first.Err? {
      return Err(first.error);
    }
    var previous := first.value;
    for i := 1 to |trace|
      invariant Examine(hash, source.client, old(source.tick), trace, target)
             == ExamineFrom(StepOf(hash, source.client, target), source.tick, trace, i, previous)
    {
      var step := ExamineBlockInPlace(hash, source, trace[i], target, previous);
      match step {
        case Err(e) => return Err(e);
        case Ok(Divergence(t, b)) => return Ok((t, b));
        case Ok(Continue(b)) => previous := b;
      }
    }
    r := Err(NoDivergence);
  }
}
