/**
 How examinations end: a divergence that can be shown is found, and every error
 has its cause.
 */
module DetectorOutcomes {
  import opened Common
  import opened Types
  import opened Blocks
  import opened LightStores
  import LightClient
  import opened Detector

  /** What the source's light client starts from: one block that is trusted, one to be verified, and nothing else. */
  function Alone(tick: nat, trusted: LightBlock, target: LightBlock): LightClient.State {
    LightClient.State(map[trusted.Height() := StoreEntry(trusted, Trusted),
                          target.Height() := StoreEntry(target, Unverified)], map[], tick)
  }

  /** What it answers when asked to verify one block from another. */
  function Verification(cl: Client, tick: nat, trusted: LightBlock, target: LightBlock): LightClient.Outcome
    requires LightClient.HonoursHeights(cl) && LightClient.SensibleVerifier(cl)
  {
    LightClient.VerifyToTarget(cl, Alone(tick, trusted, target), target.Height()).0
  }

  /** The source fails exactly if its light client does, with that error. */
  lemma SkippingIs(cl: Client, tick: nat, trusted: LightBlock, target: LightBlock)
    requires LightClient.HonoursHeights(cl) && LightClient.SensibleVerifier(cl)
    ensures var r, v := VerifySkipping(cl, tick, trusted, target).0, Verification(cl, tick, trusted, target);
            if v.Ok? then r.Ok? else r == Err(SourceFailed(v.error))
  {
    assert SkippingState(tick, trusted, target) == Alone(tick, trusted, target);
    SkippingLeadsToTarget(cl, tick, trusted, target);
  }

  // ---- What can be shown is found ------------------------------------------

  /** The source always shows this block at this height. */
  ghost predicate Shown(cl: Client, target: LightBlock, height: Height, b: LightBlock) {
    b.Height() == height
    && if height == target.Height() then b == target else forall tick :: cl.fetch(tick, height) == Ok(b)
  }

  /** It can always verify one from the other. */
  ghost predicate CanVerify(cl: Client, a: LightBlock, b: LightBlock)
    requires LightClient.HonoursHeights(cl) && LightClient.SensibleVerifier(cl)
  {
    forall tick :: Verification(cl, tick, a, b).Ok?
  }

  /** The source goes along with the first trace blocks, up to the target's height. */
  ghost predicate GoesAlong(
    hash: HashFn, cl: Client, trace: seq<LightBlock>, target: LightBlock, shown: seq<LightBlock>)
    requires LightClient.HonoursHeights(cl) && LightClient.SensibleVerifier(cl)
  {
    && 0 < |shown| <= |trace|
    && (forall i :: 0 <= i < |shown| ==>
          && trace[i].Height() <= target.Height() && Shown(cl, target, trace[i].Height(), shown[i])
          && hash(shown[i].Header()) == hash(trace[i].Header()))
    && (forall i :: 0 < i < |shown| ==> CanVerify(cl, shown[i - 1], shown[i]))
  }

  /** The source's trace from the last block that it went along with to the one it shows. */
  ghost predicate Found(
    cl: Client, span: Span, previous: LightBlock, shown: LightBlock, block: LightBlock,
    r: Result<(seq<LightBlock>, LightBlock), DetectorError>)
  {
    r.Ok? && r.value.1 == block && LeadsTo(cl, span, previous, shown, r.value.0)
  }

  lemma AgreedStep(
    hash: HashFn, cl: Client, tick: nat, block: LightBlock, target: LightBlock, previous: LightBlock, b: LightBlock)
    requires LightClient.HonoursHeights(cl) && LightClient.SensibleVerifier(cl)
    requires block.Height() <= target.Height() && Shown(cl, target, block.Height(), b) && CanVerify(cl, previous, b)
    requires hash(b.Header()) == hash(block.Header())
    ensures var (r, tick') := ExamineBlock(hash, cl, tick, block, target, previous);
            r == Ok(Continue(b)) && tick <= tick'
  {
    assert SourceBlock(cl, tick, block.Height(), target) == Ok(b);
    assert Verification(cl, tick + 1, previous, b).Ok?;
    SkippingIs(cl, tick + 1, previous, b);
    SkippingLeadsWithin(cl, tick, tick + 1, previous, b);
  }

  lemma DivergingStep(
    hash: HashFn, cl: Client, tick: nat, block: LightBlock, target: LightBlock, previous: LightBlock, b: LightBlock)
    requires LightClient.HonoursHeights(cl) && LightClient.SensibleVerifier(cl)
    requires block.Height() <= target.Height() && Shown(cl, target, block.Height(), b) && CanVerify(cl, previous, b)
    requires hash(b.Header()) != hash(block.Header())
    ensures var (r, tick') := ExamineBlock(hash, cl, tick, block, target, previous);
            && r.Ok? && r.value.Divergence? && r.value.block == block
            && LeadsTo(cl, Span(tick, tick'), previous, b, r.value.sourceTrace)
  {
    assert SourceBlock(cl, tick, block.Height(), target) == Ok(b);
    assert Verification(cl, tick + 1, previous, b).Ok?;
    SkippingIs(cl, tick + 1, previous, b);
    SkippingLeadsWithin(cl, tick, tick + 1, previous, b);
  }

  lemma LunaticStep(
    hash: HashFn, cl: Client, tick: nat, block: LightBlock, target: LightBlock, previous: LightBlock)
    requires LightClient.HonoursHeights(cl) && LightClient.SensibleVerifier(cl)
    requires block.Height() > target.Height() && block.Time() <= target.Time()
    requires previous.Height() != target.Height() && CanVerify(cl, previous, target)
    ensures var (r, tick') := ExamineBlock(hash, cl, tick, block, target, previous);
            && r.Ok? && r.value.Divergence? && r.value.block == block
            && LeadsTo(cl, Span(tick, tick'), previous, target, r.value.sourceTrace)
  {
    assert Verification(cl, tick, previous, target).Ok?;
    SkippingIs(cl, tick, previous, target);
    SkippingLeadsToTarget(cl, tick, previous, target);
  }

  /** What a step at the block after the agreed ones ends with, at whatever tick. */
  ghost predicate AlwaysDiverges(
    step: Step, cl: Client, block: LightBlock, previous: LightBlock, shown: LightBlock)
  {
    forall tick {:trigger step(tick, block, previous)} ::
      var (r, tick') := step(tick, block, previous);
      && r.Ok? && r.value.Divergence? && r.value.block == block
      && LeadsTo(cl, Span(tick, tick'), previous, shown, r.value.sourceTrace)
  }

  ghost predicate GoesOnWith(step: Step, tick: nat, block: LightBlock, previous: LightBlock, b: LightBlock) {
    var (r, tick') := step(tick, block, previous);
    r == Ok(Continue(b)) && tick <= tick'
  }

  ghost predicate AlwaysAgrees(step: Step, block: LightBlock, previous: LightBlock, b: LightBlock) {
    forall tick :: GoesOnWith(step, tick, block, previous, b)
  }

  /** A walk goes along as far as the source does, and ends with the divergence after that. */
  lemma {:induction false} WalkDiverges(
    step: Step, cl: Client, tick: nat, trace: seq<LightBlock>, i: nat, agreed: seq<LightBlock>, shown: LightBlock)
    returns (since: nat)
    requires 0 < i <= |agreed| < |trace|
    requires forall k :: i <= k < |agreed| ==> AlwaysAgrees(step, trace[k], agreed[k - 1], agreed[k])
    requires AlwaysDiverges(step, cl, trace[|agreed|], agreed[|agreed| - 1], shown)
    ensures var (r, tick') := ExamineFrom(step, tick, trace, i, agreed[i - 1]);
            tick <= since && Found(cl, Span(since, tick'), agreed[|agreed| - 1], shown, trace[|agreed|], r)
    decreases |agreed| - i
  {
    var (r, tick') := step(tick, trace[i], agreed[i - 1]);
    if i == |agreed| {
      since := tick;
    } else {
      assert AlwaysAgrees(step, trace[i], agreed[i - 1], agreed[i]);
      assert GoesOnWith(step, tick, trace[i], agreed[i - 1], agreed[i]);
      since := WalkDiverges(step, cl, tick', trace, i + 1, agreed, shown);
    }
  }

  lemma AlongAgrees(
    hash: HashFn, cl: Client, trace: seq<LightBlock>, target: LightBlock, shown: seq<LightBlock>, k: nat)
    requires LightClient.HonoursHeights(cl) && LightClient.SensibleVerifier(cl)
    requires GoesAlong(hash, cl, trace, target, shown) && 0 < k < |shown|
    ensures AlwaysAgrees(StepOf(hash, cl, target), trace[k], shown[k - 1], shown[k])
  {
    var step, block, previous, b := StepOf(hash, cl, target), trace[k], shown[k - 1], shown[k];
    forall tick: nat
      ensures GoesOnWith(step, tick, block, previous, b)
    {
      AgreedStep(hash, cl, tick, block, target, previous, b);
    }
  }

  lemma FirstIsAgreed(
    hash: HashFn, cl: Client, tick: nat, trace: seq<LightBlock>, target: LightBlock, shown: seq<LightBlock>)
    requires LightClient.HonoursHeights(cl) && LightClient.SensibleVerifier(cl)
    requires GoesAlong(hash, cl, trace, target, shown)
    ensures CheckTrustedBlock(hash, cl, tick, trace[0], target) == Ok(shown[0])
  {
    assert Shown(cl, target, trace[0].Height(), shown[0]);
  }

  lemma ExaminationDiverges(
    hash: HashFn, cl: Client, tick: nat, trace: seq<LightBlock>, target: LightBlock, shown: seq<LightBlock>,
    b: LightBlock)
    returns (since: nat)
    requires LightClient.HonoursHeights(cl) && LightClient.SensibleVerifier(cl)
    requires GoesAlong(hash, cl, trace, target, shown) && |shown| < |trace|
    requires AlwaysDiverges(StepOf(hash, cl, target), cl, trace[|shown|], shown[|shown| - 1], b)
    ensures var (r, tick') := Examine(hash, cl, tick, trace, target);
            tick <= since && Found(cl, Span(since, tick'), shown[|shown| - 1], b, trace[|shown|], r)
  {
    FirstIsAgreed(hash, cl, tick, trace, target, shown);
    forall k | 1 <= k < |shown|
      ensures AlwaysAgrees(StepOf(hash, cl, target), trace[k], shown[k - 1], shown[k])
    {
      AlongAgrees(hash, cl, trace, target, shown, k);
    }
    since := WalkDiverges(StepOf(hash, cl, target), cl, tick + 1, trace, 1, shown, b);
  }

  /**
   If the source goes along with the first blocks of the trace, and shows and
   verifies another block at the height of the next one, that one is what the
   examination finds.
   */
  lemma DivergenceIsFound(
    hash: HashFn, cl: Client, tick: nat, trace: seq<LightBlock>, target: LightBlock, shown: seq<LightBlock>,
    b: LightBlock)
    returns (since: nat)
    requires LightClient.HonoursHeights(cl) && LightClient.SensibleVerifier(cl)
    requires GoesAlong(hash, cl, trace, target, shown) && |shown| < |trace|
    requires var block := trace[|shown|];
             && block.Height() <= target.Height() && Shown(cl, target, block.Height(), b)
             && CanVerify(cl, shown[|shown| - 1], b) && hash(b.Header()) != hash(block.Header())
    ensures var (r, tick') := Examine(hash, cl, tick, trace, target);
            tick <= since && Found(cl, Span(since, tick'), shown[|shown| - 1], b, trace[|shown|], r)
  {
    var block, previous := trace[|shown|], shown[|shown| - 1];
    var step := StepOf(hash, cl, target);
    forall tick: nat
      ensures var (r, tick') := step(tick, block, previous);
              && r.Ok? && r.value.Divergence? && r.value.block == block
              && LeadsTo(cl, Span(tick, tick'), previous, b, r.value.sourceTrace)
    {
      DivergingStep(hash, cl, tick, block, target, previous, b);
    }
    since := ExaminationDiverges(hash, cl, tick, trace, target, shown, b);
  }

  /** If the trace goes beyond a target that is not earlier, that is found as well: the forward lunatic case. */
  lemma LunaticIsFound(
    hash: HashFn, cl: Client, tick: nat, trace: seq<LightBlock>, target: LightBlock, shown: seq<LightBlock>)
    returns (since: nat)
    requires LightClient.HonoursHeights(cl) && LightClient.SensibleVerifier(cl)
    requires GoesAlong(hash, cl, trace, target, shown) && |shown| < |trace|
    requires trace[|shown|].Height() > target.Height() && trace[|shown|].Time() <= target.Time()
    requires shown[|shown| - 1].Height() < target.Height() && CanVerify(cl, shown[|shown| - 1], target)
    ensures var (r, tick') := Examine(hash, cl, tick, trace, target);
            tick <= since && Found(cl, Span(since, tick'), shown[|shown| - 1], target, trace[|shown|], r)
  {
    var block, previous := trace[|shown|], shown[|shown| - 1];
    var step := StepOf(hash, cl, target);
    forall tick: nat
      ensures var (r, tick') := step(tick, block, previous);
              && r.Ok? && r.value.Divergence? && r.value.block == block
              && LeadsTo(cl, Span(tick, tick'), previous, target, r.value.sourceTrace)
    {
      LunaticStep(hash, cl, tick, block, target, previous);
    }
    since := ExaminationDiverges(hash, cl, tick, trace, target, shown, target);
  }

  // ---- Every error has its cause -------------------------------------------

  /** The tick and the verified block after some steps of a walk that all go on. */
  ghost function AfterSteps(step: Step, tick: nat, trace: seq<LightBlock>, i: nat, previous: LightBlock, k: nat)
    : Option<(nat, LightBlock)>
    decreases k
  {
    if k == 0 then Some((tick, previous))
    else if i >= |trace| then None
    else
      var (r, tick') := step(tick, trace[i], previous);
      match r
      case Ok(Continue(b)) => AfterSteps(step, tick', trace, i + 1, b, k - 1)
      case _ => None
  }

  /** The walk gets to its `i`-th block, and the step there ends with the error. */
  ghost predicate FailsAt(
    step: Step, trace: seq<LightBlock>, i: nat, reached: Option<(nat, LightBlock)>, e: DetectorError)
  {
    i < |trace| && reached.Some? && step(reached.value.0, trace[i], reached.value.1).0 == Err(e)
  }

  lemma {:induction false} WalkFailsAt(
    step: Step, tick: nat, trace: seq<LightBlock>, i: nat, previous: LightBlock) returns (k: nat)
    requires i <= |trace| && ExamineFrom(step, tick, trace, i, previous).0.Err?
    ensures var e := ExamineFrom(step, tick, trace, i, previous).0.error;
            if i + k == |trace|
            then e == NoDivergence && AfterSteps(step, tick, trace, i, previous, k).Some?
            else FailsAt(step, trace, i + k, AfterSteps(step, tick, trace, i, previous, k), e)
    decreases |trace| - i
  {
    k := 0;
    if i < |trace| {
      var (r, tick') := step(tick, trace[i], previous);
      if r.Ok? {
        k := WalkFailsAt(step, tick', trace, i + 1, r.value.block);
        k := k + 1;
      }
    }
  }

  /** The source shows this block, and then fails to verify it. */
  ghost predicate Refuses(
    cl: Client, tick: nat, height: Height, target: LightBlock, previous: LightBlock, b: LightBlock,
    error: LightClient.ClientError)
    requires LightClient.HonoursHeights(cl) && LightClient.SensibleVerifier(cl)
  {
    Offered(cl, Span(tick, tick + 1), target, height, b) && Verification(cl, tick + 1, previous, b) == Err(error)
  }

  /** Why a step at a tick, with the block verified before, ends with this error. */
  ghost predicate StepCauses(
    cl: Client, tick: nat, block: LightBlock, target: LightBlock, previous: LightBlock, e: DetectorError)
    requires LightClient.HonoursHeights(cl) && LightClient.SensibleVerifier(cl)
  {
    match e
    case TraceBlockAfterTargetBlock(late, time) =>
      block.Height() > target.Height() && late == block.Time() > time == target.Time()
    case SourceFailed(error) =>
      || (block.Height() != target.Height()
          && exists io :: cl.fetch(tick, block.Height()) == Err(io) && error == LightClient.Io(io))
      || (exists b :: Refuses(cl, tick, block.Height(), target, previous, b, error))
      || (block.Height() > target.Height() && Verification(cl, tick, previous, target) == Err(error))
    case _ => false
  }

  lemma ComparisonErrorHasCause(
    hash: HashFn, cl: Client, tick: nat, block: LightBlock, target: LightBlock, previous: LightBlock)
    requires LightClient.HonoursHeights(cl) && LightClient.SensibleVerifier(cl)
    requires CompareBlock(hash, cl, tick, block, target, previous).0.Err?
    ensures StepCauses(cl, tick, block, target, previous,
                       CompareBlock(hash, cl, tick, block, target, previous).0.error)
  {
    var source := SourceBlock(cl, tick, block.Height(), target);
    if source.Ok? {
      var b := source.value;
      SourceBlockIsOffered(cl, Span(tick, tick + 1), tick, block.Height(), target);
      SkippingIs(cl, tick + 1, previous, b);
      assert Refuses(cl, tick, block.Height(), target, previous, b, Verification(cl, tick + 1, previous, b).error);
    }
  }

  lemma StepErrorHasCause(
    hash: HashFn, cl: Client, tick: nat, block: LightBlock, target: LightBlock, previous: LightBlock)
    requires LightClient.HonoursHeights(cl) && LightClient.SensibleVerifier(cl)
    requires ExamineBlock(hash, cl, tick, block, target, previous).0.Err?
    ensures StepCauses(cl, tick, block, target, previous,
                       ExamineBlock(hash, cl, tick, block, target, previous).0.error)
  {
    if block.Height() <= target.Height() || (block.Time() <= target.Time() && previous.Height() == target.Height()) {
      ComparisonErrorHasCause(hash, cl, tick, block, target, previous);
    } else {
      SkippingIs(cl, tick, previous, target);
    }
  }

  /** Why the first block of a trace is refused. */
  ghost predicate FirstCauses(
    hash: HashFn, cl: Client, tick: nat, first: LightBlock, target: LightBlock, e: DetectorError)
  {
    match e
    case TargetBlockLowerThanTrusted(low, high) => low == target.Height() < high == first.Height()
    case SourceFailed(error) =>
      && first.Height() != target.Height()
      && exists io :: cl.fetch(tick, first.Height()) == Err(io) && error == LightClient.Io(io)
    case TrustedHashDifferentFromSourceFirstBlock(theirs, ours) =>
      && theirs != ours && ours == hash(first.Header())
      && exists b :: Offered(cl, Span(tick, tick + 1), target, first.Height(), b) && theirs == hash(b.Header())
    case _ => false
  }

  lemma FirstErrorHasCause(hash: HashFn, cl: Client, tick: nat, first: LightBlock, target: LightBlock)
    requires LightClient.HonoursHeights(cl) && first.Height() <= target.Height()
    requires CheckTrustedBlock(hash, cl, tick, first, target).Err?
    ensures FirstCauses(hash, cl, tick, first, target, CheckTrustedBlock(hash, cl, tick, first, target).error)
  {
    SourceBlockIsOffered(cl, Span(tick, tick + 1), tick, first.Height(), target);
  }

  /** The walk ends with the error of a step, or at the end of the trace. */
  ghost predicate WalkCauses(
    cl: Client, trace: seq<LightBlock>, target: LightBlock, i: nat, reached: Option<(nat, LightBlock)>,
    e: DetectorError)
    requires LightClient.HonoursHeights(cl) && LightClient.SensibleVerifier(cl)
  {
    && reached.Some?
    && if i >= |trace| then e == NoDivergence
       else StepCauses(cl, reached.value.0, trace[i], target, reached.value.1, e)
  }

  lemma WalkErrorHasCause(
    hash: HashFn, cl: Client, tick: nat, trace: seq<LightBlock>, target: LightBlock, previous: LightBlock)
    returns (k: nat)
    requires LightClient.HonoursHeights(cl) && LightClient.SensibleVerifier(cl) && |trace| >= 2
    requires ExamineFrom(StepOf(hash, cl, target), tick, trace, 1, previous).0.Err?
    ensures WalkCauses(cl, trace, target, 1 + k, AfterSteps(StepOf(hash, cl, target), tick, trace, 1, previous, k),
                       ExamineFrom(StepOf(hash, cl, target), tick, trace, 1, previous).0.error)
  {
    var step := StepOf(hash, cl, target);
    k := WalkFailsAt(step, tick, trace, 1, previous);
    if 1 + k < |trace| {
      var reached := AfterSteps(step, tick, trace, 1, previous, k).value;
      StepErrorHasCause(hash, cl, reached.0, trace[1 + k], target, reached.1);
    }
  }

  /** The first block of the trace is refused, and why. */
  lemma EarlyErrorHasCause(hash: HashFn, cl: Client, tick: nat, trace: seq<LightBlock>, target: LightBlock)
    requires LightClient.HonoursHeights(cl) && LightClient.SensibleVerifier(cl) && |trace| >= 2
    requires target.Height() < trace[0].Height() || CheckTrustedBlock(hash, cl, tick, trace[0], target).Err?
    ensures var r := Examine(hash, cl, tick, trace, target).0;
            r.Err? && FirstCauses(hash, cl, tick, trace[0], target, r.error)
  {
    if trace[0].Height() <= target.Height() {
      FirstErrorHasCause(hash, cl, tick, trace[0], target);
    }
  }

  /** Or it is agreed on, and the walk ends with the error of a step, or at the end of the trace. */
  lemma LaterErrorHasCause(hash: HashFn, cl: Client, tick: nat, trace: seq<LightBlock>, target: LightBlock)
    returns (k: nat)
    requires LightClient.HonoursHeights(cl) && LightClient.SensibleVerifier(cl) && |trace| >= 2
    requires trace[0].Height() <= target.Height() && CheckTrustedBlock(hash, cl, tick, trace[0], target).Ok?
    requires Examine(hash, cl, tick, trace, target).0.Err?
    ensures var first := CheckTrustedBlock(hash, cl, tick, trace[0], target).value;
            WalkCauses(cl, trace, target, 1 + k,
                       AfterSteps(StepOf(hash, cl, target), tick + 1, trace, 1, first, k),
                       Examine(hash, cl, tick, trace, target).0.error)
  {
    var first := CheckTrustedBlock(hash, cl, tick, trace[0], target).value;
    assert Examine(hash, cl, tick, trace, target) == ExamineFrom(StepOf(hash, cl, target), tick + 1, trace, 1, first);
    k := WalkErrorHasCause(hash, cl, tick + 1, trace, target, first);
  }
}
