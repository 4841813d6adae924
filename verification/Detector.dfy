/**
 The examination of a conflicting header (light-client-detector/src/examine.rs,
 trace.rs): a trace from one provider is walked against another, the source,
 until the two first disagree.  `DetectorImpl.dfy` has the loop on state that
 changes in place.
 */
module Detector {
  import opened Common
  import opened Sorting
  import opened Types
  import opened Blocks
  import opened LightStores
  import LightClient
  import opened Traces
  import opened TraceLinkage

  type Client = LightClient.Client

  datatype DetectorError =
    | SourceFailed(error: LightClient.ClientError)
    | TraceTooShort(blocks: seq<LightBlock>)
    | TargetBlockLowerThanTrusted(target: Height, trusted: Height)
    | TrustedHashDifferentFromSourceFirstBlock(sourceHash: Hash, traceHash: Hash)
    | TraceBlockAfterTargetBlock(traceTime: Time, targetTime: Time)
    | NoDivergence

  /** A trace has two blocks at least and is sorted by height. */
  function NewTrace(blocks: seq<LightBlock>): Result<seq<LightBlock>, DetectorError> {
    if |blocks| < 2 then Err(TraceTooShort(blocks)) else Ok(Sort(ByHeight, blocks))
  }

  /** A trace is two blocks or more, in the order of their heights. */
  lemma NewTraceIs(blocks: seq<LightBlock>)
    ensures if |blocks| < 2 then NewTrace(blocks) == Err(TraceTooShort(blocks))
            else
              && NewTrace(blocks).Ok? && multiset(NewTrace(blocks).value) == multiset(blocks)
              && Sorted(ByHeight, NewTrace(blocks).value)
  {
    SortPermutes(ByHeight, blocks);
    SortSorts(ByHeight, blocks);
  }

  /** A fresh state that trusts one block and knows another. */
  function SkippingState(tick: nat, trusted: LightBlock, target: LightBlock): LightClient.State {
    LightClient.State(
      LightStores.Insert(LightStores.Insert(map[], trusted, Trusted), target, Unverified), map[], tick)
  }

  /** Has the source verify `target` from `trusted` alone; gives the trace and the next tick. */
  function VerifySkipping(cl: Client, tick: nat, trusted: LightBlock, target: LightBlock)
    : (Result<seq<LightBlock>, DetectorError>, nat)
    requires LightClient.HonoursHeights(cl) && LightClient.SensibleVerifier(cl)
  {
    var (r, st) := LightClient.VerifyToTarget(cl, SkippingState(tick, trusted, target), target.Height());
    (match r
     case Err(e) => Err(SourceFailed(e))
     case Ok(_) => NewTrace(TraceOf(st.store, st.trace, target.Height())),
     st.tick)
  }

  /** The source's block at a height: the target block at its own height, and fetched elsewhere. */
  function SourceBlock(cl: Client, tick: nat, height: Height, target: LightBlock): Result<LightBlock, DetectorError> {
    if height == target.Height() then Ok(target) else
    match cl.fetch(tick, height)
    case Err(e) => Err(SourceFailed(LightClient.Io(e)))
    case Ok(b) => Ok(b)
  }

  function CheckTrustedBlock(hash: HashFn, cl: Client, tick: nat, trusted: LightBlock, target: LightBlock)
    : Result<LightBlock, DetectorError>
  {
    if trusted.Height() > target.Height() && trusted.Time() > target.Time() then
      Err(TraceBlockAfterTargetBlock(trusted.Time(), target.Time()))
    else
      match SourceBlock(cl, tick, trusted.Height(), target)
      case Err(e) => Err(e)
      case Ok(source) =>
        if hash(source.Header()) != hash(trusted.Header()) then
          Err(TrustedHashDifferentFromSourceFirstBlock(hash(source.Header()), hash(trusted.Header())))
        else
          Ok(source)
  }

  datatype Examination = Continue(block: LightBlock) | Divergence(sourceTrace: seq<LightBlock>, block: LightBlock)

  /** The source's block against the trace block, once the source has verified it. */
  function Compared(
    hash: HashFn, block: LightBlock, source: LightBlock, verified: Result<seq<LightBlock>, DetectorError>)
    : Result<Examination, DetectorError>
  {
    match verified
    case Err(e) => Err(e)
    case Ok(t) =>
      if hash(source.Header()) != hash(block.Header()) then Ok(Divergence(t, block)) else Ok(Continue(source))
  }

  /** Has the source verify its own block at the height of the trace block, and compares the two. */
  function CompareBlock(
    hash: HashFn, cl: Client, tick: nat, block: LightBlock, target: LightBlock, previous: LightBlock)
    : (Result<Examination, DetectorError>, nat)
    requires LightClient.HonoursHeights(cl) && LightClient.SensibleVerifier(cl)
  {
    match SourceBlock(cl, tick, block.Height(), target)
    case Err(e) => (Err(e), tick + 1)
    case Ok(source) =>
      var (r, tick') := VerifySkipping(cl, tick + 1, previous, source);
      (Compared(hash, block, source, r), tick')
  }

  /** One step: past the target the last gap up to the target is closed instead. */
  function ExamineBlock(
    hash: HashFn, cl: Client, tick: nat, block: LightBlock, target: LightBlock, previous: LightBlock)
    : (Result<Examination, DetectorError>, nat)
    requires LightClient.HonoursHeights(cl) && LightClient.SensibleVerifier(cl)
  {
    if block.Height() > target.Height() && block.Time() > target.Time() then
      (Err(TraceBlockAfterTargetBlock(block.Time(), target.Time())), tick)
    else if block.Height() > target.Height() && previous.Height() != target.Height() then
      var (r, tick') := VerifySkipping(cl, tick, previous, target);
      (match r case Err(e) => Err(e) case Ok(t) => Ok(Divergence(t, block)), tick')
    else
      CompareBlock(hash, cl, tick, block, target, previous)
  }

  type Found = Result<(seq<LightBlock>, LightBlock), DetectorError>

  /** What a step does at a tick with a trace block and the previously verified one. */
  type Step = (nat, LightBlock, LightBlock) -> (Result<Examination, DetectorError>, nat)

  function StepOf(hash: HashFn, cl: Client, target: LightBlock): Step
    requires LightClient.HonoursHeights(cl) && LightClient.SensibleVerifier(cl)
  {
    (tick: nat, block: LightBlock, previous: LightBlock) => ExamineBlock(hash, cl, tick, block, target, previous)
  }

  /** The walk from the `i`-th trace block on. */
  function ExamineFrom(step: Step, tick: nat, trace: seq<LightBlock>, i: nat, previous: LightBlock): (Found, nat)
    requires i <= |trace|
    decreases |trace| - i
  {
    if i == |trace| then (Err(NoDivergence), tick) else
    var (r, tick') := step(tick, trace[i], previous);
    match r
    case Err(e) => (Err(e), tick')
    case Ok(Divergence(t, b)) => (Ok((t, b)), tick')
    case Ok(Continue(b)) => ExamineFrom(step, tick', trace, i + 1, b)
  }

  function Examine(hash: HashFn, cl: Client, tick: nat, trace: seq<LightBlock>, target: LightBlock): (Found, nat)
    requires LightClient.HonoursHeights(cl) && LightClient.SensibleVerifier(cl)
    requires |trace| >= 2
  {
    if target.Height() < trace[0].Height() then
      (Err(TargetBlockLowerThanTrusted(target.Height(), trace[0].Height())), tick)
    else
      match CheckTrustedBlock(hash, cl, tick, trace[0], target)
      case Err(e) => (Err(e), tick + 1)
      case Ok(b) => ExamineFrom(StepOf(hash, cl, target), tick + 1, trace, 1, b)
  }

  // ---- What the source verified --------------------------------------------

  /** The ticks from `since` to before `until`. */
  datatype Span = Span(since: nat, until: nat)

  predicate Within(inner: Span, outer: Span) {
    outer.since <= inner.since && inner.until <= outer.until
  }

  /** During the span the source's verifier accepts `u` on the strength of `t`. */
  ghost predicate Accepts(cl: Client, span: Span, u: LightBlock, t: LightBlock) {
    VerifiedAgainst(cl, u, t, span.since, span.until)
  }

  ghost predicate StepVerified(cl: Client, span: Span, t: seq<LightBlock>, i: nat)
    requires i + 1 < |t|
  {
    Accepts(cl, span, t[i + 1], t[i])
  }

  /** `t` leads up to `target`, every block verified directly against the one before, the first against `trusted`. */
  ghost predicate LeadsTo(cl: Client, span: Span, trusted: LightBlock, target: LightBlock, t: seq<LightBlock>) {
    && |t| >= 2 && Ascending(t) && t[|t| - 1] == target
    && trusted.Height() < target.Height()
    && (forall i :: 0 <= i < |t| - 1 ==> StepVerified(cl, span, t, i))
    && (t[0] == trusted || Accepts(cl, span, t[0], trusted))
  }

  lemma LeadsToLonger(cl: Client, inner: Span, outer: Span, trusted: LightBlock, target: LightBlock, t: seq<LightBlock>)
    requires Within(inner, outer) && LeadsTo(cl, inner, trusted, target, t)
    ensures LeadsTo(cl, outer, trusted, target, t)
  {
    forall i | 0 <= i < |t| - 1
      ensures StepVerified(cl, outer, t, i)
    {
      assert StepVerified(cl, inner, t, i);
    }
  }

  lemma AscendingIsSorted(t: seq<LightBlock>)
    requires Ascending(t)
    ensures Sort(ByHeight, t) == t
  {
    SortSorts(ByHeight, t);
    SortPermutes(ByHeight, t);
    SortedArrangementsAgree(ByHeight, t, Sort(ByHeight, t));
  }

  ghost predicate SourceAccepts(cl: Client, tick: nat, trusted: LightBlock, target: LightBlock)
    requires LightClient.HonoursHeights(cl) && LightClient.SensibleVerifier(cl)
  {
    LightClient.VerifyToTarget(cl, SkippingState(tick, trusted, target), target.Height()).0.Ok?
  }

  /** The store of `VerifySkipping`: one believed block, if its height is not the target's. */
  lemma SkippingStore(tick: nat, trusted: LightBlock, target: LightBlock)
    ensures var s := SkippingState(tick, trusted, target).store;
            && WellKeyed(s) && target.Height() in s && s[target.Height()] == StoreEntry(target, Unverified)
            && (forall h: Height :: Believed(s, h) <==> h == trusted.Height() != target.Height())
            && (trusted.Height() != target.Height() ==> s[trusted.Height()].lightBlock == trusted)
  {
  }

  /** In the default build a source can only be made to verify upwards. */
  lemma SkippingGoesUp(cl: Client, tick: nat, trusted: LightBlock, target: LightBlock)
    requires LightClient.HonoursHeights(cl) && LightClient.SensibleVerifier(cl)
    requires trusted.Height() >= target.Height()
    ensures var r := VerifySkipping(cl, tick, trusted, target).0; r.Err? && r.error.SourceFailed?
  {
    SkippingStore(tick, trusted, target);
    var s := SkippingState(tick, trusted, target).store;
    NoneBelievedIff(s, target.Height());
    assert !Believed(s, target.Height());
    LowestIff(s, trusted);
    var low := LowestTrustedOrVerified(s);
    if low.Some? {
      LowestIff(s, low.value);
    }
  }

  lemma WellLinkedLeadsTo(cl: Client, since: nat, st: LightClient.State, trusted: LightBlock, target: LightBlock)
    requires WellLinked(cl, since, st, trusted, target.Height()) && trusted.Height() < target.Height()
    requires GetTrustedOrVerified(st.store, target.Height()) == Some(target)
    ensures var r := NewTrace(TraceOf(st.store, st.trace, target.Height()));
            r.Ok? && LeadsTo(cl, Span(since, st.tick), trusted, target, r.value)
  {
    var blocks := TraceOf(st.store, st.trace, target.Height());
    AscendingIsSorted(blocks);
    forall i | 0 <= i < |blocks| - 1
      ensures StepVerified(cl, Span(since, st.tick), blocks, i)
    {
      assert StepLinked(cl, since, st, blocks, i);
    }
  }

  lemma SkippingSucceeds(cl: Client, tick: nat, trusted: LightBlock, target: LightBlock)
    requires LightClient.HonoursHeights(cl) && LightClient.SensibleVerifier(cl)
    requires trusted.Height() < target.Height() && SourceAccepts(cl, tick, trusted, target)
    ensures var (r, tick') := VerifySkipping(cl, tick, trusted, target);
            r.Ok? && LeadsTo(cl, Span(tick, tick'), trusted, target, r.value)
  {
    var st := SkippingState(tick, trusted, target);
    SkippingStore(tick, trusted, target);
    DeliveredTrace(cl, st, trusted, target);
    WellLinkedLeadsTo(cl, tick, LightClient.VerifyToTarget(cl, st, target.Height()).1, trusted, target);
  }

  /** A successful call to a stored target block gives that block and a trace up to it. */
  lemma DeliveredTrace(cl: Client, st: LightClient.State, trusted: LightBlock, target: LightBlock)
    requires LightClient.HonoursHeights(cl) && LightClient.SensibleVerifier(cl) && WellKeyed(st.store)
    requires trusted.Height() < target.Height()
    requires Believed(st.store, trusted.Height()) && OnlyBelieved(st.store, trusted.Height())
    requires st.store[trusted.Height()].lightBlock == trusted
    requires target.Height() in st.store && st.store[target.Height()] == StoreEntry(target, Unverified)
    requires LightClient.VerifyToTarget(cl, st, target.Height()).0.Ok?
    ensures var st' := LightClient.VerifyToTarget(cl, st, target.Height()).1;
            && WellLinked(cl, st.tick, st', trusted, target.Height())
            && GetTrustedOrVerified(st'.store, target.Height()) == Some(target)
  {
    var h := target.Height();
    OnlyOneMeansForward(cl, st, trusted.Height(), h);
    TraceIsLinked(cl, st, trusted.Height(), h);
    ForwardDeliversStored(cl, st, h, h);
  }

  /**
   The source either fails, or its trace leads from the trusted block to the very
   target block: no trace of a successful verification is too short.
   */
  lemma SkippingLeadsToTarget(cl: Client, tick: nat, trusted: LightBlock, target: LightBlock)
    requires LightClient.HonoursHeights(cl) && LightClient.SensibleVerifier(cl)
    ensures var (r, tick') := VerifySkipping(cl, tick, trusted, target);
            && tick <= tick'
            && if r.Ok? then LeadsTo(cl, Span(tick, tick'), trusted, target, r.value) else r.error.SourceFailed?
  {
    SkippingStore(tick, trusted, target);
    LightClient.CallTicks(cl, SkippingState(tick, trusted, target), target.Height());
    if trusted.Height() >= target.Height() {
      SkippingGoesUp(cl, tick, trusted, target);
    } else if SourceAccepts(cl, tick, trusted, target) {
      SkippingSucceeds(cl, tick, trusted, target);
    }
  }

  // ---- The first bifurcation -----------------------------------------------

  /** The source has shown `b`, during the span, as its block at the height of a trace block. */
  ghost predicate Offered(cl: Client, span: Span, target: LightBlock, height: Height, b: LightBlock) {
    && b.Height() == height
    && if height == target.Height() then b == target
       else exists tick: nat :: span.since <= tick < span.until && cl.fetch(tick, height) == Ok(b)
  }

  ghost predicate Verifiable(cl: Client, span: Span, trusted: LightBlock, b: LightBlock) {
    exists t :: LeadsTo(cl, span, trusted, b, t)
  }

  /** The source shows a block with the hash of the `i`-th trace block, verified from the one before. */
  ghost predicate AgreesAt(
    hash: HashFn, cl: Client, span: Span, trace: seq<LightBlock>, target: LightBlock, agreed: seq<LightBlock>, i: nat)
    requires i < |agreed| <= |trace|
  {
    && Offered(cl, span, target, trace[i].Height(), agreed[i])
    && hash(agreed[i].Header()) == hash(trace[i].Header())
    && (i > 0 ==> Verifiable(cl, span, agreed[i - 1], agreed[i]))
    && (i > 0 && agreed[i].Height() > target.Height() ==> agreed[i - 1].Height() == target.Height())
  }

  lemma AgreesLonger(
    hash: HashFn, cl: Client, inner: Span, outer: Span,
    trace: seq<LightBlock>, target: LightBlock, agreed: seq<LightBlock>, i: nat)
    requires Within(inner, outer) && i < |agreed| <= |trace|
    requires AgreesAt(hash, cl, inner, trace, target, agreed, i)
    ensures AgreesAt(hash, cl, outer, trace, target, agreed, i)
  {
    if i > 0 {
      var t :| LeadsTo(cl, inner, agreed[i - 1], agreed[i], t);
      LeadsToLonger(cl, inner, outer, agreed[i - 1], agreed[i], t);
    }
  }

  /** `agreed` are the source's blocks for the first blocks of the trace, and it agrees on all of them. */
  ghost predicate Agreement(
    hash: HashFn, cl: Client, span: Span, trace: seq<LightBlock>, target: LightBlock, agreed: seq<LightBlock>)
  {
    && 0 < |agreed| <= |trace|
    && forall i :: 0 <= i < |agreed| ==> AgreesAt(hash, cl, span, trace, target, agreed, i)
  }

  lemma AgreementLonger(
    hash: HashFn, cl: Client, inner: Span, outer: Span,
    trace: seq<LightBlock>, target: LightBlock, agreed: seq<LightBlock>)
    requires Within(inner, outer) && Agreement(hash, cl, inner, trace, target, agreed)
    ensures Agreement(hash, cl, outer, trace, target, agreed)
  {
    forall i | 0 <= i < |agreed|
      ensures AgreesAt(hash, cl, outer, trace, target, agreed, i)
    {
      AgreesLonger(hash, cl, inner, outer, trace, target, agreed, i);
    }
  }

  /**
   `block` is the first trace block the source does not agree on: it shows
   another one of that height, or its verified target lies below (the forward
   lunatic case).  `t` is its trace from the last agreed block to the block it
   shows.
   */
  ghost predicate Bifurcation(
    hash: HashFn, cl: Client, span: Span, trace: seq<LightBlock>, target: LightBlock,
    agreed: seq<LightBlock>, t: seq<LightBlock>, block: LightBlock)
  {
    && Agreement(hash, cl, span, trace, target, agreed)
    && |agreed| < |trace| && block == trace[|agreed|]
    && t != []
    && var shown := t[|t| - 1];
       && LeadsTo(cl, span, agreed[|agreed| - 1], shown, t)
       && (|| (Offered(cl, span, target, block.Height(), shown) && hash(shown.Header()) != hash(block.Header()))
           || (shown == target && target.Height() < block.Height() && block.Time() <= target.Time()))
  }

  lemma ExtendAgreement(
    hash: HashFn, cl: Client, span: Span,
    trace: seq<LightBlock>, target: LightBlock, agreed: seq<LightBlock>, b: LightBlock)
    requires Agreement(hash, cl, span, trace, target, agreed) && |agreed| < |trace|
    requires AgreesAt(hash, cl, span, trace, target, agreed + [b], |agreed|)
    ensures Agreement(hash, cl, span, trace, target, agreed + [b])
  {
    var more := agreed + [b];
    forall i | 0 <= i < |more|
      ensures AgreesAt(hash, cl, span, trace, target, more, i)
    {
      if i < |agreed| {
        assert AgreesAt(hash, cl, span, trace, target, agreed, i);
      }
    }
  }

  lemma SourceBlockIsOffered(cl: Client, span: Span, tick: nat, height: Height, target: LightBlock)
    requires LightClient.HonoursHeights(cl) && span.since <= tick < span.until
    ensures var r := SourceBlock(cl, tick, height, target);
            if r.Ok? then Offered(cl, span, target, height, r.value) else r.error.SourceFailed?
  {
  }

  ghost predicate Finds(
    hash: HashFn, cl: Client, span: Span, trace: seq<LightBlock>, target: LightBlock, agreed: seq<LightBlock>,
    r: Result<Examination, DetectorError>)
  {
    match r
    case Ok(Continue(b)) => Agreement(hash, cl, span, trace, target, agreed + [b])
    case Ok(Divergence(t, b)) => Bifurcation(hash, cl, span, trace, target, agreed, t, b)
    case Err(e) => !e.NoDivergence?
  }

  /** What a comparison says of the block that the source shows. */
  ghost predicate Shows(
    hash: HashFn, cl: Client, span: Span, block: LightBlock, target: LightBlock, previous: LightBlock,
    r: Result<Examination, DetectorError>)
  {
    match r
    case Err(e) => e.SourceFailed?
    case Ok(Continue(b)) =>
      && Offered(cl, span, target, block.Height(), b) && Verifiable(cl, span, previous, b)
      && hash(b.Header()) == hash(block.Header())
    case Ok(Divergence(t, b)) =>
      && b == block && t != []
      && var shown := t[|t| - 1];
         && Offered(cl, span, target, block.Height(), shown) && LeadsTo(cl, span, previous, shown, t)
         && hash(shown.Header()) != hash(block.Header())
  }

  lemma SkippingLeadsWithin(cl: Client, since: nat, tick: nat, trusted: LightBlock, target: LightBlock)
    requires LightClient.HonoursHeights(cl) && LightClient.SensibleVerifier(cl) && since <= tick
    ensures var (r, tick') := VerifySkipping(cl, tick, trusted, target);
            && tick <= tick'
            && if r.Ok? then LeadsTo(cl, Span(since, tick'), trusted, target, r.value) else r.error.SourceFailed?
  {
    SkippingLeadsToTarget(cl, tick, trusted, target);
    var (r, tick') := VerifySkipping(cl, tick, trusted, target);
    if r.Ok? {
      LeadsToLonger(cl, Span(tick, tick'), Span(since, tick'), trusted, target, r.value);
    }
  }

  lemma ComparedShows(
    hash: HashFn, cl: Client, span: Span, block: LightBlock, target: LightBlock, previous: LightBlock,
    source: LightBlock, verified: Result<seq<LightBlock>, DetectorError>)
    requires Offered(cl, span, target, block.Height(), source)
    requires if verified.Ok? then LeadsTo(cl, span, previous, source, verified.value) else verified.error.SourceFailed?
    ensures Shows(hash, cl, span, block, target, previous, Compared(hash, block, source, verified))
  {
  }

  /** It is one of its own, and is verified from the previous one. */
  lemma ComparisonShows(
    hash: HashFn, cl: Client, since: nat, tick: nat, block: LightBlock, target: LightBlock, previous: LightBlock)
    requires LightClient.HonoursHeights(cl) && LightClient.SensibleVerifier(cl) && since <= tick
    ensures var (r, tick') := CompareBlock(hash, cl, tick, block, target, previous);
            tick < tick' && Shows(hash, cl, Span(since, tick'), block, target, previous, r)
  {
    var source := SourceBlock(cl, tick, block.Height(), target);
    if source.Ok? {
      var shown := source.value;
      SkippingLeadsWithin(cl, since, tick + 1, previous, shown);
      var (t, tick') := VerifySkipping(cl, tick + 1, previous, shown);
      SourceBlockIsOffered(cl, Span(since, tick'), tick, block.Height(), target);
      ComparedShows(hash, cl, Span(since, tick'), block, target, previous, shown, t);
    }
  }

  /** The comparison at a trace block either ends the walk or takes the agreement one further. */
  lemma ComparisonFinds(
    hash: HashFn, cl: Client, span: Span, trace: seq<LightBlock>, target: LightBlock, agreed: seq<LightBlock>)
    requires LightClient.HonoursHeights(cl) && LightClient.SensibleVerifier(cl) && span.since <= span.until
    requires Agreement(hash, cl, span, trace, target, agreed) && |agreed| < |trace|
    requires trace[|agreed|].Height() > target.Height() ==> agreed[|agreed| - 1].Height() == target.Height()
    ensures var (r, tick') := CompareBlock(hash, cl, span.until, trace[|agreed|], target, agreed[|agreed| - 1]);
            span.until <= tick' && Finds(hash, cl, Span(span.since, tick'), trace, target, agreed, r)
  {
    var block, previous := trace[|agreed|], agreed[|agreed| - 1];
    ComparisonShows(hash, cl, span.since, span.until, block, target, previous);
    var (r, tick') := CompareBlock(hash, cl, span.until, block, target, previous);
    var longer := Span(span.since, tick');
    AgreementLonger(hash, cl, span, longer, trace, target, agreed);
    if r.Ok? && r.value.Continue? {
      ExtendAgreement(hash, cl, longer, trace, target, agreed, r.value.block);
    }
  }

  lemma StepFinds(
    hash: HashFn, cl: Client, span: Span, trace: seq<LightBlock>, target: LightBlock, agreed: seq<LightBlock>)
    requires LightClient.HonoursHeights(cl) && LightClient.SensibleVerifier(cl) && span.since <= span.until
    requires Agreement(hash, cl, span, trace, target, agreed) && |agreed| < |trace|
    ensures var (r, tick') := ExamineBlock(hash, cl, span.until, trace[|agreed|], target, agreed[|agreed| - 1]);
            span.until <= tick' && Finds(hash, cl, Span(span.since, tick'), trace, target, agreed, r)
  {
    var block, previous := trace[|agreed|], agreed[|agreed| - 1];
    if block.Height() <= target.Height() || previous.Height() == target.Height() {
      ComparisonFinds(hash, cl, span, trace, target, agreed);
    } else if block.Time() <= target.Time() {
      SkippingLeadsWithin(cl, span.since, span.until, previous, target);
      var (t, tick') := VerifySkipping(cl, span.until, previous, target);
      AgreementLonger(hash, cl, span, Span(span.since, tick'), trace, target, agreed);
    }
  }

  // ---- Walks in general ----------------------------------------------------

  /** A property of the blocks agreed on up to a tick, and one of a divergence after them. */
  type Agreed = (nat, seq<LightBlock>) -> bool
  type Diverged = (nat, seq<LightBlock>, seq<LightBlock>, LightBlock) -> bool

  /** After blocks that were agreed on, a step agrees on one more or diverges. */
  ghost predicate StepsOn(
    step: Step, trace: seq<LightBlock>, agree: Agreed, diverge: Diverged, tick: nat, agreed: seq<LightBlock>)
  {
    agree(tick, agreed) && 0 < |agreed| < |trace| ==>
      var (r, tick') := step(tick, trace[|agreed|], agreed[|agreed| - 1]);
      match r
      case Ok(Continue(b)) => agree(tick', agreed + [b])
      case Ok(Divergence(t, b)) => diverge(tick', agreed, t, b)
      case Err(e) => !e.NoDivergence?
  }

  ghost predicate AlwaysStepsOn(step: Step, trace: seq<LightBlock>, agree: Agreed, diverge: Diverged) {
    forall tick, agreed {:trigger StepsOn(step, trace, agree, diverge, tick, agreed)} ::
      StepsOn(step, trace, agree, diverge, tick, agreed)
  }

  /** What the outcome of a walk says. */
  ghost predicate Explains(
    trace: seq<LightBlock>, agree: Agreed, diverge: Diverged, agreed: seq<LightBlock>, r: (Found, nat))
  {
    match r.0
    case Ok((t, b)) => diverge(r.1, agreed, t, b)
    case Err(e) => e.NoDivergence? ==> agree(r.1, agreed) && |agreed| == |trace|
  }

  lemma {:induction false} WalkFinds(
    step: Step, tick: nat, trace: seq<LightBlock>, agree: Agreed, diverge: Diverged, agreed: seq<LightBlock>)
    returns (found: seq<LightBlock>)
    requires AlwaysStepsOn(step, trace, agree, diverge)
    requires agree(tick, agreed) && 0 < |agreed| <= |trace|
    ensures Explains(trace, agree, diverge, found, ExamineFrom(step, tick, trace, |agreed|, agreed[|agreed| - 1]))
    decreases |trace| - |agreed|
  {
    found := agreed;
    if |agreed| < |trace| {
      assert StepsOn(step, trace, agree, diverge, tick, agreed);
      var (r, tick') := step(tick, trace[|agreed|], agreed[|agreed| - 1]);
      if r.Ok? && r.value.Continue? {
        found := WalkFinds(step, tick', trace, agree, diverge, agreed + [r.value.block]);
      }
    }
  }

  ghost function AgreementOn(hash: HashFn, cl: Client, since: nat, trace: seq<LightBlock>, target: LightBlock): Agreed {
    (tick: nat, agreed: seq<LightBlock>) =>
      since <= tick && Agreement(hash, cl, Span(since, tick), trace, target, agreed)
  }

  ghost function BifurcationOf(hash: HashFn, cl: Client, since: nat, trace: seq<LightBlock>, target: LightBlock)
    : Diverged
  {
    (tick: nat, agreed: seq<LightBlock>, t: seq<LightBlock>, b: LightBlock) =>
      Bifurcation(hash, cl, Span(since, tick), trace, target, agreed, t, b)
  }

  lemma SourceStepsOn(
    hash: HashFn, cl: Client, since: nat, trace: seq<LightBlock>, target: LightBlock, tick: nat,
    agreed: seq<LightBlock>)
    requires LightClient.HonoursHeights(cl) && LightClient.SensibleVerifier(cl)
    ensures StepsOn(StepOf(hash, cl, target), trace, AgreementOn(hash, cl, since, trace, target),
                    BifurcationOf(hash, cl, since, trace, target), tick, agreed)
  {
    if since <= tick && Agreement(hash, cl, Span(since, tick), trace, target, agreed) && |agreed| < |trace| {
      StepFinds(hash, cl, Span(since, tick), trace, target, agreed);
    }
  }

  lemma SourceAlwaysStepsOn(hash: HashFn, cl: Client, since: nat, trace: seq<LightBlock>, target: LightBlock)
    requires LightClient.HonoursHeights(cl) && LightClient.SensibleVerifier(cl)
    ensures AlwaysStepsOn(StepOf(hash, cl, target), trace, AgreementOn(hash, cl, since, trace, target),
                          BifurcationOf(hash, cl, since, trace, target))
  {
    forall tick: nat, agreed: seq<LightBlock>
      ensures StepsOn(StepOf(hash, cl, target), trace, AgreementOn(hash, cl, since, trace, target),
                      BifurcationOf(hash, cl, since, trace, target), tick, agreed)
    {
      SourceStepsOn(hash, cl, since, trace, target, tick, agreed);
    }
  }

  lemma FirstBlockAgrees(hash: HashFn, cl: Client, tick: nat, trace: seq<LightBlock>, target: LightBlock)
    requires LightClient.HonoursHeights(cl) && |trace| >= 2
    requires CheckTrustedBlock(hash, cl, tick, trace[0], target).Ok?
    ensures AgreementOn(hash, cl, tick, trace, target)(
              tick + 1, [CheckTrustedBlock(hash, cl, tick, trace[0], target).value])
  {
    SourceBlockIsOffered(cl, Span(tick, tick + 1), tick, trace[0].Height(), target);
  }

  lemma ExaminationExplained(hash: HashFn, cl: Client, tick: nat, trace: seq<LightBlock>, target: LightBlock)
    returns (agreed: seq<LightBlock>)
    requires LightClient.HonoursHeights(cl) && LightClient.SensibleVerifier(cl)
    requires |trace| >= 2
    ensures Explains(trace, AgreementOn(hash, cl, tick, trace, target), BifurcationOf(hash, cl, tick, trace, target),
                     agreed, Examine(hash, cl, tick, trace, target))
  {
    agreed := [];
    var first := CheckTrustedBlock(hash, cl, tick, trace[0], target);
    if trace[0].Height() <= target.Height() && first.Ok? {
      FirstBlockAgrees(hash, cl, tick, trace, target);
      SourceAlwaysStepsOn(hash, cl, tick, trace, target);
      agreed := WalkFinds(StepOf(hash, cl, target), tick + 1, trace, AgreementOn(hash, cl, tick, trace, target),
                          BifurcationOf(hash, cl, tick, trace, target), [first.value]);
    }
  }

  /**
   A result names the first trace block the source does not agree on, with the
   source's own verified trace up to there; if no divergence is reported, the
   source agrees on the whole trace.  What the source has shown and accepted, it
   has during the examination.
   */
  lemma FirstBifurcation(hash: HashFn, cl: Client, tick: nat, trace: seq<LightBlock>, target: LightBlock)
    returns (agreed: seq<LightBlock>)
    requires LightClient.HonoursHeights(cl) && LightClient.SensibleVerifier(cl)
    requires |trace| >= 2
    ensures var (r, tick') := Examine(hash, cl, tick, trace, target);
            var span := Span(tick, tick');
            && (r.Ok? ==> Bifurcation(hash, cl, span, trace, target, agreed, r.value.0, r.value.1))
            && (r == Err(NoDivergence) ==> Agreement(hash, cl, span, trace, target, agreed) && |agreed| == |trace|)
  {
    agreed := ExaminationExplained(hash, cl, tick, trace, target);
    var (r, tick') := Examine(hash, cl, tick, trace, target);
    if r.Ok? {
      assert BifurcationOf(hash, cl, tick, trace, target)(tick', agreed, r.value.0, r.value.1);
    } else if r.error.NoDivergence? {
      assert AgreementOn(hash, cl, tick, trace, target)(tick', agreed);
    }
  }

  /**
   No divergence is only reported outside the contract: the trace ends below the
   target, or one of its blocks has the target's height and hash.
   */
  lemma NoDivergenceMeansNoConflict(
    hash: HashFn, cl: Client, tick: nat, trace: seq<LightBlock>, target: LightBlock)
    requires LightClient.HonoursHeights(cl) && LightClient.SensibleVerifier(cl)
    requires |trace| >= 2 && trace[|trace| - 1].Height() >= target.Height()
    requires Examine(hash, cl, tick, trace, target).0 == Err(NoDivergence)
    ensures exists i :: 0 <= i < |trace| && trace[i].Height() == target.Height()
                        && hash(trace[i].Header()) == hash(target.Header())
  {
    var agreed := FirstBifurcation(hash, cl, tick, trace, target);
    var span := Span(tick, Examine(hash, cl, tick, trace, target).1);
    var last := |trace| - 1;
    var i := if trace[last].Height() == target.Height() then last else last - 1;
    assert AgreesAt(hash, cl, span, trace, target, agreed, last);
    assert AgreesAt(hash, cl, span, trace, target, agreed, i);
    assert agreed[i] == target;
  }

  /** A trace that ends in a conflicting block at the target's height never ends in no divergence. */
  lemma ConflictIsFound(hash: HashFn, cl: Client, tick: nat, trace: seq<LightBlock>, target: LightBlock)
    requires LightClient.HonoursHeights(cl) && LightClient.SensibleVerifier(cl)
    requires |trace| >= 2
    requires trace[|trace| - 1].Height() == target.Height()
    requires hash(trace[|trace| - 1].Header()) != hash(target.Header())
    ensures Examine(hash, cl, tick, trace, target).0 != Err(NoDivergence)
  {
    var agreed := FirstBifurcation(hash, cl, tick, trace, target);
    var span := Span(tick, Examine(hash, cl, tick, trace, target).1);
    assert |agreed| == |trace| > 0 ==> !Agreement(hash, cl, span, trace, target, agreed) by {
      LastBlockConflicts(hash, cl, span, trace, target, agreed);
    }
  }

  lemma LastBlockConflicts(
    hash: HashFn, cl: Client, span: Span, trace: seq<LightBlock>, target: LightBlock, agreed: seq<LightBlock>)
    requires |trace| > 0 && trace[|trace| - 1].Height() == target.Height()
    requires hash(trace[|trace| - 1].Header()) != hash(target.Header())
    ensures |agreed| == |trace| ==> !Agreement(hash, cl, span, trace, target, agreed)
  {
    assert |agreed| == |trace| ==> !AgreesAt(hash, cl, span, trace, target, agreed, |trace| - 1);
  }
}
