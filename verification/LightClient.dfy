/**
 The forward verification of light-client/src/light_client.rs on values: one
 round of the loop, the loop, and calls in sequence.  `LightClientImpl.dfy` has
 the loop as the source runs it, on a store that changes in place.

 The primary peer and the clock are functions of a tick that moves on with
 every round, so any behaviour of either over time is covered.
 */
module LightClient {
  import opened Common
  import opened Types
  import opened Blocks
  import opened LightStores
  import opened Scheduler

  datatype IoError = IoError(code: nat)

  datatype ClientError =
    | Io(io: IoError)
    | NoInitialTrustedState
    | TargetLowerThanTrustedState(target: Height, trusted: Height)
    | TrustedStateOutsideTrustingPeriod(block: LightBlock, options: Options)
    | InvalidLightBlock(error: VerificationError)
    | InvalidAdjacentHeaders(hash1: Hash, hash2: Hash)
    | MissingLastBlockId(height: Height)

  type Outcome = Result<LightBlock, ClientError>

  /** Options and components: `verify` takes the untrusted block before the trusted one. */
  datatype Client = Client(
    options: Options,
    verify: (LightBlock, LightBlock, Options, Time) -> Verdict,
    fetch: (nat, Height) -> Result<LightBlock, IoError>,
    clock: nat -> Time)

  /** A fetched block has the height that was asked for; the source relies on this. */
  ghost predicate HonoursHeights(cl: Client) {
    forall tick, h :: cl.fetch(tick, h).Ok? ==> cl.fetch(tick, h).value.Height() == h
  }

  /** Accepted blocks are higher than the trusted one; trust is only lacking across a gap. */
  ghost predicate SensibleVerifier(cl: Client) {
    forall u: LightBlock, t: LightBlock, o, now :: t.Height() < I64_MAX ==>
      && (cl.verify(u, t, o, now).Success? ==> u.Height() > t.Height())
      && (cl.verify(u, t, o, now).NotEnoughTrust? ==> u.Height() > t.Height() + 1)
  }

  type VerificationTrace = map<Height, set<Height>>

  /** Records that `height` was needed for `target`, which is always in its own trace. */
  function TraceBlock(trace: VerificationTrace, target: Height, height: Height): VerificationTrace {
    trace[target := (if target in trace then trace[target] else {target}) + {height}]
  }

  /** The light client's state. */
  datatype State = State(store: StoreMap, trace: VerificationTrace, tick: nat)

  predicate WithinTrustPeriod(b: LightBlock, period: Duration, now: Time) {
    match SubDuration(now, period)
    case None => false
    case Some(start) => b.Time() > start
  }

  /** The block is not older than the period, and the period does not reach back beyond all time. */
  lemma WithinTrustPeriodIff(b: LightBlock, period: Duration, now: Time)
    ensures WithinTrustPeriod(b, period, now) <==> period <= now < b.Time() + period
  {
  }

  // ---- One round -----------------------------------------------------------

  /** What a round asks the store: the highest trusted block, and the block at the current height. */
  datatype Answers = Answers(trusted: Option<LightBlock>, current: Option<(LightBlock, Status)>)

  /**
   What a round does: a fetched block inserted as Unverified, a block given a
   new status, whether the current height is traced for the target, the height
   traced for the current one, and the result if the round is the last.
   */
  datatype Decision = Decision(
    inserted: Option<LightBlock>,
    updated: Option<(LightBlock, Status)>,
    traced: bool,
    link: Option<Height>,
    finished: Option<Outcome>)

  function Stop(outcome: Outcome, traced: bool): Decision {
    Decision(None, None, traced, None, Some(outcome))
  }

  function Decide(cl: Client, tick: nat, answers: Answers, current: Height, target: Height): Decision {
    if answers.trusted.None? then Stop(Err(NoInitialTrustedState), false) else
    var now := cl.clock(tick);
    var trusted := answers.trusted.value;
    if target < trusted.Height() then
      Stop(Err(TargetLowerThanTrustedState(target, trusted.Height())), false)
    else if !WithinTrustPeriod(trusted, cl.options.trustingPeriod, now) then
      Stop(Err(TrustedStateOutsideTrustingPeriod(trusted, cl.options)), false)
    else if target == trusted.Height() then
      Stop(Ok(trusted), true)
    else
      JudgeCurrent(cl, tick, answers.current, trusted, now, current)
  }

  /** Judge the stored block, or else fetch one, store it and judge that. */
  function JudgeCurrent(
    cl: Client, tick: nat, stored: Option<(LightBlock, Status)>, trusted: LightBlock, now: Time, current: Height)
    : Decision
  {
    if stored.Some? then
      Judge(cl, None, stored.value.0, stored.value.1, trusted, now)
    else
      match cl.fetch(tick, current)
      case Err(e) => Stop(Err(Io(e)), true)
      case Ok(block) => Judge(cl, Some(block), block, Unverified, trusted, now)
  }

  /** Verify the current block and record the verdict. */
  function Judge(
    cl: Client, inserted: Option<LightBlock>, block: LightBlock, status: Status, trusted: LightBlock, now: Time)
    : Decision
  {
    match cl.verify(block, trusted, cl.options, now)
    case Success =>
      Decision(inserted, Some((block, MostTrusted(Verified, status))), true, Some(trusted.Height()), None)
    case Invalid(e) =>
      Decision(inserted, Some((block, Failed)), true, None, Some(Err(InvalidLightBlock(e))))
    case NotEnoughTrust(_) =>
      Decision(inserted, Some((block, Unverified)), true, None, None)
  }

  function ApplyTo(s: StoreMap, d: Decision): StoreMap {
    var s1 := if d.inserted.Some? then Insert(s, d.inserted.value, Unverified) else s;
    if d.updated.Some? then Insert(s1, d.updated.value.0, d.updated.value.1) else s1
  }

  function TraceLink(trace: VerificationTrace, d: Decision, current: Height): VerificationTrace {
    if d.link.Some? then TraceBlock(trace, current, d.link.value) else trace
  }

  function TraceIn(trace: VerificationTrace, d: Decision, current: Height, target: Height): VerificationTrace {
    TraceLink(if d.traced then TraceBlock(trace, target, current) else trace, d, current)
  }

  function AnswersFrom(s: StoreMap, current: Height, target: Height): Answers {
    Answers(HighestTrustedOrVerifiedBefore(s, target), GetNonFailed(s, current))
  }

  function DecisionIn(cl: Client, st: State, current: Height, target: Height): Decision {
    Decide(cl, st.tick, AnswersFrom(st.store, current, target), current, target)
  }

  /** The state after one round. */
  function After(cl: Client, st: State, current: Height, target: Height): State {
    var d := DecisionIn(cl, st, current, target);
    State(ApplyTo(st.store, d), TraceIn(st.trace, d, current, target), st.tick + 1)
  }

  /** The next height, if the round was not the last. */
  function NextHeight(s: StoreMap, current: Height, target: Height): Height
    requires HighestTrustedOrVerifiedBefore(s, target).Some?
    requires HighestTrustedOrVerifiedBefore(s, target).value.Height() <= current
  {
    Schedule(HighestTrustedOrVerifiedBefore(s, target).value.Height(), current, target)
  }

  // ---- A round makes progress ----------------------------------------------

  /** Between rounds the current height is above the trusted one and up to the target. */
  ghost predicate Ready(s: StoreMap, current: Height, target: Height) {
    && WellKeyed(s)
    && current <= target
    && var t := HighestTrustedOrVerifiedBefore(s, target);
       t.Some? ==> t.value.Height() < current || t.value.Height() == current == target
  }

  ghost function TrustedHeight(s: StoreMap, target: Height): Height {
    var t := HighestTrustedOrVerifiedBefore(s, target);
    if t.Some? then t.value.Height() else 0
  }

  /** The block the round looks at: the stored one that has not failed, or else the fetched one. */
  ghost predicate IsCurrent(cl: Client, st: State, current: Height, block: LightBlock, status: Status) {
    if current in st.store && !st.store[current].status.Failed?
    then st.store[current] == StoreEntry(block, status)
    else cl.fetch(st.tick, current) == Ok(block) && status == Unverified
  }

  /** Which blocks a decision can be about, whatever the store answered. */
  lemma DecideShape(cl: Client, tick: nat, answers: Answers, current: Height, target: Height)
    ensures var d := Decide(cl, tick, answers, current, target);
            if d.updated.None? then d.inserted.None? && d.finished.Some?
            else if answers.current.Some? then d.inserted.None? && d.updated.value.0 == answers.current.value.0
            else d.inserted == Some(d.updated.value.0) && cl.fetch(tick, current) == Ok(d.updated.value.0)
    ensures var d := Decide(cl, tick, answers, current, target);
            d.finished.Some? && d.finished.value.Ok? ==>
              d.updated.None? && answers.trusted == Some(d.finished.value.value)
              && d.finished.value.value.Height() == target
  {
  }

  lemma ApplyWrites(s: StoreMap, d: Decision, current: Height)
    requires WellKeyed(s)
    requires d.updated.Some? && d.updated.value.0.Height() == current
    requires d.inserted.Some? ==> d.inserted.value == d.updated.value.0
    ensures ApplyTo(s, d) == s[current := StoreEntry(d.updated.value.0, d.updated.value.1)]
    ensures WellKeyed(ApplyTo(s, d))
  {
  }

  /** A round files at most one block, the one it looks at, under the current height. */
  lemma RoundWrites(cl: Client, st: State, current: Height, target: Height)
    requires HonoursHeights(cl) && WellKeyed(st.store)
    ensures var d := DecisionIn(cl, st, current, target);
            && (d.updated.None? ==> ApplyTo(st.store, d) == st.store && d.finished.Some?)
            && (d.updated.Some? ==>
                  var (block, status) := d.updated.value;
                  && block.Height() == current
                  && ApplyTo(st.store, d) == st.store[current := StoreEntry(block, status)])
            && WellKeyed(ApplyTo(st.store, d))
  {
    GetNonFailedIff(st.store, current);
    DecideShape(cl, st.tick, AnswersFrom(st.store, current, target), current, target);
    var d := DecisionIn(cl, st, current, target);
    if d.updated.Some? {
      assert d.updated.value.0.Height() == current;
      ApplyWrites(st.store, d, current);
    }
  }

  /** What a decision to update a block says about the verdict. */
  ghost predicate FollowsVerdict(d: Decision, verdict: Verdict, trusted: LightBlock, before: Status) {
    d.updated.Some? &&
    match verdict
    case Success =>
      d.updated.value.1 == MostTrusted(Verified, before) && d.finished.None? && d.link == Some(trusted.Height())
    case NotEnoughTrust(_) =>
      d.updated.value.1 == Unverified && d.finished.None? && d.link.None?
    case Invalid(_) =>
      d.updated.value.1 == Failed && d.finished.Some? && d.finished.value.Err? && d.link.None?
  }

  lemma DecideVerdict(cl: Client, tick: nat, answers: Answers, current: Height, target: Height)
    requires Decide(cl, tick, answers, current, target).updated.Some?
    ensures answers.trusted.Some? && answers.trusted.value.Height() < target
    ensures WithinTrustPeriod(answers.trusted.value, cl.options.trustingPeriod, cl.clock(tick))
    ensures var d := Decide(cl, tick, answers, current, target);
            && d.traced
            && FollowsVerdict(d, cl.verify(d.updated.value.0, answers.trusted.value, cl.options, cl.clock(tick)),
                              answers.trusted.value,
                              if answers.current.Some? then answers.current.value.1 else Unverified)
  {
  }

  /** The status the block the round looks at had before. */
  ghost function StatusBefore(s: StoreMap, current: Height): Status {
    if current in s && !s[current].status.Failed? then s[current].status else Unverified
  }

  /** What a round that updates a block has found out about it. */
  lemma RoundVerdict(cl: Client, st: State, current: Height, target: Height)
    requires DecisionIn(cl, st, current, target).updated.Some?
    ensures var d := DecisionIn(cl, st, current, target);
            var t := HighestTrustedOrVerifiedBefore(st.store, target);
            var before := StatusBefore(st.store, current);
            && t.Some? && t.value.Height() < target && d.traced
            && WithinTrustPeriod(t.value, cl.options.trustingPeriod, cl.clock(st.tick))
            && IsCurrent(cl, st, current, d.updated.value.0, before)
            && FollowsVerdict(d, cl.verify(d.updated.value.0, t.value, cl.options, cl.clock(st.tick)), t.value, before)
  {
    GetNonFailedIff(st.store, current);
    var answers := AnswersFrom(st.store, current, target);
    DecideShape(cl, st.tick, answers, current, target);
    DecideVerdict(cl, st.tick, answers, current, target);
  }

  /** A block at the current height that is filed as trusted or verified becomes the highest such. */
  lemma AcceptedBecomesHighest(s: StoreMap, current: Height, target: Height, block: LightBlock, status: Status)
    requires Ready(s, current, target) && block.Height() == current
    requires status.Verified? || status.Trusted?
    ensures HighestTrustedOrVerifiedBefore(s[current := StoreEntry(block, status)], target) == Some(block)
  {
    var s' := s[current := StoreEntry(block, status)];
    var t := HighestTrustedOrVerifiedBefore(s, target);
    if t.Some? {
      HighestBeforeIff(s, target, t.value);
    } else {
      NoneBelievedIff(s, target);
    }
    assert forall x: Height :: Believed(s', x) ==> x == current || Believed(s, x);
    assert HighestBelieved(s', target, current);
    HighestBeforeIff(s', target, block);
  }

  /** Filing a block above the highest trusted one without trusting it leaves that one the highest. */
  lemma RejectedLeavesHighest(s: StoreMap, current: Height, target: Height, block: LightBlock, status: Status)
    requires WellKeyed(s) && block.Height() == current
    requires var t := HighestTrustedOrVerifiedBefore(s, target); t.Some? && t.value.Height() < current <= target
    requires status.Unverified? || status.Failed?
    ensures HighestTrustedOrVerifiedBefore(s[current := StoreEntry(block, status)], target)
         == HighestTrustedOrVerifiedBefore(s, target)
  {
    var s' := s[current := StoreEntry(block, status)];
    var t := HighestTrustedOrVerifiedBefore(s, target).value;
    HighestBeforeIff(s, target, t);
    assert forall x: Height :: x <= target && Believed(s', x) ==> Believed(s, x);
    assert HighestBelieved(s', target, t.Height());
    HighestBeforeIff(s', target, t);
  }

  /** A round that is not the last: accepted and highest from now on, or rejected across a gap. */
  lemma RoundProgress(cl: Client, st: State, current: Height, target: Height)
    requires HonoursHeights(cl) && SensibleVerifier(cl) && Ready(st.store, current, target)
    requires DecisionIn(cl, st, current, target).finished.None?
    ensures var before := HighestTrustedOrVerifiedBefore(st.store, target);
            var after := HighestTrustedOrVerifiedBefore(After(cl, st, current, target).store, target);
            && before.Some? && after.Some? && before.value.Height() < current <= target
            && (after.value.Height() == current
                || (after == before && before.value.Height() + 1 < current))
  {
    RoundWrites(cl, st, current, target);
    RoundVerdict(cl, st, current, target);
    var (block, status) := DecisionIn(cl, st, current, target).updated.value;
    if status.Unverified? {
      RejectedLeavesHighest(st.store, current, target, block, status);
    } else {
      AcceptedBecomesHighest(st.store, current, target, block, status);
    }
  }

  /** Every schedule that is asked for in a run meets the scheduler's contract and keeps the client ready. */
  lemma RoundSchedulesValidly(cl: Client, st: State, current: Height, target: Height)
    requires HonoursHeights(cl) && SensibleVerifier(cl) && Ready(st.store, current, target)
    requires DecisionIn(cl, st, current, target).finished.None?
    ensures var s' := After(cl, st, current, target).store;
            && HighestTrustedOrVerifiedBefore(s', target).Some?
            && TrustedHeight(s', target) <= current
            && ValidSchedule(NextHeight(s', current, target), target, current, TrustedHeight(s', target))
            && Ready(s', NextHeight(s', current, target), target)
  {
    RoundProgress(cl, st, current, target);
    RoundWrites(cl, st, current, target);
    var s' := After(cl, st, current, target).store;
    ScheduleIsValidIff(TrustedHeight(s', target), current, target);
  }

  // ---- The loop ------------------------------------------------------------

  /**
   Forward verification.  It ends for every peer that honours heights, every
   clock and every sensible verifier: each round either raises the trusted
   height or keeps it and lowers the current one.
   */
  function Forward(cl: Client, st: State, current: Height, target: Height): (r: (Outcome, State))
    requires HonoursHeights(cl) && SensibleVerifier(cl) && Ready(st.store, current, target)
    decreases target - TrustedHeight(st.store, target), current - TrustedHeight(st.store, target)
  {
    var d := DecisionIn(cl, st, current, target);
    var st' := After(cl, st, current, target);
    if d.finished.Some? then (d.finished.value, st')
    else
      RoundProgress(cl, st, current, target);
      RoundSchedulesValidly(cl, st, current, target);
      Forward(cl, st', NextHeight(st'.store, current, target), target)
  }

  lemma TargetIsReady(s: StoreMap, target: Height)
    requires WellKeyed(s)
    ensures Ready(s, target, target)
  {
    var t := HighestTrustedOrVerifiedBefore(s, target);
    if t.Some? {
      HighestBeforeIff(s, target, t.value);
    }
  }

  /** The client's main call, with backward verification switched off (the default build). */
  function VerifyToTarget(cl: Client, st: State, target: Height): (Outcome, State)
    requires HonoursHeights(cl) && SensibleVerifier(cl) && WellKeyed(st.store)
  {
    var known := GetTrustedOrVerified(st.store, target);
    if known.Some? then (Ok(known.value), st) else
    var before := HighestTrustedOrVerifiedBefore(st.store, target);
    var highest := if before.Some? then before else LowestTrustedOrVerified(st.store);
    if highest.None? then (Err(NoInitialTrustedState), st)
    else if target >= highest.value.Height() then
      TargetIsReady(st.store, target);
      Forward(cl, st, target, target)
    else
      (Err(TargetLowerThanTrustedState(target, highest.value.Height())), st)
  }

  /** Time goes on with every round. */
  lemma {:induction false} ForwardTicks(cl: Client, st: State, current: Height, target: Height)
    requires HonoursHeights(cl) && SensibleVerifier(cl) && Ready(st.store, current, target)
    ensures st.tick < Forward(cl, st, current, target).1.tick
    decreases target - TrustedHeight(st.store, target), current - TrustedHeight(st.store, target)
  {
    if DecisionIn(cl, st, current, target).finished.None? {
      RoundProgress(cl, st, current, target);
      RoundSchedulesValidly(cl, st, current, target);
      var st' := After(cl, st, current, target);
      ForwardTicks(cl, st', NextHeight(st'.store, current, target), target);
    }
  }

  lemma CallTicks(cl: Client, st: State, target: Height)
    requires HonoursHeights(cl) && SensibleVerifier(cl) && WellKeyed(st.store)
    ensures st.tick <= VerifyToTarget(cl, st, target).1.tick
  {
    TargetIsReady(st.store, target);
    ForwardTicks(cl, st, target, target);
  }

  // ---- What every round keeps, every run keeps -----------------------------

  /** No round of any call leaves `inv`. */
  ghost predicate Inductive(cl: Client, inv: State -> bool) {
    forall st, current, target {:trigger After(cl, st, current, target)} ::
      inv(st) && Ready(st.store, current, target) ==> inv(After(cl, st, current, target))
  }

  lemma {:induction false} ForwardPreserves(
    cl: Client, inv: State -> bool, st: State, current: Height, target: Height)
    requires HonoursHeights(cl) && SensibleVerifier(cl) && Ready(st.store, current, target)
    requires Inductive(cl, inv) && inv(st)
    ensures inv(Forward(cl, st, current, target).1)
    decreases target - TrustedHeight(st.store, target), current - TrustedHeight(st.store, target)
  {
    var st' := After(cl, st, current, target);
    if DecisionIn(cl, st, current, target).finished.None? {
      RoundProgress(cl, st, current, target);
      RoundSchedulesValidly(cl, st, current, target);
      ForwardPreserves(cl, inv, st', NextHeight(st'.store, current, target), target);
    }
  }

  lemma CallPreserves(cl: Client, inv: State -> bool, st: State, target: Height)
    requires HonoursHeights(cl) && SensibleVerifier(cl) && WellKeyed(st.store)
    requires Inductive(cl, inv) && inv(st)
    ensures inv(VerifyToTarget(cl, st, target).1)
  {
    TargetIsReady(st.store, target);
    ForwardPreserves(cl, inv, st, target, target);
  }

  lemma VerifyToTargetKeepsKeys(cl: Client, st: State, target: Height)
    requires HonoursHeights(cl) && SensibleVerifier(cl) && WellKeyed(st.store)
    ensures WellKeyed(VerifyToTarget(cl, st, target).1.store)
  {
    var keyed := (st: State) => WellKeyed(st.store);
    forall st, current, target | keyed(st) && Ready(st.store, current, target)
      ensures keyed(After(cl, st, current, target))
    {
      RoundWrites(cl, st, current, target);
    }
    CallPreserves(cl, keyed, st, target);
  }

  /** Any number of calls, one after the other. */
  function Run(cl: Client, st: State, targets: seq<Height>): (st': State)
    requires HonoursHeights(cl) && SensibleVerifier(cl) && WellKeyed(st.store)
    ensures WellKeyed(st'.store)
    decreases |targets|
  {
    if targets == [] then st
    else
      VerifyToTargetKeepsKeys(cl, st, targets[0]);
      Run(cl, VerifyToTarget(cl, st, targets[0]).1, targets[1..])
  }

  lemma {:induction false} RunPreserves(cl: Client, inv: State -> bool, st: State, targets: seq<Height>)
    requires HonoursHeights(cl) && SensibleVerifier(cl) && WellKeyed(st.store)
    requires Inductive(cl, inv) && inv(st)
    ensures inv(Run(cl, st, targets))
    decreases |targets|
  {
    if targets != [] {
      CallPreserves(cl, inv, st, targets[0]);
      VerifyToTargetKeepsKeys(cl, st, targets[0]);
      RunPreserves(cl, inv, VerifyToTarget(cl, st, targets[0]).1, targets[1..]);
    }
  }

  // ---- Every round of a run ------------------------------------------------

  /** A round about to be made: the state, the current height and the target of the call. */
  datatype Moment = Moment(state: State, current: Height, target: Height)

  /** The rounds of forward verification, in order. */
  ghost function ForwardRounds(cl: Client, st: State, current: Height, target: Height): (ms: seq<Moment>)
    requires HonoursHeights(cl) && SensibleVerifier(cl) && Ready(st.store, current, target)
    ensures ms != [] && ms[0] == Moment(st, current, target)
    decreases target - TrustedHeight(st.store, target), current - TrustedHeight(st.store, target)
  {
    var st' := After(cl, st, current, target);
    [Moment(st, current, target)] +
    if DecisionIn(cl, st, current, target).finished.Some? then []
    else
      RoundProgress(cl, st, current, target);
      RoundSchedulesValidly(cl, st, current, target);
      ForwardRounds(cl, st', NextHeight(st'.store, current, target), target)
  }

  /** The rounds of one call: none if it ends without the loop. */
  ghost function CallRounds(cl: Client, st: State, target: Height): seq<Moment>
    requires HonoursHeights(cl) && SensibleVerifier(cl) && WellKeyed(st.store)
  {
    var before := HighestTrustedOrVerifiedBefore(st.store, target);
    if GetTrustedOrVerified(st.store, target).Some? || before.None? then []
    else
      TargetIsReady(st.store, target);
      ForwardRounds(cl, st, target, target)
  }

  /** The rounds of calls in sequence. */
  ghost function RunRounds(cl: Client, st: State, targets: seq<Height>): seq<Moment>
    requires HonoursHeights(cl) && SensibleVerifier(cl) && WellKeyed(st.store)
    decreases |targets|
  {
    if targets == [] then []
    else
      VerifyToTargetKeepsKeys(cl, st, targets[0]);
      CallRounds(cl, st, targets[0]) + RunRounds(cl, VerifyToTarget(cl, st, targets[0]).1, targets[1..])
  }

  ghost predicate AtEveryRound(inv: State -> bool, moments: seq<Moment>) {
    forall i :: 0 <= i < |moments| ==>
      inv(moments[i].state) && Ready(moments[i].state.store, moments[i].current, moments[i].target)
  }

  ghost function StateAfter(cl: Client, m: Moment): State {
    After(cl, m.state, m.current, m.target)
  }

  /** Each round starts from the state that the one before leaves. */
  ghost predicate Following(cl: Client, moments: seq<Moment>) {
    forall i :: 0 <= i < |moments| - 1 ==> StateAfter(cl, moments[i]) == moments[i + 1].state
  }

  lemma FollowingOneMore(cl: Client, m: Moment, later: seq<Moment>)
    requires Following(cl, later) && later != [] && StateAfter(cl, m) == later[0].state
    ensures Following(cl, [m] + later)
  {
    var ms := [m] + later;
    forall i | 0 <= i < |ms| - 1
      ensures StateAfter(cl, ms[i]) == ms[i + 1].state
    {
      if i > 0 {
        assert ms[i] == later[i - 1] && ms[i + 1] == later[i - 1 + 1];
      }
    }
  }

  /** Each round of the loop leaves the state of the next. */
  lemma {:induction false} ForwardRoundsFollow(cl: Client, st: State, current: Height, target: Height)
    requires HonoursHeights(cl) && SensibleVerifier(cl) && Ready(st.store, current, target)
    ensures Following(cl, ForwardRounds(cl, st, current, target))
    decreases target - TrustedHeight(st.store, target), current - TrustedHeight(st.store, target)
  {
    if DecisionIn(cl, st, current, target).finished.None? {
      var st' := After(cl, st, current, target);
      RoundProgress(cl, st, current, target);
      RoundSchedulesValidly(cl, st, current, target);
      var next := NextHeight(st'.store, current, target);
      ForwardRoundsFollow(cl, st', next, target);
      FollowingOneMore(cl, Moment(st, current, target), ForwardRounds(cl, st', next, target));
    }
  }

  ghost function LastOf(moments: seq<Moment>): Moment
    requires moments != []
  {
    moments[|moments| - 1]
  }

  lemma LastOfMore(m: Moment, later: seq<Moment>)
    requires later != []
    ensures LastOf([m] + later) == LastOf(later)
  {
  }

  /** The last round leaves the state that the loop ends with. */
  lemma {:induction false} ForwardRoundsEnd(cl: Client, st: State, current: Height, target: Height)
    requires HonoursHeights(cl) && SensibleVerifier(cl) && Ready(st.store, current, target)
    ensures StateAfter(cl, LastOf(ForwardRounds(cl, st, current, target))) == Forward(cl, st, current, target).1
    decreases target - TrustedHeight(st.store, target), current - TrustedHeight(st.store, target)
  {
    if DecisionIn(cl, st, current, target).finished.None? {
      var st' := After(cl, st, current, target);
      RoundProgress(cl, st, current, target);
      RoundSchedulesValidly(cl, st, current, target);
      var next := NextHeight(st'.store, current, target);
      ForwardRoundsEnd(cl, st', next, target);
      LastOfMore(Moment(st, current, target), ForwardRounds(cl, st', next, target));
    }
  }

  /** A call makes these rounds, or changes nothing. */
  lemma CallRoundsAreAll(cl: Client, st: State, target: Height)
    requires HonoursHeights(cl) && SensibleVerifier(cl) && WellKeyed(st.store)
    ensures Ready(st.store, target, target)
    ensures var ms := CallRounds(cl, st, target);
            if ms == [] then VerifyToTarget(cl, st, target).1 == st
            else ms == ForwardRounds(cl, st, target, target)
                 && VerifyToTarget(cl, st, target) == Forward(cl, st, target, target)
  {
    TargetIsReady(st.store, target);
    NoneBelievedIff(st.store, target);
    var before, lowest := HighestTrustedOrVerifiedBefore(st.store, target), LowestTrustedOrVerified(st.store);
    if before.Some? {
      HighestBeforeIff(st.store, target, before.value);
    } else if lowest.Some? {
      LowestIff(st.store, lowest.value);
    }
  }

  lemma JoinRounds(inv: State -> bool, a: seq<Moment>, b: seq<Moment>)
    requires AtEveryRound(inv, a) && AtEveryRound(inv, b)
    ensures AtEveryRound(inv, a + b)
  {
  }

  lemma {:induction false} HoldsAtForwardRounds(
    cl: Client, inv: State -> bool, st: State, current: Height, target: Height)
    requires HonoursHeights(cl) && SensibleVerifier(cl) && Ready(st.store, current, target)
    requires Inductive(cl, inv) && inv(st)
    ensures AtEveryRound(inv, ForwardRounds(cl, st, current, target))
    decreases target - TrustedHeight(st.store, target), current - TrustedHeight(st.store, target)
  {
    if DecisionIn(cl, st, current, target).finished.None? {
      var st' := After(cl, st, current, target);
      RoundProgress(cl, st, current, target);
      RoundSchedulesValidly(cl, st, current, target);
      var next := NextHeight(st'.store, current, target);
      HoldsAtForwardRounds(cl, inv, st', next, target);
      JoinRounds(inv, [Moment(st, current, target)], ForwardRounds(cl, st', next, target));
    }
  }

  /** What every round keeps holds before every round of every run. */
  lemma {:induction false} HoldsAtRunRounds(cl: Client, inv: State -> bool, st: State, targets: seq<Height>)
    requires HonoursHeights(cl) && SensibleVerifier(cl) && WellKeyed(st.store)
    requires Inductive(cl, inv) && inv(st)
    ensures AtEveryRound(inv, RunRounds(cl, st, targets))
    decreases |targets|
  {
    if targets != [] {
      var st' := VerifyToTarget(cl, st, targets[0]).1;
      TargetIsReady(st.store, targets[0]);
      HoldsAtForwardRounds(cl, inv, st, targets[0], targets[0]);
      CallPreserves(cl, inv, st, targets[0]);
      VerifyToTargetKeepsKeys(cl, st, targets[0]);
      HoldsAtRunRounds(cl, inv, st', targets[1..]);
      JoinRounds(inv, CallRounds(cl, st, targets[0]), RunRounds(cl, st', targets[1..]));
    }
  }

  lemma RoundDelivers(cl: Client, st: State, current: Height, target: Height)
    requires WellKeyed(st.store)
    requires var d := DecisionIn(cl, st, current, target); d.finished.Some? && d.finished.value.Ok?
    ensures var b := DecisionIn(cl, st, current, target).finished.value.value;
            && After(cl, st, current, target).store == st.store
            && b.Height() == target && GetTrustedOrVerified(st.store, target) == Some(b)
  {
    DecideShape(cl, st.tick, AnswersFrom(st.store, current, target), current, target);
    var b := DecisionIn(cl, st, current, target).finished.value.value;
    HighestBeforeIff(st.store, target, b);
    assert Believed(st.store, target);
  }

  /** A successful call returns the block the store then holds at the target, trusted or verified. */
  lemma {:induction false} ForwardDelivers(cl: Client, st: State, current: Height, target: Height)
    requires HonoursHeights(cl) && SensibleVerifier(cl) && Ready(st.store, current, target)
    ensures var (r, st') := Forward(cl, st, current, target);
            r.Ok? ==> r.value.Height() == target && GetTrustedOrVerified(st'.store, target) == Some(r.value)
    decreases target - TrustedHeight(st.store, target), current - TrustedHeight(st.store, target)
  {
    RoundWrites(cl, st, current, target);
    var d := DecisionIn(cl, st, current, target);
    if d.finished.None? {
      RoundProgress(cl, st, current, target);
      RoundSchedulesValidly(cl, st, current, target);
      var st' := After(cl, st, current, target);
      ForwardDelivers(cl, st', NextHeight(st'.store, current, target), target);
    } else if d.finished.value.Ok? {
      RoundDelivers(cl, st, current, target);
    }
  }

  lemma VerifyToTargetDelivers(cl: Client, st: State, target: Height)
    requires HonoursHeights(cl) && SensibleVerifier(cl) && WellKeyed(st.store)
    ensures var (r, st') := VerifyToTarget(cl, st, target);
            r.Ok? ==> r.value.Height() == target && GetTrustedOrVerified(st'.store, target) == Some(r.value)
  {
    TargetIsReady(st.store, target);
    ForwardDelivers(cl, st, target, target);
  }
}
