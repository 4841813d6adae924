/**
 How rounds and calls end: what each one does in plain terms, and the cause of
 every error that a call returns.
 */
module Outcomes {
  import opened Common
  import opened Types
  import opened Blocks
  import opened LightStores
  import opened LightClient

  // ---- One round -----------------------------------------------------------

  /** The block has left the trusting period. */
  predicate Expired(cl: Client, b: LightBlock, now: Time) {
    now < cl.options.trustingPeriod || b.Time() + cl.options.trustingPeriod <= now
  }

  /** The round stops with this result and files nothing. */
  ghost predicate StopsWith(cl: Client, m: Moment, outcome: Outcome) {
    DecisionIn(cl, m.state, m.current, m.target).finished == Some(outcome)
    && StateAfter(cl, m).store == m.state.store
  }

  ghost predicate TraceIs(cl: Client, m: Moment, trace: VerificationTrace) {
    StateAfter(cl, m).trace == trace
  }

  /** The round files the block under the current height, and goes on or stops. */
  ghost predicate FilesAs(cl: Client, m: Moment, block: LightBlock, status: Status, stop: Option<Outcome>) {
    && StateAfter(cl, m).store == m.state.store[m.current := StoreEntry(block, status)]
    && DecisionIn(cl, m.state, m.current, m.target).finished == stop
  }

  /** Without a trusted block up to the target there is nothing to start from. */
  lemma RoundWithoutTrust(cl: Client, m: Moment)
    requires forall x: Height :: x <= m.target ==> !Believed(m.state.store, x)
    ensures StopsWith(cl, m, Err(NoInitialTrustedState)) && TraceIs(cl, m, m.state.trace)
  {
    NoneBelievedIff(m.state.store, m.target);
  }

  /** With an expired one the round stops and leaves everything as it is. */
  lemma RoundExpired(cl: Client, m: Moment, t: LightBlock)
    requires WellKeyed(m.state.store) && HighestBelieved(m.state.store, m.target, t.Height())
    requires m.state.store[t.Height()].lightBlock == t && Expired(cl, t, cl.clock(m.state.tick))
    ensures StopsWith(cl, m, Err(TrustedStateOutsideTrustingPeriod(t, cl.options)))
    ensures TraceIs(cl, m, m.state.trace)
  {
    HighestBeforeIff(m.state.store, m.target, t);
    WithinTrustPeriodIff(t, cl.options.trustingPeriod, cl.clock(m.state.tick));
  }

  /** At the target it stops with the trusted block, which is the target's. */
  lemma RoundArrived(cl: Client, m: Moment, t: LightBlock)
    requires WellKeyed(m.state.store) && HighestBelieved(m.state.store, m.target, t.Height())
    requires m.state.store[t.Height()].lightBlock == t && !Expired(cl, t, cl.clock(m.state.tick))
    requires t.Height() == m.target
    ensures StopsWith(cl, m, Ok(t)) && TraceIs(cl, m, TraceBlock(m.state.trace, m.target, m.current))
  {
    HighestBeforeIff(m.state.store, m.target, t);
    WithinTrustPeriodIff(t, cl.options.trustingPeriod, cl.clock(m.state.tick));
  }

  /** The trusted block is below the target and not expired. */
  ghost predicate GoesOn(cl: Client, m: Moment, t: LightBlock) {
    && WellKeyed(m.state.store) && HighestBelieved(m.state.store, m.target, t.Height())
    && m.state.store[t.Height()].lightBlock == t && t.Height() < m.target
    && !Expired(cl, t, cl.clock(m.state.tick))
  }

  /** The peer has no block for the current height, and there is none in the store that has not failed. */
  lemma RoundUnanswered(cl: Client, m: Moment, t: LightBlock, e: IoError)
    requires GoesOn(cl, m, t)
    requires m.current in m.state.store ==> m.state.store[m.current].status.Failed?
    requires cl.fetch(m.state.tick, m.current) == Err(e)
    ensures StopsWith(cl, m, Err(Io(e))) && TraceIs(cl, m, TraceBlock(m.state.trace, m.target, m.current))
  {
    HighestBeforeIff(m.state.store, m.target, t);
    WithinTrustPeriodIff(t, cl.options.trustingPeriod, cl.clock(m.state.tick));
    GetNonFailedIff(m.state.store, m.current);
  }

  /** The block at the current height is judged against the trusted one, and filed by the verdict. */
  lemma RoundJudges(cl: Client, m: Moment, t: LightBlock, block: LightBlock, before: Status)
    requires GoesOn(cl, m, t) && HonoursHeights(cl) && IsCurrent(cl, m.state, m.current, block, before)
    ensures var trace := TraceBlock(m.state.trace, m.target, m.current);
            match cl.verify(block, t, cl.options, cl.clock(m.state.tick))
            case Success =>
              && FilesAs(cl, m, block, if before.Trusted? then Trusted else Verified, None)
              && TraceIs(cl, m, TraceBlock(trace, m.current, t.Height()))
            case NotEnoughTrust(_) => FilesAs(cl, m, block, Unverified, None) && TraceIs(cl, m, trace)
            case Invalid(e) => FilesAs(cl, m, block, Failed, Some(Err(InvalidLightBlock(e)))) && TraceIs(cl, m, trace)
  {
    HighestBeforeIff(m.state.store, m.target, t);
    WithinTrustPeriodIff(t, cl.options.trustingPeriod, cl.clock(m.state.tick));
    GetNonFailedIff(m.state.store, m.current);
    RoundWrites(cl, m.state, m.current, m.target);
  }

  // ---- Calls ---------------------------------------------------------------

  /** A target that is already trusted or verified is returned as it is stored. */
  lemma CallKnown(cl: Client, st: State, target: Height)
    requires HonoursHeights(cl) && SensibleVerifier(cl) && WellKeyed(st.store) && Believed(st.store, target)
    ensures VerifyToTarget(cl, st, target) == (Ok(st.store[target].lightBlock), st)
  {
  }

  lemma CallWithoutTrust(cl: Client, st: State, target: Height)
    requires HonoursHeights(cl) && SensibleVerifier(cl) && WellKeyed(st.store)
    requires forall x: Height :: !Believed(st.store, x)
    ensures VerifyToTarget(cl, st, target) == (Err(NoInitialTrustedState), st)
  {
    NoneBelievedIff(st.store, target);
    assert !Believed(st.store, target);
    if LowestTrustedOrVerified(st.store).Some? {
      LowestIff(st.store, LowestTrustedOrVerified(st.store).value);
    }
  }

  /** A target below everything that is trusted or verified is refused. */
  lemma CallBelowTrust(cl: Client, st: State, target: Height, low: Height)
    requires HonoursHeights(cl) && SensibleVerifier(cl) && WellKeyed(st.store)
    requires LowestBelieved(st.store, low) && target < low
    ensures VerifyToTarget(cl, st, target) == (Err(TargetLowerThanTrustedState(target, low)), st)
  {
    NoneBelievedIff(st.store, target);
    LowestIff(st.store, st.store[low].lightBlock);
    assert !Believed(st.store, target);
  }

  /** With an expired trusted block below a new target, the call returns just that error and changes nothing. */
  lemma CallExpired(cl: Client, st: State, target: Height, t: LightBlock)
    requires HonoursHeights(cl) && SensibleVerifier(cl) && WellKeyed(st.store) && !Believed(st.store, target)
    requires HighestBelieved(st.store, target, t.Height()) && st.store[t.Height()].lightBlock == t
    requires Expired(cl, t, cl.clock(st.tick))
    ensures var (r, st') := VerifyToTarget(cl, st, target);
            && r == Err(TrustedStateOutsideTrustingPeriod(t, cl.options))
            && st'.store == st.store && st'.trace == st.trace
  {
    HighestBeforeIff(st.store, target, t);
    TargetIsReady(st.store, target);
    RoundExpired(cl, Moment(st, target, target), t);
  }

  lemma {:induction false} ForwardEndsWithLast(cl: Client, st: State, current: Height, target: Height)
    requires HonoursHeights(cl) && SensibleVerifier(cl) && Ready(st.store, current, target)
    ensures var m := LastOf(ForwardRounds(cl, st, current, target));
            DecisionIn(cl, m.state, m.current, m.target).finished == Some(Forward(cl, st, current, target).0)
    decreases target - TrustedHeight(st.store, target), current - TrustedHeight(st.store, target)
  {
    if DecisionIn(cl, st, current, target).finished.None? {
      var st' := After(cl, st, current, target);
      RoundProgress(cl, st, current, target);
      RoundSchedulesValidly(cl, st, current, target);
      var next := NextHeight(st'.store, current, target);
      ForwardEndsWithLast(cl, st', next, target);
      LastOfMore(Moment(st, current, target), ForwardRounds(cl, st', next, target));
    }
  }

  /** Why a round ends with this error: the trusted block has expired, the peer failed, or the verdict was Invalid. */
  ghost predicate Causes(cl: Client, m: Moment, e: ClientError) {
    var t := HighestTrustedOrVerifiedBefore(m.state.store, m.target);
    && t.Some?
    && match e
       case TrustedStateOutsideTrustingPeriod(b, o) =>
         b == t.value && o == cl.options && Expired(cl, b, cl.clock(m.state.tick))
       case Io(io) =>
         && (m.current in m.state.store ==> m.state.store[m.current].status.Failed?)
         && cl.fetch(m.state.tick, m.current) == Err(io)
       case InvalidLightBlock(v) =>
         exists b, status :: IsCurrent(cl, m.state, m.current, b, status)
                             && cl.verify(b, t.value, cl.options, cl.clock(m.state.tick)) == Invalid(v)
       case _ => false
  }

  lemma RoundErrorHasCause(cl: Client, m: Moment, e: ClientError)
    requires Ready(m.state.store, m.current, m.target)
    requires HighestTrustedOrVerifiedBefore(m.state.store, m.target).Some?
    requires DecisionIn(cl, m.state, m.current, m.target).finished == Some(Err(e))
    ensures Causes(cl, m, e)
  {
    var t := HighestTrustedOrVerifiedBefore(m.state.store, m.target).value;
    HighestBeforeIff(m.state.store, m.target, t);
    WithinTrustPeriodIff(t, cl.options.trustingPeriod, cl.clock(m.state.tick));
    GetNonFailedIff(m.state.store, m.current);
    if DecisionIn(cl, m.state, m.current, m.target).updated.Some? {
      RoundVerdict(cl, m.state, m.current, m.target);
    }
  }

  /** Every error of a call with a trusted block below the target is caused in its last round. */
  lemma CallErrorHasCause(cl: Client, st: State, target: Height)
    requires HonoursHeights(cl) && SensibleVerifier(cl) && WellKeyed(st.store)
    requires HighestTrustedOrVerifiedBefore(st.store, target).Some? && VerifyToTarget(cl, st, target).0.Err?
    ensures CallRounds(cl, st, target) != []
    ensures Causes(cl, LastOf(CallRounds(cl, st, target)), VerifyToTarget(cl, st, target).0.error)
  {
    CallRoundsAreAll(cl, st, target);
    HighestBeforeIff(st.store, target, HighestTrustedOrVerifiedBefore(st.store, target).value);
    ForwardEndsWithLast(cl, st, target, target);
    TrustStays(cl, st, target, target);
    var m := LastOf(CallRounds(cl, st, target));
    RoundErrorHasCause(cl, m, VerifyToTarget(cl, st, target).0.error);
  }

  /** The last round still has a trusted block. */
  lemma {:induction false} TrustStays(cl: Client, st: State, current: Height, target: Height)
    requires HonoursHeights(cl) && SensibleVerifier(cl) && Ready(st.store, current, target)
    requires HighestTrustedOrVerifiedBefore(st.store, target).Some?
    ensures var m := LastOf(ForwardRounds(cl, st, current, target));
            && Ready(m.state.store, m.current, m.target) && m.target == target
            && HighestTrustedOrVerifiedBefore(m.state.store, target).Some?
    decreases target - TrustedHeight(st.store, target), current - TrustedHeight(st.store, target)
  {
    if DecisionIn(cl, st, current, target).finished.None? {
      var st' := After(cl, st, current, target);
      RoundProgress(cl, st, current, target);
      RoundSchedulesValidly(cl, st, current, target);
      var next := NextHeight(st'.store, current, target);
      TrustStays(cl, st', next, target);
      LastOfMore(Moment(st, current, target), ForwardRounds(cl, st', next, target));
    }
  }
}
