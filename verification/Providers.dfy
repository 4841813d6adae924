/**
 Where blocks come from.  The client's `get_or_fetch_block` promises a block of
 the client's own peer (light-client/src/light_client.rs:366), although it may
 find the block in the store.
 */
module Providers {
  import opened Common
  import opened Types
  import opened Blocks
  import opened LightStores
  import opened LightClient
  import opened BelievedBlocks
  import opened Backward
  import opened MixedRuns
  import Detector

  ghost predicate FetchesFrom(cl: Client, peer: nat) {
    forall tick, h :: cl.fetch(tick, h).Ok? ==> cl.fetch(tick, h).value.provider == peer
  }

  ghost predicate AllFrom(peer: nat, s: StoreMap) {
    forall h :: h in s ==> s[h].lightBlock.provider == peer
  }

  /** In this state every lookup keeps the promise. */
  ghost predicate LooksUpFrom(cl: Client, peer: nat, st: State) {
    forall h :: GetOrFetch(cl, st, h).0.Ok? ==> GetOrFetch(cl, st, h).0.value.provider == peer
  }

  ghost function FromPeer(peer: nat): Supply {
    (b: LightBlock, _) => b.provider == peer
  }

  ghost function AnyBlock(): Property {
    (_: LightBlock) => true
  }

  lemma StoredFromPeer(cl: Client, peer: nat, st: State)
    requires FetchesFrom(cl, peer) && AllFrom(peer, st.store)
    ensures LooksUpFrom(cl, peer, st)
  {
    forall h: Height
      ensures GetOrFetch(cl, st, h).0.Ok? ==> GetOrFetch(cl, st, h).0.value.provider == peer
    {
      GetNonFailedIff(st.store, h);
    }
  }

  /** If fetches give blocks of the peer, then in every state of any run, up or down, so does every lookup. */
  lemma PromiseIsKept(hash: HashFn, cl: Client, peer: nat, st: State, targets: seq<Height>, i: nat)
    requires HonoursHeights(cl) && SensibleVerifier(cl) && FetchesFrom(cl, peer)
    requires WellKeyed(st.store) && AllFrom(peer, st.store)
    requires i < |RunStates(hash, cl, st, targets)|
    ensures var st' := RunStates(hash, cl, st, targets)[i]; AllFrom(peer, st'.store) && LooksUpFrom(cl, peer, st')
  {
    var any, have := AnyBlock(), FromPeer(peer);
    assert Guarded(any, any, have, st.store, cl.clock(st.tick));
    RunGuardedThroughout(hash, cl, any, any, have, st, targets);
    var st' := RunStates(hash, cl, st, targets)[i];
    GuardedInState(cl, any, any, have, st');
    StoredFromPeer(cl, peer, st');
  }

  // ---- A store with blocks of others ---------------------------------------

  /** The block a round looks at, if it gets so far. */
  ghost function LookedUp(cl: Client, m: Moment): Option<LightBlock> {
    var d := DecisionIn(cl, m.state, m.current, m.target);
    if d.updated.Some? then Some(d.updated.value.0) else None
  }

  ghost predicate KeepsPromise(cl: Client, peer: nat, m: Moment) {
    LookedUp(cl, m).Some? ==> LookedUp(cl, m).value.provider == peer
  }

  /** Everything but the trusted block is the peer's. */
  ghost predicate AllButTrusted(peer: nat, trusted: LightBlock, s: StoreMap) {
    && Believed(s, trusted.Height())
    && forall h :: h in s ==> s[h].lightBlock.provider == peer || s[h].lightBlock == trusted
  }

  /** A round never looks at a height that is believed. */
  lemma LooksAbove(cl: Client, st: State, current: Height, target: Height, low: Height)
    requires Ready(st.store, current, target) && Believed(st.store, low)
    requires DecisionIn(cl, st, current, target).updated.Some?
    ensures current != low
  {
    RoundVerdict(cl, st, current, target);
    HighestBeforeIff(st.store, target, HighestTrustedOrVerifiedBefore(st.store, target).value);
  }

  lemma RoundKeepsOthers(cl: Client, peer: nat, trusted: LightBlock, st: State, current: Height, target: Height)
    requires HonoursHeights(cl) && FetchesFrom(cl, peer) && Ready(st.store, current, target)
    requires AllButTrusted(peer, trusted, st.store)
    ensures AllButTrusted(peer, trusted, After(cl, st, current, target).store)
    ensures KeepsPromise(cl, peer, Moment(st, current, target))
  {
    RoundWrites(cl, st, current, target);
    if DecisionIn(cl, st, current, target).updated.Some? {
      LooksAbove(cl, st, current, target, trusted.Height());
      RoundVerdict(cl, st, current, target);
    }
  }

  lemma OthersAreInductive(cl: Client, peer: nat, trusted: LightBlock)
    requires HonoursHeights(cl) && FetchesFrom(cl, peer)
    ensures Inductive(cl, (st: State) => AllButTrusted(peer, trusted, st.store))
  {
    forall st: State, current, target | AllButTrusted(peer, trusted, st.store) && Ready(st.store, current, target)
      ensures AllButTrusted(peer, trusted, After(cl, st, current, target).store)
    {
      RoundKeepsOthers(cl, peer, trusted, st, current, target);
    }
  }

  lemma RoundsKeepPromise(cl: Client, peer: nat, trusted: LightBlock, st: State, target: Height, m: Moment)
    requires HonoursHeights(cl) && SensibleVerifier(cl) && FetchesFrom(cl, peer)
    requires WellKeyed(st.store) && AllButTrusted(peer, trusted, st.store) && m in CallRounds(cl, st, target)
    ensures KeepsPromise(cl, peer, m)
  {
    TargetIsReady(st.store, target);
    OthersAreInductive(cl, peer, trusted);
    HoldsAtForwardRounds(cl, (st: State) => AllButTrusted(peer, trusted, st.store), st, target, target);
    RoundKeepsOthers(cl, peer, trusted, m.state, m.current, m.target);
  }

  /** The first round of an examination looks at the block to be verified. */
  lemma LooksAtTarget(cl: Client, tick: nat, trusted: LightBlock, target: LightBlock)
    requires HonoursHeights(cl) && SensibleVerifier(cl) && trusted.Height() < target.Height()
    requires WithinTrustPeriod(trusted, cl.options.trustingPeriod, cl.clock(tick))
    ensures var st := Detector.SkippingState(tick, trusted, target);
            var m := Moment(st, target.Height(), target.Height());
            && WellKeyed(st.store) && m in CallRounds(cl, st, target.Height())
            && LookedUp(cl, m) == Some(target)
  {
    var st, h := Detector.SkippingState(tick, trusted, target), target.Height();
    Detector.SkippingStore(tick, trusted, target);
    assert HighestBelieved(st.store, h, trusted.Height());
    HighestBeforeIff(st.store, h, trusted);
    assert !Believed(st.store, h);
    TargetIsReady(st.store, h);
    assert ForwardRounds(cl, st, h, h)[0] == Moment(st, h, h);
    DecideShape(cl, tick, AnswersFrom(st.store, h, h), h, h);
  }

  /** Whether an examination gets to look at a block at all. */
  ghost predicate LooksAtAll(cl: Client, tick: nat, trusted: LightBlock, target: LightBlock) {
    && trusted.Height() < target.Height()
    && WithinTrustPeriod(trusted, cl.options.trustingPeriod, cl.clock(tick))
  }

  lemma LooksAtNothing(cl: Client, tick: nat, trusted: LightBlock, target: LightBlock)
    requires HonoursHeights(cl) && SensibleVerifier(cl) && !LooksAtAll(cl, tick, trusted, target)
    ensures var st := Detector.SkippingState(tick, trusted, target);
            && WellKeyed(st.store)
            && forall m :: m in CallRounds(cl, st, target.Height()) ==> LookedUp(cl, m).None?
  {
    var st, h := Detector.SkippingState(tick, trusted, target), target.Height();
    Detector.SkippingStore(tick, trusted, target);
    if trusted.Height() < h {
      assert HighestBelieved(st.store, h, trusted.Height());
      HighestBeforeIff(st.store, h, trusted);
      TargetIsReady(st.store, h);
      assert ForwardRounds(cl, st, h, h) == [Moment(st, h, h)];
    } else {
      NoneBelievedIff(st.store, h);
    }
  }

  /**
   The detector puts a block of its own choice into the store: the promise is
   kept throughout if and only if that block is the peer's, if it is looked at.
   */
  lemma SkippingPromiseIff(cl: Client, peer: nat, tick: nat, trusted: LightBlock, target: LightBlock)
    requires HonoursHeights(cl) && SensibleVerifier(cl) && FetchesFrom(cl, peer)
    ensures var st := Detector.SkippingState(tick, trusted, target);
            && WellKeyed(st.store)
            && ((forall m :: m in CallRounds(cl, st, target.Height()) ==> KeepsPromise(cl, peer, m))
                <==> (LooksAtAll(cl, tick, trusted, target) ==> target.provider == peer))
  {
    var st := Detector.SkippingState(tick, trusted, target);
    Detector.SkippingStore(tick, trusted, target);
    if !LooksAtAll(cl, tick, trusted, target) {
      LooksAtNothing(cl, tick, trusted, target);
    } else {
      LooksAtTarget(cl, tick, trusted, target);
      if target.provider == peer {
        forall m | m in CallRounds(cl, st, target.Height())
          ensures KeepsPromise(cl, peer, m)
        {
          RoundsKeepPromise(cl, peer, trusted, st, target.Height(), m);
        }
      }
    }
  }
}
