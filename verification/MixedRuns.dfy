/**
 Whole-run safety of the build in which calls may also go down.  Blocks reached
 downwards are only linked by hash: nobody has looked at their validator sets.
 But such a block always has its successor among the trusted ones, so it is
 never the one that a later round verifies against.
 */
module MixedRuns {
  import opened Common
  import opened Types
  import opened Blocks
  import opened LightStores
  import opened LightClient
  import opened BelievedBlocks
  import opened Builder
  import opened RunInvariant
  import opened Safety
  import opened Backward

  ghost predicate BelievedAbove(s: StoreMap, h: Height) {
    h < I64_MAX && Believed(s, h + 1)
  }

  /** Every believed block is good, and fully so where the block above it is not believed. */
  ghost predicate Frontier(good: Property, full: Property, s: StoreMap) {
    forall h: Height :: Believed(s, h) ==> good(s[h].lightBlock) && (full(s[h].lightBlock) || BelievedAbove(s, h))
  }

  ghost predicate Guarded(good: Property, full: Property, have: Supply, s: StoreMap, now: Time) {
    AllHad(have, s, now) && Frontier(good, full, s)
  }

  /** Goodness passes to the block that a good block names as its predecessor. */
  ghost predicate PassesDown(hash: HashFn, good: Property, have: Supply) {
    forall latest: LightBlock, current: LightBlock, now: Time ::
      && good(latest) && have(current, now) && current.Height() + 1 == latest.Height()
      && CheckLink(hash, latest, current).Ok?
      ==> good(current)
  }

  // ---- Rounds upwards ------------------------------------------------------

  /** The block a round verifies against is fully good: the one above it is not believed. */
  lemma TrustedIsFull(good: Property, full: Property, s: StoreMap, target: Height)
    requires WellKeyed(s) && Frontier(good, full, s)
    requires var t := HighestTrustedOrVerifiedBefore(s, target); t.Some? && t.value.Height() < target
    ensures var t := HighestTrustedOrVerifiedBefore(s, target).value;
            && full(t) && HighestBelieved(s, target, t.Height()) && s[t.Height()].lightBlock == t
  {
    var t := HighestTrustedOrVerifiedBefore(s, target).value;
    HighestBeforeIff(s, target, t);
    assert !Believed(s, t.Height() + 1);
  }

  /** Filing a block where none is believed keeps the frontier, if the block is fully good or not believed. */
  lemma FilingKeepsFrontier(good: Property, full: Property, s: StoreMap, current: Height, entry: StoreEntry)
    requires Frontier(good, full, s) && !Believed(s, current)
    requires Believed(s[current := entry], current) ==> good(entry.lightBlock) && full(entry.lightBlock)
    ensures Frontier(good, full, s[current := entry])
  {
    var s' := s[current := entry];
    forall h: Height | Believed(s', h)
      ensures good(s'[h].lightBlock) && (full(s'[h].lightBlock) || BelievedAbove(s', h))
    {
      if h != current {
        assert Believed(s, h);
        assert BelievedAbove(s, h) ==> BelievedAbove(s', h);
      }
    }
  }

  lemma RoundKeepsFrontier(
    cl: Client, good: Property, full: Property, have: Supply, st: State, current: Height, target: Height)
    requires HonoursHeights(cl) && PassesOn(cl, full, have) && Supplied(cl, have)
    requires forall b :: full(b) ==> good(b)
    requires Ready(st.store, current, target) && Guarded(good, full, have, st.store, cl.clock(st.tick))
    ensures Frontier(good, full, After(cl, st, current, target).store)
  {
    RoundWrites(cl, st, current, target);
    var d := DecisionIn(cl, st, current, target);
    if d.updated.Some? {
      var (block, status) := d.updated.value;
      RoundVerdict(cl, st, current, target);
      TrustedIsFull(good, full, st.store, target);
      RoundKeepsSupply(cl, have, st, current, target, current);
      FilingKeepsFrontier(good, full, st.store, current, StoreEntry(block, status));
    }
  }

  ghost function GuardedIn(cl: Client, good: Property, full: Property, have: Supply): State -> bool {
    (st: State) => Guarded(good, full, have, st.store, cl.clock(st.tick))
  }

  lemma RoundStaysGuarded(
    cl: Client, good: Property, full: Property, have: Supply, st: State, current: Height, target: Height)
    requires HonoursHeights(cl) && PassesOn(cl, full, have) && Supplied(cl, have)
    requires forall b :: full(b) ==> good(b)
    requires Ready(st.store, current, target) && Guarded(good, full, have, st.store, cl.clock(st.tick))
    ensures Guarded(good, full, have, After(cl, st, current, target).store, cl.clock(st.tick + 1))
  {
    var s' := After(cl, st, current, target).store;
    RoundKeepsFrontier(cl, good, full, have, st, current, target);
    RoundWrites(cl, st, current, target);
    assert Lasting(cl, have, st.tick);
    forall h | h in s'
      ensures have(s'[h].lightBlock, cl.clock(st.tick)) && have(s'[h].lightBlock, cl.clock(st.tick + 1))
    {
      RoundKeepsSupply(cl, have, st, current, target, h);
    }
  }

  lemma GuardedIsInductive(cl: Client, good: Property, full: Property, have: Supply)
    requires HonoursHeights(cl) && PassesOn(cl, full, have) && Supplied(cl, have)
    requires forall b :: full(b) ==> good(b)
    ensures Inductive(cl, GuardedIn(cl, good, full, have))
  {
    forall st, current, target | GuardedIn(cl, good, full, have)(st) && Ready(st.store, current, target)
      ensures GuardedIn(cl, good, full, have)(After(cl, st, current, target))
    {
      RoundStaysGuarded(cl, good, full, have, st, current, target);
    }
  }

  lemma ForwardStaysGuarded(cl: Client, good: Property, full: Property, have: Supply, st: State, target: Height)
    requires HonoursHeights(cl) && SensibleVerifier(cl) && PassesOn(cl, full, have) && Supplied(cl, have)
    requires forall b :: full(b) ==> good(b)
    requires Guarded(good, full, have, st.store, cl.clock(st.tick))
    ensures var st' := VerifyToTarget(cl, st, target).1; Guarded(good, full, have, st'.store, cl.clock(st'.tick))
  {
    GuardedIsInductive(cl, good, full, have);
    CallPreserves(cl, GuardedIn(cl, good, full, have), st, target);
    GuardedInState(cl, good, full, have, VerifyToTarget(cl, st, target).1);
  }

  lemma GuardedInState(cl: Client, good: Property, full: Property, have: Supply, st: State)
    requires GuardedIn(cl, good, full, have)(st)
    ensures Guarded(good, full, have, st.store, cl.clock(st.tick))
  {
  }

  // ---- Steps downwards -----------------------------------------------------

  /** The descent stands at the lowest believed block. */
  ghost predicate StandsAt(s: StoreMap, latest: LightBlock) {
    LowestBelieved(s, latest.Height()) && s[latest.Height()].lightBlock == latest
  }

  /** Both stores have the same believed blocks. */
  ghost predicate SameBelieved(s: StoreMap, s': StoreMap) {
    forall h: Height ::
      (Believed(s, h) <==> Believed(s', h)) && (Believed(s, h) ==> s'[h].lightBlock == s[h].lightBlock)
  }

  lemma SameBelievedSameFrontier(good: Property, full: Property, s: StoreMap, s': StoreMap, latest: LightBlock)
    requires SameBelieved(s, s') && Frontier(good, full, s) && StandsAt(s, latest)
    ensures Frontier(good, full, s') && StandsAt(s', latest)
  {
    forall h: Height | Believed(s', h)
      ensures good(s'[h].lightBlock) && (full(s'[h].lightBlock) || BelievedAbove(s', h))
    {
      assert Believed(s, h);
      assert BelievedAbove(s, h) ==> BelievedAbove(s', h);
    }
    assert Believed(s, latest.Height());
  }

  lemma FetchKeepsBelieved(cl: Client, st: State, latest: LightBlock)
    requires HonoursHeights(cl) && WellKeyed(st.store) && StandsAt(st.store, latest) && latest.Height() > 0
    ensures SameBelieved(st.store, GetOrFetch(cl, st, latest.Height() - 1).1.store)
  {
    assert !Believed(st.store, latest.Height() - 1);
    GetNonFailedIff(st.store, latest.Height() - 1);
  }

  /** Trusting a block and its predecessor moves the lower end down by one. */
  lemma TrustPairKeepsFrontier(
    good: Property, full: Property, st: State, latest: LightBlock, current: LightBlock)
    requires Frontier(good, full, st.store) && StandsAt(st.store, latest)
    requires current.Height() + 1 == latest.Height() && good(current)
    ensures Frontier(good, full, TrustPair(st, latest, current).store)
    ensures StandsAt(TrustPair(st, latest, current).store, current)
  {
    var s, s' := st.store, TrustPair(st, latest, current).store;
    assert BelievedAbove(s', current.Height());
    forall h: Height | Believed(s', h)
      ensures good(s'[h].lightBlock) && (full(s'[h].lightBlock) || BelievedAbove(s', h)) && current.Height() <= h
    {
      if h != current.Height() {
        assert Believed(s, h);
        assert BelievedAbove(s, h) ==> BelievedAbove(s', h);
      }
    }
  }

  lemma StepStaysGuarded(
    hash: HashFn, cl: Client, good: Property, full: Property, have: Supply, st: State, latest: LightBlock)
    requires HonoursHeights(cl) && PassesDown(hash, good, have) && Supplied(cl, have)
    requires Guarded(good, full, have, st.store, cl.clock(st.tick)) && StandsAt(st.store, latest)
    requires latest.Height() > 0
    ensures var (got, st') := StepDown(hash, cl, st, latest);
            && Guarded(good, full, have, st'.store, cl.clock(st'.tick))
            && (got.Ok? ==> StandsAt(st'.store, got.value) && got.value.Height() + 1 == latest.Height())
  {
    var (got, st1) := GetOrFetch(cl, st, latest.Height() - 1);
    StepDownKeepsSupply(hash, cl, have, st, latest);
    StepDownKeepsHeights(hash, cl, st, latest);
    GetOrFetchKeepsHeights(cl, st, latest.Height() - 1);
    FetchKeepsBelieved(cl, st, latest);
    SameBelievedSameFrontier(good, full, st.store, st1.store, latest);
    if got.Ok? && CheckLink(hash, latest, got.value).Ok? {
      assert good(latest) && have(got.value, cl.clock(st.tick + 1));
      TrustPairKeepsFrontier(good, full, st1, latest, got.value);
    }
  }

  lemma {:induction false} DescentStaysGuarded(
    hash: HashFn, cl: Client, good: Property, full: Property, have: Supply,
    st: State, latest: LightBlock, target: Height)
    requires HonoursHeights(cl) && PassesDown(hash, good, have) && Supplied(cl, have) && target <= latest.Height()
    requires Guarded(good, full, have, st.store, cl.clock(st.tick)) && StandsAt(st.store, latest)
    ensures var (r, st') := Descend(hash, cl, st, latest, target);
            && Guarded(good, full, have, st'.store, cl.clock(st'.tick))
            && (r.Ok? ==> StandsAt(st'.store, r.value) && r.value.Height() == target)
    decreases latest.Height() - target
  {
    if target < latest.Height() {
      var (got, st') := StepDown(hash, cl, st, latest);
      StepStaysGuarded(hash, cl, good, full, have, st, latest);
      StepDownKeepsHeights(hash, cl, st, latest);
      if got.Ok? {
        DescentStaysGuarded(hash, cl, good, full, have, st', got.value, target);
      }
    }
  }

  lemma RootStands(s: StoreMap, target: Height)
    requires WellKeyed(s) && GoesDown(s, target)
    ensures StandsAt(s, RootFor(s, target).value)
  {
    RootIsLowest(s, target);
    LowestIff(s, RootFor(s, target).value);
  }

  lemma BackwardStaysGuarded(
    hash: HashFn, cl: Client, good: Property, full: Property, have: Supply, st: State, target: Height)
    requires HonoursHeights(cl) && PassesDown(hash, good, have) && Supplied(cl, have)
    requires Guarded(good, full, have, st.store, cl.clock(st.tick)) && GoesDown(st.store, target)
    ensures var (r, st') := VerifyBackward(hash, cl, st, target);
            && Guarded(good, full, have, st'.store, cl.clock(st'.tick))
            && (r.Ok? ==> StandsAt(st'.store, r.value) && r.value.Height() == target)
  {
    var root := RootFor(st.store, target).value;
    RootStands(st.store, target);
    StillHad(cl, have, st.store, root, st.tick);
    DescentStaysGuarded(hash, cl, good, full, have, st.(tick := st.tick + 1), root, target);
  }

  // ---- Calls and runs ------------------------------------------------------

  /** A call either way keeps the frontier, and returns a good block of the target height. */
  lemma CallStaysGuarded(
    hash: HashFn, cl: Client, good: Property, full: Property, have: Supply, st: State, target: Height)
    requires HonoursHeights(cl) && SensibleVerifier(cl) && PassesOn(cl, full, have) && Supplied(cl, have)
    requires PassesDown(hash, good, have) && forall b :: full(b) ==> good(b)
    requires Guarded(good, full, have, st.store, cl.clock(st.tick))
    ensures var (r, st') := VerifyEitherWay(hash, cl, st, target);
            && Guarded(good, full, have, st'.store, cl.clock(st'.tick))
            && (r.Ok? ==> r.value.Height() == target && good(r.value))
  {
    EitherWayIs(hash, cl, st, target);
    if GoesDown(st.store, target) {
      BackwardStaysGuarded(hash, cl, good, full, have, st, target);
    } else {
      ForwardStaysGuarded(cl, good, full, have, st, target);
      VerifyToTargetDelivers(cl, st, target);
    }
  }

  lemma EitherWayKeepsKeys(hash: HashFn, cl: Client, st: State, target: Height)
    requires HonoursHeights(cl) && SensibleVerifier(cl) && WellKeyed(st.store)
    ensures WellKeyed(VerifyEitherWay(hash, cl, st, target).1.store)
  {
    EitherWayIs(hash, cl, st, target);
    if GoesDown(st.store, target) {
      var root := RootFor(st.store, target).value;
      var anything: Supply := (_, _) => true;
      BackwardKeepsSupply(hash, cl, anything, st, target);
    } else {
      VerifyToTargetKeepsKeys(cl, st, target);
    }
  }

  /** Any number of calls, up or down, one after the other. */
  function RunEitherWay(hash: HashFn, cl: Client, st: State, targets: seq<Height>): (st': State)
    requires HonoursHeights(cl) && SensibleVerifier(cl) && WellKeyed(st.store)
    ensures WellKeyed(st'.store)
    decreases |targets|
  {
    if targets == [] then st
    else
      EitherWayKeepsKeys(hash, cl, st, targets[0]);
      RunEitherWay(hash, cl, VerifyEitherWay(hash, cl, st, targets[0]).1, targets[1..])
  }

  lemma {:induction false} RunStaysGuarded(
    hash: HashFn, cl: Client, good: Property, full: Property, have: Supply, st: State, targets: seq<Height>)
    requires HonoursHeights(cl) && SensibleVerifier(cl) && PassesOn(cl, full, have) && Supplied(cl, have)
    requires PassesDown(hash, good, have) && forall b :: full(b) ==> good(b)
    requires Guarded(good, full, have, st.store, cl.clock(st.tick))
    ensures var st' := RunEitherWay(hash, cl, st, targets);
            Guarded(good, full, have, st'.store, cl.clock(st'.tick))
    decreases |targets|
  {
    if targets != [] {
      CallStaysGuarded(hash, cl, good, full, have, st, targets[0]);
      EitherWayKeepsKeys(hash, cl, st, targets[0]);
      RunStaysGuarded(hash, cl, good, full, have, VerifyEitherWay(hash, cl, st, targets[0]).1, targets[1..]);
    }
  }

  // ---- Every state of a run ------------------------------------------------

  /** The states of a descent: at its start and after each step. */
  ghost function DescentStates(hash: HashFn, cl: Client, st: State, latest: LightBlock, target: Height): seq<State>
    requires HonoursHeights(cl) && WellKeyed(st.store) && target <= latest.Height()
    decreases latest.Height() - target
  {
    [st] +
    if latest.Height() == target then []
    else
      StepDownKeepsHeights(hash, cl, st, latest);
      var (got, st') := StepDown(hash, cl, st, latest);
      if got.Err? then [st'] else DescentStates(hash, cl, st', got.value, target)
  }

  ghost function RoundStates(moments: seq<Moment>): (states: seq<State>)
    ensures |states| == |moments| && forall i :: 0 <= i < |moments| ==> states[i] == moments[i].state
  {
    if moments == [] then [] else [moments[0].state] + RoundStates(moments[1..])
  }

  /** The states of a call before its last: those before each round, or those of the descent. */
  ghost function CallStates(hash: HashFn, cl: Client, st: State, target: Height): seq<State>
    requires HonoursHeights(cl) && SensibleVerifier(cl) && WellKeyed(st.store)
  {
    if GoesDown(st.store, target)
    then DescentStates(hash, cl, st.(tick := st.tick + 1), RootFor(st.store, target).value, target)
    else RoundStates(CallRounds(cl, st, target))
  }

  /** All states of calls in sequence, the last one included. */
  ghost function RunStates(hash: HashFn, cl: Client, st: State, targets: seq<Height>): seq<State>
    requires HonoursHeights(cl) && SensibleVerifier(cl) && WellKeyed(st.store)
    decreases |targets|
  {
    if targets == [] then [st]
    else
      EitherWayKeepsKeys(hash, cl, st, targets[0]);
      CallStates(hash, cl, st, targets[0])
      + RunStates(hash, cl, VerifyEitherWay(hash, cl, st, targets[0]).1, targets[1..])
  }

  ghost predicate Everywhere(inv: State -> bool, states: seq<State>) {
    forall i :: 0 <= i < |states| ==> inv(states[i])
  }

  lemma Joined(inv: State -> bool, a: seq<State>, b: seq<State>)
    requires Everywhere(inv, a) && Everywhere(inv, b)
    ensures Everywhere(inv, a + b)
  {
  }

  lemma {:induction false} DescentGuardedThroughout(
    hash: HashFn, cl: Client, good: Property, full: Property, have: Supply,
    st: State, latest: LightBlock, target: Height)
    requires HonoursHeights(cl) && PassesDown(hash, good, have) && Supplied(cl, have) && target <= latest.Height()
    requires Guarded(good, full, have, st.store, cl.clock(st.tick)) && StandsAt(st.store, latest)
    ensures Everywhere(GuardedIn(cl, good, full, have), DescentStates(hash, cl, st, latest, target))
    decreases latest.Height() - target
  {
    if target < latest.Height() {
      var inv := GuardedIn(cl, good, full, have);
      var (got, st') := StepDown(hash, cl, st, latest);
      StepStaysGuarded(hash, cl, good, full, have, st, latest);
      StepDownKeepsHeights(hash, cl, st, latest);
      if got.Ok? {
        DescentGuardedThroughout(hash, cl, good, full, have, st', got.value, target);
        Joined(inv, [st], DescentStates(hash, cl, st', got.value, target));
      } else {
        Joined(inv, [st], [st']);
      }
    }
  }

  lemma RoundsGuardedThroughout(
    cl: Client, good: Property, full: Property, have: Supply, st: State, target: Height)
    requires HonoursHeights(cl) && SensibleVerifier(cl) && PassesOn(cl, full, have) && Supplied(cl, have)
    requires forall b :: full(b) ==> good(b)
    requires Guarded(good, full, have, st.store, cl.clock(st.tick))
    ensures Everywhere(GuardedIn(cl, good, full, have), RoundStates(CallRounds(cl, st, target)))
  {
    var inv := GuardedIn(cl, good, full, have);
    GuardedIsInductive(cl, good, full, have);
    TargetIsReady(st.store, target);
    HoldsAtForwardRounds(cl, inv, st, target, target);
  }

  lemma CallGuardedThroughout(
    hash: HashFn, cl: Client, good: Property, full: Property, have: Supply, st: State, target: Height)
    requires HonoursHeights(cl) && SensibleVerifier(cl) && PassesOn(cl, full, have) && Supplied(cl, have)
    requires PassesDown(hash, good, have) && forall b :: full(b) ==> good(b)
    requires Guarded(good, full, have, st.store, cl.clock(st.tick))
    ensures Everywhere(GuardedIn(cl, good, full, have), CallStates(hash, cl, st, target))
  {
    if GoesDown(st.store, target) {
      var root := RootFor(st.store, target).value;
      RootStands(st.store, target);
      StillHad(cl, have, st.store, root, st.tick);
      DescentGuardedThroughout(hash, cl, good, full, have, st.(tick := st.tick + 1), root, target);
    } else {
      RoundsGuardedThroughout(cl, good, full, have, st, target);
    }
  }

  lemma {:induction false} RunGuardedThroughout(
    hash: HashFn, cl: Client, good: Property, full: Property, have: Supply, st: State, targets: seq<Height>)
    requires HonoursHeights(cl) && SensibleVerifier(cl) && PassesOn(cl, full, have) && Supplied(cl, have)
    requires PassesDown(hash, good, have) && forall b :: full(b) ==> good(b)
    requires Guarded(good, full, have, st.store, cl.clock(st.tick))
    ensures Everywhere(GuardedIn(cl, good, full, have), RunStates(hash, cl, st, targets))
    decreases |targets|
  {
    if targets != [] {
      var st' := VerifyEitherWay(hash, cl, st, targets[0]).1;
      CallGuardedThroughout(hash, cl, good, full, have, st, targets[0]);
      CallStaysGuarded(hash, cl, good, full, have, st, targets[0]);
      EitherWayKeepsKeys(hash, cl, st, targets[0]);
      RunGuardedThroughout(hash, cl, good, full, have, st', targets[1..]);
      Joined(GuardedIn(cl, good, full, have), CallStates(hash, cl, st, targets[0]),
             RunStates(hash, cl, st', targets[1..]));
    }
  }

  // ---- Chain blocks --------------------------------------------------------

  ghost function ChainBlocks(w: World): Property {
    (b: LightBlock) => IsChainBlock(w, b)
  }

  lemma ChainBlocksPassDown(w: World, hash: HashFn)
    requires SoundChain(w) && ChainIsLinked(w) && IsHeaderHash(w, hash) && HonestBlocks(w)
    ensures PassesDown(hash, ChainBlocks(w), w.available)
  {
    forall latest: LightBlock, current: LightBlock, now: Time |
      && IsChainBlock(w, latest) && w.available(current, now) && current.Height() + 1 == latest.Height()
      && CheckLink(hash, latest, current).Ok?
      ensures IsChainBlock(w, current)
    {
      PredecessorIsChainBlock(w, latest, latest.Header().lastBlockId.value, current);
    }
  }

  /**
   Every block that any calls, up or down, on a built client ever mark Verified
   or Trusted, in any round or step, is the chain's block at its height, and so
   is every block that a further successful call returns.
   */
  lemma MixedRunSafety(
    w: World, hash: HashFn, cl: Client, height: Height, root: Hash, targets: seq<Height>, last: Height)
    requires Environment(w, cl) && ChainIsLinked(w) && IsHeaderHash(w, hash) && OnChain(w, height, root)
    requires TrustPrimaryAt(w.crypto, cl, EMPTY_STATE, height, root).Ok?
    ensures SensibleVerifier(cl)
    ensures var st := TrustPrimaryAt(w.crypto, cl, EMPTY_STATE, height, root).value;
            WellKeyed(st.store) && SafeThroughout(w, hash, cl, st, targets, last)
  {
    var st := TrustPrimaryAt(w.crypto, cl, EMPTY_STATE, height, root).value;
    ProductionIsSensible(w.crypto, cl);
    ChainBlocksPassOn(w, cl);
    ChainBlocksPassDown(w, hash);
    EnvironmentSupplies(w, cl);
    BuiltOnChainBlock(w, cl, height, root);
    MixedRunFrom(w, hash, cl, st, targets, last);
  }

  ghost predicate SafeThroughout(
    w: World, hash: HashFn, cl: Client, st: State, targets: seq<Height>, last: Height)
    requires HonoursHeights(cl) && SensibleVerifier(cl) && WellKeyed(st.store)
  {
    var states := RunStates(hash, cl, st, targets);
    && (forall i :: 0 <= i < |states| ==> AllOnChain(w, states[i].store))
    && var (r, _) := VerifyEitherWay(hash, cl, RunEitherWay(hash, cl, st, targets), last);
       r.Ok? ==> r.value.Height() == last && IsChainBlock(w, r.value)
  }

  lemma GuardedIsOnChain(w: World, cl: Client, st: State)
    requires GuardedIn(cl, ChainBlocks(w), OfTheChain(w), w.available)(st)
    ensures AllOnChain(w, st.store)
  {
  }

  lemma MixedRunFrom(w: World, hash: HashFn, cl: Client, st: State, targets: seq<Height>, last: Height)
    requires HonoursHeights(cl) && SensibleVerifier(cl)
    requires PassesOn(cl, OfTheChain(w), w.available) && Supplied(cl, w.available)
    requires PassesDown(hash, ChainBlocks(w), w.available)
    requires Holds(OfTheChain(w), w.available, st.store, cl.clock(st.tick))
    ensures SafeThroughout(w, hash, cl, st, targets, last)
  {
    var good, full := ChainBlocks(w), OfTheChain(w);
    assert Guarded(good, full, w.available, st.store, cl.clock(st.tick));
    RunStaysGuarded(hash, cl, good, full, w.available, st, targets);
    CallStaysGuarded(hash, cl, good, full, w.available, RunEitherWay(hash, cl, st, targets), last);
    RunGuardedThroughout(hash, cl, good, full, w.available, st, targets);
    var states := RunStates(hash, cl, st, targets);
    forall i | 0 <= i < |states|
      ensures AllOnChain(w, states[i].store)
    {
      GuardedIsOnChain(w, cl, states[i]);
    }
  }

  /** The states listed for a run end with the one the run leaves. */
  lemma {:induction false} RunStatesEnd(hash: HashFn, cl: Client, st: State, targets: seq<Height>)
    requires HonoursHeights(cl) && SensibleVerifier(cl) && WellKeyed(st.store)
    ensures var states := RunStates(hash, cl, st, targets);
            states != [] && states[|states| - 1] == RunEitherWay(hash, cl, st, targets)
    decreases |targets|
  {
    if targets != [] {
      EitherWayKeepsKeys(hash, cl, st, targets[0]);
      RunStatesEnd(hash, cl, VerifyEitherWay(hash, cl, st, targets[0]).1, targets[1..]);
    }
  }
}
