/**
 Any mix of calls up and down on the persistent store.  A step down inserts
 blocks that the trees already have under another status, so single queries may
 differ from the one-map store; what the client asks is still answered alike,
 and all calls end alike.
 */
module SledMixedRuns {
  import opened Common
  import opened Types
  import opened Blocks
  import opened LightStores
  import opened LightClient
  import opened SledStores
  import opened Backward
  import opened MixedRuns

  function SledGetNonFailed(t: SledTrees, height: Height): Option<(LightBlock, Status)> {
    FirstNonFailed(SledGet(t, height, Trusted), SledGet(t, height, Verified), SledGet(t, height, Unverified))
  }

  function SledGetOrFetch(cl: Client, sled: SledState, height: Height): (Outcome, SledState) {
    var stored := SledGetNonFailed(sled.trees, height);
    var later := sled.(tick := sled.tick + 1);
    if stored.Some? then (Ok(stored.value.0), later)
    else
      match cl.fetch(sled.tick, height)
      case Err(e) => (Err(Io(e)), later)
      case Ok(b) => (Ok(b), later.(trees := SledInsert(sled.trees, b, Unverified)))
  }

  function SledTrustPair(sled: SledState, latest: LightBlock, current: LightBlock): SledState {
    SledState(SledInsert(SledInsert(sled.trees, current, Trusted), latest, Trusted),
              TraceBlock(sled.trace, latest.Height(), current.Height()), sled.tick)
  }

  function SledStepDown(hash: HashFn, cl: Client, sled: SledState, latest: LightBlock): (Outcome, SledState)
    requires latest.Height() > 0
  {
    var (got, sled1) := SledGetOrFetch(cl, sled, latest.Height() - 1);
    if got.Err? then (Err(got.error), sled1) else
    var link := CheckLink(hash, latest, got.value);
    if link.Err? then (Err(link.error), sled1) else
    (got, SledTrustPair(sled1, latest, got.value))
  }

  // ---- What inserting keeps ------------------------------------------------

  /** The block is stored, and has not failed. */
  ghost predicate Keeps(s: StoreMap, b: LightBlock) {
    b.Height() in s && s[b.Height()].lightBlock == b && !s[b.Height()].status.Failed?
  }

  lemma FetchedLeads(t: SledTrees, s: StoreMap, b: LightBlock)
    requires Leads(t, s) && (b.Height() in s ==> s[b.Height()].status.Failed?)
    ensures Leads(SledInsert(t, b, Unverified), Insert(s, b, Unverified))
  {
    var t', s' := SledInsert(t, b, Unverified), Insert(s, b, Unverified);
    forall h: Height
      ensures LeadsAt(t', s', h)
    {
      assert LeadsAt(t, s, h);
    }
  }

  lemma TrustedLeads(t: SledTrees, s: StoreMap, b: LightBlock)
    requires Leads(t, s) && Keeps(s, b)
    ensures Leads(SledInsert(t, b, Trusted), Insert(s, b, Trusted))
  {
    var t', s' := SledInsert(t, b, Trusted), Insert(s, b, Trusted);
    forall h: Height
      ensures LeadsAt(t', s', h)
    {
      assert LeadsAt(t, s, h);
    }
  }

  lemma LookupsAgree(cl: Client, sled: SledState, mem: State, height: Height)
    requires HonoursHeights(cl) && WellKeyed(mem.store) && StatesLead(sled, mem)
    ensures var (got, sled') := SledGetOrFetch(cl, sled, height);
            var (got', mem') := GetOrFetch(cl, mem, height);
            && got == got' && StatesLead(sled', mem')
            && (got.Ok? ==> Keeps(mem'.store, got.value))
  {
    assert LeadsAt(sled.trees, mem.store, height);
    GetNonFailedIff(mem.store, height);
    if GetNonFailed(mem.store, height).None? && cl.fetch(mem.tick, height).Ok? {
      FetchedLeads(sled.trees, mem.store, cl.fetch(mem.tick, height).value);
    }
  }

  lemma PairLeads(sled: SledState, mem: State, latest: LightBlock, current: LightBlock)
    requires StatesLead(sled, mem) && Keeps(mem.store, latest) && Keeps(mem.store, current)
    ensures StatesLead(SledTrustPair(sled, latest, current), TrustPair(mem, latest, current))
    ensures latest.Height() != current.Height() ==> Keeps(TrustPair(mem, latest, current).store, current)
  {
    TrustedLeads(sled.trees, mem.store, current);
    TrustedLeads(SledInsert(sled.trees, current, Trusted), Insert(mem.store, current, Trusted), latest);
  }

  /** A step down on either store gives the same block and leaves the trees leading. */
  lemma StepsDownAgree(hash: HashFn, cl: Client, sled: SledState, mem: State, latest: LightBlock)
    requires HonoursHeights(cl) && WellKeyed(mem.store) && StatesLead(sled, mem)
    requires latest.Height() > 0 && Keeps(mem.store, latest)
    ensures var (got, sled') := SledStepDown(hash, cl, sled, latest);
            var (got', mem') := StepDown(hash, cl, mem, latest);
            && got == got' && StatesLead(sled', mem')
            && (got.Ok? ==> Keeps(mem'.store, got.value))
  {
    var below := latest.Height() - 1;
    LookupsAgree(cl, sled, mem, below);
    GetOrFetchKeepsHeights(cl, mem, below);
    var (got, sled1) := SledGetOrFetch(cl, sled, below);
    var mem1 := GetOrFetch(cl, mem, below).1;
    if got.Ok? && CheckLink(hash, latest, got.value).Ok? {
      assert Keeps(mem1.store, latest);
      PairLeads(sled1, mem1, latest, got.value);
    }
  }

  // ---- Calls and runs ------------------------------------------------------

  /** The descent on the trees; the ghost state is the one on the map beside it. */
  function SledDescend(
    hash: HashFn, cl: Client, sled: SledState, ghost mem: State, latest: LightBlock, target: Height)
    : (r: (Outcome, SledState))
    requires HonoursHeights(cl) && WellKeyed(mem.store) && StatesLead(sled, mem)
    requires target <= latest.Height() && Keeps(mem.store, latest)
    ensures r.0 == Descend(hash, cl, mem, latest, target).0
    ensures StatesLead(r.1, Descend(hash, cl, mem, latest, target).1)
    decreases latest.Height() - target
  {
    if latest.Height() == target then (Ok(latest), sled)
    else
      StepDownKeepsHeights(hash, cl, mem, latest);
      StepsDownAgree(hash, cl, sled, mem, latest);
      var (got, sled') := SledStepDown(hash, cl, sled, latest);
      if got.Err? then (got, sled')
      else SledDescend(hash, cl, sled', StepDown(hash, cl, mem, latest).1, got.value, target)
  }

  function SledRootFor(t: SledTrees, target: Height): Option<LightBlock> {
    var before := SledHighestTrustedOrVerifiedBefore(t, target);
    if before.Some? then before else SledLowestTrustedOrVerified(t)
  }

  lemma RootsAgree(t: SledTrees, s: StoreMap, target: Height)
    requires Leads(t, s) && WellKeyed(s)
    ensures SledRootFor(t, target) == RootFor(s, target)
    ensures RootFor(s, target).Some? ==> Keeps(s, RootFor(s, target).value)
  {
    DerivedAnswersAgree(t, s, target, target);
    var before, low := HighestTrustedOrVerifiedBefore(s, target), LowestTrustedOrVerified(s);
    if before.Some? {
      HighestBeforeIff(s, target, before.value);
    } else if low.Some? {
      LowestIff(s, low.value);
    }
  }

  function SledVerifyBackwardFrom(
    hash: HashFn, cl: Client, sled: SledState, ghost mem: State, root: LightBlock, target: Height)
    : (r: (Outcome, SledState))
    requires HonoursHeights(cl) && WellKeyed(mem.store) && StatesLead(sled, mem)
    requires target <= root.Height() && Keeps(mem.store, root)
    ensures r.0 == VerifyBackwardFrom(hash, cl, mem, root, target).0
    ensures StatesLead(r.1, VerifyBackwardFrom(hash, cl, mem, root, target).1)
  {
    var later := sled.(tick := sled.tick + 1);
    if !WithinTrustPeriod(root, cl.options.trustingPeriod, cl.clock(sled.tick)) then
      (Err(TrustedStateOutsideTrustingPeriod(root, cl.options)), later)
    else
      SledDescend(hash, cl, later, mem.(tick := mem.tick + 1), root, target)
  }

  /** A call either way ends alike on both stores. */
  function SledVerifyEitherWay(hash: HashFn, cl: Client, sled: SledState, ghost mem: State, target: Height)
    : (r: (Outcome, SledState))
    requires HonoursHeights(cl) && SensibleVerifier(cl) && WellKeyed(mem.store) && StatesLead(sled, mem)
    ensures r.0 == VerifyEitherWay(hash, cl, mem, target).0
    ensures StatesLead(r.1, VerifyEitherWay(hash, cl, mem, target).1)
  {
    DerivedAnswersAgree(sled.trees, mem.store, target, target);
    RootsAgree(sled.trees, mem.store, target);
    var known := SledGetTrustedOrVerified(sled.trees, target);
    if known.Some? then (Ok(known.value), sled) else
    var root := SledRootFor(sled.trees, target);
    if root.None? then (Err(NoInitialTrustedState), sled)
    else if target >= root.value.Height() then
      TargetIsReady(mem.store, target);
      SledForward(cl, sled, mem, target, target)
    else
      SledVerifyBackwardFrom(hash, cl, sled, mem, root.value, target)
  }

  function SledRunEitherWay(hash: HashFn, cl: Client, sled: SledState, ghost mem: State, targets: seq<Height>)
    : (sled': SledState)
    requires HonoursHeights(cl) && SensibleVerifier(cl) && WellKeyed(mem.store) && StatesLead(sled, mem)
    ensures StatesLead(sled', RunEitherWay(hash, cl, mem, targets))
    decreases |targets|
  {
    if targets == [] then sled
    else
      EitherWayKeepsKeys(hash, cl, mem, targets[0]);
      SledRunEitherWay(hash, cl, SledVerifyEitherWay(hash, cl, sled, mem, targets[0]).1,
                       VerifyEitherWay(hash, cl, mem, targets[0]).1, targets[1..])
  }

  /** What holds of the trees and the map after any calls. */
  ghost predicate AnswersAlike(t: SledTrees, s: StoreMap, height: Height, status: Status) {
    && SledGetNonFailed(t, height) == GetNonFailed(s, height)
    && SledGetTrustedOrVerified(t, height) == GetTrustedOrVerified(s, height)
    && SledHighestTrustedOrVerifiedBefore(t, height) == HighestTrustedOrVerifiedBefore(s, height)
    && SledLowestTrustedOrVerified(t) == LowestTrustedOrVerified(s)
    && (SledGet(t, height, status) == Get(s, height, status) <==> !Shadowed(t, height, status))
    && (Agree(t, s) <==> Disjoint(t))
  }

  lemma LeadingAnswersAlike(t: SledTrees, s: StoreMap, height: Height, status: Status)
    requires Leads(t, s) && WellKeyed(s)
    ensures AnswersAlike(t, s, height, status)
  {
    DerivedAnswersAgree(t, s, height, height);
    GetAgreesIff(t, s, height, status);
    AgreeIffDisjoint(t, s);
  }

  /**
   After any mix of calls from one trusted block, a further call ends alike on
   both stores, all queries that the client makes are answered alike, and a
   single query exactly if its height is not also stored under a status that
   comes before.
   */
  lemma StoresServeAlikeInEveryRun(
    hash: HashFn, cl: Client, trusted: LightBlock, targets: seq<Height>, last: Height, height: Height, status: Status)
    requires HonoursHeights(cl) && SensibleVerifier(cl)
    ensures var mem0 := State(Insert(map[], trusted, Trusted), map[], 0);
            var sled0 := SledState(SledInsert(EMPTY_TREES, trusted, Trusted), map[], 0);
            && WellKeyed(mem0.store) && StatesLead(sled0, mem0)
            && var mem := RunEitherWay(hash, cl, mem0, targets);
               var sled := SledRunEitherWay(hash, cl, sled0, mem0, targets);
               && SledVerifyEitherWay(hash, cl, sled, mem, last).0 == VerifyEitherWay(hash, cl, mem, last).0
               && sled.trace == mem.trace
               && AnswersAlike(sled.trees, mem.store, height, status)
  {
    var mem0 := State(Insert(map[], trusted, Trusted), map[], 0);
    var sled0 := SledState(SledInsert(EMPTY_TREES, trusted, Trusted), map[], 0);
    FirstInsertAgrees(trusted);
    AgreeingLeads(sled0.trees, mem0.store);
    var mem := RunEitherWay(hash, cl, mem0, targets);
    var sled := SledRunEitherWay(hash, cl, sled0, mem0, targets);
    LeadingAnswersAlike(sled.trees, mem.store, height, status);
  }

  /** A step down from the lowest believed block always leaves the block below under two statuses. */
  lemma StepDownShadows(hash: HashFn, cl: Client, sled: SledState, mem: State, latest: LightBlock)
    requires HonoursHeights(cl) && WellKeyed(mem.store) && StatesLead(sled, mem)
    requires latest.Height() > 0 && StandsAt(mem.store, latest) && SledStepDown(hash, cl, sled, latest).0.Ok?
    ensures var sled' := SledStepDown(hash, cl, sled, latest).1;
            && Shadowed(sled'.trees, latest.Height() - 1, Unverified)
            && !Agree(sled'.trees, StepDown(hash, cl, mem, latest).1.store)
  {
    var below := latest.Height() - 1;
    StepsDownAgree(hash, cl, sled, mem, latest);
    LookupsAgree(cl, sled, mem, below);
    assert LeadsAt(sled.trees, mem.store, below) && !Believed(mem.store, below);
    var sled' := SledStepDown(hash, cl, sled, latest).1;
    assert below in sled'.trees.unverified && below in sled'.trees.trusted;
    GetAgreesIff(sled'.trees, StepDown(hash, cl, mem, latest).1.store, below, Unverified);
  }
}
