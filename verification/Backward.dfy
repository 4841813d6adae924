/**
 Backward verification of light-client/src/light_client.rs (built with the
 `unstable` feature): from the lowest trusted block down to the target, each
 block has to have the hash that the block above it names as its predecessor.
 */
module Backward {
  import opened Common
  import opened Types
  import opened Blocks
  import opened LightStores
  import opened LightClient
  import opened LightClientImpl
  import opened BelievedBlocks
  import opened Safety

  /** The stored block that has not failed, or else a fetched one, which is then stored as Unverified. */
  function GetOrFetch(cl: Client, st: State, height: Height): (Outcome, State) {
    var stored := GetNonFailed(st.store, height);
    var later := st.(tick := st.tick + 1);
    if stored.Some? then (Ok(stored.value.0), later)
    else
      match cl.fetch(st.tick, height)
      case Err(e) => (Err(Io(e)), later)
      case Ok(b) => (Ok(b), later.(store := Insert(st.store, b, Unverified)))
  }

  /** Whether `latest` names `current` as its predecessor. */
  function CheckLink(hash: HashFn, latest: LightBlock, current: LightBlock): Result<(), ClientError> {
    match latest.Header().lastBlockId
    case None => Err(MissingLastBlockId(latest.Height()))
    case Some(id) =>
      var found := hash(current.Header());
      if found != id.hash then Err(InvalidAdjacentHeaders(found, id.hash)) else Ok(())
  }

  /** Both blocks become trusted, and `latest` counts as verified using `current`. */
  function TrustPair(st: State, latest: LightBlock, current: LightBlock): State {
    State(Insert(Insert(st.store, current, Trusted), latest, Trusted),
          TraceBlock(st.trace, latest.Height(), current.Height()), st.tick)
  }

  lemma GetOrFetchKeepsHeights(cl: Client, st: State, height: Height)
    requires HonoursHeights(cl) && WellKeyed(st.store)
    ensures var (got, st') := GetOrFetch(cl, st, height);
            && (got.Ok? ==> got.value.Height() == height) && WellKeyed(st'.store)
            && (forall h :: h in st.store && h != height ==> h in st'.store && st'.store[h] == st.store[h])
  {
    GetNonFailedIff(st.store, height);
  }

  /** One step down: the block below `latest`, if `latest` names it; both are then trusted. */
  function StepDown(hash: HashFn, cl: Client, st: State, latest: LightBlock): (Outcome, State)
    requires latest.Height() > 0
  {
    var (got, st1) := GetOrFetch(cl, st, latest.Height() - 1);
    if got.Err? then (Err(got.error), st1) else
    var link := CheckLink(hash, latest, got.value);
    if link.Err? then (Err(link.error), st1) else
    (got, TrustPair(st1, latest, got.value))
  }

  lemma StepDownKeepsHeights(hash: HashFn, cl: Client, st: State, latest: LightBlock)
    requires HonoursHeights(cl) && WellKeyed(st.store) && latest.Height() > 0
    ensures var (got, st') := StepDown(hash, cl, st, latest);
            WellKeyed(st'.store) && (got.Ok? ==> got.value.Height() == latest.Height() - 1)
  {
    GetOrFetchKeepsHeights(cl, st, latest.Height() - 1);
  }

  /** The descent from `latest` to the target. */
  function Descend(hash: HashFn, cl: Client, st: State, latest: LightBlock, target: Height): (Outcome, State)
    requires HonoursHeights(cl) && WellKeyed(st.store) && target <= latest.Height()
    decreases latest.Height() - target
  {
    if latest.Height() == target then (Ok(latest), st)
    else
      StepDownKeepsHeights(hash, cl, st, latest);
      var (got, st') := StepDown(hash, cl, st, latest);
      if got.Err? then (got, st') else Descend(hash, cl, st', got.value, target)
  }

  /** Where the descent starts: the highest trusted block up to the target, or else the lowest of all. */
  function RootFor(s: StoreMap, target: Height): Option<LightBlock> {
    var before := HighestTrustedOrVerifiedBefore(s, target);
    if before.Some? then before else LowestTrustedOrVerified(s)
  }

  function VerifyBackwardFrom(hash: HashFn, cl: Client, st: State, root: LightBlock, target: Height): (Outcome, State)
    requires HonoursHeights(cl) && WellKeyed(st.store) && target <= root.Height()
  {
    if !WithinTrustPeriod(root, cl.options.trustingPeriod, cl.clock(st.tick)) then
      (Err(TrustedStateOutsideTrustingPeriod(root, cl.options)), st.(tick := st.tick + 1))
    else
      Descend(hash, cl, st.(tick := st.tick + 1), root, target)
  }

  /** The source asserts that the root is not below the target. */
  function VerifyBackward(hash: HashFn, cl: Client, st: State, target: Height): (Outcome, State)
    requires HonoursHeights(cl) && WellKeyed(st.store)
    requires RootFor(st.store, target).Some? ==> RootFor(st.store, target).value.Height() >= target
  {
    var root := RootFor(st.store, target);
    if root.None? then (Err(NoInitialTrustedState), st)
    else VerifyBackwardFrom(hash, cl, st, root.value, target)
  }

  /** The dispatch in `verify_to_target`: its branch is what the assertion above needs. */
  function VerifyEitherWay(hash: HashFn, cl: Client, st: State, target: Height): (Outcome, State)
    requires HonoursHeights(cl) && SensibleVerifier(cl) && WellKeyed(st.store)
  {
    var known := GetTrustedOrVerified(st.store, target);
    if known.Some? then (Ok(known.value), st) else
    var highest := RootFor(st.store, target);
    if highest.None? then (Err(NoInitialTrustedState), st)
    else if target >= highest.value.Height() then
      TargetIsReady(st.store, target);
      Forward(cl, st, target, target)
    else
      VerifyBackward(hash, cl, st, target)
  }

  /** The call goes down from the lowest trusted or verified block. */
  ghost predicate GoesDown(s: StoreMap, target: Height) {
    RootFor(s, target).Some? && target < RootFor(s, target).value.Height()
  }

  /** Above the lowest trusted or verified block the two builds do the same. */
  lemma EitherWayIs(hash: HashFn, cl: Client, st: State, target: Height)
    requires HonoursHeights(cl) && SensibleVerifier(cl) && WellKeyed(st.store)
    ensures VerifyEitherWay(hash, cl, st, target)
         == if GoesDown(st.store, target) then VerifyBackward(hash, cl, st, target)
            else VerifyToTarget(cl, st, target)
  {
    if GoesDown(st.store, target) {
      RootIsLowest(st.store, target);
      LowestIff(st.store, RootFor(st.store, target).value);
      assert !Believed(st.store, target);
    }
  }

  method StepDownInPlace(hash: HashFn, lc: LightClientInstance, latest: LightBlock, state: ClientState)
    returns (r: Outcome)
    requires HonoursHeights(lc.client) && WellKeyed(state.lightStore.store) && latest.Height() > 0
    modifies lc, state, state.lightStore
    ensures state.lightStore == old(state.lightStore)
    ensures (r, lc.View(state)) == StepDown(hash, lc.client, old(lc.View(state)), latest)
  {
    GetOrFetchKeepsHeights(lc.client, lc.View(state), latest.Height() - 1);
    var t := lc.tick;
    lc.tick := t + 1;
    var got := lc.GetOrFetchBlock(t, latest.Height() - 1, state);
    if got.Err? {
      return Err(got.error);
    }
    var current := got.value.0;
    var link := CheckLink(hash, latest, current);
    if link.Err? {
      return Err(link.error);
    }
    state.lightStore.InsertBlock(current, Trusted);
    state.lightStore.InsertBlock(latest, Trusted);
    state.TraceBlock(latest.Height(), current.Height());
    return Ok(current);
  }

  /** The descent as the source runs it, over the heights from below the root down to the target. */
  method DescendInPlace(
    hash: HashFn, lc: LightClientInstance, root: LightBlock, target: Height, state: ClientState)
    returns (r: Outcome)
    requires HonoursHeights(lc.client) && WellKeyed(state.lightStore.store) && target <= root.Height()
    modifies lc, state, state.lightStore
    ensures state.lightStore == old(state.lightStore)
    ensures (r, lc.View(state)) == Descend(hash, lc.client, old(lc.View(state)), root, target)
  {
    ghost var whole := Descend(hash, lc.client, lc.View(state), root, target);
    var latest := root;
    while latest.Height() > target
      invariant state.lightStore == old(state.lightStore)
      invariant WellKeyed(state.lightStore.store) && target <= latest.Height()
      invariant whole == Descend(hash, lc.client, lc.View(state), latest, target)
      decreases latest.Height()
    {
      StepDownKeepsHeights(hash, lc.client, lc.View(state), latest);
      var current := StepDownInPlace(hash, lc, latest, state);
      if current.Err? {
        return current;
      }
      latest := current.value;
    }
    return Ok(latest);
  }

  /** Backward verification with the assertions of the source, neither of which can fail. */
  method VerifyBackwardInPlace(hash: HashFn, lc: LightClientInstance, target: Height, state: ClientState)
    returns (r: Outcome)
    requires HonoursHeights(lc.client) && WellKeyed(state.lightStore.store)
    requires GoesDown(state.lightStore.store, target)
    modifies lc, state, state.lightStore
    ensures state.lightStore == old(state.lightStore)
    ensures (r, lc.View(state)) == VerifyBackward(hash, lc.client, old(lc.View(state)), target)
  {
    var found := RootFor(state.lightStore.store, target);
    if found.None? {
      return Err(NoInitialTrustedState);
    }
    var root := found.value;
    assert root.Height() >= target;
    var now := lc.client.clock(lc.tick);
    lc.tick := lc.tick + 1;
    if !WithinTrustPeriod(root, lc.client.options.trustingPeriod, now) {
      return Err(TrustedStateOutsideTrustingPeriod(root, lc.client.options));
    }
    DescentEndsAtTarget(hash, lc.client, lc.View(state), root, target);
    r := DescendInPlace(hash, lc, root, target, state);
    assert r.Ok? ==> r.value.Height() == target;
  }

  /** The call as the unstable build makes it. */
  method VerifyEitherWayInPlace(hash: HashFn, lc: LightClientInstance, target: Height, state: ClientState)
    returns (r: Outcome)
    requires HonoursHeights(lc.client) && SensibleVerifier(lc.client) && WellKeyed(state.lightStore.store)
    modifies lc, state, state.lightStore
    ensures state.lightStore == old(state.lightStore)
    ensures (r, lc.View(state)) == VerifyEitherWay(hash, lc.client, old(lc.View(state)), target)
  {
    var known := GetTrustedOrVerified(state.lightStore.store, target);
    if known.Some? {
      return Ok(known.value);
    }
    var highest := HighestTrustedOrVerifiedBefore(state.lightStore.store, target);
    if highest.None? {
      highest := LowestTrustedOrVerified(state.lightStore.store);
    }
    if highest.None? {
      return Err(NoInitialTrustedState);
    }
    if target >= highest.value.Height() {
      r := lc.VerifyForward(target, state);
    } else {
      r := VerifyBackwardInPlace(hash, lc, target, state);
    }
  }

  // ---- What success means --------------------------------------------------

  /** The block at `h + 1` names the block at `h` as its predecessor, by hash. */
  ghost predicate HashLinked(hash: HashFn, s: StoreMap, h: Height)
    requires h < I64_MAX
  {
    && h in s && h + 1 in s
    && s[h + 1].lightBlock.Header().lastBlockId.Some?
    && s[h + 1].lightBlock.Header().lastBlockId.value.hash == hash(s[h].lightBlock.Header())
  }

  ghost predicate TrustedAt(s: StoreMap, h: Height) {
    h in s && s[h].status.Trusted?
  }

  /** All blocks from `lo` to `hi` are trusted, and each names the one below. */
  ghost predicate TrustedChain(hash: HashFn, s: StoreMap, lo: Height, hi: Height)
    requires lo <= hi
    decreases hi - lo
  {
    TrustedAt(s, lo) && (lo < hi ==> HashLinked(hash, s, lo) && TrustedChain(hash, s, lo + 1, hi))
  }

  lemma {:induction false} SubChain(hash: HashFn, s: StoreMap, lo: Height, hi: Height, h: Height)
    requires lo <= h <= hi && TrustedChain(hash, s, lo, hi)
    ensures TrustedChain(hash, s, h, hi)
    decreases hi - lo
  {
    if lo < h {
      SubChain(hash, s, lo + 1, hi, h);
    }
  }

  lemma {:induction false} ChainSurvives(hash: HashFn, s: StoreMap, s': StoreMap, lo: Height, hi: Height)
    requires lo <= hi && TrustedChain(hash, s, lo, hi)
    requires forall h :: h in s && lo <= h <= hi ==> h in s' && s'[h] == s[h]
    ensures TrustedChain(hash, s', lo, hi)
    decreases hi - lo
  {
    if lo < hi {
      ChainSurvives(hash, s, s', lo + 1, hi);
    }
  }

  /** One step down extends a chain of trusted blocks by one. */
  lemma StepExtendsChain(hash: HashFn, st: State, latest: LightBlock, current: LightBlock, top: Height)
    requires WellKeyed(st.store) && latest.Height() <= top && current.Height() + 1 == latest.Height()
    requires CheckLink(hash, latest, current).Ok?
    requires latest.Height() in st.store && st.store[latest.Height()].lightBlock == latest
    requires latest.Height() < top ==> TrustedChain(hash, st.store, latest.Height(), top)
    ensures TrustedChain(hash, TrustPair(st, latest, current).store, current.Height(), top)
  {
    var s, s' := st.store, TrustPair(st, latest, current).store;
    assert TrustedAt(s', latest.Height()) && TrustedAt(s', current.Height());
    assert HashLinked(hash, s', current.Height());
    if latest.Height() < top {
      ChainSurvives(hash, s, s', latest.Height(), top);
    }
  }

  /**
   What the descent has reached when it stands at `latest`, having started at
   `top`: both are stored, and everything between is trusted and linked.
   */
  ghost predicate Descended(hash: HashFn, s: StoreMap, latest: LightBlock, top: LightBlock) {
    && WellKeyed(s) && latest.Height() <= top.Height()
    && latest.Height() in s && s[latest.Height()].lightBlock == latest
    && top.Height() in s && s[top.Height()].lightBlock == top
    && (latest.Height() < top.Height() ==> TrustedChain(hash, s, latest.Height(), top.Height()))
  }

  lemma FetchKeepsDescent(hash: HashFn, cl: Client, st: State, latest: LightBlock, top: LightBlock)
    requires HonoursHeights(cl) && Descended(hash, st.store, latest, top) && latest.Height() > 0
    ensures Descended(hash, GetOrFetch(cl, st, latest.Height() - 1).1.store, latest, top)
  {
    GetOrFetchKeepsHeights(cl, st, latest.Height() - 1);
    if latest.Height() < top.Height() {
      ChainSurvives(hash, st.store, GetOrFetch(cl, st, latest.Height() - 1).1.store, latest.Height(), top.Height());
    }
  }

  lemma TrustPairDescends(hash: HashFn, st: State, latest: LightBlock, current: LightBlock, top: LightBlock)
    requires Descended(hash, st.store, latest, top) && current.Height() + 1 == latest.Height()
    requires CheckLink(hash, latest, current).Ok?
    ensures Descended(hash, TrustPair(st, latest, current).store, current, top)
  {
    StepExtendsChain(hash, st, latest, current, top.Height());
  }

  lemma StepDownDescends(hash: HashFn, cl: Client, st: State, latest: LightBlock, top: LightBlock)
    requires HonoursHeights(cl) && Descended(hash, st.store, latest, top) && latest.Height() > 0
    ensures var (got, st') := StepDown(hash, cl, st, latest);
            got.Ok? ==> Descended(hash, st'.store, got.value, top)
  {
    var (got, st1) := GetOrFetch(cl, st, latest.Height() - 1);
    GetOrFetchKeepsHeights(cl, st, latest.Height() - 1);
    FetchKeepsDescent(hash, cl, st, latest, top);
    if got.Ok? && CheckLink(hash, latest, got.value).Ok? {
      TrustPairDescends(hash, st1, latest, got.value, top);
    }
  }

  /** A successful descent reaches the target. */
  lemma {:induction false} DescentReachesTarget(
    hash: HashFn, cl: Client, st: State, latest: LightBlock, target: Height, top: LightBlock)
    requires HonoursHeights(cl) && WellKeyed(st.store) && target <= latest.Height()
    requires Descended(hash, st.store, latest, top)
    ensures var (r, st') := Descend(hash, cl, st, latest, target);
            r.Ok? ==> r.value.Height() == target && Descended(hash, st'.store, r.value, top)
    decreases latest.Height() - target
  {
    if target < latest.Height() {
      var (got, st') := StepDown(hash, cl, st, latest);
      StepDownKeepsHeights(hash, cl, st, latest);
      StepDownDescends(hash, cl, st, latest, top);
      if got.Ok? {
        DescentReachesTarget(hash, cl, st', got.value, target, top);
      }
    }
  }

  lemma BackwardFromIsLinked(hash: HashFn, cl: Client, st: State, root: LightBlock, target: Height)
    requires HonoursHeights(cl) && Descended(hash, st.store, root, root) && target < root.Height()
    ensures var (r, st') := VerifyBackwardFrom(hash, cl, st, root, target);
            r.Ok? ==> r.value.Height() == target && Descended(hash, st'.store, r.value, root)
  {
    DescentReachesTarget(hash, cl, st.(tick := st.tick + 1), root, target, root);
  }

  lemma {:induction false} DescentEndsAtTarget(
    hash: HashFn, cl: Client, st: State, latest: LightBlock, target: Height)
    requires HonoursHeights(cl) && WellKeyed(st.store) && target <= latest.Height()
    ensures var (r, _) := Descend(hash, cl, st, latest, target); r.Ok? ==> r.value.Height() == target
    decreases latest.Height() - target
  {
    if target < latest.Height() {
      var (got, st') := StepDown(hash, cl, st, latest);
      StepDownKeepsHeights(hash, cl, st, latest);
      if got.Ok? {
        DescentEndsAtTarget(hash, cl, st', got.value, target);
      }
    }
  }

  /**
   A call that goes down returns the block of the target height, and all heights
   from there to the root, which is the lowest block that was trusted or
   verified, are trusted and linked by hash.
   */
  lemma BackwardIsLinked(hash: HashFn, cl: Client, st: State, target: Height)
    requires HonoursHeights(cl) && SensibleVerifier(cl) && WellKeyed(st.store) && GoesDown(st.store, target)
    ensures var root := RootFor(st.store, target).value;
            var (r, st') := VerifyEitherWay(hash, cl, st, target);
            && LowestBelieved(st.store, root.Height())
            && (r.Ok? ==> r.value.Height() == target && Descended(hash, st'.store, r.value, root))
  {
    var root := RootFor(st.store, target).value;
    EitherWayIs(hash, cl, st, target);
    RootDescends(hash, st.store, target);
    RootIsLowest(st.store, target);
    LowestIff(st.store, root);
    BackwardFromIsLinked(hash, cl, st, root, target);
  }

  lemma RootDescends(hash: HashFn, s: StoreMap, target: Height)
    requires WellKeyed(s)
    requires GoesDown(s, target)
    ensures var root := RootFor(s, target).value; Descended(hash, s, root, root)
  {
    RootIsLowest(s, target);
    LowestIff(s, RootFor(s, target).value);
  }

  lemma RootIsLowest(s: StoreMap, target: Height)
    requires WellKeyed(s)
    requires GoesDown(s, target)
    ensures LowestTrustedOrVerified(s) == RootFor(s, target)
  {
    var before := HighestTrustedOrVerifiedBefore(s, target);
    if before.Some? {
      HighestBeforeIff(s, target, before.value);
    }
  }

  // ---- The chain below a chain block ---------------------------------------

  /** A chain header that names a predecessor names the chain's header one below. */
  ghost predicate ChainIsLinked(w: World) {
    forall h {:trigger NamesPredecessor(w, h)} :: h in w.headers ==> NamesPredecessor(w, h)
  }

  ghost predicate NamesPredecessor(w: World, h: Height)
    requires h in w.headers
  {
    var id := w.headers[h].lastBlockId;
    id.Some? && id.value != DEFAULT_BLOCK_ID ==> h > 0 && OnChain(w, h - 1, id.value.hash)
  }

  lemma ChainBlockNamesPredecessor(w: World, latest: LightBlock, id: BlockId)
    requires ChainIsLinked(w) && IsChainBlock(w, latest)
    requires latest.Header().lastBlockId == Some(id) && id != DEFAULT_BLOCK_ID
    ensures latest.Height() > 0 && OnChain(w, latest.Height() - 1, id.hash)
  {
    var header := w.headers[latest.Height()];
    assert Canonical(latest.Header()).lastBlockId == Canonical(header).lastBlockId;
    assert NamesPredecessor(w, latest.Height());
  }

  /** The predecessor that a chain block names by hash is a chain block. */
  lemma PredecessorIsChainBlock(w: World, latest: LightBlock, id: BlockId, current: LightBlock)
    requires SoundChain(w) && ChainIsLinked(w)
    requires IsChainBlock(w, latest) && KnownData(w, current)
    requires latest.Header().lastBlockId == Some(id) && id.hash == HeaderHash(w.crypto, current.Header())
    ensures IsChainBlock(w, current)
  {
    RealHashIsNoDefault(w.crypto, current.Header(), id);
    ChainBlockNamesPredecessor(w, latest, id);
    HashMakesChainBlock(w, current, latest.Height() - 1);
  }

  lemma RealHashIsNoDefault(c: Crypto, header: Header, id: BlockId)
    requires id.hash == HeaderHash(c, header)
    ensures id != DEFAULT_BLOCK_ID
  {
  }

  /** The Merkle hash of the header. */
  ghost predicate IsHeaderHash(w: World, hash: HashFn) {
    forall h :: hash(h) == HeaderHash(w.crypto, h)
  }

  ghost predicate KnownAt(w: World, s: StoreMap, h: Height) {
    h in s ==> KnownData(w, s[h].lightBlock)
  }

  ghost predicate AllKnown(w: World, s: StoreMap) {
    forall h :: KnownAt(w, s, h)
  }

  ghost predicate ChainBlockAt(w: World, s: StoreMap, h: Height) {
    h in s && IsChainBlock(w, s[h].lightBlock)
  }

  lemma LinkMakesChainBlock(w: World, hash: HashFn, s: StoreMap, h: Height)
    requires SoundChain(w) && ChainIsLinked(w) && IsHeaderHash(w, hash) && AllKnown(w, s)
    requires h < I64_MAX && HashLinked(hash, s, h) && ChainBlockAt(w, s, h + 1)
    ensures ChainBlockAt(w, s, h)
  {
    assert KnownAt(w, s, h);
    PredecessorIsChainBlock(w, s[h + 1].lightBlock, s[h + 1].lightBlock.Header().lastBlockId.value, s[h].lightBlock);
  }

  /** What passes from each block of a trusted chain to the one it names reaches the bottom. */
  lemma {:induction false} DownTheChain(hash: HashFn, s: StoreMap, p: Height -> bool, h: Height, top: Height)
    requires h <= top && TrustedChain(hash, s, h, top) && p(top)
    requires forall x: Height :: x < I64_MAX && HashLinked(hash, s, x) && p(x + 1) ==> p(x)
    ensures p(h)
    decreases top - h
  {
    if h < top {
      DownTheChain(hash, s, p, h + 1, top);
      assert HashLinked(hash, s, h);
    }
  }

  /** Every block of a trusted chain whose top is a chain block is a chain block. */
  lemma TrustedChainIsChain(w: World, hash: HashFn, s: StoreMap, h: Height, top: Height)
    requires SoundChain(w) && ChainIsLinked(w) && IsHeaderHash(w, hash) && AllKnown(w, s)
    requires h <= top && TrustedChain(hash, s, h, top) && ChainBlockAt(w, s, top)
    ensures ChainBlockAt(w, s, h)
  {
    var p := (x: Height) => ChainBlockAt(w, s, x);
    forall x: Height | x < I64_MAX && HashLinked(hash, s, x) && p(x + 1)
      ensures p(x)
    {
      LinkMakesChainBlock(w, hash, s, x);
    }
    DownTheChain(hash, s, p, h, top);
  }

  // ---- Safety of a call that goes down -------------------------------------

  /** Every stored block can be had by now. */
  ghost predicate AllHad(have: Supply, s: StoreMap, now: Time) {
    WellKeyed(s) && forall h :: h in s ==> have(s[h].lightBlock, now)
  }

  lemma StepDownKeepsSupply(hash: HashFn, cl: Client, have: Supply, st: State, latest: LightBlock)
    requires HonoursHeights(cl) && Supplied(cl, have) && latest.Height() > 0
    requires AllHad(have, st.store, cl.clock(st.tick)) && have(latest, cl.clock(st.tick))
    ensures var (got, st') := StepDown(hash, cl, st, latest);
            && st'.tick == st.tick + 1 && AllHad(have, st'.store, cl.clock(st'.tick))
            && (got.Ok? ==> have(got.value, cl.clock(st'.tick)))
  {
    assert Lasting(cl, have, st.tick);
    GetNonFailedIff(st.store, latest.Height() - 1);
    StepDownKeepsHeights(hash, cl, st, latest);
  }

  lemma {:induction false} DescentKeepsSupply(
    hash: HashFn, cl: Client, have: Supply, st: State, latest: LightBlock, target: Height)
    requires HonoursHeights(cl) && Supplied(cl, have) && target <= latest.Height()
    requires AllHad(have, st.store, cl.clock(st.tick)) && have(latest, cl.clock(st.tick))
    ensures var (_, st') := Descend(hash, cl, st, latest, target); AllHad(have, st'.store, cl.clock(st'.tick))
    decreases latest.Height() - target
  {
    if target < latest.Height() {
      var (got, st') := StepDown(hash, cl, st, latest);
      StepDownKeepsSupply(hash, cl, have, st, latest);
      StepDownKeepsHeights(hash, cl, st, latest);
      if got.Ok? {
        DescentKeepsSupply(hash, cl, have, st', got.value, target);
      }
    }
  }

  lemma StillHad(cl: Client, have: Supply, s: StoreMap, b: LightBlock, tick: nat)
    requires Supplied(cl, have) && AllHad(have, s, cl.clock(tick)) && have(b, cl.clock(tick))
    ensures AllHad(have, s, cl.clock(tick + 1)) && have(b, cl.clock(tick + 1))
  {
    assert Lasting(cl, have, tick);
  }

  lemma BackwardFromKeepsSupply(
    hash: HashFn, cl: Client, have: Supply, st: State, root: LightBlock, target: Height)
    requires HonoursHeights(cl) && Supplied(cl, have) && target <= root.Height()
    requires AllHad(have, st.store, cl.clock(st.tick)) && have(root, cl.clock(st.tick))
    ensures var (_, st') := VerifyBackwardFrom(hash, cl, st, root, target);
            AllHad(have, st'.store, cl.clock(st'.tick))
  {
    StillHad(cl, have, st.store, root, st.tick);
    DescentKeepsSupply(hash, cl, have, st.(tick := st.tick + 1), root, target);
  }

  lemma BackwardKeepsSupply(hash: HashFn, cl: Client, have: Supply, st: State, target: Height)
    requires HonoursHeights(cl) && Supplied(cl, have) && AllHad(have, st.store, cl.clock(st.tick))
    requires GoesDown(st.store, target)
    ensures var (_, st') := VerifyBackward(hash, cl, st, target); AllHad(have, st'.store, cl.clock(st'.tick))
  {
    var root := RootFor(st.store, target).value;
    RootDescends(hash, st.store, target);
    BackwardFromKeepsSupply(hash, cl, have, st, root, target);
  }

  lemma HadIsKnown(w: World, s: StoreMap, now: Time)
    requires HonestBlocks(w) && AllHad(w.available, s, now)
    ensures AllKnown(w, s)
  {
  }

  /**
   From a root that is a chain block, a call that goes down leaves the chain's
   blocks at all heights from the target to the root, and returns the one at the
   target.
   */
  lemma BackwardIsSafe(w: World, hash: HashFn, cl: Client, st: State, target: Height, h: Height)
    requires SoundChain(w) && ChainIsLinked(w) && IsHeaderHash(w, hash) && HonestBlocks(w)
    requires HonoursHeights(cl) && SensibleVerifier(cl) && Supplied(cl, w.available)
    requires AllHad(w.available, st.store, cl.clock(st.tick)) && GoesDown(st.store, target)
    requires IsChainBlock(w, RootFor(st.store, target).value) && target <= h <= RootFor(st.store, target).value.Height()
    ensures var (r, st') := VerifyEitherWay(hash, cl, st, target);
            r.Ok? ==>
              && TrustedAt(st'.store, h) && ChainBlockAt(w, st'.store, h)
              && r.value.Height() == target && IsChainBlock(w, r.value)
  {
    var root := RootFor(st.store, target).value;
    var (r, st') := VerifyEitherWay(hash, cl, st, target);
    EitherWayIs(hash, cl, st, target);
    BackwardIsLinked(hash, cl, st, target);
    BackwardKeepsSupply(hash, cl, w.available, st, target);
    HadIsKnown(w, st'.store, cl.clock(st'.tick));
    if r.Ok? {
      DescendedIsChain(w, hash, st'.store, r.value, root, h);
      DescendedIsChain(w, hash, st'.store, r.value, root, target);
    }
  }

  lemma DescendedIsChain(w: World, hash: HashFn, s: StoreMap, latest: LightBlock, root: LightBlock, h: Height)
    requires SoundChain(w) && ChainIsLinked(w) && IsHeaderHash(w, hash) && AllKnown(w, s)
    requires Descended(hash, s, latest, root) && latest.Height() < root.Height() && IsChainBlock(w, root)
    requires latest.Height() <= h <= root.Height()
    ensures TrustedAt(s, h) && ChainBlockAt(w, s, h)
  {
    SubChain(hash, s, latest.Height(), root.Height(), h);
    assert ChainBlockAt(w, s, root.Height());
    TrustedChainIsChain(w, hash, s, h, root.Height());
  }
}
