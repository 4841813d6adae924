/**
 How calls that go down end: success with a peer that serves a chain linked by
 hash, and the cause of every error.
 */
module BackwardOutcomes {
  import opened Common
  import opened Types
  import opened Blocks
  import opened LightStores
  import opened LightClient
  import opened Outcomes
  import opened Backward

  /** `higher` names `lower` as its predecessor. */
  ghost predicate Names(hash: HashFn, higher: LightBlock, lower: LightBlock) {
    exists id :: higher.Header().lastBlockId == Some(id) && id.hash == hash(lower.Header())
  }

  /** A link is accepted exactly if the block is the named one, and each error says what is wrong. */
  lemma CheckLinkIff(hash: HashFn, latest: LightBlock, current: LightBlock)
    ensures var r, id := CheckLink(hash, latest, current), latest.Header().lastBlockId;
            && (r.Ok? <==> Names(hash, latest, current))
            && (id.None? ==> r == Err(MissingLastBlockId(latest.Height())))
            && (id.Some? && id.value.hash != hash(current.Header()) ==>
                  r == Err(InvalidAdjacentHeaders(hash(current.Header()), id.value.hash)))
  {
    var id := latest.Header().lastBlockId;
    if id.Some? && id.value.hash == hash(current.Header()) {
      assert latest.Header().lastBlockId == Some(id.value);
    }
  }

  // ---- Success -------------------------------------------------------------

  type Chain = map<Height, LightBlock>

  /** The chain has a block at every height from `low` to `high`, each naming the one below. */
  ghost predicate LinkedChain(hash: HashFn, chain: Chain, low: Height, high: Height) {
    && (forall h: Height :: low <= h <= high ==> h in chain && chain[h].Height() == h)
    && (forall h: Height {:trigger chain[h]} :: low < h <= high ==> Names(hash, chain[h], chain[h - 1]))
  }

  /** Below `high` the peer answers with the chain's blocks. */
  ghost predicate ServesDown(cl: Client, chain: Chain, low: Height, high: Height) {
    forall tick, h :: low <= h < high && h in chain ==> cl.fetch(tick, h) == Ok(chain[h])
  }

  /** What is stored below `high` and has not failed is the chain's. */
  ghost predicate StoresChain(s: StoreMap, chain: Chain, low: Height, high: Height) {
    forall h :: low <= h < high && h in s && h in chain ==> s[h].status.Failed? || s[h].lightBlock == chain[h]
  }

  /** What a descent from `high` to `low` leaves: the chain's blocks as Trusted, and nothing else changed. */
  ghost predicate Filled(s: StoreMap, s': StoreMap, chain: Chain, low: Height, high: Height) {
    forall h: Height ::
      if low <= h <= high && low < high
      then h in chain && h in s' && s'[h] == StoreEntry(chain[h], Trusted)
      else (h in s' <==> h in s) && (h in s ==> s'[h] == s[h])
  }

  /** Each block above `low` is traced to the one below it. */
  ghost predicate TracedDown(trace: VerificationTrace, trace': VerificationTrace, low: Height, high: Height) {
    && (forall h: Height :: low < h <= high ==> h in trace' && h - 1 in trace'[h])
    && (forall h: Height :: !(low < h <= high) ==>
          (h in trace' <==> h in trace) && (h in trace ==> trace'[h] == trace[h]))
  }

  /** The stores are the same but at one height. */
  ghost predicate SameButAt(s: StoreMap, s1: StoreMap, x: Height) {
    forall h: Height :: h != x ==> (h in s1 <==> h in s) && (h in s ==> s1[h] == s[h])
  }

  lemma LookupGives(cl: Client, st: State, chain: Chain, h: Height)
    requires h in chain && chain[h].Height() == h && cl.fetch(st.tick, h) == Ok(chain[h])
    requires h in st.store ==> st.store[h].status.Failed? || st.store[h].lightBlock == chain[h]
    ensures var (got, st1) := GetOrFetch(cl, st, h);
            got == Ok(chain[h]) && SameButAt(st.store, st1.store, h) && st1.trace == st.trace
  {
    GetNonFailedIff(st.store, h);
  }

  lemma PairFills(s: StoreMap, st1: State, chain: Chain, h: Height)
    requires 0 < h && h in chain && h - 1 in chain && chain[h].Height() == h && chain[h - 1].Height() == h - 1
    requires SameButAt(s, st1.store, h - 1)
    ensures Filled(s, TrustPair(st1, chain[h], chain[h - 1]).store, chain, h - 1, h)
    ensures TracedDown(st1.trace, TrustPair(st1, chain[h], chain[h - 1]).trace, h - 1, h)
  {
  }

  lemma StepSucceeds(hash: HashFn, cl: Client, st: State, latest: LightBlock, chain: Chain, low: Height)
    requires low < latest.Height() && LinkedChain(hash, chain, low, latest.Height())
    requires chain[latest.Height()] == latest
    requires ServesDown(cl, chain, low, latest.Height()) && StoresChain(st.store, chain, low, latest.Height())
    ensures var (got, st') := StepDown(hash, cl, st, latest);
            var below := latest.Height() - 1;
            && got == Ok(chain[below])
            && Filled(st.store, st'.store, chain, below, latest.Height())
            && TracedDown(st.trace, st'.trace, below, latest.Height())
  {
    var below: Height := latest.Height() - 1;
    assert below in chain && chain[below].Height() == below;
    LookupGives(cl, st, chain, below);
    assert Names(hash, chain[latest.Height()], chain[below]);
    CheckLinkIff(hash, latest, chain[below]);
    PairFills(st.store, GetOrFetch(cl, st, below).1, chain, latest.Height());
  }

  lemma FilledTwice(s: StoreMap, s1: StoreMap, s2: StoreMap, chain: Chain, low: Height, mid: Height, high: Height)
    requires low <= mid < high && Filled(s, s1, chain, mid, high) && Filled(s1, s2, chain, low, mid)
    ensures Filled(s, s2, chain, low, high)
  {
  }

  lemma TracedTwice(
    t: VerificationTrace, t1: VerificationTrace, t2: VerificationTrace, low: Height, mid: Height, high: Height)
    requires low <= mid < high && TracedDown(t, t1, mid, high) && TracedDown(t1, t2, low, mid)
    ensures TracedDown(t, t2, low, high)
  {
  }

  lemma StillServed(
    hash: HashFn, cl: Client, s: StoreMap, s1: StoreMap, chain: Chain, low: Height, mid: Height, high: Height)
    requires low <= mid < high && LinkedChain(hash, chain, low, high)
    requires ServesDown(cl, chain, low, high) && StoresChain(s, chain, low, high) && Filled(s, s1, chain, mid, high)
    ensures LinkedChain(hash, chain, low, mid) && ServesDown(cl, chain, low, mid) && StoresChain(s1, chain, low, mid)
  {
  }

  /** The descent ends with the chain's block at the target, and leaves the chain's blocks above it. */
  ghost predicate Arrives(st: State, after: (Outcome, State), chain: Chain, low: Height, high: Height) {
    && low in chain && after.0 == Ok(chain[low])
    && Filled(st.store, after.1.store, chain, low, high) && TracedDown(st.trace, after.1.trace, low, high)
  }

  lemma ArrivesTwice(
    st: State, st1: State, after: (Outcome, State), chain: Chain, low: Height, mid: Height, high: Height)
    requires low <= mid < high && Filled(st.store, st1.store, chain, mid, high)
    requires TracedDown(st.trace, st1.trace, mid, high) && Arrives(st1, after, chain, low, mid)
    ensures Arrives(st, after, chain, low, high)
  {
    FilledTwice(st.store, st1.store, after.1.store, chain, low, mid, high);
    TracedTwice(st.trace, st1.trace, after.1.trace, low, mid, high);
  }

  /** A descent along the chain arrives. */
  lemma {:induction false} DescentSucceeds(
    hash: HashFn, cl: Client, st: State, latest: LightBlock, target: Height, chain: Chain)
    requires HonoursHeights(cl) && WellKeyed(st.store) && target <= latest.Height()
    requires LinkedChain(hash, chain, target, latest.Height()) && chain[latest.Height()] == latest
    requires ServesDown(cl, chain, target, latest.Height()) && StoresChain(st.store, chain, target, latest.Height())
    ensures Arrives(st, Descend(hash, cl, st, latest, target), chain, target, latest.Height())
    decreases latest.Height() - target
  {
    var high := latest.Height();
    if target < high {
      var below: Height := high - 1;
      StepSucceeds(hash, cl, st, latest, chain, target);
      StepDownKeepsHeights(hash, cl, st, latest);
      var (got, st1) := StepDown(hash, cl, st, latest);
      StillServed(hash, cl, st.store, st1.store, chain, target, below, high);
      DescentSucceeds(hash, cl, st1, got.value, target, chain);
      ArrivesTwice(st, st1, Descend(hash, cl, st1, got.value, target), chain, target, below, high);
    }
  }

  /**
   With a root within the trusting period and a peer that serves a chain linked
   by hash, a call that goes down returns the chain's block at its target.
   */
  lemma HonestPeerSufficesDownwards(
    hash: HashFn, cl: Client, st: State, target: Height, root: LightBlock, chain: Chain)
    requires HonoursHeights(cl) && SensibleVerifier(cl) && WellKeyed(st.store)
    requires LowestBelieved(st.store, root.Height()) && st.store[root.Height()].lightBlock == root
    requires target < root.Height() && !Expired(cl, root, cl.clock(st.tick))
    requires LinkedChain(hash, chain, target, root.Height()) && chain[root.Height()] == root
    requires ServesDown(cl, chain, target, root.Height()) && StoresChain(st.store, chain, target, root.Height())
    ensures Arrives(st, VerifyEitherWay(hash, cl, st, target), chain, target, root.Height())
  {
    DownwardIs(hash, cl, st, target, root);
    DescentSucceeds(hash, cl, st.(tick := st.tick + 1), root, target, chain);
  }

  /** Below everything that is trusted or verified, a call starts at the lowest such block. */
  lemma RootIs(s: StoreMap, target: Height, root: LightBlock)
    requires WellKeyed(s) && LowestBelieved(s, root.Height()) && s[root.Height()].lightBlock == root
    requires target < root.Height()
    ensures RootFor(s, target) == Some(root) && GetTrustedOrVerified(s, target).None?
  {
    NoneBelievedIff(s, target);
    LowestIff(s, root);
    assert !Believed(s, target);
  }

  /** A call below everything that is trusted or verified is the descent from there, unless that has expired. */
  lemma DownwardIs(hash: HashFn, cl: Client, st: State, target: Height, root: LightBlock)
    requires HonoursHeights(cl) && SensibleVerifier(cl) && WellKeyed(st.store)
    requires LowestBelieved(st.store, root.Height()) && st.store[root.Height()].lightBlock == root
    requires target < root.Height()
    ensures VerifyEitherWay(hash, cl, st, target)
         == var later := st.(tick := st.tick + 1);
            if Expired(cl, root, cl.clock(st.tick))
            then (Err(TrustedStateOutsideTrustingPeriod(root, cl.options)), later)
            else Descend(hash, cl, later, root, target)
  {
    RootIs(st.store, target, root);
    WithinTrustPeriodIff(root, cl.options.trustingPeriod, cl.clock(st.tick));
  }

  // ---- Failure -------------------------------------------------------------

  /** From an expired root a call that goes down returns just that error and changes nothing. */
  lemma DownwardExpired(hash: HashFn, cl: Client, st: State, target: Height, root: LightBlock)
    requires HonoursHeights(cl) && SensibleVerifier(cl) && WellKeyed(st.store)
    requires LowestBelieved(st.store, root.Height()) && st.store[root.Height()].lightBlock == root
    requires target < root.Height() && Expired(cl, root, cl.clock(st.tick))
    ensures var (r, st') := VerifyEitherWay(hash, cl, st, target);
            && r == Err(TrustedStateOutsideTrustingPeriod(root, cl.options))
            && st'.store == st.store && st'.trace == st.trace
  {
    DownwardIs(hash, cl, st, target, root);
  }

  /** Why a step down from `latest` ends with this error. */
  ghost predicate StepCauses(hash: HashFn, cl: Client, st: State, latest: LightBlock, e: ClientError)
    requires latest.Height() > 0
  {
    var below := latest.Height() - 1;
    match e
    case Io(io) =>
      && (below in st.store ==> st.store[below].status.Failed?)
      && cl.fetch(st.tick, below) == Err(io)
    case MissingLastBlockId(h) => h == latest.Height() && latest.Header().lastBlockId.None?
    case InvalidAdjacentHeaders(found, named) =>
      && found != named
      && (exists id :: latest.Header().lastBlockId == Some(id) && id.hash == named)
      && exists b, status :: IsCurrent(cl, st, below, b, status) && hash(b.Header()) == found
    case _ => false
  }

  lemma StepErrorHasCause(hash: HashFn, cl: Client, st: State, latest: LightBlock)
    requires latest.Height() > 0 && StepDown(hash, cl, st, latest).0.Err?
    ensures StepCauses(hash, cl, st, latest, StepDown(hash, cl, st, latest).0.error)
  {
    var below := latest.Height() - 1;
    GetNonFailedIff(st.store, below);
    var got := GetOrFetch(cl, st, below).0;
    if got.Ok? {
      CheckLinkIff(hash, latest, got.value);
      var status := if below in st.store && !st.store[below].status.Failed? then st.store[below].status else Unverified;
      assert IsCurrent(cl, st, below, got.value, status);
      if latest.Header().lastBlockId.Some? {
        assert latest.Header().lastBlockId == Some(latest.Header().lastBlockId.value);
      }
    }
  }

  /** What a step down gives, from wherever. */
  type Down = (State, LightBlock) -> (Outcome, State)

  ghost function DownOf(hash: HashFn, cl: Client): Down {
    (st: State, latest: LightBlock) =>
      if latest.Height() == 0 then (Ok(latest), st) else StepDown(hash, cl, st, latest)
  }

  /** The state and the block after some steps down, if they all succeed. */
  ghost function AfterSteps(down: Down, st: State, latest: LightBlock, k: nat): Option<(State, LightBlock)>
    decreases k
  {
    if k == 0 then Some((st, latest))
    else if latest.Height() == 0 then None
    else
      var (got, st') := down(st, latest);
      if got.Err? then None else AfterSteps(down, st', got.value, k - 1)
  }

  /** After `k` steps that succeed the next one, from above `low`, ends with this result. */
  ghost predicate EndsAfter(down: Down, st: State, latest: LightBlock, low: Height, k: nat, r: Outcome) {
    var reached := AfterSteps(down, st, latest, k);
    && reached.Some? && low < reached.value.1.Height() == latest.Height() - k
    && down(reached.value.0, reached.value.1).0 == r
  }

  lemma EndsLater(
    down: Down, st: State, latest: LightBlock, st': State, next: LightBlock, low: Height, k: nat, r: Outcome)
    requires latest.Height() > 0 && down(st, latest) == (Ok(next), st') && next.Height() == latest.Height() - 1
    requires EndsAfter(down, st', next, low, k, r)
    ensures EndsAfter(down, st, latest, low, k + 1, r)
  {
    assert AfterSteps(down, st, latest, k + 1) == AfterSteps(down, st', next, k);
  }

  /** How a descent ends, and where it may start. */
  type Ending = (State, LightBlock) -> Outcome
  type Start = (State, LightBlock) -> bool

  /** It succeeds at the target, and ends above it as the step down fails or as the descent from there ends. */
  ghost predicate EndsNext(down: Down, ending: Ending, start: Start, low: Height, st: State, latest: LightBlock) {
    start(st, latest) ==>
      && low <= latest.Height()
      && (low == latest.Height() ==> ending(st, latest).Ok?)
      && (low < latest.Height() ==>
            var (got, st') := down(st, latest);
            if got.Err? then ending(st, latest) == got
            else
              && start(st', got.value) && got.value.Height() == latest.Height() - 1
              && ending(st, latest) == ending(st', got.value))
  }

  ghost predicate EndsBySteps(down: Down, ending: Ending, start: Start, low: Height) {
    forall st, latest :: EndsNext(down, ending, start, low, st, latest)
  }

  lemma {:induction false} FailsAfterSteps(
    down: Down, ending: Ending, start: Start, low: Height, st: State, latest: LightBlock) returns (k: nat)
    requires EndsBySteps(down, ending, start, low) && start(st, latest) && ending(st, latest).Err?
    ensures EndsAfter(down, st, latest, low, k, ending(st, latest))
    decreases latest.Height()
  {
    assert EndsNext(down, ending, start, low, st, latest);
    var (got, st') := down(st, latest);
    if got.Err? {
      k := 0;
    } else {
      var later := FailsAfterSteps(down, ending, start, low, st', got.value);
      EndsLater(down, st, latest, st', got.value, low, later, ending(st', got.value));
      k := later + 1;
    }
  }

  ghost function StartOf(target: Height): Start {
    (st: State, latest: LightBlock) => WellKeyed(st.store) && target <= latest.Height()
  }

  ghost function EndingOf(hash: HashFn, cl: Client, target: Height): Ending
    requires HonoursHeights(cl)
  {
    (st: State, latest: LightBlock) =>
      if StartOf(target)(st, latest) then Descend(hash, cl, st, latest, target).0 else Ok(latest)
  }

  lemma DescentEndsBySteps(hash: HashFn, cl: Client, target: Height)
    requires HonoursHeights(cl)
    ensures EndsBySteps(DownOf(hash, cl), EndingOf(hash, cl, target), StartOf(target), target)
  {
    forall st, latest
      ensures EndsNext(DownOf(hash, cl), EndingOf(hash, cl, target), StartOf(target), target, st, latest)
    {
      if WellKeyed(st.store) && target < latest.Height() {
        StepDownKeepsHeights(hash, cl, st, latest);
      }
    }
  }

  /** After `k` steps that succeed, the next one ends with the error, for this cause. */
  ghost predicate CausedAfter(
    hash: HashFn, cl: Client, st: State, latest: LightBlock, low: Height, k: nat, e: ClientError)
  {
    var reached := AfterSteps(DownOf(hash, cl), st, latest, k);
    && reached.Some? && low < reached.value.1.Height() == latest.Height() - k
    && StepCauses(hash, cl, reached.value.0, reached.value.1, e)
  }

  /** Every error of a descent is that of the step after those that succeed. */
  lemma DescentErrorHasCause(hash: HashFn, cl: Client, st: State, latest: LightBlock, target: Height)
    returns (k: nat)
    requires HonoursHeights(cl) && WellKeyed(st.store) && target <= latest.Height()
    requires Descend(hash, cl, st, latest, target).0.Err?
    ensures CausedAfter(hash, cl, st, latest, target, k, Descend(hash, cl, st, latest, target).0.error)
  {
    DescentEndsBySteps(hash, cl, target);
    k := FailsAfterSteps(DownOf(hash, cl), EndingOf(hash, cl, target), StartOf(target), target, st, latest);
    var reached := AfterSteps(DownOf(hash, cl), st, latest, k).value;
    StepErrorHasCause(hash, cl, reached.0, reached.1);
  }

  /** Every error of a call from a root that has not expired is caused by one of its steps. */
  lemma DownwardErrorHasCause(hash: HashFn, cl: Client, st: State, target: Height, root: LightBlock)
    returns (k: nat)
    requires HonoursHeights(cl) && SensibleVerifier(cl) && WellKeyed(st.store)
    requires LowestBelieved(st.store, root.Height()) && st.store[root.Height()].lightBlock == root
    requires target < root.Height() && !Expired(cl, root, cl.clock(st.tick))
    requires VerifyEitherWay(hash, cl, st, target).0.Err?
    ensures CausedAfter(hash, cl, st.(tick := st.tick + 1), root, target, k,
                        VerifyEitherWay(hash, cl, st, target).0.error)
  {
    DownwardIs(hash, cl, st, target, root);
    k := DescentErrorHasCause(hash, cl, st.(tick := st.tick + 1), root, target);
  }
}
