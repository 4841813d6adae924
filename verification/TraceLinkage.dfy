/**
 The verification trace after a successful forward run: a chain of blocks from
 the initial trusted one to the target, each verified directly against the one
 before it.
 */
module TraceLinkage {
  import opened Common
  import opened Types
  import opened Blocks
  import opened LightStores
  import opened LightClient
  import opened Traces

  /** Two believed blocks with no believed block between them. */
  ghost predicate Neighbours(s: StoreMap, lo: Height, hi: Height) {
    && Believed(s, lo) && Believed(s, hi) && lo < hi
    && forall x: Height :: lo < x < hi ==> !Believed(s, x)
  }

  /** At a tick from `since` to before `until`, the verifier accepted `u` on the strength of `t`. */
  ghost predicate VerifiedAgainst(cl: Client, u: LightBlock, t: LightBlock, since: nat, until: nat) {
    exists tick: nat :: since <= tick < until && cl.verify(u, t, cl.options, cl.clock(tick)).Success?
  }

  /** The block at `hi` was verified directly against the one at `lo`, and its trace says so. */
  ghost predicate Linked(cl: Client, since: nat, st: State, lo: Height, hi: Height) {
    && lo in st.store && hi in st.store
    && hi in st.trace && lo in st.trace[hi]
    && VerifiedAgainst(cl, st.store[hi].lightBlock, st.store[lo].lightBlock, since, st.tick)
  }

  /** What a forward run to `target` from the block at `first` keeps. */
  ghost predicate Chained(cl: Client, since: nat, st: State, first: Height, target: Height) {
    && WellKeyed(st.store)
    && Believed(st.store, first) && first < target
    && (forall h: Height :: Believed(st.store, h) ==> first <= h <= target)
    && (forall h: Height :: Believed(st.store, h) && h != first ==>
          target in st.trace && h in st.trace[target])
    && (forall lo: Height, hi: Height :: Neighbours(st.store, lo, hi) ==> Linked(cl, since, st, lo, hi))
  }

  ghost predicate TraceGrows(a: VerificationTrace, b: VerificationTrace) {
    forall h :: h in a ==> h in b && a[h] <= b[h]
  }

  lemma RoundTraces(cl: Client, st: State, current: Height, target: Height)
    ensures var st' := After(cl, st, current, target);
            var d := DecisionIn(cl, st, current, target);
            && TraceGrows(st.trace, st'.trace)
            && (d.traced ==> target in st'.trace && current in st'.trace[target])
            && (d.link.Some? ==> current in st'.trace && d.link.value in st'.trace[current])
  {
  }

  /** Filing a block that is not believed, where none was, keeps the chain. */
  lemma RejectedStaysChained(
    cl: Client, since: nat, st: State, st': State, first: Height, target: Height, current: Height, entry: StoreEntry)
    requires Chained(cl, since, st, first, target) && TraceGrows(st.trace, st'.trace) && st.tick <= st'.tick
    requires st'.store == st.store[current := entry]
    requires !Believed(st.store, current) && entry.lightBlock.Height() == current && entry.status.Rank() < 2
    ensures Chained(cl, since, st', first, target)
  {
    assert forall h: Height :: Believed(st'.store, h) <==> Believed(st.store, h);
    forall lo: Height, hi: Height | Neighbours(st'.store, lo, hi)
      ensures Linked(cl, since, st', lo, hi)
    {
      assert Neighbours(st.store, lo, hi);
      assert Linked(cl, since, st, lo, hi);
    }
  }

  /** A round that accepts a block puts it on top of the chain. */
  lemma AcceptedExtendsChain(
    cl: Client, since: nat, st: State, st': State, first: Height, target: Height, trusted: Height, current: Height,
    entry: StoreEntry)
    requires Chained(cl, since, st, first, target) && TraceGrows(st.trace, st'.trace) && st.tick <= st'.tick
    requires HighestBelieved(st.store, target, trusted) && trusted < current <= target
    requires st'.store == st.store[current := entry]
    requires entry.lightBlock.Height() == current && entry.status.Rank() >= 2
    requires target in st'.trace && current in st'.trace[target]
    requires current in st'.trace && trusted in st'.trace[current]
    requires VerifiedAgainst(cl, entry.lightBlock, st.store[trusted].lightBlock, since, st'.tick)
    ensures Chained(cl, since, st', first, target)
  {
    assert forall h: Height :: Believed(st'.store, h) <==> h == current || Believed(st.store, h);
    forall lo: Height, hi: Height | Neighbours(st'.store, lo, hi)
      ensures Linked(cl, since, st', lo, hi)
    {
      if hi == current {
        assert lo == trusted;
      } else {
        assert Neighbours(st.store, lo, hi);
        assert Linked(cl, since, st, lo, hi);
      }
    }
  }

  lemma RoundStaysChained(cl: Client, since: nat, st: State, first: Height, current: Height, target: Height)
    requires HonoursHeights(cl) && SensibleVerifier(cl) && Ready(st.store, current, target)
    requires Chained(cl, since, st, first, target) && since <= st.tick
    ensures Chained(cl, since, After(cl, st, current, target), first, target)
  {
    var st' := After(cl, st, current, target);
    var d := DecisionIn(cl, st, current, target);
    RoundTraces(cl, st, current, target);
    RoundWrites(cl, st, current, target);
    if d.updated.Some? {
      var entry := StoreEntry(d.updated.value.0, d.updated.value.1);
      AcceptedWasVerified(cl, st, current, target);
      if entry.status.Rank() >= 2 {
        var t := HighestTrustedOrVerifiedBefore(st.store, target).value;
        HighestBeforeIff(st.store, target, t);
        AcceptedExtendsChain(cl, since, st, st', first, target, t.Height(), current, entry);
      } else {
        RejectedStaysChained(cl, since, st, st', first, target, current, entry);
      }
    } else {
      UntouchedStaysChained(cl, since, st, st', first, target);
    }
  }

  lemma UntouchedStaysChained(cl: Client, since: nat, st: State, st': State, first: Height, target: Height)
    requires Chained(cl, since, st, first, target) && TraceGrows(st.trace, st'.trace)
    requires st.tick <= st'.tick && st'.store == st.store
    ensures Chained(cl, since, st', first, target)
  {
    forall lo: Height, hi: Height | Neighbours(st'.store, lo, hi)
      ensures Linked(cl, since, st', lo, hi)
    {
      assert Linked(cl, since, st, lo, hi);
    }
  }

  lemma AcceptedWasVerified(cl: Client, st: State, current: Height, target: Height)
    requires WellKeyed(st.store) && Ready(st.store, current, target)
    requires DecisionIn(cl, st, current, target).updated.Some?
    ensures var d := DecisionIn(cl, st, current, target);
            var t := HighestTrustedOrVerifiedBefore(st.store, target);
            && t.Some? && t.value.Height() < current && d.traced && !Believed(st.store, current)
            && (d.updated.value.1.Rank() >= 2 ==>
                  && d.link == Some(t.value.Height())
                  && VerifiedAgainst(cl, d.updated.value.0, t.value, st.tick, st.tick + 1))
  {
    RoundVerdict(cl, st, current, target);
    var t := HighestTrustedOrVerifiedBefore(st.store, target).value;
    HighestBeforeIff(st.store, target, t);
  }

  lemma {:induction false} ForwardStaysChained(
    cl: Client, since: nat, st: State, first: Height, current: Height, target: Height)
    requires HonoursHeights(cl) && SensibleVerifier(cl) && Ready(st.store, current, target)
    requires Chained(cl, since, st, first, target) && since <= st.tick
    ensures Chained(cl, since, Forward(cl, st, current, target).1, first, target)
    decreases target - TrustedHeight(st.store, target), current - TrustedHeight(st.store, target)
  {
    RoundStaysChained(cl, since, st, first, current, target);
    if DecisionIn(cl, st, current, target).finished.None? {
      RoundProgress(cl, st, current, target);
      RoundSchedulesValidly(cl, st, current, target);
      var st' := After(cl, st, current, target);
      ForwardStaysChained(cl, since, st', first, NextHeight(st'.store, current, target), target);
    }
  }

  // ---- Reading the chain off the trace -------------------------------------

  /** The store knows one trusted or verified block, at `first`. */
  ghost predicate OnlyBelieved(s: StoreMap, first: Height) {
    forall h: Height :: Believed(s, h) <==> h == first
  }

  ghost predicate Listed(blocks: seq<LightBlock>, h: Height) {
    exists i :: 0 <= i < |blocks| && blocks[i].Height() == h
  }

  /** `blocks` are the believed blocks of the trace, ascending. */
  ghost predicate Reads(st: State, target: Height, blocks: seq<LightBlock>) {
    && target in st.trace && Ascending(blocks)
    && (forall i :: 0 <= i < |blocks| ==>
          Believed(st.store, blocks[i].Height()) && st.store[blocks[i].Height()].lightBlock == blocks[i])
    && (forall h: Height :: Believed(st.store, h) && h in st.trace[target] ==> Listed(blocks, h))
  }

  lemma TraceReads(st: State, target: Height)
    requires WellKeyed(st.store) && target in st.trace
    ensures Reads(st, target, TraceOf(st.store, st.trace, target))
  {
    var blocks := TraceOf(st.store, st.trace, target);
    BlocksAtLists(st.store, st.trace[target]);
    forall h: Height | Believed(st.store, h) && h in st.trace[target]
      ensures Listed(blocks, h)
    {
      var b := GetTrustedOrVerified(st.store, h).value;
      assert b in blocks;
    }
  }

  lemma NotListedBetween(blocks: seq<LightBlock>, i: nat, x: Height)
    requires Ascending(blocks) && i + 1 < |blocks| && blocks[i].Height() < x < blocks[i + 1].Height()
    ensures !Listed(blocks, x)
  {
    forall k | 0 <= k < |blocks|
      ensures blocks[k].Height() != x
    {
      assert k <= i || i + 1 <= k;
      assert k < i ==> blocks[k].Height() < blocks[i].Height();
      assert i + 1 < k ==> blocks[i + 1].Height() < blocks[k].Height();
    }
  }

  /** Consecutive blocks of the trace are neighbours among the believed ones. */
  lemma ConsecutiveAreNeighbours(
    cl: Client, since: nat, st: State, first: Height, target: Height, blocks: seq<LightBlock>, i: nat)
    requires Chained(cl, since, st, first, target) && Reads(st, target, blocks) && i + 1 < |blocks|
    ensures Neighbours(st.store, blocks[i].Height(), blocks[i + 1].Height())
  {
    var lo, hi := blocks[i].Height(), blocks[i + 1].Height();
    assert Believed(st.store, lo) && first <= lo;
    forall x: Height | lo < x < hi
      ensures !Believed(st.store, x)
    {
      NotListedBetween(blocks, i, x);
    }
  }

  /** The `i`-th step of the trace is a direct verification, and is recorded as one. */
  ghost predicate StepLinked(cl: Client, since: nat, st: State, blocks: seq<LightBlock>, i: nat)
    requires i + 1 < |blocks|
  {
    var lo, hi := blocks[i], blocks[i + 1];
    && VerifiedAgainst(cl, hi, lo, since, st.tick)
    && hi.Height() in st.trace && lo.Height() in st.trace[hi.Height()]
  }

  /**
   The trace is strictly ascending, ends at the target, and each of its blocks
   was verified directly against the one before; the first is the initial block
   or was verified directly against that.
   */
  ghost predicate WellLinked(cl: Client, since: nat, st: State, initial: LightBlock, target: Height) {
    var blocks := TraceOf(st.store, st.trace, target);
    && |blocks| >= 2 && Ascending(blocks)
    && blocks[|blocks| - 1].Height() == target
    && GetTrustedOrVerified(st.store, target) == Some(blocks[|blocks| - 1])
    && (forall i :: 0 <= i < |blocks| - 1 ==> StepLinked(cl, since, st, blocks, i))
    && (blocks[0] == initial || VerifiedAgainst(cl, blocks[0], initial, since, st.tick))
  }

  /** The greatest believed height below `h`. */
  lemma NeighbourBelow(s: StoreMap, first: Height, h: Height) returns (lo: Height)
    requires Believed(s, first) && Believed(s, h) && first < h
    ensures Neighbours(s, lo, h) && first <= lo
  {
    lo := h - 1;
    while !Believed(s, lo)
      invariant first <= lo < h
      invariant forall x: Height :: lo < x < h ==> !Believed(s, x)
      decreases lo
    {
      lo := lo - 1;
    }
  }

  /** The trace has two blocks: the target, and whatever that was verified against. */
  lemma TraceHasTwoBlocks(cl: Client, since: nat, st: State, first: Height, target: Height, blocks: seq<LightBlock>)
    requires Chained(cl, since, st, first, target) && Reads(st, target, blocks) && Believed(st.store, target)
    ensures |blocks| >= 2 && blocks[|blocks| - 1].Height() == target
  {
    var below := NeighbourBelow(st.store, first, target);
    assert Linked(cl, since, st, below, target);
    var i :| 0 <= i < |blocks| && blocks[i].Height() == target;
    var j :| 0 <= j < |blocks| && blocks[j].Height() == below;
    var last := blocks[|blocks| - 1].Height();
    assert Believed(st.store, last);
  }

  lemma TraceStartsLowest(st: State, target: Height, blocks: seq<LightBlock>, h: Height)
    requires Reads(st, target, blocks) && Believed(st.store, h) && h in st.trace[target]
    ensures blocks != [] && blocks[0].Height() <= h
  {
    var k :| 0 <= k < |blocks| && blocks[k].Height() == h;
  }

  lemma TraceStartsAtInitial(cl: Client, since: nat, st: State, first: Height, target: Height, blocks: seq<LightBlock>)
    requires Chained(cl, since, st, first, target) && Reads(st, target, blocks) && blocks != []
    ensures blocks[0] == st.store[first].lightBlock
            || VerifiedAgainst(cl, blocks[0], st.store[first].lightBlock, since, st.tick)
  {
    var h := blocks[0].Height();
    assert Believed(st.store, h);
    if h != first {
      var lo := NeighbourBelow(st.store, first, h);
      if lo != first {
        TraceStartsLowest(st, target, blocks, lo);
      }
      assert Linked(cl, since, st, lo, h);
    }
  }

  lemma ChainedIsWellLinked(cl: Client, since: nat, st: State, first: Height, target: Height)
    requires Chained(cl, since, st, first, target) && Believed(st.store, target)
    ensures WellLinked(cl, since, st, st.store[first].lightBlock, target)
  {
    var blocks := TraceOf(st.store, st.trace, target);
    TraceReads(st, target);
    TraceHasTwoBlocks(cl, since, st, first, target, blocks);
    TraceStartsAtInitial(cl, since, st, first, target, blocks);
    forall i | 0 <= i < |blocks| - 1
      ensures StepLinked(cl, since, st, blocks, i)
    {
      ConsecutiveAreNeighbours(cl, since, st, first, target, blocks, i);
      assert Linked(cl, since, st, blocks[i].Height(), blocks[i + 1].Height());
    }
  }

  /** After a successful call from one trusted block below the target, the trace is well linked. */
  lemma TraceIsLinked(cl: Client, st: State, first: Height, target: Height)
    requires HonoursHeights(cl) && SensibleVerifier(cl) && WellKeyed(st.store)
    requires Believed(st.store, first) && OnlyBelieved(st.store, first) && first < target
    requires VerifyToTarget(cl, st, target).0.Ok?
    ensures var (r, st') := VerifyToTarget(cl, st, target);
            && WellLinked(cl, st.tick, st', st.store[first].lightBlock, target)
            && GetTrustedOrVerified(st'.store, target) == Some(r.value)
  {
    OnlyOneMeansForward(cl, st, first, target);
    TargetIsReady(st.store, target);
    ForwardStaysChained(cl, st.tick, st, first, target, target);
    ForwardKeepsFirst(cl, st, first, target, target);
    ForwardDelivers(cl, st, target, target);
    var (r, st') := Forward(cl, st, target, target);
    assert Believed(st'.store, target);
    ChainedIsWellLinked(cl, st.tick, st', first, target);
  }

  lemma OnlyOneMeansForward(cl: Client, st: State, first: Height, target: Height)
    requires HonoursHeights(cl) && SensibleVerifier(cl) && WellKeyed(st.store)
    requires Believed(st.store, first) && OnlyBelieved(st.store, first) && first < target
    ensures Ready(st.store, target, target)
    ensures VerifyToTarget(cl, st, target) == Forward(cl, st, target, target)
    ensures Chained(cl, st.tick, st, first, target)
  {
    TargetIsReady(st.store, target);
    NoneBelievedIff(st.store, target);
    HighestBeforeIff(st.store, target, HighestTrustedOrVerifiedBefore(st.store, target).value);
    assert !Believed(st.store, target);
  }

  /** Believed blocks are never replaced. */
  lemma RoundKeepsBelieved(cl: Client, st: State, current: Height, target: Height, h: Height)
    requires HonoursHeights(cl) && Ready(st.store, current, target) && Believed(st.store, h) && h <= target
    ensures var s' := After(cl, st, current, target).store;
            h in s' && s'[h] == st.store[h]
  {
    RoundWrites(cl, st, current, target);
    var t := HighestTrustedOrVerifiedBefore(st.store, target);
    if t.Some? {
      HighestBeforeIff(st.store, target, t.value);
    }
    if DecisionIn(cl, st, current, target).updated.Some? {
      RoundVerdict(cl, st, current, target);
    }
  }

  lemma {:induction false} ForwardKeepsFirst(cl: Client, st: State, first: Height, current: Height, target: Height)
    requires HonoursHeights(cl) && SensibleVerifier(cl) && Ready(st.store, current, target)
    requires Believed(st.store, first) && first <= target
    ensures var s' := Forward(cl, st, current, target).1.store;
            first in s' && s'[first] == st.store[first]
    decreases target - TrustedHeight(st.store, target), current - TrustedHeight(st.store, target)
  {
    RoundKeepsBelieved(cl, st, current, target, first);
    if DecisionIn(cl, st, current, target).finished.None? {
      RoundProgress(cl, st, current, target);
      RoundSchedulesValidly(cl, st, current, target);
      var st' := After(cl, st, current, target);
      ForwardKeepsFirst(cl, st', first, NextHeight(st'.store, current, target), target);
    }
  }

  /** A block in the store that has not failed is the one a round at its height looks at. */
  lemma RoundKeepsStored(cl: Client, st: State, current: Height, target: Height, h: Height)
    requires HonoursHeights(cl) && WellKeyed(st.store)
    requires h in st.store && !st.store[h].status.Failed?
    ensures var st' := After(cl, st, current, target);
            && h in st'.store && st'.store[h].lightBlock == st.store[h].lightBlock
            && (st'.store[h].status.Failed? ==> DecisionIn(cl, st, current, target).finished.Some?)
  {
    RoundWrites(cl, st, current, target);
    if DecisionIn(cl, st, current, target).updated.Some? {
      RoundVerdict(cl, st, current, target);
    }
  }

  /** If the store holds a block at the target that has not failed, success returns that very block. */
  lemma {:induction false} ForwardDeliversStored(cl: Client, st: State, current: Height, target: Height)
    requires HonoursHeights(cl) && SensibleVerifier(cl) && Ready(st.store, current, target)
    requires target in st.store && !st.store[target].status.Failed?
    ensures var r := Forward(cl, st, current, target).0;
            r.Ok? ==> r.value == st.store[target].lightBlock
    decreases target - TrustedHeight(st.store, target), current - TrustedHeight(st.store, target)
  {
    RoundKeepsStored(cl, st, current, target, target);
    var d := DecisionIn(cl, st, current, target);
    if d.finished.None? {
      RoundProgress(cl, st, current, target);
      RoundSchedulesValidly(cl, st, current, target);
      var st' := After(cl, st, current, target);
      ForwardDeliversStored(cl, st', NextHeight(st'.store, current, target), target);
    } else if d.finished.value.Ok? {
      RoundDelivers(cl, st, current, target);
    }
  }
}
