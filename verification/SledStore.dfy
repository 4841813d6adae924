/**
 The persistent store of light-client/src/store/sled.rs, four height-indexed
 trees, and the one-map store beside it.  Over forward runs the two answer every
 query alike.  Calls that go down insert blocks that are stored under another
 status already; `SledMixedRuns.dfy` has what is kept even then.
 */
module SledStores {
  import opened Common
  import opened Extrema
  import opened Types
  import opened Blocks
  import opened LightStores
  import opened Scheduler
  import opened LightClient

  /** An ordered tree from heights to blocks. */
  type Tree = map<Height, LightBlock>

  datatype SledTrees = SledTrees(unverified: Tree, verified: Tree, trusted: Tree, failed: Tree)

  const EMPTY_TREES := SledTrees(map[], map[], map[], map[])

  function Db(t: SledTrees, status: Status): Tree {
    match status
    case Unverified => t.unverified
    case Verified => t.verified
    case Trusted => t.trusted
    case Failed => t.failed
  }

  function WithDb(t: SledTrees, status: Status, tree: Tree): SledTrees {
    match status
    case Unverified => t.(unverified := tree)
    case Verified => t.(verified := tree)
    case Trusted => t.(trusted := tree)
    case Failed => t.(failed := tree)
  }

  function SledGet(t: SledTrees, height: Height, status: Status): Option<LightBlock> {
    var tree := Db(t, status);
    if height in tree then Some(tree[height]) else None
  }

  function SledHighest(t: SledTrees, status: Status): Option<LightBlock> {
    var tree := Db(t, status);
    if tree.Keys == {} then None else Some(tree[Greatest(tree.Keys)])
  }

  function SledHighestBefore(t: SledTrees, height: Height, status: Status): Option<LightBlock> {
    var tree := Db(t, status);
    var range := set h | h in tree.Keys && h <= height;
    if range == {} then None else Some(tree[Greatest(range)])
  }

  function SledLowest(t: SledTrees, status: Status): Option<LightBlock> {
    var tree := Db(t, status);
    if tree.Keys == {} then None else Some(tree[Least(tree.Keys)])
  }

  function SledInsert(t: SledTrees, b: LightBlock, status: Status): SledTrees {
    WithDb(t, status, Db(t, status)[b.Height() := b])
  }

  function SledRemove(t: SledTrees, height: Height, status: Status): SledTrees {
    WithDb(t, status, Db(t, status) - {height})
  }

  /** Inserted into one tree and removed from the others. */
  function SledUpdate(t: SledTrees, b: LightBlock, status: Status): SledTrees {
    var h := b.Height();
    SledTrees(
      if status.Unverified? then t.unverified[h := b] else t.unverified - {h},
      if status.Verified? then t.verified[h := b] else t.verified - {h},
      if status.Trusted? then t.trusted[h := b] else t.trusted - {h},
      if status.Failed? then t.failed[h := b] else t.failed - {h})
  }

  /** The height removed from the first `n` trees, except the one for `status`. */
  function Cleared(t: SledTrees, h: Height, status: Status, n: nat): SledTrees {
    SledTrees(
      if n > 0 && !status.Unverified? then t.unverified - {h} else t.unverified,
      if n > 1 && !status.Verified? then t.verified - {h} else t.verified,
      if n > 2 && !status.Trusted? then t.trusted - {h} else t.trusted,
      if n > 3 && !status.Failed? then t.failed - {h} else t.failed)
  }

  /** In the order in which the source lists them. */
  const ALL_STATUSES: seq<Status> := [Unverified, Verified, Trusted, Failed]

  class SledStore {
    var trees: SledTrees

    constructor ()
      ensures trees == EMPTY_TREES
    {
      trees := EMPTY_TREES;
    }

    /** The block is found under its status; nothing else is changed, not even its own height elsewhere. */
    method InsertBlock(b: LightBlock, status: Status)
      modifies this
      ensures trees == SledInsert(old(trees), b, status)
      ensures SledGet(trees, b.Height(), status) == Some(b)
      ensures forall h, st :: h != b.Height() || st != status ==> SledGet(trees, h, st) == SledGet(old(trees), h, st)
    {
      trees := WithDb(trees, status, Db(trees, status)[b.Height() := b]);
    }

    /** Nothing is found there any more, and everything else as before. */
    method RemoveBlock(height: Height, status: Status)
      modifies this
      ensures trees == SledRemove(old(trees), height, status)
      ensures SledGet(trees, height, status) == None
      ensures forall h, st :: h != height || st != status ==> SledGet(trees, h, st) == SledGet(old(trees), h, st)
    {
      trees := WithDb(trees, status, Db(trees, status) - {height});
    }

    /** Files a block under one status: afterwards no other tree has its height. */
    method UpdateBlock(b: LightBlock, status: Status)
      modifies this
      ensures trees == SledUpdate(old(trees), b, status)
      ensures SledGet(trees, b.Height(), status) == Some(b)
      ensures forall other :: other != status ==> SledGet(trees, b.Height(), other) == None
      ensures forall h, st :: h != b.Height() ==> SledGet(trees, h, st) == SledGet(old(trees), h, st)
    {
      var h := b.Height();
      for i := 0 to |ALL_STATUSES|
        invariant trees == Cleared(old(trees), h, status, i)
      {
        if ALL_STATUSES[i] != status {
          RemoveBlock(h, ALL_STATUSES[i]);
        }
      }
      InsertBlock(b, status);
    }
  }

  // ---- Agreement of the two stores -----------------------------------------

  /** The two stores hold the same blocks under the same statuses. */
  ghost predicate Agree(t: SledTrees, s: StoreMap) {
    forall h: Height, status: Status :: SledGet(t, h, status) == Get(s, h, status)
  }

  lemma SameHeights(t: SledTrees, s: StoreMap, status: Status)
    requires Agree(t, s)
    ensures Db(t, status).Keys == HeightsWith(s, status)
    ensures forall h :: h in Db(t, status) ==> Db(t, status)[h] == s[h].lightBlock
  {
    forall h: Height
      ensures h in Db(t, status).Keys <==> h in HeightsWith(s, status)
      ensures h in Db(t, status) ==> Db(t, status)[h] == s[h].lightBlock
    {
      assert SledGet(t, h, status) == Get(s, h, status);
    }
  }

  /** Stores that agree give equal answers to every query. */
  lemma AgreeingStoresAnswerAlike(t: SledTrees, s: StoreMap, height: Height, status: Status)
    requires Agree(t, s)
    ensures SledGet(t, height, status) == Get(s, height, status)
    ensures SledHighest(t, status) == Highest(s, status)
    ensures SledHighestBefore(t, height, status) == HighestBefore(s, height, status)
    ensures SledLowest(t, status) == Lowest(s, status)
  {
    SameHeights(t, s, status);
    assert (set h | h in Db(t, status).Keys && h <= height) == (set h | h in HeightsWith(s, status) && h <= height);
  }

  /** No height is in two trees. */
  ghost predicate Disjoint(t: SledTrees) {
    t.unverified.Keys !! t.verified.Keys !! t.trusted.Keys !! t.failed.Keys
  }

  lemma AgreeingTreesAreDisjoint(t: SledTrees, s: StoreMap)
    requires Agree(t, s)
    ensures Disjoint(t)
  {
    SameHeights(t, s, Unverified);
    SameHeights(t, s, Verified);
    SameHeights(t, s, Trusted);
    SameHeights(t, s, Failed);
  }

  /** Giving a block a status keeps the agreement. */
  lemma UpdateKeepsAgreement(t: SledTrees, s: StoreMap, b: LightBlock, status: Status)
    requires Agree(t, s)
    ensures Agree(SledUpdate(t, b, status), Insert(s, b, status))
  {
    var t', s' := SledUpdate(t, b, status), Insert(s, b, status);
    forall h: Height, st: Status
      ensures SledGet(t', h, st) == Get(s', h, st)
    {
      assert SledGet(t, h, st) == Get(s, h, st);
    }
  }

  lemma InsertedAnswers(t: SledTrees, b: LightBlock, status: Status, h: Height, st: Status)
    ensures SledGet(SledInsert(t, b, status), h, st)
         == if h == b.Height() && st == status then Some(b) else SledGet(t, h, st)
  {
  }

  /**
   Inserting, which leaves the other trees alone, keeps the agreement exactly if
   nothing is stored at that height under another status.
   */
  lemma InsertKeepsAgreementIff(t: SledTrees, s: StoreMap, b: LightBlock, status: Status)
    requires Agree(t, s)
    ensures Agree(SledInsert(t, b, status), Insert(s, b, status))
       <==> (b.Height() in s ==> s[b.Height()].status == status)
  {
    var t', s' := SledInsert(t, b, status), Insert(s, b, status);
    if b.Height() in s && s[b.Height()].status != status {
      var was := s[b.Height()].status;
      InsertedAnswers(t, b, status, b.Height(), was);
      assert SledGet(t, b.Height(), was) == Get(s, b.Height(), was);
      assert SledGet(t', b.Height(), was) != Get(s', b.Height(), was);
    } else {
      forall h: Height, st: Status
        ensures SledGet(t', h, st) == Get(s', h, st)
      {
        InsertedAnswers(t, b, status, h, st);
        assert SledGet(t, h, st) == Get(s, h, st);
      }
    }
  }

  /** Updating a block clears its height from every other tree, whatever was inserted before. */
  lemma InsertThenUpdate(t: SledTrees, b: LightBlock, status: Status)
    ensures SledUpdate(SledInsert(t, b, Unverified), b, status) == SledUpdate(t, b, status)
  {
    var h := b.Height();
    assert t.unverified[h := b][h := b] == t.unverified[h := b];
    assert t.unverified[h := b] - {h} == t.unverified - {h};
  }

  /**
   A failed block that is fetched again is still Failed in the trees, but not in
   the map, until the round gives it its new status; then the stores agree again.
   */
  lemma FailedDiffersWithinRound(t: SledTrees, s: StoreMap, b: LightBlock, status: Status)
    requires Agree(t, s) && b.Height() in s && s[b.Height()].status.Failed?
    ensures var t1, s1 := SledInsert(t, b, Unverified), Insert(s, b, Unverified);
            && !Agree(t1, s1)
            && Agree(SledUpdate(t1, b, status), Insert(s1, b, status))
  {
    InsertKeepsAgreementIff(t, s, b, Unverified);
    InsertThenUpdate(t, b, status);
    UpdateKeepsAgreement(t, s, b, status);
    assert Insert(Insert(s, b, Unverified), b, status) == Insert(s, b, status);
  }

  // ---- Trees that have more than one status for a height -------------------

  /** What the trees have at a height under the status that comes first in order of trust. */
  function Best(t: SledTrees, h: Height): Option<StoreEntry> {
    if h in t.trusted then Some(StoreEntry(t.trusted[h], Trusted))
    else if h in t.verified then Some(StoreEntry(t.verified[h], Verified))
    else if h in t.unverified then Some(StoreEntry(t.unverified[h], Unverified))
    else if h in t.failed then Some(StoreEntry(t.failed[h], Failed))
    else None
  }

  function EntryAt(s: StoreMap, h: Height): Option<StoreEntry> {
    if h in s then Some(s[h]) else None
  }

  /** The best of the trees is what the map has, and what else has not failed is the same block. */
  ghost predicate LeadsAt(t: SledTrees, s: StoreMap, h: Height) {
    && Best(t, h) == EntryAt(s, h)
    && (h in t.verified ==> h in s && t.verified[h] == s[h].lightBlock)
    && (h in t.unverified ==> h in s && t.unverified[h] == s[h].lightBlock)
  }

  ghost predicate Leads(t: SledTrees, s: StoreMap) {
    forall h: Height :: LeadsAt(t, s, h)
  }

  lemma AgreeingLeads(t: SledTrees, s: StoreMap)
    requires Agree(t, s)
    ensures Leads(t, s)
  {
    forall h: Height
      ensures LeadsAt(t, s, h)
    {
      assert SledGet(t, h, Trusted) == Get(s, h, Trusted) && SledGet(t, h, Verified) == Get(s, h, Verified);
      assert SledGet(t, h, Unverified) == Get(s, h, Unverified) && SledGet(t, h, Failed) == Get(s, h, Failed);
    }
  }

  /** The height is stored under this status and under one that comes before it. */
  predicate Shadowed(t: SledTrees, h: Height, status: Status) {
    h in Db(t, status) && Best(t, h) != Some(StoreEntry(Db(t, status)[h], status))
  }

  /** The stores give the same answer about a height and a status exactly if it is not shadowed. */
  lemma GetAgreesIff(t: SledTrees, s: StoreMap, h: Height, status: Status)
    requires Leads(t, s)
    ensures SledGet(t, h, status) == Get(s, h, status) <==> !Shadowed(t, h, status)
  {
    assert LeadsAt(t, s, h);
  }

  /** They agree on everything exactly if no height is in two trees. */
  lemma AgreeIffDisjoint(t: SledTrees, s: StoreMap)
    requires Leads(t, s)
    ensures Agree(t, s) <==> Disjoint(t)
  {
    if Agree(t, s) {
      AgreeingTreesAreDisjoint(t, s);
    }
    if Disjoint(t) {
      forall h: Height, status: Status
        ensures SledGet(t, h, status) == Get(s, h, status)
      {
        assert LeadsAt(t, s, h);
      }
    }
  }

  lemma UpdateKeepsLead(t: SledTrees, s: StoreMap, b: LightBlock, status: Status)
    requires Leads(t, s)
    ensures Leads(SledUpdate(t, b, status), Insert(s, b, status))
  {
    var t', s' := SledUpdate(t, b, status), Insert(s, b, status);
    forall h: Height
      ensures LeadsAt(t', s', h)
    {
      assert LeadsAt(t, s, h);
    }
  }

  // ---- The same run on the other store -------------------------------------

  datatype SledState = SledState(trees: SledTrees, trace: VerificationTrace, tick: nat)

  function SledHighestTrustedOrVerifiedBefore(t: SledTrees, height: Height): Option<LightBlock> {
    SelectHigher(SledHighestBefore(t, height, Trusted), SledHighestBefore(t, height, Verified))
  }

  function SledLowestTrustedOrVerified(t: SledTrees): Option<LightBlock> {
    SelectLower(SledLowest(t, Trusted), SledLowest(t, Verified))
  }

  function SledGetTrustedOrVerified(t: SledTrees, height: Height): Option<LightBlock> {
    var trusted := SledGet(t, height, Trusted);
    if trusted.Some? then trusted else SledGet(t, height, Verified)
  }

  function SledAnswers(t: SledTrees, current: Height, target: Height): Answers {
    Answers(SledHighestTrustedOrVerifiedBefore(t, target),
            FirstNonFailed(SledGet(t, current, Trusted), SledGet(t, current, Verified),
                           SledGet(t, current, Unverified)))
  }

  function SledDecision(cl: Client, st: SledState, current: Height, target: Height): Decision {
    Decide(cl, st.tick, SledAnswers(st.trees, current, target), current, target)
  }

  function SledApply(t: SledTrees, d: Decision): SledTrees {
    var t1 := if d.inserted.Some? then SledInsert(t, d.inserted.value, Unverified) else t;
    if d.updated.Some? then SledUpdate(t1, d.updated.value.0, d.updated.value.1) else t1
  }

  function SledAfter(cl: Client, st: SledState, current: Height, target: Height): SledState {
    var d := SledDecision(cl, st, current, target);
    SledState(SledApply(st.trees, d), TraceIn(st.trace, d, current, target), st.tick + 1)
  }

  ghost predicate StatesAgree(sled: SledState, mem: State) {
    Agree(sled.trees, mem.store) && sled.trace == mem.trace && sled.tick == mem.tick
  }

  ghost predicate StatesLead(sled: SledState, mem: State) {
    Leads(sled.trees, mem.store) && sled.trace == mem.trace && sled.tick == mem.tick
  }

  lemma HighestInTrees(t: SledTrees, s: StoreMap, limit: Height)
    requires Leads(t, s) && WellKeyed(s)
    ensures SledHighestTrustedOrVerifiedBefore(t, limit) == HighestTrustedOrVerifiedBefore(s, limit)
  {
    BelievedInTrees(t, s);
    var found := SledHighestTrustedOrVerifiedBefore(t, limit);
    if found.Some? {
      HighestFound(t, limit, found.value);
      HighestBeforeIff(s, limit, found.value);
    } else {
      NoneFound(t, limit);
      NoneBelievedIff(s, limit);
    }
  }

  lemma HighestFound(t: SledTrees, limit: Height, b: LightBlock)
    requires SledHighestTrustedOrVerifiedBefore(t, limit) == Some(b)
    requires forall h :: h in t.trusted ==> t.trusted[h].Height() == h
    requires forall h :: h in t.verified ==> t.verified[h].Height() == h
    ensures b.Height() <= limit
    ensures (b.Height() in t.trusted && t.trusted[b.Height()] == b)
            || (b.Height() in t.verified && t.verified[b.Height()] == b)
    ensures forall h: Height :: h <= limit && (h in t.trusted || h in t.verified) ==> h <= b.Height()
  {
    var ts := set h | h in t.trusted.Keys && h <= limit;
    var vs := set h | h in t.verified.Keys && h <= limit;
    assert forall h: Height :: h <= limit ==> (h in t.trusted <==> h in ts) && (h in t.verified <==> h in vs);
  }

  lemma NoneFound(t: SledTrees, limit: Height)
    requires SledHighestTrustedOrVerifiedBefore(t, limit).None?
    ensures forall h: Height :: h <= limit ==> h !in t.trusted && h !in t.verified
  {
    var ts := set h | h in t.trusted.Keys && h <= limit;
    var vs := set h | h in t.verified.Keys && h <= limit;
    assert forall h: Height :: h <= limit ==> (h in t.trusted <==> h in ts) && (h in t.verified <==> h in vs);
  }

  lemma LowestInTrees(t: SledTrees, s: StoreMap)
    requires Leads(t, s) && WellKeyed(s)
    ensures SledLowestTrustedOrVerified(t) == LowestTrustedOrVerified(s)
  {
    BelievedInTrees(t, s);
    if t.trusted.Keys != {} || t.verified.Keys != {} {
      var b := SledLowestTrustedOrVerified(t).value;
      assert LowestBelieved(s, b.Height()) && s[b.Height()].lightBlock == b;
      LowestIff(s, b);
    } else if LowestTrustedOrVerified(s).Some? {
      LowestIff(s, LowestTrustedOrVerified(s).value);
    }
  }

  /** The believed heights are those of two of the trees, with the same blocks. */
  lemma BelievedInTrees(t: SledTrees, s: StoreMap)
    requires Leads(t, s) && WellKeyed(s)
    ensures forall h: Height :: Believed(s, h) <==> h in t.trusted || h in t.verified
    ensures forall h :: h in t.trusted ==> h in s && t.trusted[h] == s[h].lightBlock && t.trusted[h].Height() == h
    ensures forall h :: h in t.verified ==> h in s && t.verified[h] == s[h].lightBlock && t.verified[h].Height() == h
  {
    forall h: Height
      ensures Believed(s, h) <==> h in t.trusted || h in t.verified
      ensures h in t.trusted ==> h in s && t.trusted[h] == s[h].lightBlock && t.trusted[h].Height() == h
      ensures h in t.verified ==> h in s && t.verified[h] == s[h].lightBlock && t.verified[h].Height() == h
    {
      assert LeadsAt(t, s, h);
    }
  }

  /** The queries that the client makes are answered alike. */
  lemma DerivedAnswersAgree(t: SledTrees, s: StoreMap, current: Height, target: Height)
    requires Leads(t, s) && WellKeyed(s)
    ensures SledAnswers(t, current, target) == AnswersFrom(s, current, target)
    ensures SledHighestTrustedOrVerifiedBefore(t, target) == HighestTrustedOrVerifiedBefore(s, target)
    ensures SledLowestTrustedOrVerified(t) == LowestTrustedOrVerified(s)
    ensures SledGetTrustedOrVerified(t, current) == GetTrustedOrVerified(s, current)
  {
    HighestInTrees(t, s, target);
    LowestInTrees(t, s);
    assert LeadsAt(t, s, current);
  }

  /** A decision only inserts the block it then updates. */
  ghost predicate UpdatesInserted(d: Decision) {
    d.inserted.Some? ==> d.updated.Some? && d.updated.value.0 == d.inserted.value
  }

  lemma ApplyKeepsAgreement(t: SledTrees, s: StoreMap, d: Decision)
    requires Agree(t, s) && UpdatesInserted(d)
    ensures Agree(SledApply(t, d), ApplyTo(s, d))
  {
    if d.updated.Some? {
      var (b, status) := d.updated.value;
      InsertThenUpdate(t, b, status);
      UpdateKeepsAgreement(t, s, b, status);
      assert Insert(Insert(s, b, Unverified), b, status) == Insert(s, b, status);
    }
  }

  lemma ApplyKeepsLead(t: SledTrees, s: StoreMap, d: Decision)
    requires Leads(t, s) && UpdatesInserted(d)
    ensures Leads(SledApply(t, d), ApplyTo(s, d))
  {
    if d.updated.Some? {
      var (b, status) := d.updated.value;
      InsertThenUpdate(t, b, status);
      UpdateKeepsLead(t, s, b, status);
      assert Insert(Insert(s, b, Unverified), b, status) == Insert(s, b, status);
    }
  }

  /** A round on either store takes the same decision and leaves the two as they were to each other. */
  lemma RoundsAgree(cl: Client, sled: SledState, mem: State, current: Height, target: Height)
    requires HonoursHeights(cl) && WellKeyed(mem.store) && StatesLead(sled, mem)
    ensures SledDecision(cl, sled, current, target) == DecisionIn(cl, mem, current, target)
    ensures StatesLead(SledAfter(cl, sled, current, target), After(cl, mem, current, target))
    ensures StatesAgree(sled, mem) ==>
              StatesAgree(SledAfter(cl, sled, current, target), After(cl, mem, current, target))
  {
    DerivedAnswersAgree(sled.trees, mem.store, current, target);
    var d := DecisionIn(cl, mem, current, target);
    DecideShape(cl, mem.tick, AnswersFrom(mem.store, current, target), current, target);
    ApplyKeepsLead(sled.trees, mem.store, d);
    if Agree(sled.trees, mem.store) {
      ApplyKeepsAgreement(sled.trees, mem.store, d);
    }
  }

  /**
   Forward verification on the trees.  The ghost state is the run on the map
   beside it; the result and the trace are the same.
   */
  function SledForward(cl: Client, sled: SledState, ghost mem: State, current: Height, target: Height)
    : (r: (Outcome, SledState))
    requires HonoursHeights(cl) && SensibleVerifier(cl) && Ready(mem.store, current, target)
    requires StatesLead(sled, mem)
    ensures r.0 == Forward(cl, mem, current, target).0
    ensures StatesLead(r.1, Forward(cl, mem, current, target).1)
    ensures StatesAgree(sled, mem) ==> StatesAgree(r.1, Forward(cl, mem, current, target).1)
    decreases target - TrustedHeight(mem.store, target), current - TrustedHeight(mem.store, target)
  {
    RoundsAgree(cl, sled, mem, current, target);
    var d := SledDecision(cl, sled, current, target);
    var sled' := SledAfter(cl, sled, current, target);
    if d.finished.Some? then (d.finished.value, sled')
    else
      ghost var mem' := After(cl, mem, current, target);
      RoundProgress(cl, mem, current, target);
      RoundSchedulesValidly(cl, mem, current, target);
      RoundWrites(cl, mem, current, target);
      DerivedAnswersAgree(sled'.trees, mem'.store, current, target);
      var trusted := SledHighestTrustedOrVerifiedBefore(sled'.trees, target).value.Height();
      SledForward(cl, sled', mem', Schedule(trusted, current, target), target)
  }

  function SledVerifyToTarget(cl: Client, sled: SledState, ghost mem: State, target: Height)
    : (r: (Outcome, SledState))
    requires HonoursHeights(cl) && SensibleVerifier(cl) && WellKeyed(mem.store)
    requires StatesLead(sled, mem)
    ensures r.0 == VerifyToTarget(cl, mem, target).0
    ensures StatesLead(r.1, VerifyToTarget(cl, mem, target).1)
    ensures StatesAgree(sled, mem) ==> StatesAgree(r.1, VerifyToTarget(cl, mem, target).1)
  {
    DerivedAnswersAgree(sled.trees, mem.store, target, target);
    var known := SledGetTrustedOrVerified(sled.trees, target);
    if known.Some? then (Ok(known.value), sled) else
    var before := SledHighestTrustedOrVerifiedBefore(sled.trees, target);
    var highest := if before.Some? then before else SledLowestTrustedOrVerified(sled.trees);
    if highest.None? then (Err(NoInitialTrustedState), sled)
    else if target >= highest.value.Height() then
      TargetIsReady(mem.store, target);
      SledForward(cl, sled, mem, target, target)
    else
      (Err(TargetLowerThanTrustedState(target, highest.value.Height())), sled)
  }

  function SledRun(cl: Client, sled: SledState, ghost mem: State, targets: seq<Height>): (sled': SledState)
    requires HonoursHeights(cl) && SensibleVerifier(cl) && WellKeyed(mem.store)
    requires StatesAgree(sled, mem)
    ensures StatesAgree(sled', Run(cl, mem, targets))
    decreases |targets|
  {
    if targets == [] then sled
    else
      AgreeingLeads(sled.trees, mem.store);
      VerifyToTargetKeepsKeys(cl, mem, targets[0]);
      SledRun(cl, SledVerifyToTarget(cl, sled, mem, targets[0]).1, VerifyToTarget(cl, mem, targets[0]).1, targets[1..])
  }

  /**
   Over every run from an empty store and one trusted block, the two stores give
   equal answers to every query about every status, and no height is in two of
   the trees.
   */
  lemma StoresAgreeInEveryRun(
    cl: Client, trusted: LightBlock, targets: seq<Height>, height: Height, status: Status)
    requires HonoursHeights(cl) && SensibleVerifier(cl)
    ensures var mem0 := State(Insert(map[], trusted, Trusted), map[], 0);
            var sled0 := SledState(SledInsert(EMPTY_TREES, trusted, Trusted), map[], 0);
            && WellKeyed(mem0.store) && StatesAgree(sled0, mem0)
            && var s := Run(cl, mem0, targets).store;
               var t := SledRun(cl, sled0, mem0, targets).trees;
               && SledGet(t, height, status) == Get(s, height, status)
               && SledHighest(t, status) == Highest(s, status)
               && SledHighestBefore(t, height, status) == HighestBefore(s, height, status)
               && SledLowest(t, status) == Lowest(s, status)
               && Disjoint(t)
  {
    var mem0 := State(Insert(map[], trusted, Trusted), map[], 0);
    var sled0 := SledState(SledInsert(EMPTY_TREES, trusted, Trusted), map[], 0);
    FirstInsertAgrees(trusted);
    var s := Run(cl, mem0, targets).store;
    var t := SledRun(cl, sled0, mem0, targets).trees;
    AgreeingStoresAnswerAlike(t, s, height, status);
    AgreeingTreesAreDisjoint(t, s);
  }

  lemma FirstInsertAgrees(trusted: LightBlock)
    ensures Agree(SledInsert(EMPTY_TREES, trusted, Trusted), Insert(map[], trusted, Trusted))
  {
  }
}
