/**
 Induction over runs for properties of the trusted and verified blocks: what
 passes from a trusted block to every block the verifier accepts on its
 strength holds of all of them, throughout every run.
 */
module BelievedBlocks {
  import opened Common
  import opened Types
  import opened Blocks
  import opened LightStores
  import opened LightClient

  /** A property of blocks, and which blocks can be had at a time. */
  type Property = LightBlock -> bool
  type Supply = (LightBlock, Time) -> bool

  /** The property passes to accepted blocks. */
  ghost predicate PassesOn(cl: Client, good: Property, have: Supply) {
    forall u: LightBlock, t: LightBlock, now: Time ::
      && t.Height() < I64_MAX && good(t) && have(t, now) && have(u, now)
      && cl.verify(u, t, cl.options, now).Success?
      ==> good(u)
  }

  /** What can be had in a round can be had in the next. */
  ghost predicate Lasting(cl: Client, have: Supply, tick: nat) {
    forall b :: have(b, cl.clock(tick)) ==> have(b, cl.clock(tick + 1))
  }

  /** Fetched blocks can be had, and still can in later rounds. */
  ghost predicate Supplied(cl: Client, have: Supply) {
    && (forall tick, h :: cl.fetch(tick, h).Ok? ==> have(cl.fetch(tick, h).value, cl.clock(tick)))
    && (forall tick: nat {:trigger Lasting(cl, have, tick)} :: Lasting(cl, have, tick))
  }

  /** Every stored block can be had by now, and every believed one has the property. */
  ghost predicate Holds(good: Property, have: Supply, s: StoreMap, now: Time) {
    && WellKeyed(s)
    && (forall h :: h in s ==> have(s[h].lightBlock, now))
    && (forall h: Height :: Believed(s, h) ==> good(s[h].lightBlock))
  }

  /** The trusted block of a round is one of the believed ones. */
  lemma TrustedBlockHolds(good: Property, have: Supply, s: StoreMap, now: Time, target: Height)
    requires Holds(good, have, s, now) && HighestTrustedOrVerifiedBefore(s, target).Some?
    ensures var t := HighestTrustedOrVerifiedBefore(s, target).value; good(t) && have(t, now) && t.Height() <= target
  {
    HighestBeforeIff(s, target, HighestTrustedOrVerifiedBefore(s, target).value);
  }

  lemma RoundKeepsSupply(cl: Client, have: Supply, st: State, current: Height, target: Height, h: Height)
    requires HonoursHeights(cl) && Supplied(cl, have) && WellKeyed(st.store)
    requires forall x :: x in st.store ==> have(st.store[x].lightBlock, cl.clock(st.tick))
    requires h in After(cl, st, current, target).store
    ensures have(After(cl, st, current, target).store[h].lightBlock, cl.clock(st.tick))
  {
    RoundWrites(cl, st, current, target);
    if DecisionIn(cl, st, current, target).updated.Some? {
      RoundVerdict(cl, st, current, target);
    }
  }

  /** A block that a round makes believed was accepted against the trusted one. */
  lemma BelievedAfterRound(cl: Client, st: State, current: Height, target: Height, h: Height)
    requires HonoursHeights(cl) && Ready(st.store, current, target)
    requires Believed(After(cl, st, current, target).store, h)
    ensures var s' := After(cl, st, current, target).store;
            var t := HighestTrustedOrVerifiedBefore(st.store, target);
            || (Believed(st.store, h) && s'[h] == st.store[h])
            || (t.Some? && t.value.Height() < target
                && cl.verify(s'[h].lightBlock, t.value, cl.options, cl.clock(st.tick)).Success?)
  {
    RoundWrites(cl, st, current, target);
    if DecisionIn(cl, st, current, target).updated.Some? {
      RoundVerdict(cl, st, current, target);
    }
  }

  lemma RoundHolds(cl: Client, good: Property, have: Supply, st: State, current: Height, target: Height)
    requires HonoursHeights(cl) && PassesOn(cl, good, have) && Supplied(cl, have)
    requires Ready(st.store, current, target) && Holds(good, have, st.store, cl.clock(st.tick))
    ensures Holds(good, have, After(cl, st, current, target).store, cl.clock(st.tick + 1))
  {
    var s' := After(cl, st, current, target).store;
    RoundWrites(cl, st, current, target);
    assert Lasting(cl, have, st.tick);
    forall h | h in s'
      ensures have(s'[h].lightBlock, cl.clock(st.tick)) && have(s'[h].lightBlock, cl.clock(st.tick + 1))
    {
      RoundKeepsSupply(cl, have, st, current, target, h);
    }
    forall h: Height | Believed(s', h)
      ensures good(s'[h].lightBlock)
    {
      BelievedAfterRound(cl, st, current, target, h);
      if !(Believed(st.store, h) && s'[h] == st.store[h]) {
        TrustedBlockHolds(good, have, st.store, cl.clock(st.tick), target);
      }
    }
  }

  ghost function HoldsIn(cl: Client, good: Property, have: Supply): State -> bool {
    (st: State) => Holds(good, have, st.store, cl.clock(st.tick))
  }

  lemma HoldsIsInductive(cl: Client, good: Property, have: Supply)
    requires HonoursHeights(cl) && PassesOn(cl, good, have) && Supplied(cl, have)
    ensures Inductive(cl, HoldsIn(cl, good, have))
  {
    forall st, current, target | HoldsIn(cl, good, have)(st) && Ready(st.store, current, target)
      ensures HoldsIn(cl, good, have)(After(cl, st, current, target))
    {
      RoundHolds(cl, good, have, st, current, target);
    }
  }

  lemma HoldsInState(cl: Client, good: Property, have: Supply, st: State)
    requires HoldsIn(cl, good, have)(st)
    ensures Holds(good, have, st.store, cl.clock(st.tick))
  {
  }

  /** In all states of any run that starts with the property, all believed blocks have it. */
  lemma HoldsInEveryRun(cl: Client, good: Property, have: Supply, st: State, targets: seq<Height>)
    requires HonoursHeights(cl) && SensibleVerifier(cl) && PassesOn(cl, good, have) && Supplied(cl, have)
    requires Holds(good, have, st.store, cl.clock(st.tick))
    ensures var st' := Run(cl, st, targets); Holds(good, have, st'.store, cl.clock(st'.tick))
  {
    HoldsIsInductive(cl, good, have);
    RunPreserves(cl, HoldsIn(cl, good, have), st, targets);
    HoldsInState(cl, good, have, Run(cl, st, targets));
  }

  /** In the state before a round and in the one after it, and of the block the round verifies against. */
  ghost predicate HoldsAround(cl: Client, good: Property, have: Supply, m: Moment) {
    var next := After(cl, m.state, m.current, m.target);
    && Holds(good, have, m.state.store, cl.clock(m.state.tick))
    && Holds(good, have, next.store, cl.clock(next.tick))
    && var t := HighestTrustedOrVerifiedBefore(m.state.store, m.target);
       t.Some? ==> good(t.value)
  }

  /** At every round of any run that starts with the property. */
  lemma HoldsAtEveryRound(cl: Client, good: Property, have: Supply, st: State, targets: seq<Height>, i: nat)
    requires HonoursHeights(cl) && SensibleVerifier(cl) && PassesOn(cl, good, have) && Supplied(cl, have)
    requires Holds(good, have, st.store, cl.clock(st.tick))
    requires i < |RunRounds(cl, st, targets)|
    ensures HoldsAround(cl, good, have, RunRounds(cl, st, targets)[i])
  {
    var m := RunRounds(cl, st, targets)[i];
    HoldsIsInductive(cl, good, have);
    HoldsAtRunRounds(cl, HoldsIn(cl, good, have), st, targets);
    HoldsInState(cl, good, have, m.state);
    RoundHolds(cl, good, have, m.state, m.current, m.target);
    if HighestTrustedOrVerifiedBefore(m.state.store, m.target).Some? {
      TrustedBlockHolds(good, have, m.state.store, cl.clock(m.state.tick), m.target);
    }
  }

  lemma HoldsAfterCall(cl: Client, good: Property, have: Supply, st: State, target: Height)
    requires HonoursHeights(cl) && SensibleVerifier(cl) && PassesOn(cl, good, have) && Supplied(cl, have)
    requires Holds(good, have, st.store, cl.clock(st.tick))
    ensures var st' := VerifyToTarget(cl, st, target).1; Holds(good, have, st'.store, cl.clock(st'.tick))
  {
    HoldsIsInductive(cl, good, have);
    CallPreserves(cl, HoldsIn(cl, good, have), st, target);
    HoldsInState(cl, good, have, VerifyToTarget(cl, st, target).1);
  }

  lemma BelievedIsGood(good: Property, have: Supply, s: StoreMap, now: Time, h: Height)
    requires Holds(good, have, s, now) && GetTrustedOrVerified(s, h).Some?
    ensures good(GetTrustedOrVerified(s, h).value)
  {
  }

  /** A successful call returns a block with the property. */
  lemma CallReturnsGood(cl: Client, good: Property, have: Supply, st: State, target: Height)
    requires HonoursHeights(cl) && SensibleVerifier(cl) && PassesOn(cl, good, have) && Supplied(cl, have)
    requires Holds(good, have, st.store, cl.clock(st.tick))
    ensures var (r, _) := VerifyToTarget(cl, st, target);
            r.Ok? ==> r.value.Height() == target && good(r.value)
  {
    HoldsAfterCall(cl, good, have, st, target);
    VerifyToTargetDelivers(cl, st, target);
    var (r, after) := VerifyToTarget(cl, st, target);
    if r.Ok? {
      BelievedIsGood(good, have, after.store, cl.clock(after.tick), target);
    }
  }
}
