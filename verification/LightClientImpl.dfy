/**
 The light client as light-client/src/light_client.rs and state.rs run it, on a
 store and a trace that change in place.  Every method is tied to its value form
 in `LightClient`, where the properties of whole runs are proved.
 */
module LightClientImpl {
  import opened Common
  import Sorting
  import opened Types
  import opened Blocks
  import opened LightStores
  import opened Scheduler
  import LightClient
  import opened Traces

  class ClientState {
    var lightStore: MemoryStore
    var verificationTrace: LightClient.VerificationTrace

    constructor (lightStore: MemoryStore)
      ensures this.lightStore == lightStore && verificationTrace == map[]
    {
      this.lightStore := lightStore;
      verificationTrace := map[];
    }

    /**
     Records that the block at `height` was needed for the block at `target`: that
     trace holds both from now on, no trace loses anything, and no other changes.
     */
    method TraceBlock(target: Height, height: Height)
      requires height <= target
      modifies this
      ensures verificationTrace == LightClient.TraceBlock(old(verificationTrace), target, height)
      ensures target in verificationTrace && height in verificationTrace[target]
      ensures (forall t :: t in old(verificationTrace) ==> t in old(verificationTrace)[t]) ==>
                forall t :: t in verificationTrace ==> t in verificationTrace[t]
      ensures forall t :: t in old(verificationTrace) ==>
                t in verificationTrace && old(verificationTrace)[t] <= verificationTrace[t]
      ensures forall t :: t != target ==>
                (t in verificationTrace <==> t in old(verificationTrace))
                && (t in verificationTrace ==> verificationTrace[t] == old(verificationTrace)[t])
      ensures lightStore == old(lightStore)
    {
      var entry := if target in verificationTrace then verificationTrace[target] else {target};
      verificationTrace := verificationTrace[target := entry + {height}];
    }

    /** The blocks recorded for `target` that are trusted or verified, in ascending order of height. */
    method GetTrace(target: Height) returns (blocks: seq<LightBlock>)
      requires WellKeyed(lightStore.store)
      ensures blocks == TraceOf(lightStore.store, verificationTrace, target)
    {
      var heights := if target in verificationTrace then verificationTrace[target] else {};
      var rest := heights;
      var found: seq<LightBlock> := [];
      while rest != {}
        invariant rest <= heights
        invariant Lists(lightStore.store, heights - rest, found)
        decreases rest
      {
        var h :| h in rest;
        var b := GetTrustedOrVerified(lightStore.store, h);
        ListsOneMore(lightStore.store, heights - rest, found, h);
        assert heights - (rest - {h}) == heights - rest + {h};
        if b.Some? {
          found := found + [b.value];
        }
        rest := rest - {h};
      }
      assert heights - rest == heights;
      blocks := Sorting.Sort(ByHeight, found);
      SortedListing(lightStore.store, heights, found);
    }
  }

  class LightClientInstance {
    const client: LightClient.Client
    var tick: nat

    constructor (client: LightClient.Client)
      ensures this.client == client && tick == 0
    {
      this.client := client;
      tick := 0;
    }

    ghost function View(state: ClientState): LightClient.State
      reads this, state, state.lightStore
    {
      LightClient.State(state.lightStore.store, state.verificationTrace, tick)
    }

    /** The stored block that has not failed, or else the one the primary has, which is then stored. */
    method GetOrFetchBlock(now: nat, height: Height, state: ClientState)
      returns (r: Result<(LightBlock, Status), LightClient.ClientError>)
      modifies state.lightStore
      ensures var stored := GetNonFailed(old(state.lightStore.store), height);
              var fetched := client.fetch(now, height);
              if stored.Some? then
                r == Ok(stored.value) && state.lightStore.store == old(state.lightStore.store)
              else if fetched.Err? then
                r == Err(LightClient.Io(fetched.error)) && state.lightStore.store == old(state.lightStore.store)
              else
                && r == Ok((fetched.value, Unverified))
                && state.lightStore.store == LightStores.Insert(old(state.lightStore.store), fetched.value, Unverified)
    {
      var stored := GetNonFailed(state.lightStore.store, height);
      if stored.Some? {
        return Ok(stored.value);
      }
      var fetched := client.fetch(now, height);
      if fetched.Err? {
        return Err(LightClient.Io(fetched.error));
      }
      state.lightStore.InsertBlock(fetched.value, Unverified);
      return Ok((fetched.value, Unverified));
    }

    /** Verifies a block against the trusted one and files it according to the verdict. */
    method RecordVerdict(
      block: LightBlock, status: Status, trusted: LightBlock, now: Time, current: Height, state: ClientState)
      returns (finished: Option<LightClient.Outcome>)
      requires trusted.Height() <= current
      modifies state, state.lightStore
      ensures state.lightStore == old(state.lightStore)
      ensures var d := LightClient.Judge(client, None, block, status, trusted, now);
              && finished == d.finished
              && state.lightStore.store == LightClient.ApplyTo(old(state.lightStore.store), d)
              && state.verificationTrace == LightClient.TraceLink(old(state.verificationTrace), d, current)
    {
      match client.verify(block, trusted, client.options, now) {
        case Success =>
          state.lightStore.UpdateBlock(block, MostTrusted(Verified, status));
          state.TraceBlock(current, trusted.Height());
          return None;
        case Invalid(e) =>
          state.lightStore.UpdateBlock(block, Failed);
          return Some(Err(LightClient.InvalidLightBlock(e)));
        case NotEnoughTrust(_) =>
          state.lightStore.UpdateBlock(block, Unverified);
          return None;
      }
    }

    /** Gets the current block, from the store or the primary, and judges it. */
    method CheckCurrent(t: nat, trusted: LightBlock, now: Time, current: Height, state: ClientState)
      returns (finished: Option<LightClient.Outcome>)
      requires trusted.Height() <= current
      modifies state, state.lightStore
      ensures state.lightStore == old(state.lightStore)
      ensures var d := LightClient.JudgeCurrent(
                client, t, GetNonFailed(old(state.lightStore.store), current), trusted, now, current);
              && finished == d.finished
              && state.lightStore.store == LightClient.ApplyTo(old(state.lightStore.store), d)
              && state.verificationTrace == LightClient.TraceLink(old(state.verificationTrace), d, current)
    {
      var got := GetOrFetchBlock(t, current, state);
      if got.Err? {
        return Some(Err(got.error));
      }
      var (block, status) := got.value;
      finished := RecordVerdict(block, status, trusted, now, current, state);
    }

    /** One round of the loop, from the latest trusted state up to scheduling. */
    method Round(highest: Option<LightBlock>, current: Height, target: Height, state: ClientState)
      returns (finished: Option<LightClient.Outcome>)
      requires current <= target && (highest.Some? ==> highest.value.Height() <= current)
      modifies this, state, state.lightStore
      ensures state.lightStore == old(state.lightStore) && tick == old(tick) + 1
      ensures var answers := LightClient.Answers(highest, GetNonFailed(old(state.lightStore.store), current));
              var d := LightClient.Decide(client, old(tick), answers, current, target);
              && finished == d.finished
              && state.lightStore.store == LightClient.ApplyTo(old(state.lightStore.store), d)
              && state.verificationTrace == LightClient.TraceIn(old(state.verificationTrace), d, current, target)
    {
      var t := tick;
      tick := tick + 1;
      if highest.None? {
        return Some(Err(LightClient.NoInitialTrustedState));
      }
      var now := client.clock(t);
      var trusted := highest.value;
      if target < trusted.Height() {
        return Some(Err(LightClient.TargetLowerThanTrustedState(target, trusted.Height())));
      }
      if !LightClient.WithinTrustPeriod(trusted, client.options.trustingPeriod, now) {
        return Some(Err(LightClient.TrustedStateOutsideTrustingPeriod(trusted, client.options)));
      }
      state.TraceBlock(target, current);
      if target == trusted.Height() {
        return Some(Ok(trusted));
      }
      finished := CheckCurrent(t, trusted, now, current, state);
    }

    /** Forward verification with bisection. */
    method VerifyForward(target: Height, state: ClientState) returns (r: LightClient.Outcome)
      requires LightClient.HonoursHeights(client) && LightClient.SensibleVerifier(client)
      requires WellKeyed(state.lightStore.store)
      modifies this, state, state.lightStore
      ensures state.lightStore == old(state.lightStore)
      ensures LightClient.Ready(old(state.lightStore.store), target, target)
      ensures (r, View(state)) == LightClient.Forward(client, old(View(state)), target, target)
    {
      LightClient.TargetIsReady(state.lightStore.store, target);
      ghost var whole := LightClient.Forward(client, View(state), target, target);
      var current: Height := target;
      while true
        invariant state.lightStore == old(state.lightStore)
        invariant LightClient.Ready(state.lightStore.store, current, target)
        invariant whole == LightClient.Forward(client, View(state), current, target)
        decreases target - LightClient.TrustedHeight(state.lightStore.store, target),
                  current - LightClient.TrustedHeight(state.lightStore.store, target)
      {
        ghost var before := View(state);
        var highest := HighestTrustedOrVerifiedBefore(state.lightStore.store, target);
        var finished := Round(highest, current, target, state);
        assert View(state) == LightClient.After(client, before, current, target);
        if finished.Some? {
          return finished.value;
        }
        LightClient.RoundProgress(client, before, current, target);
        LightClient.RoundSchedulesValidly(client, before, current, target);
        var trusted := HighestTrustedOrVerifiedBefore(state.lightStore.store, target);
        current := Schedule(trusted.value.Height(), current, target);
      }
    }

    /** The client's main call. */
    method VerifyToTarget(target: Height, state: ClientState) returns (r: LightClient.Outcome)
      requires LightClient.HonoursHeights(client) && LightClient.SensibleVerifier(client)
      requires WellKeyed(state.lightStore.store)
      modifies this, state, state.lightStore
      ensures state.lightStore == old(state.lightStore)
      ensures (r, View(state)) == LightClient.VerifyToTarget(client, old(View(state)), target)
    {
      var known := GetTrustedOrVerified(state.lightStore.store, target);
      if known.Some? {
        return Ok(known.value);
      }
      var highest := HighestTrustedOrVerifiedBefore(state.lightStore.store, target);
      if highest.None? {
        highest := LowestTrustedOrVerified(state.lightStore.store);
      }
      if highest.None? {
        return Err(LightClient.NoInitialTrustedState);
      }
      if target >= highest.value.Height() {
        r := VerifyForward(target, state);
      } else {
        r := Err(LightClient.TargetLowerThanTrustedState(target, highest.value.Height()));
      }
    }
  }
}
