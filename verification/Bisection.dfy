/** How many rounds forward verification makes. */
module Bisection {
  import opened Types
  import opened LightStores
  import opened LightClient
  import TrustThresholds

  /** How often a gap can be halved, rounding up, until nothing lies between. */
  function Halvings(gap: nat): nat {
    if gap <= 1 then 0 else 1 + Halvings((gap + 1) / 2)
  }

  function Pow2(n: nat): nat {
    if n == 0 then 1 else 2 * Pow2(n - 1)
  }

  /** That is the logarithm of the gap, rounded up. */
  lemma {:induction false} HalvingsIsLogarithm(gap: nat, n: nat)
    ensures Halvings(gap) <= n <==> gap <= Pow2(n)
    decreases n
  {
    if gap > 1 && n > 0 {
      HalvingsIsLogarithm((gap + 1) / 2, n - 1);
    } else if n > 0 {
      HalvingsIsLogarithm(gap, n - 1);
    }
  }

  lemma {:induction false} HalvingsGrow(a: nat, b: nat)
    requires a <= b
    ensures Halvings(a) <= Halvings(b)
    decreases b
  {
    if a > 1 {
      HalvingsGrow((a + 1) / 2, (b + 1) / 2);
    }
  }

  /** The current height is rejected: the trusted block stays the highest, and the gap is halved. */
  ghost predicate Rejected(cl: Client, m: Moment) {
    && DecisionIn(cl, m.state, m.current, m.target).finished.None?
    && HighestTrustedOrVerifiedBefore(StateAfter(cl, m).store, m.target)
       == HighestTrustedOrVerifiedBefore(m.state.store, m.target)
  }

  /** After a round that is not the last: the whole way to the target is next, or half of the gap. */
  lemma NextGap(cl: Client, st: State, current: Height, target: Height)
    requires HonoursHeights(cl) && SensibleVerifier(cl) && Ready(st.store, current, target)
    requires DecisionIn(cl, st, current, target).finished.None?
    ensures var before := HighestTrustedOrVerifiedBefore(st.store, target);
            var s' := After(cl, st, current, target).store;
            var after := HighestTrustedOrVerifiedBefore(s', target);
            && before.Some? && after.Some? && after.value.Height() <= current
            && var low, next := before.value.Height(), NextHeight(s', current, target);
               && low < current <= target
               && if after == before
                  then current - low >= 2 && next - low == (current - low + 1) / 2
                  else after.value.Height() == current && next == target
  {
    RoundProgress(cl, st, current, target);
  }

  /** What is granted for the way to the target and the gap below the current height. */
  type Budget = (nat, nat) -> nat

  /** Enough for the rounds on a shorter way, and one more. */
  ghost predicate CoversAccepting(budget: Budget, longest: nat) {
    forall way: nat, way': nat, gap: nat {:trigger budget(way, gap), budget(way', way')} ::
      way' < way <= longest ==> 1 + budget(way', way') <= budget(way, gap)
  }

  /** Enough for the rounds with half the gap, and one more. */
  ghost predicate CoversRejecting(budget: Budget) {
    forall way: nat, gap: nat, half: nat {:trigger budget(way, gap), budget(way, half)} ::
      gap >= 2 && half == (gap + 1) / 2 ==> 1 + budget(way, half) <= budget(way, gap)
  }

  ghost predicate Suffices(budget: Budget, longest: nat) {
    && (forall way: nat, gap: nat :: budget(way, gap) >= 1)
    && CoversAccepting(budget, longest) && CoversRejecting(budget)
  }

  ghost function Way(st: State, target: Height): nat {
    var low: nat := TrustedHeight(st.store, target); if low <= target then target - low else 0
  }

  ghost function Gap(st: State, current: Height, target: Height): nat {
    var low: nat := TrustedHeight(st.store, target); if low <= current then current - low else 0
  }

  /** The way gets shorter and is the new gap, or it stays and the gap is halved. */
  lemma NextWay(cl: Client, st: State, current: Height, target: Height)
    requires HonoursHeights(cl) && SensibleVerifier(cl) && Ready(st.store, current, target)
    requires DecisionIn(cl, st, current, target).finished.None?
    ensures var st' := After(cl, st, current, target);
            var after := HighestTrustedOrVerifiedBefore(st'.store, target);
            && after.Some? && after.value.Height() <= current
            && var way, gap := Way(st, target), Gap(st, current, target);
               var way', gap' := Way(st', target), Gap(st', NextHeight(st'.store, current, target), target);
               || (way' < way && gap' == way' && !Rejected(cl, Moment(st, current, target)))
               || (way' == way && gap >= 2 && gap' == (gap + 1) / 2 && Rejected(cl, Moment(st, current, target)))
  {
    NextGap(cl, st, current, target);
  }

  lemma Spends(budget: Budget, longest: nat, way: nat, gap: nat, way': nat, gap': nat)
    requires Suffices(budget, longest) && way <= longest
    requires (way' < way && gap' == way') || (way' == way && gap >= 2 && gap' == (gap + 1) / 2)
    ensures 1 + budget(way', gap') <= budget(way, gap)
  {
  }

  lemma {:induction false} RoundsWithin(
    cl: Client, budget: Budget, longest: nat, st: State, current: Height, target: Height)
    requires HonoursHeights(cl) && SensibleVerifier(cl) && Ready(st.store, current, target)
    requires Suffices(budget, longest) && Way(st, target) <= longest
    ensures |ForwardRounds(cl, st, current, target)| <= budget(Way(st, target), Gap(st, current, target))
    decreases target - TrustedHeight(st.store, target), current - TrustedHeight(st.store, target)
  {
    if DecisionIn(cl, st, current, target).finished.None? {
      RoundProgress(cl, st, current, target);
      RoundSchedulesValidly(cl, st, current, target);
      NextWay(cl, st, current, target);
      var st' := After(cl, st, current, target);
      var next := NextHeight(st'.store, current, target);
      RoundsWithin(cl, budget, longest, st', next, target);
      Spends(budget, longest, Way(st, target), Gap(st, current, target), Way(st', target), Gap(st', next, target));
    }
  }

  /** One round for each height still to go, times the logarithm of the longest way, and what the gap takes. */
  ghost function LogarithmicBudget(most: nat): Budget {
    (way: nat, gap: nat) => 1 + way * (most + 1) + Halvings(gap)
  }

  lemma AcceptingSaves(way: nat, way': nat, gap: nat, most: nat)
    requires way' < way && Halvings(way') <= most
    ensures 1 + (1 + way' * (most + 1) + Halvings(way')) <= 1 + way * (most + 1) + Halvings(gap)
  {
    assert way' * (most + 1) + (most + 1) == (way' + 1) * (most + 1);
    TrustThresholds.ProductsBelow(way' + 1, way, most + 1, most + 1);
  }

  lemma BudgetIs(most: nat, way: nat, gap: nat)
    ensures LogarithmicBudget(most)(way, gap) == 1 + way * (most + 1) + Halvings(gap)
  {
  }

  lemma LogarithmCoversAccepting(longest: nat)
    ensures CoversAccepting(LogarithmicBudget(Halvings(longest)), longest)
  {
    var most := Halvings(longest);
    var budget := LogarithmicBudget(most);
    forall way: nat, way': nat, gap: nat | way' < way <= longest
      ensures 1 + budget(way', way') <= budget(way, gap)
    {
      BudgetIs(most, way, gap);
      BudgetIs(most, way', way');
      HalvingsGrow(way', longest);
      AcceptingSaves(way, way', gap, most);
    }
  }

  lemma LogarithmCoversRejecting(most: nat)
    ensures CoversRejecting(LogarithmicBudget(most))
  {
    var budget := LogarithmicBudget(most);
    forall way: nat, gap: nat, half: nat | gap >= 2 && half == (gap + 1) / 2
      ensures 1 + budget(way, half) <= budget(way, gap)
    {
      BudgetIs(most, way, gap);
      BudgetIs(most, way, half);
    }
  }

  lemma LogarithmSuffices(longest: nat)
    ensures Suffices(LogarithmicBudget(Halvings(longest)), longest)
  {
    LogarithmCoversAccepting(longest);
    LogarithmCoversRejecting(Halvings(longest));
  }

  lemma CallRoundsWithin(cl: Client, budget: Budget, st: State, target: Height, low: Height)
    requires HonoursHeights(cl) && SensibleVerifier(cl) && WellKeyed(st.store)
    requires HighestBelieved(st.store, target, low) && Suffices(budget, target - low)
    ensures |CallRounds(cl, st, target)| <= budget(target - low, target - low)
  {
    HighestBeforeIff(st.store, target, st.store[low].lightBlock);
    CallRoundsAreAll(cl, st, target);
    assert Way(st, target) == target - low == Gap(st, target, target);
    if CallRounds(cl, st, target) != [] {
      RoundsWithin(cl, budget, target - low, st, target, target);
    }
  }

  /**
   A call from trusted height `low` makes at most one round for each height to
   go, times the logarithm of the way rounded up and one more.
   */
  lemma CallRoundsAreBounded(cl: Client, st: State, target: Height, low: Height)
    requires HonoursHeights(cl) && SensibleVerifier(cl) && WellKeyed(st.store)
    requires HighestBelieved(st.store, target, low)
    ensures var way, most := target - low, Halvings(target - low);
            |CallRounds(cl, st, target)| <= 1 + way * (most + 1) + most
  {
    LogarithmSuffices(target - low);
    CallRoundsWithin(cl, LogarithmicBudget(Halvings(target - low)), st, target, low);
    BudgetIs(Halvings(target - low), target - low, target - low);
  }

  ghost function RejectedIn(cl: Client): Moment -> bool {
    (m: Moment) => Rejected(cl, m)
  }

  ghost predicate FirstAll(p: Moment -> bool, ms: seq<Moment>, k: nat) {
    k <= |ms| && forall i :: 0 <= i < k ==> p(ms[i])
  }

  lemma LaterAll(p: Moment -> bool, m: Moment, ms: seq<Moment>, k: nat)
    requires FirstAll(p, [m] + ms, k) && k > 0
    ensures FirstAll(p, ms, k - 1) && p(m)
  {
    var all := [m] + ms;
    forall i | 0 <= i < k - 1
      ensures p(ms[i])
    {
      assert p(all[i + 1]);
    }
    assert p(all[0]);
  }

  /** No more rejections follow each other than the gap can be halved. */
  lemma {:induction false} RejectionsAreFew(cl: Client, st: State, current: Height, target: Height, k: nat)
    requires HonoursHeights(cl) && SensibleVerifier(cl) && Ready(st.store, current, target)
    requires FirstAll(RejectedIn(cl), ForwardRounds(cl, st, current, target), k)
    ensures k <= Halvings(Gap(st, current, target))
    decreases k
  {
    if k > 0 {
      assert RejectedIn(cl)(ForwardRounds(cl, st, current, target)[0]);
      RoundProgress(cl, st, current, target);
      RoundSchedulesValidly(cl, st, current, target);
      NextWay(cl, st, current, target);
      var st' := After(cl, st, current, target);
      var next := NextHeight(st'.store, current, target);
      LaterAll(RejectedIn(cl), Moment(st, current, target), ForwardRounds(cl, st', next, target), k);
      RejectionsAreFew(cl, st', next, target, k - 1);
    }
  }
}
