/** Trust thresholds of tendermint/src/trust_threshold.rs, in wrapping 64-bit arithmetic. */
module TrustThresholds {
  import opened Common

  datatype Fraction = Fraction(numerator: U64, denominator: U64)

  /** `1/3 <= numerator/denominator <= 1`. */
  predicate ValidFraction(numerator: U64, denominator: U64) {
    0 < denominator && numerator <= denominator <= 3 * numerator
  }

  /** The fields are private: every threshold comes from `New` or is one of the two constants. */
  type TrustThreshold = f: Fraction | ValidFraction(f.numerator, f.denominator)
    witness Fraction(1, 3)

  const TWO_THIRDS: TrustThreshold := Fraction(2, 3)

  datatype ThresholdError = TooLarge | Undefined | TooSmall

  function New(numerator: U64, denominator: U64): (r: Result<TrustThreshold, ThresholdError>)
    ensures r.Ok? ==> ValidFraction(numerator, denominator)
    ensures ValidFraction(numerator, denominator) && 3 * numerator < TWO_64 ==> r.Ok?
    ensures r.Ok? ==> r.value == Fraction(numerator, denominator)
    ensures r == Err(TooLarge) <==> numerator > denominator
    ensures r == Err(Undefined) <==> numerator == 0 == denominator
    ensures r == Err(TooSmall) ==> !ValidFraction(numerator, denominator) || 3 * numerator >= TWO_64
  {
    if numerator > denominator then Err(TooLarge)
    else if denominator == 0 then Err(Undefined)
    else if (3 * numerator) % TWO_64 < denominator then Err(TooSmall)
    else Ok(Fraction(numerator, denominator))
  }

  /**
   The documentation says that exactly the fractions between 1/3 and 1 are
   accepted.  Tripling the numerator wraps, so this holds for a numerator if
   and only if the triple fits into 64 bits.
   */
  lemma NewMeetsDocumentation(numerator: U64)
    ensures (forall d: U64 :: New(numerator, d).Ok? <==> ValidFraction(numerator, d))
            <==> 3 * numerator < TWO_64
  {
    if 3 * numerator >= TWO_64 {
      var d: U64 := TWO_64 - 1;
      assert ValidFraction(numerator, d) && !New(numerator, d).Ok?;
    }
  }

  /** The comparison as the machine makes it, its products wrapping. */
  function IsEnoughPower(f: TrustThreshold, signed: nat, total: nat): bool {
    (signed * f.denominator) % TWO_64 > (total * f.numerator) % TWO_64
  }

  /** The comparison of fractions it stands for. */
  predicate ExactlyEnough(f: TrustThreshold, signed: nat, total: nat) {
    signed * f.denominator > total * f.numerator
  }

  const MAX_TOTAL_VOTING_POWER: nat := I64_MAX / 8

  lemma ProductsBelow(a: nat, b: nat, c: nat, d: nat)
    requires a <= b && c <= d
    ensures a * c <= b * d
  {
    assert a * c <= b * c;
    assert b * c <= b * d;
  }

  /** Products that fit into 64 bits compare exactly. */
  lemma ComparisonIsExact(f: TrustThreshold, signed: nat, total: nat)
    requires signed <= total && total * f.denominator < TWO_64
    ensures signed * f.denominator < TWO_64 && total * f.numerator < TWO_64
    ensures IsEnoughPower(f, signed, total) <==> ExactlyEnough(f, signed, total)
  {
    ProductsBelow(signed, total, f.denominator, f.denominator);
    ProductsBelow(total, total, f.numerator, f.denominator);
  }

  ghost predicate ExactForAllSets(f: TrustThreshold) {
    forall signed: nat, total: nat :: signed <= total <= MAX_TOTAL_VOTING_POWER ==>
      (IsEnoughPower(f, signed, total) <==> ExactlyEnough(f, signed, total))
  }

  lemma SmallDenominatorsAreExact(f: TrustThreshold)
    requires f.denominator <= 16
    ensures ExactForAllSets(f)
  {
    forall signed: nat, total: nat | signed <= total <= MAX_TOTAL_VOTING_POWER
      ensures IsEnoughPower(f, signed, total) <==> ExactlyEnough(f, signed, total)
    {
      ProductsBelow(total, MAX_TOTAL_VOTING_POWER, f.denominator, 16);
      ComparisonIsExact(f, signed, total);
    }
  }

  /** Division rounded up. */
  lemma RoundedUp(a: nat, d: nat) returns (s: nat, over: nat)
    requires d > 0
    ensures s * d == a + over && over < d
  {
    var q, r := a / d, a % d;
    assert a == q * d + r;
    if r == 0 {
      s, over := q, 0;
    } else {
      s, over := q + 1, d - r;
      assert (q + 1) * d == q * d + d;
    }
  }

  /** The least multiple of `d` that wraps around, by less than `d`. */
  lemma FirstWrap(d: U64) returns (s: nat, over: nat)
    requires d >= 17
    ensures s * d == TWO_64 + over && over < d && 1 <= s <= MAX_TOTAL_VOTING_POWER
  {
    s, over := RoundedUp(TWO_64, d);
    if s > 0 {
      assert (s - 1) * d == s * d - d;
      ProductsBelow(s - 1, s - 1, 17, d);
    }
  }

  /** A vote with power one is enough once the other product has wrapped around. */
  lemma LargeNumeratorWraps(f: TrustThreshold) returns (total: nat)
    requires f.numerator >= 17
    ensures 1 <= total <= MAX_TOTAL_VOTING_POWER
    ensures IsEnoughPower(f, 1, total) && !ExactlyEnough(f, 1, total)
  {
    var over;
    total, over := FirstWrap(f.numerator);
    assert (total * f.numerator) % TWO_64 == over;
  }

  lemma WrappedBelow(total: nat, n: nat, d: nat, over: nat)
    requires 0 < n < d <= total && total * d == TWO_64 + over && over < d
    ensures over <= total * n < TWO_64 && total * n < total * d
  {
    ProductsBelow(total, total, n, d - 1);
    assert total * (d - 1) == total * d - total;
    ProductsBelow(total, total, 1, n);
  }

  lemma ManyTimes(total: nat, d: nat)
    requires d <= 48 && total * d >= TWO_64
    ensures d <= total
  {
    if total < 48 {
      ProductsBelow(total, 48, d, 48);
    }
  }

  /** All votes are not enough once their own product has wrapped around. */
  lemma SmallNumeratorWraps(f: TrustThreshold) returns (total: nat)
    requires f.numerator < 17 <= f.denominator
    ensures total <= MAX_TOTAL_VOTING_POWER
    ensures !IsEnoughPower(f, total, total) && ExactlyEnough(f, total, total)
  {
    var over;
    total, over := FirstWrap(f.denominator);
    ManyTimes(total, f.denominator);
    WrappedBelow(total, f.numerator, f.denominator, over);
    assert (total * f.numerator) % TWO_64 == total * f.numerator;
    assert (total * f.denominator) % TWO_64 == over;
  }

  lemma LargeDenominatorsWrap(f: TrustThreshold)
    requires f.denominator >= 17
    ensures !ExactForAllSets(f)
  {
    if f.numerator >= 17 {
      var total := LargeNumeratorWraps(f);
    } else {
      var total := SmallNumeratorWraps(f);
    }
  }

  /** Sixteen is the largest denominator for which no validator set can make the comparison wrap. */
  lemma ComparisonExactIff(f: TrustThreshold)
    ensures ExactForAllSets(f) <==> f.denominator <= 16
  {
    if f.denominator <= 16 {
      SmallDenominatorsAreExact(f);
    } else {
      LargeDenominatorsWrap(f);
    }
  }

  /** The product with the total does not wrap around. */
  predicate Fits(f: TrustThreshold, total: nat) {
    total * f.numerator < TWO_64
  }

  /** Wrapping of the other product only lowers it, so what the machine finds enough is enough. */
  lemma FittingIsSound(f: TrustThreshold, signed: nat, total: nat)
    requires Fits(f, total) && IsEnoughPower(f, signed, total)
    ensures ExactlyEnough(f, signed, total)
  {
    assert signed * f.denominator >= (signed * f.denominator) % TWO_64;
  }

  /** The machine never finds too little power enough. */
  ghost predicate SoundForAllSets(f: TrustThreshold) {
    forall signed: nat, total: nat :: signed <= total <= MAX_TOTAL_VOTING_POWER ==>
      IsEnoughPower(f, signed, total) ==> ExactlyEnough(f, signed, total)
  }

  lemma SmallNumeratorFits(f: TrustThreshold, total: nat)
    requires f.numerator <= 16 && total <= MAX_TOTAL_VOTING_POWER
    ensures Fits(f, total)
  {
    ProductsBelow(total, MAX_TOTAL_VOTING_POWER, f.numerator, 16);
  }

  /** Sixteen is the largest numerator for which no validator set is passed with too little power. */
  lemma ComparisonSoundIff(f: TrustThreshold)
    ensures SoundForAllSets(f) <==> f.numerator <= 16
  {
    if f.numerator <= 16 {
      forall signed: nat, total: nat |
        signed <= total <= MAX_TOTAL_VOTING_POWER && IsEnoughPower(f, signed, total)
        ensures ExactlyEnough(f, signed, total)
      {
        SmallNumeratorFits(f, total);
        FittingIsSound(f, signed, total);
      }
    } else {
      var total := LargeNumeratorWraps(f);
    }
  }

  /** Passing any valid threshold exactly means more than a third of the total. */
  lemma EnoughIsMoreThanAThird(f: TrustThreshold, signed: nat, total: nat)
    requires ExactlyEnough(f, signed, total)
    ensures 3 * signed > total
  {
    assert (3 * signed) * f.denominator == 3 * (signed * f.denominator);
    assert total * (3 * f.numerator) == 3 * (total * f.numerator);
    ProductsBelow(total, total, f.denominator, 3 * f.numerator);
    if 3 * signed <= total {
      ProductsBelow(3 * signed, total, f.denominator, f.denominator);
    }
  }
}
