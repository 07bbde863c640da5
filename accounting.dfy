/** Outcomes and the pledge rules that every miner variant shares: how a
    requested lock is resolved against the initial-pledge requirement, and
    how a shortfall is expressed as a fraction of its maximum. */
module Accounting {
  import opened RealFacts

  /** The ways an operation can refuse; a refusal is an `Err` result. */
  datatype Error =
    | LockBelowMinimum(lock: real, minimum: real)
    | TakeRateAboveMaximum(rate: real)
    | SatisfactionBelowMinimum(locked: real, minimum: real)
    | InsufficientBalance(available: real, required: real)

  datatype Result<T> = Ok(value: T) | Err(error: Error)

  /** Resolves the lock a caller offers for a new activation whose pledge
      requirement is `requirement` and whose policy minimum is `minimum`:
      a zero lock asks for the minimum, a lock above the requirement is cut
      down to it, and a positive lock under the minimum is refused. */
  function ResolveLock(lock: real, requirement: real, minimum: real): (r: Result<real>)
    ensures r.Err? <==> lock != 0.0 && lock <= requirement && lock < minimum
    ensures r.Err? ==> r.error == LockBelowMinimum(lock, minimum)
    ensures r.Ok? && minimum <= requirement ==> minimum <= r.value <= requirement
    ensures r.Ok? && lock != 0.0 ==> r.value == (if lock > requirement then requirement else lock)
    ensures r.Ok? && lock == 0.0 ==> r.value == minimum
  {
    if lock == 0.0 then Ok(minimum)
    else if lock > requirement then Ok(requirement)
    else if lock < minimum then Err(LockBelowMinimum(lock, minimum))
    else Ok(lock)
  }

  /** A strict miner must lock the whole requirement: any lock at least the
      requirement is cut down to it, and anything less is refused. */
  function ResolveStrictLock(lock: real, requirement: real): (r: Result<real>)
    ensures r.Ok? <==> lock >= requirement
    ensures r.Ok? ==> r.value == requirement
    ensures r.Err? ==> r.error == LockBelowMinimum(lock, requirement)
  {
    if lock >= requirement then Ok(requirement) else Err(LockBelowMinimum(lock, requirement))
  }

  /** A shortfall as a fraction of the largest shortfall the policy allows,
      capped at 1 and taken as 0 when no shortfall is allowed at all. */
  function ClampedFraction(actual: real, maximum: real): (f: real)
    ensures f <= 1.0
    ensures maximum <= 0.0 ==> f == 0.0
    ensures maximum > 0.0 ==> (f > 0.0 <==> actual > 0.0)
    ensures maximum > 0.0 && actual >= 0.0 ==> 0.0 <= f
    ensures maximum > 0.0 && actual < maximum ==> f * maximum == actual
    ensures maximum > 0.0 && actual >= maximum ==> f == 1.0
  {
    if maximum > 0.0 then
      FractionOfMaximum(actual, maximum);
      var fraction := actual / maximum;
      if fraction <= 1.0 then fraction else 1.0
    else
      0.0
  }

  /** How the quotient of a shortfall by a positive maximum compares with
      0 and 1. */
  lemma FractionOfMaximum(actual: real, maximum: real)
    requires maximum > 0.0
    ensures actual / maximum * maximum == actual
    ensures actual / maximum > 0.0 <==> actual > 0.0
    ensures actual >= 0.0 ==> actual / maximum >= 0.0
    ensures actual <= maximum ==> actual / maximum <= 1.0
    ensures actual >= maximum ==> actual / maximum >= 1.0
  {
    DivideMultiply(actual, maximum);
    DivideCancels(1.0, maximum);
    if actual > 0.0 {
      DividePositive(actual, maximum);
    } else {
      DivideMonotone(actual, 0.0, maximum);
    }
    if actual >= 0.0 {
      DivideNonNegative(actual, maximum);
    }
    if actual <= maximum {
      DivideMonotone(actual, maximum, maximum);
    } else {
      DivideMonotone(maximum, actual, maximum);
    }
  }

  /** The ratio of a part to a whole, zero when the whole is zero. */
  function Ratio(part: real, whole: real): (ratio: real)
    ensures whole != 0.0 ==> part == ratio * whole
    ensures part >= 0.0 && whole > 0.0 ==> ratio >= 0.0
  {
    if whole != 0.0 then
      DivideMultiply(part, whole);
      part / whole
    else 0.0
  }

  /** When a part was kept at a fixed ratio to a shrinking whole, its ratio
      to the whole is unchanged while the whole is not used up, and it is
      used up with the whole. */
  lemma RatioKept(ratio: real, part0: real, whole0: real, part: real, whole: real, kept: bool)
    requires ratio == Ratio(part0, whole0)
    requires kept ==> part == ratio * whole
    ensures whole0 != 0.0 && whole != 0.0 && kept ==> part / whole == part0 / whole0
    ensures kept && whole == 0.0 ==> part == 0.0
  {
    if kept && whole != 0.0 {
      DivideCancels(ratio, whole);
    }
  }
}
