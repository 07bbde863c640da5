/** The burn shortfall miner: it may lock as little as a fixed fraction
    less than the initial pledge, never pledges the difference, and instead
    owes it as a fee that is burnt out of its rewards at a rate that grows
    with the share of its collateral still owed. */
module ShortfallBurn {
  import opened Consts
  import opened Schedule
  import opened Accounting
  import opened ShortfallNetwork
  import opened ShortfallBase
  import opened RealFacts

  /** Default largest shortfall, as a fraction of the pledge requirement. */
  const DEFAULT_MAX_SHORTFALL_FRACTION: real := 0.33
  /** Default exponent of the owed fraction in the fee take rate. */
  const DEFAULT_SHORTFALL_TAKE_RATE_EXPONENT: real := 0.75
  /** Share of a reward burnt whenever any fee is owed at all. */
  const BASE_BURN_RATE: real := 0.01

  /** The power curve x ↦ x ** e of a positive exponent e maps the unit
      interval into itself; the model takes the curve as a function with
      exactly that property. */
  ghost predicate UnitCurve(curve: real -> real)
  {
    forall x :: 0.0 <= x <= 1.0 ==> 0.0 <= curve(x) <= 1.0
  }

  class BurnShortfallMinerState {
    /** The ledger shared with every miner variant. */
    const base: BaseMinerState
    const maxShortfallFraction: real
    const shortfallTakeRateExponent: real
    /** x ↦ x ** shortfallTakeRateExponent. */
    const takeRateCurve: real -> real
    /** Burn obligation not yet paid. */
    var feePending: real

    /** The expiration table is the source of power and of the locked
        pledge (each bunch records its lock), the shortfall fraction is a
        fraction, the take-rate curve stays in the unit interval, and the
        owed fee is never negative. */
    ghost predicate Valid()
      reads this, base
    {
      base.Valid() && base.Scheduled() &&
      0.0 <= base.pledgeLocked &&
      0.0 <= maxShortfallFraction <= 1.0 && UnitCurve(takeRateCurve) &&
      0.0 <= feePending
    }

    constructor (balance: real, maxShortfallFraction: real, shortfallTakeRateExponent: real,
                 takeRateCurve: real -> real)
      requires 0.0 <= maxShortfallFraction <= 1.0 && UnitCurve(takeRateCurve)
      ensures Valid() && fresh(base)
      ensures base.Snapshot() == Ledger(0, balance, 0.0, 0.0, 0.0, map[], 0.0, 0.0, 0.0, 0, 0.0, map[])
      ensures this.maxShortfallFraction == maxShortfallFraction
      ensures this.shortfallTakeRateExponent == shortfallTakeRateExponent
      ensures this.takeRateCurve == takeRateCurve
      ensures feePending == 0.0
    {
      base := new BaseMinerState(balance);
      this.maxShortfallFraction := maxShortfallFraction;
      this.shortfallTakeRateExponent := shortfallTakeRateExponent;
      this.takeRateCurve := takeRateCurve;
      feePending := 0.0;
    }

    /** The least lock accepted for a pledge requirement. */
    function MinimumPledge(requirement: real): real
    {
      requirement * (1.0 - maxShortfallFraction)
    }

    /** The largest nominal pledge an available lock can commit to. */
    function MaxPledgeForTokens(availableLock: real): real
      requires maxShortfallFraction != 1.0
    {
      availableLock / (1.0 - maxShortfallFraction)
    }

    /** The minimum lock lies between zero and the requirement, and what it
        leaves unlocked is the shortfall fraction of the requirement. */
    lemma MinimumWithinRequirement(requirement: real)
      requires 0.0 <= maxShortfallFraction <= 1.0 && 0.0 <= requirement
      ensures 0.0 <= MinimumPledge(requirement) <= requirement
      ensures requirement - MinimumPledge(requirement) == requirement * maxShortfallFraction
    {
      var share := 1.0 - maxShortfallFraction;
      Scale(requirement, 0.0, share);
      Scale(requirement, share, 1.0);
      assert requirement * 0.0 == 0.0 && requirement * 1.0 == requirement;
      Subtract(requirement, 1.0, maxShortfallFraction);
    }

    /** Activates `power` for `duration` epochs. A zero lock asks for the
        minimum and a lock above the requirement is cut down to it; a lock
        under the minimum is refused (the error reports the requirement).
        Whatever the available balance lacks of the lock is leased, the
        lock is pledged and scheduled with the power, and the rest of the
        requirement is owed as fee. */
    method ActivateSectors(net: NetworkState, power: nat, duration: nat, lock: real) returns (r: Result<(int, real)>)
      requires Valid() && net.Valid() && power % SECTOR_SIZE == 0
      modifies this, base
      ensures Valid()
      ensures var requirement := net.InitialPledgeForPower(power);
        var resolved := ResolveLock(lock, requirement, MinimumPledge(requirement));
        resolved.Err? ==>
          r == Err(LockBelowMinimum(lock, requirement)) &&
          base.Snapshot() == old(base.Snapshot()) && feePending == old(feePending)
      ensures var requirement := net.InitialPledgeForPower(power);
        var resolved := ResolveLock(lock, requirement, MinimumPledge(requirement));
        resolved.Ok? ==>
          r == Ok((power, resolved.value)) &&
          MinimumPledge(requirement) <= resolved.value <= requirement &&
          Added(power, requirement, resolved.value, net.epoch + duration,
                old(base.Snapshot()), old(base.AvailableBalance()), old(feePending))
    {
      var requirement := net.InitialPledgeForPower(power);
      var minimum := MinimumPledge(requirement);
      var resolved := ResolveLock(lock, requirement, minimum);
      if resolved.Err? {
        return Err(LockBelowMinimum(lock, requirement));
      }
      InitialPledgeMonotone(net, 0, power);
      MinimumWithinRequirement(requirement);
      AddSectors(power, requirement, resolved.value, net.epoch + duration);
      r := Ok((power, resolved.value));
    }

    /** What an accepted activation leaves behind, from the ledger,
        available balance and owed fee before it: the power and the locked
        pledge grow, the bunch records the lock, what the available balance
        lacked of the lock is leased, and the requirement not locked is owed;
        so the locked pledge and the owed fee grow by the requirement. */
    ghost predicate Added(power: nat, requirement: real, locked: real, expiration: int,
                          before: Ledger, available0: real, pending0: real)
      reads this, base
    {
      var leased := Max(locked - available0, 0.0);
      base.Snapshot() == before.(
        power := before.power + power, balance := before.balance + leased,
        lease := before.lease + leased, pledgeLocked := before.pledgeLocked + locked,
        expirations := Append(before.expirations, expiration, SectorBunch(power, locked))) &&
      feePending == pending0 + (requirement - locked) &&
      base.pledgeLocked + feePending == before.pledgeLocked + pending0 + requirement &&
      base.AvailableBalance() == Max(available0 - locked, 0.0)
    }

    /** The ledger part of an accepted activation. */
    method AddSectors(power: nat, requirement: real, locked: real, expiration: int)
      requires Valid() && 0.0 <= locked <= requirement
      modifies this, base
      ensures Valid()
      ensures Added(power, requirement, locked, expiration,
                    old(base.Snapshot()), old(base.AvailableBalance()), old(feePending))
    {
      base.LeaseForLock(locked);
      base.power := base.power + power;
      base.pledgeLocked := base.pledgeLocked + locked;
      feePending := feePending + (requirement - locked);
      var bunch := SectorBunch(power, locked);
      ScheduleAppend(base.expirations, expiration, bunch);
      AppendNonNegative(base.expirations, expiration, bunch);
      base.expirations := Append(base.expirations, expiration, bunch);
    }

    /** Earns a reward (none of it vests), burns the fee share of it while a
        fee is owed, then repays as much of the lease as possible. */
    method ReceiveReward(net: NetworkState, reward: real)
      requires Valid() && reward >= 0.0
      requires base.AvailableBalance() + reward - BurnTake(reward, feePending, base.pledgeLocked, takeRateCurve) >= 0.0
      modifies this, base
      ensures Valid()
      ensures var fee := old(BurnTake(reward, feePending, base.pledgeLocked, takeRateCurve));
        var repaid := Min(old(base.lease), old(base.AvailableBalance()) + reward - fee);
        base.Snapshot() == old(base.Snapshot()).(
          balance := old(base.balance) + reward - fee - repaid, lease := old(base.lease) - repaid,
          rewardEarned := old(base.rewardEarned) + reward, feeBurned := old(base.feeBurned) + fee) &&
        feePending == old(feePending) - fee
      ensures 0.0 <= base.AvailableBalance()
      ensures base.lease == 0.0 || base.AvailableBalance() == 0.0
    {
      base.EarnReward(reward);
      BurnAndRepay(reward);
    }

    /** What receiving a reward does once it is credited. */
    method BurnAndRepay(reward: real)
      requires Valid() && reward >= 0.0
      requires BurnTake(reward, feePending, base.pledgeLocked, takeRateCurve) <= base.AvailableBalance()
      modifies this, base
      ensures Valid()
      ensures var fee := old(BurnTake(reward, feePending, base.pledgeLocked, takeRateCurve));
        var repaid := Min(old(base.lease), old(base.AvailableBalance()) - fee);
        base.Snapshot() == old(base.Snapshot()).(
          balance := old(base.balance) - fee - repaid, lease := old(base.lease) - repaid,
          feeBurned := old(base.feeBurned) + fee) &&
        feePending == old(feePending) - fee
      ensures base.lease == 0.0 || base.AvailableBalance() == 0.0
    {
      BurnPendingFee(reward);
      base.RepayLease();
    }

    /** Burns the fee share of a reward while a fee is owed: the take rate
        is the base rate plus the curve of the owed fraction of the
        collateral target (locked pledge plus owed fee), capped at one, and
        the fee is capped at what is owed. */
    method BurnPendingFee(reward: real)
      requires Valid() && reward >= 0.0
      requires BurnTake(reward, feePending, base.pledgeLocked, takeRateCurve) <= base.AvailableBalance()
      modifies this, base
      ensures Valid()
      ensures var fee := old(BurnTake(reward, feePending, base.pledgeLocked, takeRateCurve));
        base.Snapshot() == old(base.Snapshot()).(
          balance := old(base.balance) - fee, feeBurned := old(base.feeBurned) + fee) &&
        feePending == old(feePending) - fee
      ensures 0.0 <= base.AvailableBalance()
    {
      ghost var fee := BurnTake(reward, feePending, base.pledgeLocked, takeRateCurve);
      if feePending > 0.0 {
        var collateralTarget := base.pledgeLocked + feePending;
        var shortfallFraction := feePending / collateralTarget;
        var feeTakeRate := Min(BASE_BURN_RATE + takeRateCurve(shortfallFraction), 1.0);
        assert feeTakeRate == FeeTakeRate(feePending, base.pledgeLocked, takeRateCurve);
        var feeAmount := Min(reward * feeTakeRate, feePending);
        assert feeAmount == fee;
        base.BurnFee(feeAmount);
        feePending := feePending - feeAmount;
      }
    }

    /** Expires a bunch: its power and lock go, and the owed fee is forgiven
        in proportion to the power expiring, so that the fee owed per unit
        of power is unchanged and nothing is owed once no power is left. */
    method HandleExpiration(b: SectorBunch)
      requires base.power != 0
      modifies this, base
      ensures base.Snapshot() == old(base.Snapshot()).(
        power := old(base.power) - b.power, pledgeLocked := old(base.pledgeLocked) - b.pledge)
      ensures base.power != 0 ==> feePending / base.power as real == old(feePending / base.power as real)
      ensures base.power == 0 ==> feePending == 0.0
      ensures 0.0 <= old(feePending) && 0 <= b.power <= old(base.power) ==> 0.0 <= feePending <= old(feePending)
    {
      var remainingPowerFrac := (base.power - b.power) as real / base.power as real;
      ghost var ratio := Ratio(feePending, base.power as real);
      ForgiveOne(ratio, feePending, base.power, b.power);
      feePending := feePending * remainingPowerFrac;
      base.power := base.power - b.power;
      base.pledgeLocked := base.pledgeLocked - b.pledge;
    }

    /** End of an epoch: the base ledger's fee accrual, counters and
        vesting, then the expiring bunches are expired, forgiving the owed
        fee in proportion. Each expiration divides by the power left, so
        the power must not be used up before the last bunch. */
    method HandleEpoch(net: NetworkState)
      requires Valid() && 0.0 <= net.tokenLeaseFee
      requires var bs := BunchesAt(base.expirations, net.epoch);
        PowerOutlasts(base.power, bs)
      modifies this, base
      ensures Valid()
      ensures var fee := net.FeeForTokenLease(old(base.lease), 1.0);
        var expiring := BunchesAt(old(base.expirations), net.epoch);
        base.Snapshot() == old(base.Snapshot()).(
          power := old(base.power) - TotalPower(expiring),
          pledgeLocked := old(base.pledgeLocked) - TotalPledge(expiring),
          expirations := old(base.expirations) - {net.epoch},
          lease := old(base.lease) + fee, leaseFeeAccrued := old(base.leaseFeeAccrued) + fee,
          epochs := old(base.epochs) + 1, pledgeEpochs := old(base.pledgeEpochs) + old(base.pledgeLocked),
          vestingLocked := old(base.vestingLocked) - AmountAt(old(base.vestingTable), net.epoch),
          vestingTable := old(base.vestingTable) - {net.epoch})
      ensures feePending <= old(feePending)
      ensures old(base.power) != 0 && base.power != 0 ==>
        feePending / base.power as real == old(feePending / base.power as real)
      ensures BunchesAt(old(base.expirations), net.epoch) != [] && base.power == 0 ==> feePending == 0.0
      ensures BunchesAt(old(base.expirations), net.epoch) == [] ==> feePending == old(feePending)
      ensures old(base.AvailableBalance()) <= base.AvailableBalance()
    {
      base.AdvanceEpoch(net);
      PopNonNegative(base.expirations, net.epoch);
      ExpireBunches(net.epoch);
    }

    /** Removes the bunches expiring at `epoch` and expires each in turn. */
    method ExpireBunches(epoch: int)
      requires Valid()
      requires var bs := BunchesAt(base.expirations, epoch);
        PowerOutlasts(base.power, bs)
      modifies this, base
      ensures Valid()
      ensures var expiring := BunchesAt(old(base.expirations), epoch);
        base.Snapshot() == old(base.Snapshot()).(
          power := old(base.power) - TotalPower(expiring),
          pledgeLocked := old(base.pledgeLocked) - TotalPledge(expiring),
          expirations := old(base.expirations) - {epoch})
      ensures feePending <= old(feePending)
      ensures old(base.power) != 0 && base.power != 0 ==>
        feePending / base.power as real == old(feePending / base.power as real)
      ensures BunchesAt(old(base.expirations), epoch) != [] && base.power == 0 ==> feePending == 0.0
      ensures BunchesAt(old(base.expirations), epoch) == [] ==> feePending == old(feePending)
    {
      SchedulePop(base.expirations, epoch);
      var expiring := base.PopExpirations(epoch);
      ScheduledNonNegative(base.expirations);
      var power, locked, pending := ForgiveExpiring(expiring, base.power, base.pledgeLocked, feePending);
      base.power, base.pledgeLocked, feePending := power, locked, pending;
    }
  }

  /** The owed fraction of the collateral target while a fee is owed lies
      in the unit interval, excluding zero. */
  lemma OwedFraction(pending: real, locked: real)
    requires pending > 0.0 && locked >= 0.0
    ensures 0.0 < pending / (locked + pending) <= 1.0
  {
    DividePositive(pending, locked + pending);
    DivideMonotone(pending, locked + pending, locked + pending);
    DivideCancels(1.0, locked + pending);
  }

  /** The fee take rate while a fee is owed: the base burn rate plus the
      take-rate curve of the owed fraction, capped at one. It is at least the
      base rate and at most one. */
  function FeeTakeRate(pending: real, locked: real, curve: real -> real): (rate: real)
    requires pending > 0.0 && locked >= 0.0 && UnitCurve(curve)
    ensures BASE_BURN_RATE <= rate <= 1.0
  {
    OwedFraction(pending, locked);
    Min(BASE_BURN_RATE + curve(pending / (locked + pending)), 1.0)
  }

  /** The fee burnt out of a reward: the take rate's share, capped at what
      is owed, and nothing while nothing is owed. It never exceeds the
      reward or what is owed, and while a fee is owed every positive reward
      pays at least the base rate's share of it or the whole of it. */
  function BurnTake(reward: real, pending: real, locked: real, curve: real -> real): (fee: real)
    requires reward >= 0.0 && pending >= 0.0 && locked >= 0.0 && UnitCurve(curve)
    ensures 0.0 <= fee <= pending && fee <= reward
    ensures pending == 0.0 ==> fee == 0.0
    ensures pending > 0.0 ==> Min(reward * BASE_BURN_RATE, pending) <= fee
    ensures pending > 0.0 && reward > 0.0 ==> fee > 0.0
    ensures pending > 0.0 ==> (fee == pending <==> reward * FeeTakeRate(pending, locked, curve) >= pending)
  {
    if pending > 0.0 then
      var rate := FeeTakeRate(pending, locked, curve);
      RateShare(reward, rate);
      MinMonotone(reward * BASE_BURN_RATE, reward * rate, pending);
      Min(reward * rate, pending)
    else
      0.0
  }

  lemma MinMonotone(a: real, b: real, c: real)
    requires a <= b
    ensures Min(a, c) <= Min(b, c)
  {
  }

  /** A reward's share at a rate between the base burn rate and one. */
  lemma RateShare(reward: real, rate: real)
    requires reward >= 0.0 && BASE_BURN_RATE <= rate <= 1.0
    ensures reward * BASE_BURN_RATE <= reward * rate <= reward
  {
    Scale(reward, BASE_BURN_RATE, rate);
    Scale(reward, rate, 1.0);
    assert reward * 1.0 == reward;
  }

  /** The power outlasts a list of expiring bunches when it is not used up
      before the last of them: the expiration loop divides by the power
      left before each bunch. */
  predicate PowerOutlasts(power: int, bs: seq<SectorBunch>)
  {
    bs != [] ==> TotalPower(bs[..|bs| - 1]) < power
  }

  /** For non-negative bunches within the power, outlasting them is the same
      as the power left never being zero before a bunch expires. */
  lemma PowerOutlastsEveryBunch(power: int, bs: seq<SectorBunch>)
    requires forall j :: 0 <= j < |bs| ==> NonNegative(bs[j])
    requires TotalPower(bs) <= power
    ensures PowerOutlasts(power, bs) <==> forall i :: 0 <= i < |bs| ==> power - TotalPower(bs[..i]) != 0
  {
    if bs != [] {
      var last := |bs| - 1;
      if PowerOutlasts(power, bs) {
        forall i | 0 <= i < |bs|
          ensures power - TotalPower(bs[..i]) != 0
        {
          PrefixMonotone(bs, i, last);
        }
      } else {
        assert power - TotalPower(bs[..last]) == 0 by {
          PrefixWithin(bs, last);
        }
      }
    }
  }

  /** The expiration loop with its outcome stated on the owed fee per unit
      of power: unchanged while power is left, zero once none is, and the
      owed fee never grows. */
  method ForgiveExpiring(bs: seq<SectorBunch>, power0: int, locked0: real, pending0: real)
    returns (power: int, locked: real, pending: real)
    requires forall j :: 0 <= j < |bs| ==> NonNegative(bs[j])
    requires TotalPower(bs) <= power0 && 0.0 <= pending0
    requires PowerOutlasts(power0, bs)
    ensures power == power0 - TotalPower(bs) && locked == locked0 - TotalPledge(bs)
    ensures 0.0 <= pending <= pending0
    ensures bs == [] ==> pending == pending0
    ensures power0 != 0 && power != 0 ==> pending / power as real == pending0 / power0 as real
    ensures bs != [] && power == 0 ==> pending == 0.0
  {
    ghost var ratio := Ratio(pending0, power0 as real);
    if bs != [] {
      PrefixMonotone(bs, 0, |bs| - 1);
      assert bs[..0] == [];
    }
    power, locked, pending := ForgiveAll(bs, power0, locked0, pending0, ratio);
    KeptPerPower(ratio, pending0, power0, pending, power, bs != []);
  }

  /** A fee kept at a fixed ratio to the power keeps its fee per unit of
      power while power is left, and is gone with the power. */
  lemma KeptPerPower(ratio: real, pending0: real, power0: int, pending: real, power: int, kept: bool)
    requires ratio == Ratio(pending0, power0 as real)
    requires kept ==> pending == ratio * power as real
    ensures power0 != 0 && power != 0 && kept ==> pending / power as real == pending0 / power0 as real
    ensures kept && power == 0 ==> pending == 0.0
  {
    RatioKept(ratio, pending0, power0 as real, pending, power as real, kept);
  }

  /** Expires every bunch of a list in turn, keeping the owed fee at a
      fixed ratio to the power left. */
  method ForgiveAll(bs: seq<SectorBunch>, power0: int, locked0: real, pending0: real, ghost ratio: real)
    returns (power: int, locked: real, pending: real)
    requires forall j :: 0 <= j < |bs| ==> NonNegative(bs[j])
    requires TotalPower(bs) <= power0 && 0.0 <= pending0
    requires PowerOutlasts(power0, bs)
    requires bs != [] ==> 0.0 <= ratio && pending0 == ratio * power0 as real
    ensures power == power0 - TotalPower(bs) && locked == locked0 - TotalPledge(bs)
    ensures 0.0 <= pending <= pending0
    ensures bs == [] ==> pending == pending0
    ensures bs != [] ==> pending == ratio * power as real
  {
    power, locked, pending := power0, locked0, pending0;
    assert bs[..0] == [];
    for i := 0 to |bs|
      invariant power == power0 - TotalPower(bs[..i]) && locked == locked0 - TotalPledge(bs[..i])
      invariant 0.0 <= pending <= pending0
      invariant i == 0 ==> pending == pending0
      invariant bs != [] ==> pending == ratio * power as real
    {
      power, locked, pending := ForgiveStep(bs, i, power0, locked0, pending0, ratio, power, locked, pending);
    }
    assert bs[..|bs|] == bs;
  }

  /** Expires the i-th bunch of the list: the power left covers it and is
      not yet used up, and afterwards the sums reach one bunch further and
      the owed fee stays at the ratio. */
  method ForgiveStep(bs: seq<SectorBunch>, i: int, power0: int, locked0: real, pending0: real, ghost ratio: real,
                     power: int, locked: real, pending: real)
    returns (power': int, locked': real, pending': real)
    requires forall j :: 0 <= j < |bs| ==> NonNegative(bs[j])
    requires TotalPower(bs) <= power0
    requires PowerOutlasts(power0, bs)
    requires 0 <= i < |bs|
    requires power == power0 - TotalPower(bs[..i]) && locked == locked0 - TotalPledge(bs[..i])
    requires 0.0 <= pending <= pending0 && 0.0 <= ratio && pending == ratio * power as real
    ensures power' == power0 - TotalPower(bs[..i + 1]) && locked' == locked0 - TotalPledge(bs[..i + 1])
    ensures 0.0 <= pending' <= pending0 && pending' == ratio * power' as real
  {
    ForgiveBound(bs, i, power0, power);
    PrefixStep(bs, i);
    pending' := ForgiveShare(ratio, pending, power, bs[i].power);
    power' := power - bs[i].power;
    locked' := locked - bs[i].pledge;
  }

  /** The owed fee left after one expiration: scaled by the fraction of
      the power that remains, it stays at the ratio to the power and does
      not grow. */
  method ForgiveShare(ghost ratio: real, pending: real, power: int, expiring: int) returns (left: real)
    requires power != 0 && 0.0 <= ratio && 0 <= expiring <= power && pending == ratio * power as real
    ensures left == ratio * (power - expiring) as real && 0.0 <= left <= pending
  {
    var remainingPowerFrac := (power - expiring) as real / power as real;
    ForgiveOne(ratio, pending, power, expiring);
    left := pending * remainingPowerFrac;
  }

  /** The i-th bunch's power is within the power left, which is not
      zero. */
  lemma ForgiveBound(bs: seq<SectorBunch>, i: int, power0: int, power: int)
    requires forall j :: 0 <= j < |bs| ==> NonNegative(bs[j])
    requires TotalPower(bs) <= power0
    requires PowerOutlasts(power0, bs)
    requires 0 <= i < |bs| && power == power0 - TotalPower(bs[..i])
    ensures power > 0 && 0 <= bs[i].power <= power
  {
    var last := |bs| - 1;
    assert TotalPower(bs[..last]) < power0;
    PrefixWithin(bs, i);
    PrefixMonotone(bs, i, last);
    Covered(TotalPower(bs[..i]), TotalPower(bs[..last]), bs[i].power, TotalPower(bs), power0, power);
  }

  /** The arithmetic of ForgiveBound on plain sums. */
  lemma Covered(before: int, beforeLast: int, b: int, total: int, power0: int, power: int)
    requires before <= beforeLast < power0 && 0 <= b && before + b <= total <= power0
    requires power == power0 - before
    ensures power > 0 && 0 <= b <= power
  {
  }

  /** One expiration's forgiveness on values: scaling the owed fee by the
      fraction of power that remains keeps it at the same ratio to the
      power, and never raises it. */
  lemma ForgiveOne(ratio: real, pending: real, power: int, expiring: int)
    requires power != 0 && pending == ratio * power as real
    ensures var left := pending * ((power - expiring) as real / power as real);
      left == ratio * (power - expiring) as real &&
      (0.0 <= ratio && 0 <= expiring <= power ==> 0.0 <= left <= pending)
  {
    var p, rest := power as real, (power - expiring) as real;
    Rescale(pending, ratio, p, rest);
    if 0.0 <= ratio && 0 <= expiring <= power {
      ShareWithin(ratio, rest, p);
    }
  }

  /** Scaling ratio * p by rest / p gives ratio * rest. */
  lemma Rescale(x: real, ratio: real, p: real, rest: real)
    requires p != 0.0 && x == ratio * p
    ensures x * (rest / p) == ratio * rest
  {
    var frac := rest / p;
    DivideMultiply(rest, p);
    Commute(p, frac);
    Associate(ratio, p, frac);
  }

  /** A non-negative ratio of a part is between zero and the ratio of the
      whole. */
  lemma ShareWithin(ratio: real, part: real, whole: real)
    requires 0.0 <= ratio && 0.0 <= part <= whole
    ensures 0.0 <= ratio * part <= ratio * whole
  {
    Scale(ratio, 0.0, part);
    Scale(ratio, part, whole);
    assert ratio * 0.0 == 0.0;
  }

  /** The inverse of the minimum lock: the most nominal pledge the minimum
      lock for a requirement buys is that requirement, and the minimum lock
      for the most nominal pledge a lock buys is that lock. */
  lemma MaxPledgeInvertsMinimum(m: BurnShortfallMinerState, requirement: real, lock: real)
    requires m.maxShortfallFraction != 1.0
    ensures m.MaxPledgeForTokens(m.MinimumPledge(requirement)) == requirement
    ensures m.MinimumPledge(m.MaxPledgeForTokens(lock)) == lock
  {
    var share := 1.0 - m.maxShortfallFraction;
    var least, most := m.MinimumPledge(requirement), m.MaxPledgeForTokens(lock);
    assert least == requirement * share && m.MaxPledgeForTokens(least) == least / share;
    assert most == lock / share && m.MinimumPledge(most) == most * share;
    DivideUndoes(least, requirement, share);
    DivideMultiply(lock, share);
  }
}
