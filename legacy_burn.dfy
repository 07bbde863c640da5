/** The burn shortfall miner of the older miner tree: it may lock as little
    as half of the initial pledge; the unlocked rest is owed as a fee, burnt
    out of rewards at a rate that grows quadratically with the owed
    fraction of the collateral, and never pledged. Owed fee is forgiven in
    proportion to the power that expires. */
module LegacyBurn {
  import opened Consts
  import opened Schedule
  import opened Accounting
  import opened LegacyNetwork
  import opened LegacyBase
  import opened RealFacts
  import Burn = ShortfallBurn

  /** Largest fraction of the pledge requirement that may go unlocked. */
  const MAX_SHORTFALL_FRACTION: real := 0.50

  /** The least lock accepted for a pledge requirement. */
  function MinimumPledge(requirement: real): real
  {
    requirement * (1.0 - MAX_SHORTFALL_FRACTION)
  }

  /** The largest nominal pledge an available lock can commit to. It
      divides by the shortfall fraction itself, not by its complement as
      the minimum does; the two agree because the fraction is one half. */
  function MaxPledgeForTokens(availableLock: real): real
  {
    availableLock / MAX_SHORTFALL_FRACTION
  }

  /** The minimum lock lies between zero and the requirement, leaving the
      shortfall fraction of the requirement unlocked, and the largest pledge
      for a lock undoes it: locking the minimum commits to exactly the
      requirement. */
  lemma MaxPledgeInvertsMinimum(requirement: real)
    requires 0.0 <= requirement
    ensures 0.0 <= MinimumPledge(requirement) <= requirement
    ensures requirement - MinimumPledge(requirement) == requirement * MAX_SHORTFALL_FRACTION
    ensures MaxPledgeForTokens(MinimumPledge(requirement)) == requirement
  {
    DivideCancels(requirement, MAX_SHORTFALL_FRACTION);
  }

  class BurnShortfallMinerState {
    /** The ledger shared with every miner variant. */
    const base: BaseMinerState
    /** Burn obligation not yet paid. */
    var feePending: real

    /** The expiration table is the source of power and of the locked
        pledge (each bunch records its lock), and the owed fee is never
        negative. */
    ghost predicate Valid()
      reads this, base
    {
      base.Valid() && base.Scheduled() &&
      0.0 <= base.pledgeLocked && 0.0 <= feePending
    }

    constructor (balance: real)
      ensures Valid() && fresh(base)
      ensures base.Snapshot() == Ledger(0, balance, 0.0, 0.0, 0.0, 0.0, 0.0, map[])
      ensures feePending == 0.0
    {
      base := new BaseMinerState(balance);
      feePending := 0.0;
      new;
      EmptySchedule(base.expirations);
    }

    /** Activates `power` for `duration` epochs. A zero lock asks for the
        minimum and a lock above the requirement is cut down to it; a lock
        under the minimum is refused (the error reports the requirement).
        Whatever the available balance lacks of the lock is leased, the
        lock is pledged and scheduled with the power, and the rest of the
        requirement is owed as fee, so locked pledge plus owed fee grows by
        the whole requirement. */
    method ActivateSectors(net: NetworkState, power: nat, duration: int, lock: real) returns (r: Result<(int, real)>)
      requires Valid() && net.Valid() && power % SECTOR_SIZE == 0
      modifies this, base
      ensures Valid()
      ensures var requirement := net.InitialPledgeForPower(power);
        var resolved := ResolveLock(lock, requirement, MinimumPledge(requirement));
        resolved.Err? ==>
          r == Err(LockBelowMinimum(lock, requirement)) &&
          base.Snapshot() == old(base.Snapshot()) && feePending == old(feePending)
      ensures var requirement := net.InitialPledgeForPower(power);
        var resolved := ResolveLock(lock, requirement, MinimumPledge(requirement));
        resolved.Ok? ==>
          var leased := Max(resolved.value - old(base.AvailableBalance()), 0.0);
          r == Ok((power, resolved.value)) &&
          MinimumPledge(requirement) <= resolved.value <= requirement &&
          base.Snapshot() == old(base.Snapshot()).(
            power := old(base.power) + power, balance := old(base.balance) + leased,
            lease := old(base.lease) + leased, pledgeLocked := old(base.pledgeLocked) + resolved.value,
            expirations := Append(old(base.expirations), net.epoch + duration, SectorBunch(power, resolved.value))) &&
          feePending == old(feePending) + (requirement - resolved.value) &&
          base.pledgeLocked + feePending == old(base.pledgeLocked + feePending) + requirement
    {
      var requirement := net.InitialPledgeForPower(power);
      var minimum := MinimumPledge(requirement);
      var resolved := ResolveLock(lock, requirement, minimum);
      if resolved.Err? {
        return Err(LockBelowMinimum(lock, requirement));
      }
      InitialPledgeNonNegative(net, power);
      MaxPledgeInvertsMinimum(requirement);
      AddSectors(power, requirement, resolved.value, net.epoch + duration);
      r := Ok((power, resolved.value));
    }

    /** The ledger part of an accepted activation: what the available
        balance lacks of the lock is leased, the power and locked pledge
        grow, the bunch records the lock, and the requirement not locked is
        owed. */
    method AddSectors(power: nat, requirement: real, locked: real, expiration: int)
      requires Valid() && 0.0 <= locked <= requirement
      modifies this, base
      ensures Valid()
      ensures var leased := Max(locked - old(base.AvailableBalance()), 0.0);
        base.Snapshot() == old(base.Snapshot()).(
          power := old(base.power) + power, balance := old(base.balance) + leased,
          lease := old(base.lease) + leased, pledgeLocked := old(base.pledgeLocked) + locked,
          expirations := Append(old(base.expirations), expiration, SectorBunch(power, locked)))
      ensures feePending == old(feePending) + (requirement - locked)
    {
      base.AddSectors(power, locked, locked, expiration);
      AppendNonNegative(old(base.expirations), expiration, SectorBunch(power, locked));
      feePending := feePending + (requirement - locked);
    }

    /** Earns a reward (none of it vests), burns the fee share of it while a
        fee is owed, then repays as much of the lease as possible. */
    method ReceiveReward(net: NetworkState, reward: real)
      requires Valid() && reward >= 0.0
      requires base.AvailableBalance() + reward - QuadraticBurnTake(reward, feePending, base.pledgeLocked) >= 0.0
      modifies this, base
      ensures Valid()
      ensures var fee := old(QuadraticBurnTake(reward, feePending, base.pledgeLocked));
        var repaid := Min(old(base.lease), old(base.AvailableBalance()) + reward - fee);
        base.Snapshot() == old(base.Snapshot()).(
          balance := old(base.balance) + reward - fee - repaid, lease := old(base.lease) - repaid,
          rewardEarned := old(base.rewardEarned) + reward, feeBurned := old(base.feeBurned) + fee) &&
        feePending == old(feePending) - fee
      ensures 0.0 <= base.AvailableBalance()
      ensures base.lease == 0.0 || base.AvailableBalance() == 0.0
    {
      base.EarnReward(reward);
      BurnPendingFee(reward);
      base.RepayLease();
    }

    /** Burns the fee share of a reward while a fee is owed, at the
        quadratic take rate, capped at what is owed. */
    method BurnPendingFee(reward: real)
      requires Valid() && reward >= 0.0
      requires QuadraticBurnTake(reward, feePending, base.pledgeLocked) <= base.AvailableBalance()
      modifies this, base
      ensures Valid()
      ensures var fee := old(QuadraticBurnTake(reward, feePending, base.pledgeLocked));
        base.Snapshot() == old(base.Snapshot()).(
          balance := old(base.balance) - fee, feeBurned := old(base.feeBurned) + fee) &&
        feePending == old(feePending) - fee
      ensures 0.0 <= base.AvailableBalance()
    {
      ghost var fee := QuadraticBurnTake(reward, feePending, base.pledgeLocked);
      if feePending > 0.0 {
        var collateralTarget := base.pledgeLocked + feePending;
        var collateralPct := base.pledgeLocked / collateralTarget;
        var availablePct := collateralPct * collateralPct;
        var feeTakeRate := 1.0 - availablePct;
        assert feeTakeRate == QuadraticTakeRate(feePending, base.pledgeLocked);
        if feeTakeRate > 0.0 {
          var feeAmount := Min(reward * feeTakeRate, feePending);
          assert feeAmount == fee;
          base.BurnFee(feeAmount);
          feePending := feePending - feeAmount;
        }
      }
    }

    /** Expires a bunch: its power and lock go, and the owed fee is forgiven
        in proportion to the power expiring, so that the fee owed per unit
        of power is unchanged and nothing is owed once no power is left. */
    method HandleExpiration(b: SectorBunch)
      requires base.power != 0
      modifies this, base
      ensures base.Snapshot() == old(base.Snapshot()).(
        power := old(base.power) - b.power, pledgeLocked := old(base.pledgeLocked) - b.pledge)
      ensures base.power != 0 ==> feePending / base.power as real == old(feePending / base.power as real)
      ensures base.power == 0 ==> feePending == 0.0
      ensures 0.0 <= old(feePending) && 0 <= b.power <= old(base.power) ==> 0.0 <= feePending <= old(feePending)
    {
      var remainingPowerFrac := (base.power - b.power) as real / base.power as real;
      ghost var ratio := Ratio(feePending, base.power as real);
      Burn.ForgiveOne(ratio, feePending, base.power, b.power);
      feePending := feePending * remainingPowerFrac;
      base.power := base.power - b.power;
      base.pledgeLocked := base.pledgeLocked - b.pledge;
    }

    /** End of an epoch: the lease accrues one epoch's fee (a parameter, as
        the network of this tree has no lease-fee rule), then the expiring
        bunches are expired, forgiving the owed fee in proportion. Each
        expiration divides by the power left, so the power must not be used
        up before the last bunch. */
    method HandleEpoch(net: NetworkState, fee: real)
      requires Valid() && fee >= 0.0
      requires Burn.PowerOutlasts(base.power, BunchesAt(base.expirations, net.epoch))
      modifies this, base
      ensures Valid()
      ensures var expiring := BunchesAt(old(base.expirations), net.epoch);
        base.Snapshot() == old(base.Snapshot()).(
          power := old(base.power) - TotalPower(expiring),
          pledgeLocked := old(base.pledgeLocked) - TotalPledge(expiring),
          expirations := old(base.expirations) - {net.epoch},
          lease := old(base.lease) + fee, leaseFeeAccrued := old(base.leaseFeeAccrued) + fee)
      ensures feePending <= old(feePending)
      ensures old(base.power) != 0 && base.power != 0 ==>
        feePending / base.power as real == old(feePending / base.power as real)
      ensures BunchesAt(old(base.expirations), net.epoch) != [] && base.power == 0 ==> feePending == 0.0
      ensures BunchesAt(old(base.expirations), net.epoch) == [] ==> feePending == old(feePending)
      ensures old(base.AvailableBalance()) <= base.AvailableBalance()
    {
      base.AccrueLeaseFee(fee);
      PopNonNegative(base.expirations, net.epoch);
      ExpireBunches(net.epoch);
    }

    /** Removes the bunches expiring at `epoch` and expires each in turn. */
    method ExpireBunches(epoch: int)
      requires Valid()
      requires Burn.PowerOutlasts(base.power, BunchesAt(base.expirations, epoch))
      modifies this, base
      ensures Valid()
      ensures var expiring := BunchesAt(old(base.expirations), epoch);
        base.Snapshot() == old(base.Snapshot()).(
          power := old(base.power) - TotalPower(expiring),
          pledgeLocked := old(base.pledgeLocked) - TotalPledge(expiring),
          expirations := old(base.expirations) - {epoch})
      ensures feePending <= old(feePending)
      ensures old(base.power) != 0 && base.power != 0 ==>
        feePending / base.power as real == old(feePending / base.power as real)
      ensures BunchesAt(old(base.expirations), epoch) != [] && base.power == 0 ==> feePending == 0.0
      ensures BunchesAt(old(base.expirations), epoch) == [] ==> feePending == old(feePending)
    {
      SchedulePop(base.expirations, epoch);
      var expiring := base.PopExpirations(epoch);
      ScheduledNonNegative(base.expirations);
      var power, locked, pending := Burn.ForgiveExpiring(expiring, base.power, base.pledgeLocked, feePending);
      base.power, base.pledgeLocked, feePending := power, locked, pending;
    }
  }

  /** The fee take rate while a fee is owed: one less the square of the
      locked share of the collateral target (locked pledge plus owed fee).
      It is positive, so a fee is always taken while one is owed, at most
      one, and exactly one when nothing is locked. */
  function QuadraticTakeRate(pending: real, locked: real): (rate: real)
    requires pending > 0.0 && locked >= 0.0
    ensures 0.0 < rate <= 1.0
    ensures rate == 1.0 <==> locked == 0.0
  {
    var pct := locked / (locked + pending);
    LockedShare(pending, locked);
    assert 0.0 <= pct * pct < 1.0 by { SquareBelowOne(pct); }
    assert pct * pct == 0.0 <==> locked == 0.0 by { SquareZero(pct); }
    1.0 - pct * pct
  }

  /** The locked share of the collateral target while a fee is owed lies
      in the unit interval, excluding one, and is zero exactly when nothing
      is locked. */
  lemma LockedShare(pending: real, locked: real)
    requires pending > 0.0 && locked >= 0.0
    ensures 0.0 <= locked / (locked + pending) < 1.0
    ensures locked / (locked + pending) == 0.0 <==> locked == 0.0
  {
    var target := locked + pending;
    DivideMonotone(0.0, locked, target);
    DivideCancels(1.0, target);
    assert locked / target < target / target by {
      DivideMultiply(locked, target);
      DivideMultiply(target, target);
    }
    if locked / target == 0.0 {
      DivideMultiply(locked, target);
    }
  }

  lemma SquareBelowOne(x: real)
    requires 0.0 <= x < 1.0
    ensures 0.0 <= x * x < 1.0
  {
    Scale(x, 0.0, x);
    Scale(x, x, 1.0);
    assert x * 0.0 == 0.0 && x * 1.0 == x;
  }

  lemma SquareZero(x: real)
    requires 0.0 <= x
    ensures x == 0.0 ==> x * x == 0.0
    ensures x > 0.0 ==> x * x > 0.0
  {
    if x > 0.0 {
      ProductPositive(x, x);
    }
  }

  /** The fee burnt out of a reward: the quadratic take rate's share,
      capped at what is owed, and nothing while nothing is owed. It never
      exceeds the reward or what is owed, any positive reward pays some of
      an owed fee, and the whole reward is taken (up to what is owed) while
      nothing is locked. */
  function QuadraticBurnTake(reward: real, pending: real, locked: real): (fee: real)
    requires reward >= 0.0 && pending >= 0.0 && locked >= 0.0
    ensures 0.0 <= fee <= pending && fee <= reward
    ensures pending == 0.0 ==> fee == 0.0
    ensures pending > 0.0 && reward > 0.0 ==> fee > 0.0
    ensures pending > 0.0 && locked == 0.0 ==> fee == Min(reward, pending)
    ensures pending > 0.0 ==> (fee == pending <==> reward * QuadraticTakeRate(pending, locked) >= pending)
  {
    if pending > 0.0 then
      var rate := QuadraticTakeRate(pending, locked);
      Scale(reward, rate, 1.0);
      assert reward * 1.0 == reward;
      ProductNonNegative(reward, rate);
      assert reward > 0.0 ==> reward * rate > 0.0 by {
        if reward > 0.0 { ProductPositive(reward, rate); }
      }
      Min(reward * rate, pending)
    else
      0.0
  }
}
