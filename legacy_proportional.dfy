/** The repay-proportional shortfall miner of the older miner tree: it may
    lock less than the full initial pledge, and while it has a shortfall it
    burns a fee and locks a repayment out of every reward, both growing
    with the shortfall as a fraction of the largest allowed (the repayment
    with its square root). It shares the other older shortfall policy's
    constants and its minimum lock, and after every activation checks that
    the miner as a whole still locks enough. */
module LegacyProportional {
  import opened Consts
  import opened Schedule
  import opened Accounting
  import opened LegacyNetwork
  import opened LegacyBase
  import opened RealFacts
  import opened LegacyRatchet
  import Ratchet = ShortfallRatchet
  import Burn = ShortfallBurn

  /** Least share of the maximum repayment fraction taken while there is
      any shortfall. */
  const MIN_REPAYMENT_TAKE_FRACTION: real := 0.25

  class RepayProportionalShortfallMinerState {
    /** The ledger shared with every miner variant. */
    const base: BaseMinerState
    /** x ↦ math.sqrt(x), taken as a function that maps the unit interval
        into itself. */
    const sqrt: real -> real
    /** Total nominal pledge of the active sectors. */
    var pledgeRequired: real

    /** The expiration table is the source of power and required pledge,
        and the square root stays in the unit interval. The locked pledge
        is not bounded by the requirement: repayments are not capped at the
        shortfall. */
    ghost predicate Valid()
      reads this, base
    {
      base.Valid() &&
      AllNonNegative(base.expirations) &&
      base.power as real == ScheduledPower(base.expirations) &&
      pledgeRequired == ScheduledPledge(base.expirations) &&
      Burn.UnitCurve(sqrt)
    }

    constructor (balance: real, sqrt: real -> real)
      requires Burn.UnitCurve(sqrt)
      ensures Valid() && fresh(base)
      ensures base.Snapshot() == Ledger(0, balance, 0.0, 0.0, 0.0, 0.0, 0.0, map[])
      ensures this.sqrt == sqrt && pledgeRequired == 0.0
    {
      base := new BaseMinerState(balance);
      this.sqrt := sqrt;
      pledgeRequired := 0.0;
    }

    /** Pledge required but not locked. */
    function Shortfall(): real
      reads this, base
    {
      pledgeRequired - base.pledgeLocked
    }

    /** The current shortfall as a fraction of the largest the miner's
        power allows. */
    function ShortfallFraction(net: NetworkState): real
      reads this, base
    {
      ShortfallFractionOf(net, base.power, Shortfall())
    }

    /** The fee burnt and the repayment locked out of a reward at the
        current shortfall fraction. */
    function FeeAndRepayment(net: NetworkState, reward: real): (t: (real, real))
      reads this, base
      requires Valid() && reward >= 0.0
      ensures t == ProportionalTakes(reward, ShortfallFraction(net), sqrt)
      ensures t.0 + t.1 <= reward
    {
      ProportionalTakes(reward, ShortfallFraction(net), sqrt)
    }

    /** Activates `power` for `duration` epochs. The lock may be as low as
        the requirement less the repayment share of the power's expected
        reward over the repayment term (at most the commitment). Once the
        sectors are added, the activation is refused (leaving them added)
        if the miner's whole locked pledge is below its whole requirement
        less the largest shortfall its power allows. */
    method ActivateSectors(net: NetworkState, power: nat, duration: nat, lock: real) returns (r: Result<(int, real)>)
      requires Valid() && net.Valid() && power % SECTOR_SIZE == 0
      modifies base, this
      ensures Valid()
      ensures var requirement := net.InitialPledgeForPower(power);
        var resolved := ResolveLock(lock, requirement, MinimumPledge(net, power, duration));
        resolved.Err? ==>
          r == Err(resolved.error) && base.Snapshot() == old(base.Snapshot()) &&
          pledgeRequired == old(pledgeRequired)
      ensures var requirement := net.InitialPledgeForPower(power);
        var resolved := ResolveLock(lock, requirement, MinimumPledge(net, power, duration));
        resolved.Ok? ==>
          var leased := Max(resolved.value - old(base.AvailableBalance()), 0.0);
          MinimumPledge(net, power, duration) <= resolved.value <= requirement &&
          base.Snapshot() == old(base.Snapshot()).(
            power := old(base.power) + power, balance := old(base.balance) + leased,
            lease := old(base.lease) + leased, pledgeLocked := old(base.pledgeLocked) + resolved.value,
            expirations := Append(old(base.expirations), net.epoch + duration, SectorBunch(power, requirement))) &&
          pledgeRequired == old(pledgeRequired) + requirement &&
          (if base.pledgeLocked < MinSatisfaction(net, base.power)
           then r == Err(SatisfactionBelowMinimum(base.pledgeLocked, MinSatisfaction(net, base.power)))
           else r == Ok((power, resolved.value)))
      ensures r.Ok? ==> base.pledgeLocked >= MinSatisfaction(net, base.power)
    {
      var requirement := net.InitialPledgeForPower(power);
      var minimum := MinimumPledge(net, power, duration);
      var resolved := ResolveLock(lock, requirement, minimum);
      if resolved.Err? {
        return Err(resolved.error);
      }
      MinimumWithinRequirement(net, power, duration);
      AddSectors(power, requirement, resolved.value, net.epoch + duration);
      var minerMinSatisfaction := MinSatisfaction(net, base.power);
      if base.pledgeLocked < minerMinSatisfaction {
        return Err(SatisfactionBelowMinimum(base.pledgeLocked, minerMinSatisfaction));
      }
      r := Ok((power, resolved.value));
    }

    /** The ledger part of an activation: whatever the lock lacks is
        leased, the power, required pledge and locked pledge grow, and the
        bunch (recording the requirement) is scheduled. */
    method AddSectors(power: nat, requirement: real, locked: real, expiration: int)
      requires Valid() && 0.0 <= requirement
      modifies base, this
      ensures Valid()
      ensures var leased := Max(locked - old(base.AvailableBalance()), 0.0);
        base.Snapshot() == old(base.Snapshot()).(
          power := old(base.power) + power, balance := old(base.balance) + leased,
          lease := old(base.lease) + leased, pledgeLocked := old(base.pledgeLocked) + locked,
          expirations := Append(old(base.expirations), expiration, SectorBunch(power, requirement)))
      ensures pledgeRequired == old(pledgeRequired) + requirement
    {
      base.LeaseForLock(locked);
      base.power := base.power + power;
      pledgeRequired := pledgeRequired + requirement;
      base.pledgeLocked := base.pledgeLocked + locked;
      var bunch := SectorBunch(power, requirement);
      ScheduleAppend(base.expirations, expiration, bunch);
      AppendNonNegative(base.expirations, expiration, bunch);
      base.expirations := Append(base.expirations, expiration, bunch);
    }

    /** Earns a reward (none of it vests): while there is a shortfall, a fee
        is burnt and a repayment is locked as pledge; then as much of the
        lease as possible is repaid. */
    method ReceiveReward(net: NetworkState, reward: real)
      requires Valid() && reward >= 0.0
      requires var t := FeeAndRepayment(net, reward); base.AvailableBalance() + reward - t.0 - t.1 >= 0.0
      modifies base
      ensures Valid()
      ensures var t := old(FeeAndRepayment(net, reward));
        var repaid := Min(old(base.lease), old(base.AvailableBalance()) + reward - t.0 - t.1);
        base.Snapshot() == old(base.Snapshot()).(
          balance := old(base.balance) + reward - t.0 - repaid, lease := old(base.lease) - repaid,
          pledgeLocked := old(base.pledgeLocked) + t.1,
          rewardEarned := old(base.rewardEarned) + reward, feeBurned := old(base.feeBurned) + t.0) &&
        Shortfall() == old(Shortfall()) - t.1
      ensures base.lease == 0.0 || base.AvailableBalance() == 0.0
    {
      base.EarnReward(reward);
      var shortfallFrac := ShortfallFraction(net);
      TakeShares(reward, shortfallFrac);
      base.RepayLease();
    }

    /** The shortfall-dependent part of receiving a reward, for a shortfall
        fraction `frac`: burns the fee share and locks the repayment share
        as pledge. */
    method TakeShares(reward: real, frac: real)
      requires Valid() && reward >= 0.0 && frac <= 1.0
      requires ProportionalTakes(reward, frac, sqrt).0 <= base.AvailableBalance()
      modifies base
      ensures Valid()
      ensures var t := ProportionalTakes(reward, frac, sqrt);
        base.Snapshot() == old(base.Snapshot()).(
          balance := old(base.balance) - t.0, pledgeLocked := old(base.pledgeLocked) + t.1,
          feeBurned := old(base.feeBurned) + t.0)
    {
      ghost var t := ProportionalTakes(reward, frac, sqrt);
      if frac > 0.0 {
        var feeTakeRate := frac * MAX_FEE_REWARD_FRACTION;
        var feeAmount := reward * feeTakeRate;
        base.BurnFee(feeAmount);
        var repaymentTakeRate := (MIN_REPAYMENT_TAKE_FRACTION + (1.0 - MIN_REPAYMENT_TAKE_FRACTION) * sqrt(frac))
          * MAX_REPAYMENT_REWARD_FRACTION;
        var repaymentAmount := reward * repaymentTakeRate;
        assert repaymentAmount == t.1;
        base.pledgeLocked := base.pledgeLocked + repaymentAmount;
      }
    }

    /** Expires a bunch: its power and required pledge go, and the locked
        pledge is released in proportion, keeping the fraction of the
        requirement that is locked. */
    method HandleExpiration(b: SectorBunch)
      requires pledgeRequired != 0.0
      modifies base, this
      ensures var satisfaction := old(base.pledgeLocked) / old(pledgeRequired);
        base.Snapshot() == old(base.Snapshot()).(
          power := old(base.power) - b.power,
          pledgeLocked := old(base.pledgeLocked) - satisfaction * b.pledge)
      ensures pledgeRequired == old(pledgeRequired) - b.pledge
      ensures pledgeRequired != 0.0 ==> base.pledgeLocked / pledgeRequired == old(base.pledgeLocked / pledgeRequired)
      ensures pledgeRequired == 0.0 ==> base.pledgeLocked == 0.0
    {
      var pledgeSatisfaction := base.pledgeLocked / pledgeRequired;
      var pledgeToRelease := pledgeSatisfaction * b.pledge;
      Ratchet.ProportionalRelease(base.pledgeLocked, pledgeRequired, b.pledge);
      base.power := base.power - b.power;
      pledgeRequired := pledgeRequired - b.pledge;
      base.pledgeLocked := base.pledgeLocked - pledgeToRelease;
    }

    /** End of an epoch: the lease accrues one epoch's fee (a parameter, as
        the network of this tree has no lease-fee rule), then the expiring
        bunches are released proportionally; the required pledge must not
        be used up before the last of them. */
    method HandleEpoch(net: NetworkState, fee: real)
      requires Valid() && fee >= 0.0
      requires Ratchet.Outlasts(pledgeRequired, BunchesAt(base.expirations, net.epoch))
      modifies base, this
      ensures Valid()
      ensures var expiring := BunchesAt(old(base.expirations), net.epoch);
        base.Snapshot() == old(base.Snapshot()).(
          power := old(base.power) - TotalPower(expiring), pledgeLocked := base.pledgeLocked,
          expirations := old(base.expirations) - {net.epoch},
          lease := old(base.lease) + fee, leaseFeeAccrued := old(base.leaseFeeAccrued) + fee) &&
        pledgeRequired == old(pledgeRequired) - TotalPledge(expiring)
      ensures old(pledgeRequired) != 0.0 && pledgeRequired != 0.0 ==>
        base.pledgeLocked / pledgeRequired == old(base.pledgeLocked / pledgeRequired)
      ensures BunchesAt(old(base.expirations), net.epoch) != [] && pledgeRequired == 0.0 ==> base.pledgeLocked == 0.0
      ensures BunchesAt(base.expirations, net.epoch) == []
    {
      base.AccrueLeaseFee(fee);
      ExpireBunches(net.epoch);
    }

    /** Removes the bunches expiring at `epoch` and expires each in turn. */
    method ExpireBunches(epoch: int)
      requires Valid()
      requires Ratchet.Outlasts(pledgeRequired, BunchesAt(base.expirations, epoch))
      modifies base, this
      ensures Valid()
      ensures var expiring := BunchesAt(old(base.expirations), epoch);
        base.Snapshot() == old(base.Snapshot()).(
          power := old(base.power) - TotalPower(expiring), pledgeLocked := base.pledgeLocked,
          expirations := old(base.expirations) - {epoch}) &&
        pledgeRequired == old(pledgeRequired) - TotalPledge(expiring)
      ensures old(pledgeRequired) != 0.0 && pledgeRequired != 0.0 ==>
        base.pledgeLocked / pledgeRequired == old(base.pledgeLocked / pledgeRequired)
      ensures BunchesAt(old(base.expirations), epoch) != [] && pledgeRequired == 0.0 ==> base.pledgeLocked == 0.0
      ensures BunchesAt(base.expirations, epoch) == []
    {
      SchedulePop(base.expirations, epoch);
      var expiring := base.PopExpirations(epoch);
      ScheduledNonNegative(base.expirations);
      var power, required, locked := Ratchet.ReleaseExpiring(expiring, base.power, pledgeRequired, base.pledgeLocked);
      base.power, pledgeRequired, base.pledgeLocked := power, required, locked;
    }
  }

  /** The least pledge the miner as a whole must lock: its whole
      requirement less the largest shortfall its power allows. */
  function MinSatisfaction(net: NetworkState, power: int): real
    requires net.PledgeShare() != 0
  {
    net.InitialPledgeForPower(power) - MaxShortfall(net, power)
  }

  /** The whole miner's least satisfaction is the minimum lock of a single
      activation of all its power committed for at least the repayment
      term. */
  lemma MinSatisfactionIsMinimumLock(net: NetworkState, power: int, duration: nat)
    requires net.PledgeShare() != 0 && duration >= MAX_REPAYMENT_TERM
    ensures MinSatisfaction(net, power) == MinimumPledge(net, power, duration)
  {
    assert MinInt(duration, MAX_REPAYMENT_TERM) == MAX_REPAYMENT_TERM;
  }

  /** The repayment take rate at a positive shortfall fraction: the least
      take share plus the rest of it scaled by the fraction's square root,
      of the maximum repayment fraction; it lies between the least share
      of that maximum and the maximum. */
  function RepaymentTakeRate(frac: real, sqrt: real -> real): (rate: real)
    requires 0.0 < frac <= 1.0 && Burn.UnitCurve(sqrt)
    ensures MIN_REPAYMENT_TAKE_FRACTION * MAX_REPAYMENT_REWARD_FRACTION <= rate <= MAX_REPAYMENT_REWARD_FRACTION
  {
    (MIN_REPAYMENT_TAKE_FRACTION + (1.0 - MIN_REPAYMENT_TAKE_FRACTION) * sqrt(frac)) * MAX_REPAYMENT_REWARD_FRACTION
  }

  /** The fee and the repayment taken from a reward at shortfall fraction
      `frac`: both only while the fraction is positive, the fee in
      proportion to it and the repayment at the square-root take rate.
      Together they never exceed the reward, and while there is a shortfall
      the repayment is at least the least take share of the maximum. */
  function ProportionalTakes(reward: real, frac: real, sqrt: real -> real): (t: (real, real))
    requires reward >= 0.0 && frac <= 1.0 && Burn.UnitCurve(sqrt)
    ensures 0.0 <= t.0 <= reward * MAX_FEE_REWARD_FRACTION
    ensures 0.0 <= t.1 <= reward * MAX_REPAYMENT_REWARD_FRACTION
    ensures t.0 + t.1 <= reward
    ensures frac <= 0.0 ==> t == (0.0, 0.0)
    ensures frac > 0.0 ==>
      t.0 == reward * (frac * MAX_FEE_REWARD_FRACTION) &&
      t.1 == reward * RepaymentTakeRate(frac, sqrt) &&
      reward * (MIN_REPAYMENT_TAKE_FRACTION * MAX_REPAYMENT_REWARD_FRACTION) <= t.1
  {
    var fee := Ratchet.FeeShare(reward, frac, MAX_FEE_REWARD_FRACTION);
    if frac > 0.0 then
      var rate := RepaymentTakeRate(frac, sqrt);
      Scale(reward, MIN_REPAYMENT_TAKE_FRACTION * MAX_REPAYMENT_REWARD_FRACTION, rate);
      Scale(reward, rate, MAX_REPAYMENT_REWARD_FRACTION);
      ProductNonNegative(reward, MIN_REPAYMENT_TAKE_FRACTION * MAX_REPAYMENT_REWARD_FRACTION);
      Ratchet.SharesWithinReward(reward, MAX_FEE_REWARD_FRACTION, MAX_REPAYMENT_REWARD_FRACTION, fee, reward * rate);
      (fee, reward * rate)
    else
      ProductNonNegative(reward, MAX_REPAYMENT_REWARD_FRACTION);
      (fee, 0.0)
  }
}
