/** The repay-ratchet shortfall miner of the older miner tree: it may lock
    less than the full initial pledge, burns a fee in proportion to how much
    of its allowed shortfall it uses, and repays the shortfall at a take
    rate that is recomputed on every activation and only ever ratchets up:
    unlike the newer policy it is never reset. */
module LegacyRatchet {
  import opened Consts
  import opened Schedule
  import opened Accounting
  import opened LegacyNetwork
  import opened LegacyBase
  import opened RealFacts
  import Ratchet = ShortfallRatchet

  /** Longest term over which a shortfall must be repaid. */
  const MAX_REPAYMENT_TERM: nat := 365 * DAY
  /** Largest fraction of rewards taken as repayment. */
  const MAX_REPAYMENT_REWARD_FRACTION: real := 0.75
  /** Largest fraction of rewards burnt as fee. */
  const MAX_FEE_REWARD_FRACTION: real := 0.25

  class RepayRatchetShortfallMinerState {
    /** The ledger shared with every miner variant. */
    const base: BaseMinerState
    /** Total nominal pledge of the active sectors. */
    var pledgeRequired: real
    /** Fraction of each reward taken to repay the shortfall. */
    var repaymentTakeRate: real

    /** The expiration table is the source of power and required pledge,
        the miner never locks more than is required, and the take rate
        stays within the maximum repayment share. */
    ghost predicate Valid()
      reads this, base
    {
      base.Valid() &&
      AllNonNegative(base.expirations) &&
      base.power as real == ScheduledPower(base.expirations) &&
      pledgeRequired == ScheduledPledge(base.expirations) &&
      base.pledgeLocked <= pledgeRequired &&
      0.0 <= repaymentTakeRate <= MAX_REPAYMENT_REWARD_FRACTION
    }

    constructor (balance: real)
      ensures Valid() && fresh(base)
      ensures base.Snapshot() == Ledger(0, balance, 0.0, 0.0, 0.0, 0.0, 0.0, map[])
      ensures pledgeRequired == 0.0 && repaymentTakeRate == 0.0
    {
      base := new BaseMinerState(balance);
      pledgeRequired := 0.0;
      repaymentTakeRate := 0.0;
    }

    /** Pledge required but not locked. */
    function Shortfall(): real
      reads this, base
    {
      pledgeRequired - base.pledgeLocked
    }

    /** The current shortfall as a fraction of the largest the miner's
        power allows. */
    function ShortfallFraction(net: NetworkState): real
      reads this, base
    {
      ShortfallFractionOf(net, base.power, Shortfall())
    }

    /** The fee burnt and the repayment locked out of a reward: the fee in
        proportion to the shortfall fraction, the repayment at the take rate
        capped at the shortfall, both only while there is a shortfall. */
    function FeeAndRepayment(net: NetworkState, reward: real): (t: (real, real))
      reads this, base
      requires Valid() && reward >= 0.0
      ensures 0.0 <= t.0 <= reward * MAX_FEE_REWARD_FRACTION
      ensures 0.0 <= t.1 <= reward * repaymentTakeRate && t.1 <= Shortfall()
      ensures t.0 + t.1 <= reward
      ensures ShortfallFraction(net) <= 0.0 ==> t == (0.0, 0.0)
      ensures ShortfallFraction(net) > 0.0 ==>
        t.0 == reward * (ShortfallFraction(net) * MAX_FEE_REWARD_FRACTION) &&
        (t.1 == Shortfall() <==> reward * repaymentTakeRate >= Shortfall())
    {
      Ratchet.Takes(reward, ShortfallFraction(net), MAX_FEE_REWARD_FRACTION, repaymentTakeRate, Shortfall())
    }

    /** Activates `power` for `duration` epochs. The lock may be as low as
        the requirement less the repayment share of the power's expected
        reward over the repayment term (at most the commitment); the
        error for a lower lock reports the requirement. The take rate is
        then recomputed as what repays the miner's whole shortfall out of
        its expected reward over the term, refused above the maximum
        repayment share (after the sectors were added) and otherwise
        ratcheted in. The rate divides by that expected reward, which
        must not be zero. */
    method ActivateSectors(net: NetworkState, power: nat, duration: nat, lock: real) returns (r: Result<(int, real)>)
      requires Valid() && net.Valid() && power % SECTOR_SIZE == 0
      requires ResolveLock(lock, net.InitialPledgeForPower(power), MinimumPledge(net, power, duration)).Ok? ==>
        net.ExpectedRewardForPower(base.power + power, MAX_REPAYMENT_TERM) != 0.0
      modifies this, base
      ensures Valid()
      ensures repaymentTakeRate >= old(repaymentTakeRate)
      ensures var requirement := net.InitialPledgeForPower(power);
        var resolved := ResolveLock(lock, requirement, MinimumPledge(net, power, duration));
        resolved.Err? ==>
          r == Err(LockBelowMinimum(lock, requirement)) && base.Snapshot() == old(base.Snapshot()) &&
          pledgeRequired == old(pledgeRequired) && repaymentTakeRate == old(repaymentTakeRate)
      ensures var requirement := net.InitialPledgeForPower(power);
        var resolved := ResolveLock(lock, requirement, MinimumPledge(net, power, duration));
        resolved.Ok? ==>
          MinimumPledge(net, power, duration) <= resolved.value <= requirement &&
          Committed(net, power, duration, resolved.value, requirement,
                    old(base.Snapshot()), old(base.AvailableBalance()), old(pledgeRequired)) &&
          RateSettled(net, power, resolved.value, r, old(repaymentTakeRate))
    {
      var requirement := net.InitialPledgeForPower(power);
      var minimum := MinimumPledge(net, power, duration);
      var resolved := ResolveLock(lock, requirement, minimum);
      if resolved.Err? {
        return Err(LockBelowMinimum(lock, requirement));
      }
      MinimumWithinRequirement(net, power, duration);
      ghost var before, available0, required0 := base.Snapshot(), base.AvailableBalance(), pledgeRequired;
      AddSectors(power, requirement, resolved.value, net.epoch + duration);
      assert Committed(net, power, duration, resolved.value, requirement, before, available0, required0);
      r := SettleTakeRate(net, power, resolved.value);
    }

    /** What an accepted activation leaves behind, from the ledger, available
        balance and required pledge before it: the power, required pledge
        and locked pledge grow by the activation's, its bunch (recording the
        requirement) is scheduled to expire after `duration`, and whatever
        the available balance lacked of the lock is leased. */
    ghost predicate Committed(net: NetworkState, power: nat, duration: nat, locked: real, requirement: real,
                              before: Ledger, available0: real, required0: real)
      reads this, base
    {
      var leased := Max(locked - available0, 0.0);
      base.Snapshot() == before.(
        power := before.power + power, balance := before.balance + leased,
        lease := before.lease + leased, pledgeLocked := before.pledgeLocked + locked,
        expirations := Append(before.expirations, net.epoch + duration, SectorBunch(power, requirement))) &&
      pledgeRequired == required0 + requirement &&
      base.AvailableBalance() == Max(available0 - locked, 0.0)
    }

    /** How an accepted activation ends, given the take rate before it: the
        miner's whole power expects some reward over the repayment term, and
        the rate that repays the whole shortfall out of it is either refused
        as above the maximum repayment share, or ratcheted into the take
        rate, which then repays the shortfall within the term. */
    ghost predicate RateSettled(net: NetworkState, power: nat, locked: real, r: Result<(int, real)>, rate0: real)
      reads this, base
    {
      var expected := net.ExpectedRewardForPower(base.power, MAX_REPAYMENT_TERM);
      expected > 0.0 &&
      var rate := Shortfall() / expected;
      if rate > MAX_REPAYMENT_REWARD_FRACTION then
        r == Err(TakeRateAboveMaximum(rate)) && repaymentTakeRate == rate0
      else
        r == Ok((power, locked)) && repaymentTakeRate == Max(rate0, rate) &&
        repaymentTakeRate * expected >= Shortfall()
    }

    /** The ledger part of an activation: the power, required pledge and
        locked pledge grow, the bunch is scheduled, and whatever the lock
        lacks is leased. */
    method AddSectors(power: nat, requirement: real, locked: real, expiration: int)
      requires Valid() && 0.0 <= requirement && locked <= requirement
      modifies this, base
      ensures Valid()
      ensures var leased := Max(locked - old(base.AvailableBalance()), 0.0);
        base.Snapshot() == old(base.Snapshot()).(
          power := old(base.power) + power, balance := old(base.balance) + leased,
          lease := old(base.lease) + leased, pledgeLocked := old(base.pledgeLocked) + locked,
          expirations := Append(old(base.expirations), expiration, SectorBunch(power, requirement)))
      ensures pledgeRequired == old(pledgeRequired) + requirement && repaymentTakeRate == old(repaymentTakeRate)
      ensures base.AvailableBalance() == Max(old(base.AvailableBalance()) - locked, 0.0)
    {
      base.LeaseForLock(locked);
      RecordSectors(power, requirement, locked, expiration);
    }

    /** Records an activation's power, required and locked pledge, and its
        bunch in the expiration table. */
    method RecordSectors(power: nat, requirement: real, locked: real, expiration: int)
      requires Valid() && 0.0 <= requirement && locked <= requirement
      modifies this, base
      ensures Valid()
      ensures base.Snapshot() == old(base.Snapshot()).(
        power := old(base.power) + power, pledgeLocked := old(base.pledgeLocked) + locked,
        expirations := Append(old(base.expirations), expiration, SectorBunch(power, requirement)))
      ensures pledgeRequired == old(pledgeRequired) + requirement && repaymentTakeRate == old(repaymentTakeRate)
    {
      base.power := base.power + power;
      pledgeRequired := pledgeRequired + requirement;
      base.pledgeLocked := base.pledgeLocked + locked;
      var bunch := SectorBunch(power, requirement);
      ScheduleAppend(base.expirations, expiration, bunch);
      AppendNonNegative(base.expirations, expiration, bunch);
      base.expirations := Append(base.expirations, expiration, bunch);
    }

    /** The take-rate part of an activation: the rate that repays the
        miner's whole shortfall out of its expected reward over the term is
        refused above the maximum repayment share, and otherwise the take
        rate is ratcheted up to it. */
    method SettleTakeRate(net: NetworkState, power: nat, locked: real) returns (r: Result<(int, real)>)
      requires Valid() && net.Valid()
      requires net.ExpectedRewardForPower(base.power, MAX_REPAYMENT_TERM) != 0.0
      modifies this
      ensures Valid() && pledgeRequired == old(pledgeRequired)
      ensures repaymentTakeRate >= old(repaymentTakeRate)
      ensures RateSettled(net, power, locked, r, old(repaymentTakeRate))
    {
      var currentShortfall := pledgeRequired - base.pledgeLocked;
      var expectedRewards := net.ExpectedRewardForPower(base.power, MAX_REPAYMENT_TERM);
      ScheduledNonNegative(base.expirations);
      ExpectedRewardNonNegative(net, base.power, MAX_REPAYMENT_TERM);
      var rate := currentShortfall / expectedRewards;
      if rate > MAX_REPAYMENT_REWARD_FRACTION {
        return Err(TakeRateAboveMaximum(rate));
      }
      DivideMonotone(0.0, currentShortfall, expectedRewards);
      repaymentTakeRate := Max(repaymentTakeRate, rate);
      Ratchet.RateCovers(repaymentTakeRate, rate, currentShortfall, expectedRewards);
      r := Ok((power, locked));
    }

    /** Earns a reward (none of it vests): while there is a shortfall, a fee
        is burnt and a repayment is locked as pledge; the take rate is never
        reset. Then as much of the lease as possible is repaid. */
    method ReceiveReward(net: NetworkState, reward: real)
      requires Valid() && reward >= 0.0
      requires var t := FeeAndRepayment(net, reward); base.AvailableBalance() + reward - t.0 - t.1 >= 0.0
      modifies this, base
      ensures Valid()
      ensures var t := old(FeeAndRepayment(net, reward));
        var repaid := Min(old(base.lease), old(base.AvailableBalance()) + reward - t.0 - t.1);
        base.Snapshot() == old(base.Snapshot()).(
          balance := old(base.balance) + reward - t.0 - repaid, lease := old(base.lease) - repaid,
          pledgeLocked := old(base.pledgeLocked) + t.1,
          rewardEarned := old(base.rewardEarned) + reward, feeBurned := old(base.feeBurned) + t.0) &&
        Shortfall() == old(Shortfall()) - t.1
      ensures pledgeRequired == old(pledgeRequired) && repaymentTakeRate == old(repaymentTakeRate)
      ensures base.lease == 0.0 || base.AvailableBalance() == 0.0
    {
      ghost var t := Ratchet.Takes(reward, ShortfallFraction(net), MAX_FEE_REWARD_FRACTION, repaymentTakeRate, Shortfall());
      assert t == FeeAndRepayment(net, reward);
      base.EarnReward(reward);
      var shortfallFrac := ShortfallFraction(net);
      TakeShares(reward, shortfallFrac);
      base.RepayLease();
    }

    /** The shortfall-dependent part of receiving a reward, for a shortfall
        fraction `frac`: burns the fee share and locks the repayment share,
        capped at the shortfall, as pledge. */
    method TakeShares(reward: real, frac: real)
      requires Valid() && reward >= 0.0 && frac <= 1.0 && (frac > 0.0 ==> Shortfall() > 0.0)
      requires Ratchet.Takes(reward, frac, MAX_FEE_REWARD_FRACTION, repaymentTakeRate, Shortfall()).0
        <= base.AvailableBalance()
      modifies this, base
      ensures Valid()
      ensures var t := Ratchet.Takes(reward, frac, MAX_FEE_REWARD_FRACTION, repaymentTakeRate, old(Shortfall()));
        base.Snapshot() == old(base.Snapshot()).(
          balance := old(base.balance) - t.0, pledgeLocked := old(base.pledgeLocked) + t.1,
          feeBurned := old(base.feeBurned) + t.0)
      ensures pledgeRequired == old(pledgeRequired) && repaymentTakeRate == old(repaymentTakeRate)
    {
      ghost var t := Ratchet.Takes(reward, frac, MAX_FEE_REWARD_FRACTION, repaymentTakeRate, Shortfall());
      if frac > 0.0 {
        var feeTakeRate := frac * MAX_FEE_REWARD_FRACTION;
        var feeAmount := reward * feeTakeRate;
        assert feeAmount == t.0;
        base.BurnFee(feeAmount);
        var repaymentAmount := Min(reward * repaymentTakeRate, pledgeRequired - base.pledgeLocked);
        assert repaymentAmount == t.1;
        base.pledgeLocked := base.pledgeLocked + repaymentAmount;
      }
    }

    /** Expires a bunch: its power and required pledge go, and the locked
        pledge is released in proportion, keeping the fraction of the
        requirement that is locked. */
    method HandleExpiration(b: SectorBunch)
      requires pledgeRequired != 0.0
      modifies this, base
      ensures var satisfaction := old(base.pledgeLocked) / old(pledgeRequired);
        base.Snapshot() == old(base.Snapshot()).(
          power := old(base.power) - b.power,
          pledgeLocked := old(base.pledgeLocked) - satisfaction * b.pledge)
      ensures pledgeRequired == old(pledgeRequired) - b.pledge && repaymentTakeRate == old(repaymentTakeRate)
      ensures pledgeRequired != 0.0 ==> base.pledgeLocked / pledgeRequired == old(base.pledgeLocked / pledgeRequired)
      ensures pledgeRequired == 0.0 ==> base.pledgeLocked == 0.0
    {
      var pledgeSatisfaction := base.pledgeLocked / pledgeRequired;
      var pledgeToRelease := pledgeSatisfaction * b.pledge;
      Ratchet.ProportionalRelease(base.pledgeLocked, pledgeRequired, b.pledge);
      base.power := base.power - b.power;
      pledgeRequired := pledgeRequired - b.pledge;
      base.pledgeLocked := base.pledgeLocked - pledgeToRelease;
    }

    /** End of an epoch: the lease accrues one epoch's fee (a parameter, as
        the network of this tree has no lease-fee rule), then the expiring
        bunches are released proportionally. The release divides by the
        required pledge before each expiration, so it must not be used up
        before the last bunch. */
    method HandleEpoch(net: NetworkState, fee: real)
      requires Valid() && fee >= 0.0
      requires Ratchet.Outlasts(pledgeRequired, BunchesAt(base.expirations, net.epoch))
      modifies this, base
      ensures Valid()
      ensures var expiring := BunchesAt(old(base.expirations), net.epoch);
        base.Snapshot() == old(base.Snapshot()).(
          power := old(base.power) - TotalPower(expiring), pledgeLocked := base.pledgeLocked,
          expirations := old(base.expirations) - {net.epoch},
          lease := old(base.lease) + fee, leaseFeeAccrued := old(base.leaseFeeAccrued) + fee) &&
        pledgeRequired == old(pledgeRequired) - TotalPledge(expiring)
      ensures repaymentTakeRate == old(repaymentTakeRate)
      ensures old(pledgeRequired) != 0.0 && pledgeRequired != 0.0 ==>
        base.pledgeLocked / pledgeRequired == old(base.pledgeLocked / pledgeRequired)
      ensures BunchesAt(base.expirations, net.epoch) == []
    {
      base.AccrueLeaseFee(fee);
      ExpireBunches(net.epoch);
    }

    /** Removes the bunches expiring at `epoch` and expires each in turn. */
    method ExpireBunches(epoch: int)
      requires Valid()
      requires Ratchet.Outlasts(pledgeRequired, BunchesAt(base.expirations, epoch))
      modifies this, base
      ensures Valid()
      ensures var expiring := BunchesAt(old(base.expirations), epoch);
        base.Snapshot() == old(base.Snapshot()).(
          power := old(base.power) - TotalPower(expiring), pledgeLocked := base.pledgeLocked,
          expirations := old(base.expirations) - {epoch}) &&
        pledgeRequired == old(pledgeRequired) - TotalPledge(expiring)
      ensures repaymentTakeRate == old(repaymentTakeRate)
      ensures old(pledgeRequired) != 0.0 && pledgeRequired != 0.0 ==>
        base.pledgeLocked / pledgeRequired == old(base.pledgeLocked / pledgeRequired)
      ensures BunchesAt(base.expirations, epoch) == []
    {
      SchedulePop(base.expirations, epoch);
      var expiring := base.PopExpirations(epoch);
      ScheduledNonNegative(base.expirations);
      var power, required, locked := Ratchet.ReleaseExpiring(expiring, base.power, pledgeRequired, base.pledgeLocked);
      base.power, pledgeRequired, base.pledgeLocked := power, required, locked;
    }
  }

  /** The largest shortfall `power` could repay within the repayment
      term. */
  function MaxShortfall(net: NetworkState, power: int): real
  {
    MAX_REPAYMENT_REWARD_FRACTION * net.ExpectedRewardForPower(power, MAX_REPAYMENT_TERM)
  }

  /** A shortfall as a fraction of the largest `power` allows, clamped at 1
      and zero while no shortfall is allowed: positive exactly when both
      are, at least zero for a non-negative shortfall, and exact below the
      maximum. */
  function ShortfallFractionOf(net: NetworkState, power: int, shortfall: real): (f: real)
    ensures f <= 1.0
    ensures f > 0.0 <==> MaxShortfall(net, power) > 0.0 && shortfall > 0.0
    ensures shortfall >= 0.0 ==> f >= 0.0
    ensures 0.0 < MaxShortfall(net, power) && shortfall < MaxShortfall(net, power)
      ==> f * MaxShortfall(net, power) == shortfall
    ensures 0.0 < MaxShortfall(net, power) <= shortfall ==> f == 1.0
  {
    ClampedFraction(shortfall, MaxShortfall(net, power))
  }

  /** The share of an activation's requirement that may be left as
      shortfall: what the repayment share of its expected reward over the
      repayment term (at most the commitment) can pay back. */
  function IncrementalShortfall(net: NetworkState, power: int, duration: nat): real
  {
    MAX_REPAYMENT_REWARD_FRACTION * net.ExpectedRewardForPower(power, MinInt(duration, MAX_REPAYMENT_TERM))
  }

  /** The least lock accepted for an activation of `power`. */
  function MinimumPledge(net: NetworkState, power: int, duration: nat): real
    requires net.PledgeShare() != 0
  {
    net.InitialPledgeForPower(power) - IncrementalShortfall(net, power, duration)
  }

  /** The minimum lock is at most the requirement, which is never
      negative. */
  lemma MinimumWithinRequirement(net: NetworkState, power: nat, duration: nat)
    requires net.Valid()
    ensures 0.0 <= net.InitialPledgeForPower(power)
    ensures MinimumPledge(net, power, duration) <= net.InitialPledgeForPower(power)
  {
    InitialPledgeNonNegative(net, power);
    ExpectedRewardNonNegative(net, power, MinInt(duration, MAX_REPAYMENT_TERM));
    ProductNonNegative(MAX_REPAYMENT_REWARD_FRACTION,
      net.ExpectedRewardForPower(power, MinInt(duration, MAX_REPAYMENT_TERM)));
  }

  /** On a valid network the expected reward of non-negative power over a
      non-negative duration is never negative. */
  lemma ExpectedRewardNonNegative(net: NetworkState, p: int, d: int)
    requires net.Valid() && 0 <= p && 0 <= d
    ensures 0.0 <= net.ExpectedRewardForPower(p, d)
  {
    if net.power > 0 {
      ExpectedRewardMonotone(net, p, p, d);
    }
  }

  /** The share of the nominal pledge the policy lets a miner leave as
      shortfall, in this tree's simplified form: the repayment share of a
      term's epoch rewards over the projection period's rewards plus the
      target lock of the supply. */
  function ShortfallShare(net: NetworkState): real
    requires INITIAL_PLEDGE_PROJECTION_PERIOD as real * net.epochReward
             + SUPPLY_LOCK_TARGET * net.circulatingSupply != 0.0
  {
    MAX_REPAYMENT_REWARD_FRACTION * MAX_REPAYMENT_TERM as real * net.epochReward / (
      INITIAL_PLEDGE_PROJECTION_PERIOD as real * net.epochReward + SUPPLY_LOCK_TARGET * net.circulatingSupply)
  }

  /** The largest nominal pledge an available lock can commit to. */
  function MaxPledgeForTokens(net: NetworkState, availableLock: real): real
    requires INITIAL_PLEDGE_PROJECTION_PERIOD as real * net.epochReward
             + SUPPLY_LOCK_TARGET * net.circulatingSupply != 0.0
    requires ShortfallShare(net) != 1.0
  {
    availableLock / (1.0 - ShortfallShare(net))
  }

  /** The inverse of the minimum lock: while network power is at or above
      its baseline and the commitment spans the repayment term, the minimum
      lock for `p` is its initial pledge less the shortfall share, so the
      most nominal pledge that lock can buy is exactly p's initial
      pledge. */
  lemma MaxPledgeInvertsMinimum(net: NetworkState, p: int, duration: nat)
    requires net.power > 0 && net.power >= net.powerBaseline && duration >= MAX_REPAYMENT_TERM
    requires INITIAL_PLEDGE_PROJECTION_PERIOD as real * net.epochReward
             + SUPPLY_LOCK_TARGET * net.circulatingSupply != 0.0
    requires ShortfallShare(net) != 1.0
    ensures MinimumPledge(net, p, duration) == net.InitialPledgeForPower(p) * (1.0 - ShortfallShare(net))
    ensures MaxPledgeForTokens(net, MinimumPledge(net, p, duration)) == net.InitialPledgeForPower(p)
  {
    var term := MAX_REPAYMENT_TERM as real * net.epochReward;
    var a := INITIAL_PLEDGE_PROJECTION_PERIOD as real * net.epochReward + SUPPLY_LOCK_TARGET * net.circulatingSupply;
    var e := net.ExpectedRewardForPower(p, MAX_REPAYMENT_TERM);
    var least := MinimumPledge(net, p, duration);
    assert MinInt(duration, MAX_REPAYMENT_TERM) == MAX_REPAYMENT_TERM;
    assert least == net.InitialPledgeForPower(p) - MAX_REPAYMENT_REWARD_FRACTION * e;
    ExpectedRewardProRata(net, p, MAX_REPAYMENT_TERM);
    InitialPledgeLinear(net, p);
    Associate(MAX_REPAYMENT_REWARD_FRACTION, MAX_REPAYMENT_TERM as real, net.epochReward);
    Ratchet.ShareOfPledge(net.InitialPledgeForPower(p), e, net.power as real, p as real, term, a,
      MAX_REPAYMENT_REWARD_FRACTION, ShortfallShare(net), least);
    DivideUndoes(least, net.InitialPledgeForPower(p), 1.0 - ShortfallShare(net));
  }
}
