/** The repay-ratchet shortfall miner: it may lock less than the full
    initial pledge, and repays the shortfall out of its rewards at a take
    rate that only ratchets upwards as the shortfall grows, while burning a
    fee proportional to how much of its allowed shortfall it uses. */
module ShortfallRatchet {
  import opened Consts
  import opened Schedule
  import opened Accounting
  import opened ShortfallNetwork
  import opened ShortfallBase
  import opened RealFacts

  /** Default longest term over which a shortfall must be repaid. */
  const DEFAULT_MAX_REPAYMENT_TERM: nat := 3 * 365 * DAY
  /** Default largest fraction of rewards burnt as fee. */
  const DEFAULT_MAX_FEE_REWARD_FRACTION: real := 0.25
  /** Default decay for projecting the miner's rewards: the network reward
      decay plus the baseline growth its share loses to. */
  const DEFAULT_REWARD_PROJECTION_DECAY: real := REWARD_DECAY + BASELINE_GROWTH

  class RepayRatchetShortfallMinerState {
    /** The ledger shared with every miner variant. */
    const base: BaseMinerState
    const maxRepaymentTerm: nat
    const maxFeeRewardFraction: real
    const maxRepaymentRewardFraction: real
    const rewardProjectionDecay: real
    /** Total nominal pledge of the active sectors. */
    var pledgeRequired: real
    /** Fraction of each reward taken to repay the shortfall. */
    var repaymentTakeRate: real

    /** The policy parameters are fractions, the expiration table is the
        source of power and required pledge, the miner never locks more than
        is required, and the take rate stays within its maximum. */
    ghost predicate Valid()
      reads this, base
    {
      base.Valid() &&
      0.0 <= maxFeeRewardFraction <= 1.0 && maxRepaymentRewardFraction == 1.0 - maxFeeRewardFraction &&
      0.0 < rewardProjectionDecay <= 1.0 &&
      AllNonNegative(base.expirations) &&
      base.power as real == ScheduledPower(base.expirations) &&
      pledgeRequired == ScheduledPledge(base.expirations) &&
      base.pledgeLocked <= pledgeRequired &&
      0.0 <= repaymentTakeRate <= maxRepaymentRewardFraction
    }

    constructor (balance: real, maxRepaymentTerm: nat, maxFeeRewardFraction: real, rewardProjectionDecay: real)
      requires 0.0 <= maxFeeRewardFraction <= 1.0 && 0.0 < rewardProjectionDecay <= 1.0
      ensures Valid() && fresh(base)
      ensures base.Snapshot() == Ledger(0, balance, 0.0, 0.0, 0.0, map[], 0.0, 0.0, 0.0, 0, 0.0, map[])
      ensures this.maxRepaymentTerm == maxRepaymentTerm && this.maxFeeRewardFraction == maxFeeRewardFraction
      ensures maxRepaymentRewardFraction == 1.0 - maxFeeRewardFraction
      ensures this.rewardProjectionDecay == rewardProjectionDecay
      ensures pledgeRequired == 0.0 && repaymentTakeRate == 0.0
    {
      base := new BaseMinerState(balance);
      this.maxRepaymentTerm := maxRepaymentTerm;
      this.maxFeeRewardFraction := maxFeeRewardFraction;
      maxRepaymentRewardFraction := 1.0 - maxFeeRewardFraction;
      this.rewardProjectionDecay := rewardProjectionDecay;
      pledgeRequired := 0.0;
      repaymentTakeRate := 0.0;
    }

    /** Pledge required but not locked. */
    function Shortfall(): real
      reads this, base
    {
      pledgeRequired - base.pledgeLocked
    }

    /** The share of an activation's requirement that may be left as
        shortfall: what the repayment share of its projected reward over the
        repayment term (at most the commitment) can pay back. */
    function IncrementalShortfall(net: NetworkState, power: int, duration: nat): real
      reads net
      requires rewardProjectionDecay != 0.0
    {
      maxRepaymentRewardFraction
        * net.ExpectedRewardForPower(power, MinInt(duration, maxRepaymentTerm), rewardProjectionDecay)
    }

    /** The least lock accepted for an activation of `power`. */
    function MinimumPledge(net: NetworkState, power: int, duration: nat): real
      reads net
      requires rewardProjectionDecay != 0.0 && net.PledgeShare() != 0.0
    {
      net.InitialPledgeForPower(power) - IncrementalShortfall(net, power, duration)
    }

    /** The largest shortfall the miner's whole power could repay within
        the repayment term. */
    function MaxShortfall(net: NetworkState): real
      reads this, base, net
      requires rewardProjectionDecay != 0.0
    {
      maxRepaymentRewardFraction * net.ExpectedRewardForPower(base.power, maxRepaymentTerm, rewardProjectionDecay)
    }

    /** The current shortfall as a fraction of the largest allowed, clamped
        at 1 and zero while no shortfall is allowed. */
    function ShortfallFraction(net: NetworkState): (f: real)
      reads this, base, net
      requires rewardProjectionDecay != 0.0
      ensures f <= 1.0
      ensures f > 0.0 <==> MaxShortfall(net) > 0.0 && Shortfall() > 0.0
      ensures Shortfall() >= 0.0 ==> f >= 0.0
      ensures 0.0 < MaxShortfall(net) && Shortfall() < MaxShortfall(net) ==> f * MaxShortfall(net) == Shortfall()
      ensures 0.0 < MaxShortfall(net) <= Shortfall() ==> f == 1.0
    {
      ClampedFraction(Shortfall(), MaxShortfall(net))
    }

    /** The fraction of nominal pledge that may be left as shortfall for a
        commitment of `duration` epochs, per unit of power share. */
    function ShortfallShare(net: NetworkState, duration: nat): real
      reads net
      requires rewardProjectionDecay != 0.0 && net.PledgePerUnitShare() != 0.0
    {
      maxRepaymentRewardFraction
        * ProjectedReward(net.epochReward, MinInt(duration, maxRepaymentTerm), rewardProjectionDecay)
        / net.PledgePerUnitShare()
    }

    /** The largest nominal pledge an available lock can commit to. */
    function MaxPledgeForTokens(net: NetworkState, availableLock: real, duration: nat): real
      reads net
      requires rewardProjectionDecay != 0.0 && net.PledgePerUnitShare() != 0.0
      requires ShortfallShare(net, duration) != 1.0
    {
      availableLock / (1.0 - ShortfallShare(net, duration))
    }

    /** The fee burnt and the repayment locked out of a reward. */
    function FeeAndRepayment(net: NetworkState, reward: real): (t: (real, real))
      reads this, base, net
      requires Valid() && reward >= 0.0
      ensures 0.0 <= t.0 <= reward * maxFeeRewardFraction
      ensures 0.0 <= t.1 <= reward * repaymentTakeRate && t.1 <= Shortfall()
      ensures t.0 + t.1 <= reward
      ensures ShortfallFraction(net) <= 0.0 ==> t == (0.0, 0.0)
      ensures ShortfallFraction(net) > 0.0 ==>
        t.0 == reward * (ShortfallFraction(net) * maxFeeRewardFraction) &&
        (t.1 == Shortfall() <==> reward * repaymentTakeRate >= Shortfall())
    {
      Takes(reward, ShortfallFraction(net), maxFeeRewardFraction, repaymentTakeRate, Shortfall())
    }

    /** Activates `power` for `duration` epochs. The lock may be as low as
        the minimum pledge; the shortfall it leaves is added to the miner's
        total, and the take rate is raised to what repays that total from
        the miner's projected rewards within the repayment term. */
    method ActivateSectors(net: NetworkState, power: nat, duration: nat, lock: real) returns (r: Result<(int, real)>)
      requires Valid() && net.Valid() && power % SECTOR_SIZE == 0
      modifies this, base
      ensures Valid()
      ensures repaymentTakeRate >= old(repaymentTakeRate)
      ensures var requirement := old(net.InitialPledgeForPower(power));
        var resolved := ResolveLock(lock, requirement, old(MinimumPledge(net, power, duration)));
        resolved.Err? ==>
          r == Err(resolved.error) && base.Snapshot() == old(base.Snapshot()) &&
          pledgeRequired == old(pledgeRequired) && repaymentTakeRate == old(repaymentTakeRate)
      ensures var requirement := old(net.InitialPledgeForPower(power));
        var resolved := ResolveLock(lock, requirement, old(MinimumPledge(net, power, duration)));
        resolved.Ok? ==>
          old(MinimumPledge(net, power, duration)) <= resolved.value <= requirement &&
          Committed(net, power, duration, resolved.value, requirement, r,
                    old(base.Snapshot()), old(base.AvailableBalance()), old(pledgeRequired), old(repaymentTakeRate))
    {
      var requirement := net.InitialPledgeForPower(power);
      var minimum := MinimumPledge(net, power, duration);
      var resolved := ResolveLock(lock, requirement, minimum);
      if resolved.Err? {
        return Err(resolved.error);
      }
      MinimumWithinRequirement(net, power, duration);
      r := CommitSectors(net, power, duration, resolved.value, requirement);
    }

    /** An activation whose lock was accepted: the sectors are added, then
        the take rate is settled against the shortfall left. */
    method CommitSectors(net: NetworkState, power: nat, duration: nat, locked: real, requirement: real)
      returns (r: Result<(int, real)>)
      requires Valid() && net.Valid() && requirement == net.InitialPledgeForPower(power)
      requires MinimumPledge(net, power, duration) <= locked <= requirement
      requires 0.0 <= MinimumPledge(net, power, duration) + IncrementalShortfall(net, power, duration)
      modifies this, base
      ensures Valid()
      ensures repaymentTakeRate >= old(repaymentTakeRate)
      ensures Committed(net, power, duration, locked, requirement, r,
                        old(base.Snapshot()), old(base.AvailableBalance()), old(pledgeRequired), old(repaymentTakeRate))
    {
      AddSectors(power, requirement, locked, net.epoch + duration);
      r := SettleTakeRate(net, power, duration, locked, requirement);
    }

    /** What an accepted activation leaves behind, from the ledger, available
        balance, required pledge and take rate before it: the power, required
        pledge and locked pledge grow by the activation's, its bunch is
        scheduled to expire after `duration`, whatever the available balance
        lacked of the lock is leased, and the take rate is settled. */
    ghost predicate Committed(net: NetworkState, power: nat, duration: nat, locked: real, requirement: real,
                              r: Result<(int, real)>, before: Ledger, available0: real, required0: real, rate0: real)
      reads this, base, net
      requires rewardProjectionDecay != 0.0
    {
      var leased := Max(locked - available0, 0.0);
      base.Snapshot() == before.(
        power := before.power + power, balance := before.balance + leased,
        lease := before.lease + leased, pledgeLocked := before.pledgeLocked + locked,
        expirations := Append(before.expirations, net.epoch + duration, SectorBunch(power, requirement))) &&
      pledgeRequired == required0 + requirement &&
      base.AvailableBalance() == Max(available0 - locked, 0.0) &&
      RateSettled(net, power, locked, requirement, r, rate0)
    }

    /** How an activation that locked `locked` of `requirement` ends, given
        the take rate before it: without a shortfall it succeeds and the rate
        stays; with one, the miner's whole power expects some reward over
        the repayment term, and the rate that repays the whole shortfall out
        of it is either refused as above the maximum repayment share or
        ratcheted into the take rate, which then repays the shortfall. */
    ghost predicate RateSettled(net: NetworkState, power: nat, locked: real, requirement: real,
                                r: Result<(int, real)>, rate0: real)
      reads this, base, net
      requires rewardProjectionDecay != 0.0
    {
      (locked >= requirement ==> r == Ok((power, locked)) && repaymentTakeRate == rate0) &&
      (locked < requirement ==>
        var expected := net.ExpectedRewardForPower(base.power, maxRepaymentTerm, rewardProjectionDecay);
        expected > 0.0 &&
        var rate := Shortfall() / expected;
        if rate > maxRepaymentRewardFraction then
          r == Err(TakeRateAboveMaximum(rate)) && repaymentTakeRate == rate0
        else
          r == Ok((power, locked)) && repaymentTakeRate == Max(rate0, rate) &&
          repaymentTakeRate * expected >= Shortfall())
    }

    /** The take-rate part of an activation that left a shortfall: the rate
        is ratcheted up to what repays the miner's whole shortfall out of
        its projected rewards over the repayment term, and the activation
        fails if that would exceed the maximum repayment share. */
    method SettleTakeRate(net: NetworkState, power: nat, duration: nat, locked: real, requirement: real)
      returns (r: Result<(int, real)>)
      requires Valid() && net.Valid() && locked <= requirement
      requires locked < requirement ==>
        MinimumPledge(net, power, duration) < net.InitialPledgeForPower(power) && base.power >= power
      modifies this
      ensures Valid() && pledgeRequired == old(pledgeRequired)
      ensures repaymentTakeRate >= old(repaymentTakeRate)
      ensures base.Snapshot() == old(base.Snapshot())
      ensures RateSettled(net, power, locked, requirement, r, old(repaymentTakeRate))
    {
      if locked < requirement {
        var expected := net.ExpectedRewardForPower(base.power, maxRepaymentTerm, rewardProjectionDecay);
        ShortfallNeedsReward(net, power, duration, base.power);
        ghost var rate0 := repaymentTakeRate;
        var ok := RatchetTakeRate(expected);
        if !ok {
          r := Err(TakeRateAboveMaximum(Shortfall() / expected));
        } else {
          r := Ok((power, locked));
        }
        ShortfallSettled(net, power, locked, requirement, r, rate0, expected, ok);
      } else {
        r := Ok((power, locked));
      }
    }

    /** RateSettled for an activation that left a shortfall, from the
        outcome of ratcheting the take rate against `expected`. */
    lemma ShortfallSettled(net: NetworkState, power: nat, locked: real, requirement: real,
                           r: Result<(int, real)>, rate0: real, expected: real, ok: bool)
      requires rewardProjectionDecay != 0.0 && locked < requirement && expected > 0.0
      requires expected == net.ExpectedRewardForPower(base.power, maxRepaymentTerm, rewardProjectionDecay)
      requires ok <==> Shortfall() / expected <= maxRepaymentRewardFraction
      requires ok ==> r == Ok((power, locked)) && repaymentTakeRate == Max(rate0, Shortfall() / expected)
      requires ok ==> repaymentTakeRate * expected >= Shortfall()
      requires !ok ==> r == Err(TakeRateAboveMaximum(Shortfall() / expected)) && repaymentTakeRate == rate0
      ensures RateSettled(net, power, locked, requirement, r, rate0)
    {
    }

    /** The ledger part of an activation: the power, required pledge and
        locked pledge grow, the bunch is scheduled, and whatever the lock
        lacks is leased. */
    method AddSectors(power: nat, requirement: real, locked: real, expiration: int)
      requires Valid() && 0.0 <= requirement && locked <= requirement
      modifies this, base
      ensures Valid()
      ensures var leased := Max(locked - old(base.AvailableBalance()), 0.0);
        base.Snapshot() == old(base.Snapshot()).(
          power := old(base.power) + power, balance := old(base.balance) + leased,
          lease := old(base.lease) + leased, pledgeLocked := old(base.pledgeLocked) + locked,
          expirations := Append(old(base.expirations), expiration, SectorBunch(power, requirement)))
      ensures pledgeRequired == old(pledgeRequired) + requirement && repaymentTakeRate == old(repaymentTakeRate)
      ensures base.AvailableBalance() == Max(old(base.AvailableBalance()) - locked, 0.0)
      ensures base.power >= power
    {
      base.LeaseForLock(locked);
      RecordSectors(power, requirement, locked, expiration);
    }

    /** Records an activation's power, required and locked pledge, and its
        bunch in the expiration table. */
    method RecordSectors(power: nat, requirement: real, locked: real, expiration: int)
      requires Valid() && 0.0 <= requirement && locked <= requirement
      modifies this, base
      ensures Valid()
      ensures base.Snapshot() == old(base.Snapshot()).(
        power := old(base.power) + power, pledgeLocked := old(base.pledgeLocked) + locked,
        expirations := Append(old(base.expirations), expiration, SectorBunch(power, requirement)))
      ensures pledgeRequired == old(pledgeRequired) + requirement && repaymentTakeRate == old(repaymentTakeRate)
      ensures base.power >= power
    {
      ScheduledNonNegative(base.expirations);
      base.power := base.power + power;
      pledgeRequired := pledgeRequired + requirement;
      base.pledgeLocked := base.pledgeLocked + locked;
      var bunch := SectorBunch(power, requirement);
      ScheduleAppend(base.expirations, expiration, bunch);
      AppendNonNegative(base.expirations, expiration, bunch);
      base.expirations := Append(base.expirations, expiration, bunch);
    }

    /** Raises the take rate to what repays the current shortfall out of
        `expected` reward, unless that exceeds the maximum repayment share,
        in which case nothing changes and the result is false. */
    method RatchetTakeRate(expected: real) returns (ok: bool)
      requires Valid() && expected > 0.0
      modifies this
      ensures Valid()
      ensures ok <==> Shortfall() / expected <= maxRepaymentRewardFraction
      ensures ok ==> repaymentTakeRate == Max(old(repaymentTakeRate), Shortfall() / expected)
      ensures ok ==> repaymentTakeRate * expected >= Shortfall()
      ensures !ok ==> repaymentTakeRate == old(repaymentTakeRate)
      ensures pledgeRequired == old(pledgeRequired)
    {
      var currentShortfall := pledgeRequired - base.pledgeLocked;
      var rate := currentShortfall / expected;
      if rate > maxRepaymentRewardFraction {
        return false;
      }
      DivideMonotone(0.0, currentShortfall, expected);
      repaymentTakeRate := Max(repaymentTakeRate, rate);
      RateCovers(repaymentTakeRate, rate, currentShortfall, expected);
      ok := true;
    }

    /** The minimum lock lies between the requirement less the largest
        incremental shortfall and the requirement, which is non-negative. */
    lemma MinimumWithinRequirement(net: NetworkState, power: nat, duration: nat)
      requires 0.0 <= maxRepaymentRewardFraction && 0.0 < rewardProjectionDecay <= 1.0 && net.Valid()
      ensures 0.0 <= MinimumPledge(net, power, duration) + IncrementalShortfall(net, power, duration)
      ensures 0.0 <= IncrementalShortfall(net, power, duration)
      ensures MinimumPledge(net, power, duration) <= net.InitialPledgeForPower(power)
    {
      InitialPledgeMonotone(net, 0, power);
      ExpectedRewardSign(net, power, MinInt(duration, maxRepaymentTerm), rewardProjectionDecay);
      Scale(maxRepaymentRewardFraction, 0.0,
        net.ExpectedRewardForPower(power, MinInt(duration, maxRepaymentTerm), rewardProjectionDecay));
    }

    /** A shortfall can only be taken where the power expects some reward;
        then any larger power expects some reward over the repayment term,
        so the take rate is well defined. */
    lemma ShortfallNeedsReward(net: NetworkState, power: nat, duration: nat, total: int)
      requires 0.0 <= maxRepaymentRewardFraction && 0.0 < rewardProjectionDecay <= 1.0 && net.Valid()
      requires MinimumPledge(net, power, duration) < net.InitialPledgeForPower(power) && total >= power
      ensures net.ExpectedRewardForPower(total, maxRepaymentTerm, rewardProjectionDecay) > 0.0
    {
      var e := net.ExpectedRewardForPower(power, MinInt(duration, maxRepaymentTerm), rewardProjectionDecay);
      assert maxRepaymentRewardFraction * e > 0.0;
      PositiveFactor(maxRepaymentRewardFraction, e);
      ExpectedRewardSign(net, power, MinInt(duration, maxRepaymentTerm), rewardProjectionDecay);
      ExpectedRewardSign(net, total, maxRepaymentTerm, rewardProjectionDecay);
    }

    /** Earns a reward (none of it vests): while there is a shortfall, a fee
        is burnt and a repayment is locked as pledge, the take rate resetting
        once the shortfall is repaid; then as much of the lease as possible
        is repaid. */
    method ReceiveReward(net: NetworkState, reward: real)
      requires Valid() && reward >= 0.0
      requires var t := FeeAndRepayment(net, reward); base.AvailableBalance() + reward - t.0 - t.1 >= 0.0
      modifies this, base
      ensures Valid()
      ensures var t := old(FeeAndRepayment(net, reward));
        var repaid := Min(old(base.lease), old(base.AvailableBalance()) + reward - t.0 - t.1);
        base.Snapshot() == old(base.Snapshot()).(
          balance := old(base.balance) + reward - t.0 - repaid, lease := old(base.lease) - repaid,
          pledgeLocked := old(base.pledgeLocked) + t.1,
          rewardEarned := old(base.rewardEarned) + reward, feeBurned := old(base.feeBurned) + t.0) &&
        Shortfall() == old(Shortfall()) - t.1
      ensures pledgeRequired == old(pledgeRequired)
      ensures repaymentTakeRate ==
        (if old(ShortfallFraction(net)) > 0.0 && reward * old(repaymentTakeRate) >= old(Shortfall())
         then 0.0 else old(repaymentTakeRate))
      ensures repaymentTakeRate != old(repaymentTakeRate) ==> Shortfall() == 0.0
      ensures base.lease == 0.0 || base.AvailableBalance() == 0.0
    {
      var shortfallFrac := ShortfallFraction(net);
      ghost var t := Takes(reward, shortfallFrac, maxFeeRewardFraction, repaymentTakeRate, Shortfall());
      assert t == FeeAndRepayment(net, reward);
      base.EarnReward(reward);
      assert Shortfall() == old(Shortfall());
      TakeAndRepay(reward, shortfallFrac);
    }

    /** What receiving a reward does once it is credited, for a shortfall
        fraction `frac`: the fee and repayment shares are taken, then as
        much of the lease as the rest of the available balance covers is
        repaid. */
    method TakeAndRepay(reward: real, frac: real)
      requires Valid() && reward >= 0.0 && frac <= 1.0 && (frac > 0.0 ==> Shortfall() > 0.0)
      requires var t := Takes(reward, frac, maxFeeRewardFraction, repaymentTakeRate, Shortfall());
        t.0 + t.1 <= base.AvailableBalance()
      modifies this, base
      ensures Valid()
      ensures var t := Takes(reward, frac, maxFeeRewardFraction, old(repaymentTakeRate), old(Shortfall()));
        var repaid := Min(old(base.lease), old(base.AvailableBalance()) - t.0 - t.1);
        base.Snapshot() == old(base.Snapshot()).(
          balance := old(base.balance) - t.0 - repaid, lease := old(base.lease) - repaid,
          pledgeLocked := old(base.pledgeLocked) + t.1, feeBurned := old(base.feeBurned) + t.0) &&
        Shortfall() == old(Shortfall()) - t.1
      ensures pledgeRequired == old(pledgeRequired)
      ensures repaymentTakeRate ==
        (if frac > 0.0 && reward * old(repaymentTakeRate) >= old(Shortfall()) then 0.0 else old(repaymentTakeRate))
      ensures base.lease == 0.0 || base.AvailableBalance() == 0.0
    {
      TakeShares(reward, frac);
      base.RepayLease();
    }

    /** The shortfall-dependent part of receiving a reward, for a shortfall
        fraction `frac`: burns the fee share and locks the repayment share as
        pledge, resetting the take rate when the repayment covers the whole
        shortfall. */
    method TakeShares(reward: real, frac: real)
      requires Valid() && reward >= 0.0 && frac <= 1.0 && (frac > 0.0 ==> Shortfall() > 0.0)
      requires Takes(reward, frac, maxFeeRewardFraction, repaymentTakeRate, Shortfall()).0 <= base.AvailableBalance()
      modifies this, base
      ensures Valid()
      ensures var t := Takes(reward, frac, maxFeeRewardFraction, old(repaymentTakeRate), old(Shortfall()));
        base.Snapshot() == old(base.Snapshot()).(
          balance := old(base.balance) - t.0, pledgeLocked := old(base.pledgeLocked) + t.1,
          feeBurned := old(base.feeBurned) + t.0)
      ensures pledgeRequired == old(pledgeRequired)
      ensures repaymentTakeRate ==
        (if frac > 0.0 && reward * old(repaymentTakeRate) >= old(Shortfall()) then 0.0 else old(repaymentTakeRate))
    {
      ghost var t := Takes(reward, frac, maxFeeRewardFraction, repaymentTakeRate, Shortfall());
      if frac > 0.0 {
        var feeTakeRate := frac * maxFeeRewardFraction;
        var feeAmount := reward * feeTakeRate;
        assert feeAmount == t.0;
        base.BurnFee(feeAmount);
        assert t.1 == Min(reward * repaymentTakeRate, Shortfall());
        LockRepayment(reward);
      }
    }

    /** Locks the repayment share of a reward as pledge: the take rate's
        share, capped at the shortfall, in which case the shortfall is
        repaid and the take rate resets to zero. */
    method LockRepayment(reward: real)
      requires Valid() && reward >= 0.0
      modifies this, base
      ensures Valid()
      ensures base.Snapshot() == old(base.Snapshot()).(
        pledgeLocked := old(base.pledgeLocked) + Min(reward * old(repaymentTakeRate), old(Shortfall())))
      ensures pledgeRequired == old(pledgeRequired)
      ensures repaymentTakeRate ==
        (if reward * old(repaymentTakeRate) >= old(Shortfall()) then 0.0 else old(repaymentTakeRate))
    {
      var shortfall := pledgeRequired - base.pledgeLocked;
      var repaymentAmount := reward * repaymentTakeRate;
      if repaymentAmount >= shortfall {
        repaymentAmount := shortfall;
        repaymentTakeRate := 0.0;
      }
      base.pledgeLocked := base.pledgeLocked + repaymentAmount;
    }

    /** Expires a bunch: its power and required pledge go, and the locked
        pledge is released in proportion, keeping the fraction of the
        requirement that is locked. */
    method HandleExpiration(b: SectorBunch)
      requires pledgeRequired != 0.0
      modifies this, base
      ensures var satisfaction := old(base.pledgeLocked) / old(pledgeRequired);
        base.Snapshot() == old(base.Snapshot()).(
          power := old(base.power) - b.power,
          pledgeLocked := old(base.pledgeLocked) - satisfaction * b.pledge)
      ensures pledgeRequired == old(pledgeRequired) - b.pledge && repaymentTakeRate == old(repaymentTakeRate)
      ensures pledgeRequired != 0.0 ==> base.pledgeLocked / pledgeRequired == old(base.pledgeLocked / pledgeRequired)
      ensures pledgeRequired == 0.0 ==> base.pledgeLocked == 0.0
      ensures old(base.pledgeLocked) <= old(pledgeRequired) && 0.0 <= b.pledge <= old(pledgeRequired)
        ==> base.pledgeLocked <= pledgeRequired
    {
      var pledgeSatisfaction := base.pledgeLocked / pledgeRequired;
      var pledgeToRelease := pledgeSatisfaction * b.pledge;
      ProportionalRelease(base.pledgeLocked, pledgeRequired, b.pledge);
      base.power := base.power - b.power;
      pledgeRequired := pledgeRequired - b.pledge;
      base.pledgeLocked := base.pledgeLocked - pledgeToRelease;
    }

    /** End of an epoch: the base ledger's fee accrual, counters and
        vesting, then the expiring bunches are released proportionally.
        Each release divides by the required pledge left, so it must not be
        used up before the last bunch. */
    method HandleEpoch(net: NetworkState)
      requires Valid() && 0.0 <= net.tokenLeaseFee
      requires var bs := BunchesAt(base.expirations, net.epoch);
        Outlasts(pledgeRequired, bs)
      modifies this, base
      ensures Valid()
      ensures var fee := net.FeeForTokenLease(old(base.lease), 1.0);
        var expiring := BunchesAt(old(base.expirations), net.epoch);
        base.Snapshot() == old(base.Snapshot()).(
          power := old(base.power) - TotalPower(expiring), pledgeLocked := base.pledgeLocked,
          expirations := old(base.expirations) - {net.epoch},
          lease := old(base.lease) + fee, leaseFeeAccrued := old(base.leaseFeeAccrued) + fee,
          epochs := old(base.epochs) + 1, pledgeEpochs := old(base.pledgeEpochs) + old(base.pledgeLocked),
          vestingLocked := old(base.vestingLocked) - AmountAt(old(base.vestingTable), net.epoch),
          vestingTable := old(base.vestingTable) - {net.epoch}) &&
        pledgeRequired == old(pledgeRequired) - TotalPledge(expiring)
      ensures repaymentTakeRate == old(repaymentTakeRate)
    {
      base.AdvanceEpoch(net);
      ExpireBunches(net.epoch);
    }

    /** Removes the bunches expiring at `epoch` and expires each in turn. */
    method ExpireBunches(epoch: int)
      requires Valid()
      requires var bs := BunchesAt(base.expirations, epoch);
        Outlasts(pledgeRequired, bs)
      modifies this, base
      ensures Valid()
      ensures var expiring := BunchesAt(old(base.expirations), epoch);
        base.Snapshot() == old(base.Snapshot()).(
          power := old(base.power) - TotalPower(expiring), pledgeLocked := base.pledgeLocked,
          expirations := old(base.expirations) - {epoch}) &&
        pledgeRequired == old(pledgeRequired) - TotalPledge(expiring)
      ensures repaymentTakeRate == old(repaymentTakeRate)
      ensures old(pledgeRequired) != 0.0 && pledgeRequired != 0.0 ==>
        base.pledgeLocked / pledgeRequired == old(base.pledgeLocked / pledgeRequired)
      ensures BunchesAt(old(base.expirations), epoch) != [] && pledgeRequired == 0.0 ==> base.pledgeLocked == 0.0
    {
      SchedulePop(base.expirations, epoch);
      var expiring := base.PopExpirations(epoch);
      ScheduledNonNegative(base.expirations);
      var power, required, locked := ReleaseExpiring(expiring, base.power, pledgeRequired, base.pledgeLocked);
      base.power, pledgeRequired, base.pledgeLocked := power, required, locked;
    }
  }

  /** The fee and repayment taken from a reward at shortfall fraction
      `frac`: both only while there is a shortfall, the fee in proportion to
      the fraction and the repayment at the take rate, capped at the
      shortfall. Together they never exceed the reward. */
  function Takes(reward: real, frac: real, maxFee: real, rate: real, shortfall: real): (t: (real, real))
    requires reward >= 0.0 && frac <= 1.0 && 0.0 <= maxFee <= 1.0 && 0.0 <= rate <= 1.0 - maxFee
    requires frac > 0.0 ==> shortfall > 0.0
    ensures 0.0 <= t.0 <= reward * maxFee
    ensures 0.0 <= t.1 <= reward * rate && t.1 <= Max(shortfall, 0.0)
    ensures t.0 + t.1 <= reward
    ensures frac <= 0.0 ==> t == (0.0, 0.0)
    ensures frac > 0.0 ==> t.0 == reward * (frac * maxFee) && (t.1 == shortfall <==> reward * rate >= shortfall)
  {
    var fee := FeeShare(reward, frac, maxFee);
    var repaid := RepaymentShare(reward, frac, rate, shortfall);
    SharesWithinReward(reward, maxFee, rate, fee, repaid);
    (fee, repaid)
  }

  /** A fee of at most the maximum fee fraction and a repayment of at most
      the take rate's share, at rates adding up to at most one, take at most
      the reward between them. */
  lemma SharesWithinReward(reward: real, maxFee: real, rate: real, fee: real, repaid: real)
    requires 0.0 <= reward && 0.0 <= maxFee && 0.0 <= rate && maxFee + rate <= 1.0
    requires fee <= reward * maxFee && repaid <= reward * rate
    ensures fee + repaid <= reward
  {
    SharesWithin(reward, maxFee, rate);
    SumWithin(fee, repaid, reward * maxFee, reward * rate, reward);
  }

  /** The fee share of a reward: the maximum fee fraction scaled by the
      shortfall fraction, nothing without a shortfall. */
  function FeeShare(reward: real, frac: real, maxFee: real): (fee: real)
    requires reward >= 0.0 && frac <= 1.0 && 0.0 <= maxFee <= 1.0
    ensures 0.0 <= fee <= reward * maxFee
    ensures frac <= 0.0 ==> fee == 0.0
    ensures frac > 0.0 ==> fee == reward * (frac * maxFee)
  {
    if frac > 0.0 then
      var rate := frac * maxFee;
      FractionWithin(frac, maxFee);
      Scale(reward, 0.0, rate);
      Scale(reward, rate, maxFee);
      reward * rate
    else
      Scale(reward, 0.0, maxFee);
      0.0
  }

  /** The repayment share of a reward: the take rate's share, capped at
      the shortfall, nothing without a shortfall. */
  function RepaymentShare(reward: real, frac: real, rate: real, shortfall: real): (repaid: real)
    requires reward >= 0.0 && 0.0 <= rate && (frac > 0.0 ==> shortfall > 0.0)
    ensures 0.0 <= repaid <= reward * rate && repaid <= Max(shortfall, 0.0)
    ensures frac <= 0.0 ==> repaid == 0.0
    ensures frac > 0.0 ==> (repaid == shortfall <==> reward * rate >= shortfall)
  {
    Scale(reward, 0.0, rate);
    if frac > 0.0 then Min(reward * rate, shortfall) else 0.0
  }

  /** A fraction of a non-negative amount lies between zero and it. */
  lemma FractionWithin(frac: real, x: real)
    requires 0.0 <= frac <= 1.0 && 0.0 <= x
    ensures 0.0 <= frac * x <= x
  {
    MultiplyMonotone(0.0, frac, x);
    MultiplyMonotone(frac, 1.0, x);
    assert 0.0 * x == 0.0 && 1.0 * x == x;
  }

  /** Two non-negative shares of a reward at rates adding up to at most one
      add up to at most the reward. */
  lemma SharesWithin(reward: real, a: real, b: real)
    requires 0.0 <= reward && 0.0 <= a && 0.0 <= b && a + b <= 1.0
    ensures reward * a + reward * b <= reward
  {
    Scale(reward, a + b, 1.0);
    assert reward * 1.0 == reward;
    Distribute(reward, a, b);
  }

  lemma PositiveFactor(a: real, b: real)
    requires a >= 0.0 && a * b > 0.0
    ensures b != 0.0
  {
  }

  /** A take rate at least shortfall / expected repays the shortfall out of
      the expected reward. */
  lemma RateCovers(rate: real, needed: real, shortfall: real, expected: real)
    requires expected > 0.0 && needed == shortfall / expected && rate >= needed
    ensures rate * expected >= shortfall
  {
    DivideMultiply(shortfall, expected);
    MultiplyMonotone(needed, rate, expected);
  }

  /** Releasing a bunch's share of a pledge locked at ratio locked/required
      keeps that ratio for what remains; it releases everything with the
      last of the requirement, and never lifts the lock above it. */
  lemma ProportionalRelease(locked: real, required: real, b: real)
    requires required != 0.0
    ensures var left := locked - locked / required * b;
      (required - b != 0.0 ==> left / (required - b) == locked / required) &&
      (required - b == 0.0 ==> left == 0.0) &&
      (locked <= required && 0.0 <= b <= required ==> left <= required - b)
  {
    if required - b != 0.0 {
      ReleaseKeepsRatio(locked, required, b);
    } else {
      DivideMultiply(locked, required);
    }
    if locked <= required && 0.0 <= b <= required {
      ReleaseWithin(locked, required, b);
    }
  }

  lemma ReleaseKeepsRatio(locked: real, required: real, b: real)
    requires required != 0.0 && required - b != 0.0
    ensures (locked - locked / required * b) / (required - b) == locked / required
  {
    var s := locked / required;
    DivideMultiply(locked, required);
    Subtract(s, required, b);
    DivideCancels(s, required - b);
  }

  lemma ReleaseWithin(locked: real, required: real, b: real)
    requires required != 0.0 && locked <= required && 0.0 <= b <= required
    ensures locked - locked / required * b <= required - b
  {
    var s := locked / required;
    DivideMultiply(locked, required);
    Subtract(s, required, b);
    DivideMonotone(locked, required, required);
    DivideCancels(1.0, required);
    MultiplyMonotone(s, 1.0, required - b);
    assert 1.0 * (required - b) == required - b;
  }

  /** The expiration loop on values: expires each bunch in turn from the
      given power, required pledge and locked pledge, releasing the locked
      pledge in proportion. The required pledge must not run out before the
      last bunch, as the release divides by it. */
  method ReleaseAll(bs: seq<SectorBunch>, power0: int, required0: real, locked0: real, ghost ratio: real)
    returns (power: int, required: real, locked: real)
    requires forall j :: 0 <= j < |bs| ==> NonNegative(bs[j])
    requires TotalPledge(bs) <= required0
    requires Outlasts(required0, bs)
    requires bs != [] ==> locked0 == ratio * required0
    ensures power == power0 - TotalPower(bs) && required == required0 - TotalPledge(bs)
    ensures bs == [] ==> locked == locked0
    ensures bs != [] ==> locked == ratio * required
  {
    power, required, locked := power0, required0, locked0;
    assert bs[..0] == [];
    for i := 0 to |bs|
      invariant power == power0 - TotalPower(bs[..i]) && required == required0 - TotalPledge(bs[..i])
      invariant i == 0 ==> locked == locked0
      invariant bs != [] ==> locked == ratio * required
    {
      power, required, locked := ReleaseStep(bs, i, power0, required0, ratio, power, required, locked);
    }
    assert bs[..|bs|] == bs;
  }

  /** Expires the i-th bunch of the list: what is still required covers it
      and is not yet used up, and afterwards the sums reach one bunch
      further and the lock stays at the ratio. */
  method ReleaseStep(bs: seq<SectorBunch>, i: int, power0: int, required0: real, ghost ratio: real,
                     power: int, required: real, locked: real)
    returns (power': int, required': real, locked': real)
    requires forall j :: 0 <= j < |bs| ==> NonNegative(bs[j])
    requires TotalPledge(bs) <= required0
    requires Outlasts(required0, bs)
    requires 0 <= i < |bs|
    requires power == power0 - TotalPower(bs[..i]) && required == required0 - TotalPledge(bs[..i])
    requires locked == ratio * required
    ensures power' == power0 - TotalPower(bs[..i + 1]) && required' == required0 - TotalPledge(bs[..i + 1])
    ensures locked' == ratio * required'
  {
    ReleaseBound(bs, i, required0, required);
    power' := power - bs[i].power;
    locked', required' := ReleaseOne(ratio, locked, required, bs[i].pledge);
  }

  /** The expiration loop with its outcome stated on the ratio of locked to
      required pledge: unchanged while something is still required, and
      the lock is used up with the requirement; a lock within the
      requirement stays within it. */
  method ReleaseExpiring(bs: seq<SectorBunch>, power0: int, required0: real, locked0: real)
    returns (power: int, required: real, locked: real)
    requires forall j :: 0 <= j < |bs| ==> NonNegative(bs[j])
    requires TotalPledge(bs) <= required0
    requires Outlasts(required0, bs)
    ensures power == power0 - TotalPower(bs) && required == required0 - TotalPledge(bs)
    ensures locked0 <= required0 ==> locked <= required
    ensures required0 != 0.0 && required != 0.0 ==> locked / required == locked0 / required0
    ensures bs != [] && required == 0.0 ==> locked == 0.0
  {
    ghost var ratio := Ratio(locked0, required0);
    if bs != [] {
      PrefixMonotone(bs, 0, |bs| - 1);
      assert bs[..0] == [];
    }
    power, required, locked := ReleaseAll(bs, power0, required0, locked0, ratio);
    RatioKept(ratio, locked0, required0, locked, required, bs != []);
    if bs != [] && locked0 <= required0 {
      RatioWithin(ratio, locked0, required0, required);
    }
  }

  /** A lock within a positive requirement is at a ratio of at most one to
      it, so the same ratio of a smaller non-negative requirement is within
      that requirement. */
  lemma RatioWithin(ratio: real, locked0: real, required0: real, required: real)
    requires 0.0 < required0 && locked0 <= required0 && locked0 == ratio * required0
    requires 0.0 <= required
    ensures ratio * required <= required
  {
    if ratio > 1.0 {
      MultiplyMonotone(1.0, ratio, required0);
      assert false;
    }
    MultiplyMonotone(ratio, 1.0, required);
  }

  /** The required pledge outlasts a list of expiring bunches when it is
      not used up before the last of them: the expiration loop divides by
      what is still required before each bunch. */
  predicate Outlasts(required: real, bs: seq<SectorBunch>)
  {
    bs != [] ==> TotalPledge(bs[..|bs| - 1]) < required
  }

  /** For non-negative bunches the requirement covers, outlasting them is
      the same as what is still required never being zero before a bunch
      expires. */
  lemma OutlastsEveryBunch(required: real, bs: seq<SectorBunch>)
    requires forall j :: 0 <= j < |bs| ==> NonNegative(bs[j])
    requires TotalPledge(bs) <= required
    ensures Outlasts(required, bs) <==> forall i :: 0 <= i < |bs| ==> required - TotalPledge(bs[..i]) != 0.0
  {
    if Outlasts(required, bs) {
      forall i | 0 <= i < |bs|
        ensures required - TotalPledge(bs[..i]) != 0.0
      {
        PrefixMonotone(bs, i, |bs| - 1);
      }
    }
    if bs != [] && !Outlasts(required, bs) {
      var last := |bs| - 1;
      PrefixWithin(bs, last);
      assert required - TotalPledge(bs[..last]) == 0.0;
    }
  }

  /** Before the i-th bunch of an expiring list is released, what is still
      required is non-zero and covers that bunch. */
  lemma ReleaseBound(bs: seq<SectorBunch>, i: int, required0: real, required: real)
    requires forall j :: 0 <= j < |bs| ==> NonNegative(bs[j])
    requires TotalPledge(bs) <= required0
    requires Outlasts(required0, bs)
    requires 0 <= i < |bs| && required == required0 - TotalPledge(bs[..i])
    ensures required != 0.0 && 0.0 <= bs[i].pledge <= required
    ensures required - bs[i].pledge == required0 - TotalPledge(bs[..i + 1])
    ensures TotalPower(bs[..i + 1]) == TotalPower(bs[..i]) + bs[i].power
  {
    PrefixStep(bs, i);
    PrefixWithin(bs, i);
    PrefixMonotone(bs, i, |bs| - 1);
  }

  /** One expiration's arithmetic on values: releases the bunch's share
      `b` of the requirement, and its proportional share of the lock; what is
      left stays at the same ratio of what is still required. */
  method ReleaseOne(ghost ratio: real, locked: real, required: real, b: real)
    returns (left: real, rest: real)
    requires required != 0.0 && locked == ratio * required
    ensures rest == required - b
    ensures left == ratio * rest
  {
    rest := required - b;
    left := locked - locked / required * b;
    DivideCancels(ratio, required);
    assert locked / required == ratio;
    Subtract(ratio, required, b);
  }

  /** The inverse of the minimum lock: while the network's power is at or
      above its baseline, the most nominal pledge the minimum lock for `p`
      can buy is exactly p's initial pledge. */
  lemma MaxPledgeInvertsMinimum(m: RepayRatchetShortfallMinerState, net: NetworkState, p: int, duration: nat)
    requires m.rewardProjectionDecay != 0.0
    requires net.power > 0 && net.power as real >= net.powerBaseline && net.PledgePerUnitShare() != 0.0
    requires m.ShortfallShare(net, duration) != 1.0
    ensures m.MinimumPledge(net, p, duration) == net.InitialPledgeForPower(p) * (1.0 - m.ShortfallShare(net, duration))
    ensures m.MaxPledgeForTokens(net, m.MinimumPledge(net, p, duration), duration) == net.InitialPledgeForPower(p)
  {
    var least, k := m.MinimumPledge(net, p, duration), 1.0 - m.ShortfallShare(net, duration);
    assert m.MaxPledgeForTokens(net, least, duration) == least / k;
    MinimumIsShareOfPledge(m, net, p, duration);
    DivideUndoes(least, net.InitialPledgeForPower(p), k);
  }

  /** The minimum lock is the initial pledge less its shortfall share. */
  lemma MinimumIsShareOfPledge(m: RepayRatchetShortfallMinerState, net: NetworkState, p: int, duration: nat)
    requires m.rewardProjectionDecay != 0.0
    requires net.power > 0 && net.power as real >= net.powerBaseline && net.PledgePerUnitShare() != 0.0
    ensures m.MinimumPledge(net, p, duration) == net.InitialPledgeForPower(p) * (1.0 - m.ShortfallShare(net, duration))
  {
    var dd := MinInt(duration, m.maxRepaymentTerm);
    var decay := m.rewardProjectionDecay;
    PledgeTerms(m, net, p, duration);
    ExpectedRewardProRata(net, p, dd, decay);
    InitialPledgeLinear(net, p);
    ShareOfPledge(net.InitialPledgeForPower(p), net.ExpectedRewardForPower(p, dd, decay), net.power as real, p as real,
                  ProjectedReward(net.epochReward, dd, decay), net.PledgePerUnitShare(), m.maxRepaymentRewardFraction,
                  m.ShortfallShare(net, duration), m.MinimumPledge(net, p, duration));
  }

  /** The minimum lock and the shortfall share spelled out in the
      network's terms. */
  lemma PledgeTerms(m: RepayRatchetShortfallMinerState, net: NetworkState, p: int, duration: nat)
    requires m.rewardProjectionDecay != 0.0 && net.PledgePerUnitShare() != 0.0 && net.PledgeShare() != 0.0
    ensures var dd := MinInt(duration, m.maxRepaymentTerm);
      m.ShortfallShare(net, duration)
        == m.maxRepaymentRewardFraction * ProjectedReward(net.epochReward, dd, m.rewardProjectionDecay)
           / net.PledgePerUnitShare() &&
      m.MinimumPledge(net, p, duration)
        == net.InitialPledgeForPower(p)
           - m.maxRepaymentRewardFraction * net.ExpectedRewardForPower(p, dd, m.rewardProjectionDecay)
  {
  }

  /** The shortfall share of a pledge that is pro rata in power, as the
      expected reward is: a fraction f of the expected reward for p of n
      units of power is the share f * proj / s of the pledge for them. */
  lemma ShareOfPledge(ip: real, e: real, n: real, p: real, proj: real, s: real, f: real, share: real, least: real)
    requires n != 0.0 && s != 0.0
    requires e * n == p * proj && ip * n == p * s
    requires share == f * proj / s && least == ip - f * e
    ensures least == ip * (1.0 - share)
  {
    var q := f * proj / s;
    DivideMultiply(f * proj, s);
    assert q * s == f * proj;
    Subtract(ip, 1.0, q);
    assert ip * 1.0 == ip;
    Associate(ip, q, n);
    Commute(q, n);
    Associate(ip, n, q);
    assert (ip * q) * n == (p * s) * q;
    Associate(p, s, q);
    Commute(s, q);
    assert (p * s) * q == p * (f * proj);
    Associate(p, f, proj);
    Commute(p, f);
    Associate(f, p, proj);
    assert p * (f * proj) == f * (e * n);
    Associate(f, e, n);
    DivideCancels(ip * q, n);
    DivideCancels(f * e, n);
  }
}
