/** The strict miner of the older miner tree: a token ledger with leasing
    and scheduled power expiration, but no reward vesting, which must lock
    the full initial pledge for every activation. Its ledger operations are
    reused by the older shortfall policies. */
module LegacyBase {
  import opened Consts
  import opened Schedule
  import opened Accounting
  import opened LegacyNetwork
  import opened RealFacts

  /** Every field of the ledger, to state what an operation leaves alone. */
  datatype Ledger = Ledger(
    power: int, balance: real, lease: real, pledgeLocked: real,
    rewardEarned: real, feeBurned: real, leaseFeeAccrued: real,
    expirations: map<int, seq<SectorBunch>>)

  class BaseMinerState {
    var power: int
    var balance: real
    var lease: real
    var pledgeLocked: real
    var rewardEarned: real
    var feeBurned: real
    var leaseFeeAccrued: real
    /** Sector bunches by expiration epoch (absent keys hold no bunch). */
    var expirations: map<int, seq<SectorBunch>>

    ghost function Snapshot(): Ledger
      reads this
    {
      Ledger(power, balance, lease, pledgeLocked, rewardEarned, feeBurned, leaseFeeAccrued, expirations)
    }

    /** Ledger invariant of every miner variant: the lease is never
        negative. */
    ghost predicate Valid()
      reads this
    {
      0.0 <= lease
    }

    /** The strict miner's schedule invariant: every scheduled bunch is
        non-negative, and power and locked pledge are exactly what the
        expiration table still holds. */
    ghost predicate Scheduled()
      reads this
    {
      AllNonNegative(expirations) &&
      power as real == ScheduledPower(expirations) && pledgeLocked == ScheduledPledge(expirations)
    }

    constructor (balance: real)
      ensures Valid() && Scheduled()
      ensures Snapshot() == Ledger(0, balance, 0.0, 0.0, 0.0, 0.0, 0.0, map[])
    {
      power := 0;
      this.balance := balance;
      lease := 0.0;
      pledgeLocked := 0.0;
      rewardEarned := 0.0;
      feeBurned := 0.0;
      leaseFeeAccrued := 0.0;
      expirations := map[];
      new;
      EmptySchedule(expirations);
    }

    /** Balance not committed to pledge. */
    function AvailableBalance(): real
      reads this
    {
      balance - pledgeLocked
    }

    /** Borrows v tokens: balance and lease grow together, so the balance
        net of the lease is unchanged. */
    method Lease(v: real)
      requires v >= 0.0
      modifies this
      ensures Snapshot() == old(Snapshot()).(balance := old(balance) + v, lease := old(lease) + v)
      ensures balance - lease == old(balance - lease)
    {
      balance := balance + v;
      lease := lease + v;
    }

    /** Leases whatever part of `lock` the available balance cannot cover,
        so that afterwards the lock is available. */
    method LeaseForLock(lock: real)
      modifies this
      ensures var leased := Max(lock - old(AvailableBalance()), 0.0);
        Snapshot() == old(Snapshot()).(balance := old(balance) + leased, lease := old(lease) + leased)
      ensures AvailableBalance() >= lock
      ensures AvailableBalance() - lock == Max(old(AvailableBalance()) - lock, 0.0)
    {
      Lease(Max(lock - AvailableBalance(), 0.0));
    }

    /** Pays back v leased tokens out of the available balance. */
    method Repay(v: real)
      requires 0.0 <= v <= lease && v <= AvailableBalance()
      modifies this
      ensures Snapshot() == old(Snapshot()).(balance := old(balance) - v, lease := old(lease) - v)
      ensures 0.0 <= lease && 0.0 <= AvailableBalance()
    {
      balance := balance - v;
      lease := lease - v;
    }

    /** Repays as much of the lease as the available balance allows: either
        the lease is cleared or nothing remains available. */
    method RepayLease()
      requires 0.0 <= lease && 0.0 <= AvailableBalance()
      modifies this
      ensures var repaid := Min(old(lease), old(AvailableBalance()));
        Snapshot() == old(Snapshot()).(balance := old(balance) - repaid, lease := old(lease) - repaid)
      ensures 0.0 <= lease && 0.0 <= AvailableBalance()
      ensures lease == 0.0 || AvailableBalance() == 0.0
    {
      Repay(Min(lease, AvailableBalance()));
    }

    /** Burns a fee of v out of the available balance. */
    method BurnFee(v: real)
      requires 0.0 <= v <= AvailableBalance()
      modifies this
      ensures Snapshot() == old(Snapshot()).(balance := old(balance) - v, feeBurned := old(feeBurned) + v)
      ensures 0.0 <= AvailableBalance()
    {
      balance := balance - v;
      feeBurned := feeBurned + v;
    }

    /** Credits an earned reward to the balance. */
    method EarnReward(v: real)
      requires v >= 0.0
      modifies this
      ensures Snapshot() == old(Snapshot()).(balance := old(balance) + v, rewardEarned := old(rewardEarned) + v)
    {
      balance := balance + v;
      rewardEarned := rewardEarned + v;
    }

    /** Adds a lease fee to the lease obligation. */
    method AccrueLeaseFee(v: real)
      requires v >= 0.0
      modifies this
      ensures Snapshot() == old(Snapshot()).(lease := old(lease) + v, leaseFeeAccrued := old(leaseFeeAccrued) + v)
    {
      lease := lease + v;
      leaseFeeAccrued := leaseFeeAccrued + v;
    }

    /** Removes an expiring bunch's power and its recorded pledge. */
    method HandleExpiration(b: SectorBunch)
      modifies this
      ensures Snapshot() == old(Snapshot()).(power := old(power) - b.power, pledgeLocked := old(pledgeLocked) - b.pledge)
    {
      power := power - b.power;
      pledgeLocked := pledgeLocked - b.pledge;
    }

    /** Activates `power` for `duration` epochs, locking the full pledge
        requirement and leasing whatever the available balance lacks. */
    method ActivateSectors(net: NetworkState, power: nat, duration: int, lock: real) returns (r: Result<(int, real)>)
      requires Valid() && Scheduled()
      requires power % SECTOR_SIZE == 0 && net.Valid()
      modifies this
      ensures Valid() && Scheduled()
      ensures var requirement := net.InitialPledgeForPower(power);
        var leased := Max(requirement - old(AvailableBalance()), 0.0);
        if lock < requirement then
          r == Err(LockBelowMinimum(lock, requirement)) && Snapshot() == old(Snapshot())
        else
          r == Ok((power, requirement)) &&
          Snapshot() == old(Snapshot()).(
            power := old(this.power) + power, balance := old(balance) + leased,
            lease := old(lease) + leased, pledgeLocked := old(pledgeLocked) + requirement,
            expirations := Append(old(expirations), net.epoch + duration, SectorBunch(power, requirement)))
      ensures r.Ok? ==> AvailableBalance() == Max(old(AvailableBalance()) - r.value.1, 0.0)
    {
      var requirement := net.InitialPledgeForPower(power);
      var resolved := ResolveStrictLock(lock, requirement);
      if resolved.Err? {
        return Err(resolved.error);
      }
      var locked := resolved.value;
      InitialPledgeNonNegative(net, power);
      AppendNonNegative(expirations, net.epoch + duration, SectorBunch(power, requirement));
      AddSectors(power, requirement, locked, net.epoch + duration);
      r := Ok((power, locked));
    }

    /** The ledger part of an activation: the power and locked pledge grow,
        the bunch (with its full requirement) is scheduled at its
        expiration, and whatever the lock lacks is leased. */
    method AddSectors(power: nat, requirement: real, locked: real, expiration: int)
      requires Valid()
      modifies this
      ensures Valid()
      ensures var leased := Max(locked - old(AvailableBalance()), 0.0);
        Snapshot() == old(Snapshot()).(
          power := old(this.power) + power, balance := old(balance) + leased,
          lease := old(lease) + leased, pledgeLocked := old(pledgeLocked) + locked,
          expirations := Append(old(expirations), expiration, SectorBunch(power, requirement)))
      ensures AvailableBalance() == Max(old(AvailableBalance()) - locked, 0.0)
      ensures ScheduledPower(expirations) == old(ScheduledPower(expirations)) + power as real
      ensures ScheduledPledge(expirations) == old(ScheduledPledge(expirations)) + requirement
    {
      LeaseForLock(locked);
      this.power := this.power + power;
      pledgeLocked := pledgeLocked + locked;
      var bunch := SectorBunch(power, requirement);
      ScheduleAppend(expirations, expiration, bunch);
      expirations := Append(expirations, expiration, bunch);
    }

    /** Earns a reward (none of it vests), then repays as much of the lease
        as possible. */
    method ReceiveReward(net: NetworkState, reward: real)
      requires Valid() && reward >= 0.0 && AvailableBalance() + reward >= 0.0
      modifies this
      ensures Valid()
      ensures var repaid := Min(old(lease), old(AvailableBalance()) + reward);
        Snapshot() == old(Snapshot()).(
          balance := old(balance) + reward - repaid, lease := old(lease) - repaid,
          rewardEarned := old(rewardEarned) + reward)
      ensures 0.0 <= AvailableBalance() && (lease == 0.0 || AvailableBalance() == 0.0)
    {
      EarnReward(reward);
      RepayLease();
    }

    /** End of an epoch: the lease accrues one epoch's fee, then the power
        scheduled to expire now is expired. The fee is a parameter: the
        network of this tree has no lease-fee rule. */
    method HandleEpoch(net: NetworkState, fee: real)
      requires Valid() && Scheduled() && fee >= 0.0
      modifies this
      ensures Valid() && Scheduled()
      ensures var expiring := BunchesAt(old(expirations), net.epoch);
        Snapshot() == old(Snapshot()).(
          power := old(power) - TotalPower(expiring), pledgeLocked := old(pledgeLocked) - TotalPledge(expiring),
          expirations := old(expirations) - {net.epoch},
          lease := old(lease) + fee, leaseFeeAccrued := old(leaseFeeAccrued) + fee)
      ensures BunchesAt(expirations, net.epoch) == []
      ensures old(expirations).Keys <= {net.epoch} ==> power == 0 && pledgeLocked == 0.0
      ensures old(AvailableBalance()) <= AvailableBalance()
    {
      AccrueLeaseFee(fee);
      PopNonNegative(expirations, net.epoch);
      SchedulePop(expirations, net.epoch);
      var expiring := PopExpirations(net.epoch);
      ExpireAll(expiring);
      if old(expirations).Keys <= {net.epoch} {
        assert expirations == map[];
        EmptySchedule(expirations);
      }
    }

    /** Removes and returns the bunches expiring at `epoch`. */
    method PopExpirations(epoch: int) returns (bs: seq<SectorBunch>)
      modifies this
      ensures bs == BunchesAt(old(expirations), epoch)
      ensures Snapshot() == old(Snapshot()).(expirations := old(expirations) - {epoch})
    {
      bs := BunchesAt(expirations, epoch);
      expirations := expirations - {epoch};
    }

    /** Expires each bunch of a list in turn. */
    method ExpireAll(expiring: seq<SectorBunch>)
      modifies this
      ensures Snapshot() == old(Snapshot()).(
        power := old(power) - TotalPower(expiring), pledgeLocked := old(pledgeLocked) - TotalPledge(expiring))
    {
      ghost var power0, locked0 := power, pledgeLocked;
      ghost var s0 := Snapshot();
      for i := 0 to |expiring|
        invariant power == power0 - TotalPower(expiring[..i])
        invariant pledgeLocked == locked0 - TotalPledge(expiring[..i])
        invariant Snapshot() == s0.(power := power, pledgeLocked := pledgeLocked)
      {
        assert expiring[..i + 1][..i] == expiring[..i];
        HandleExpiration(expiring[i]);
      }
      assert expiring[..|expiring|] == expiring;
    }
  }
}
