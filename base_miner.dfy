/** The strict miner of the shortfall tree: a token ledger with leasing,
    reward vesting and scheduled power expiration, which must lock the full
    initial pledge for every activation. Its ledger operations are reused by
    the shortfall policies. */
module ShortfallBase {
  import opened Consts
  import opened Schedule
  import opened Accounting
  import opened ShortfallNetwork
  import opened RealFacts

  /** Fraction of an earned reward that is immediately available. */
  const AVAILABLE_REWARD_SHARE: real := 0.25
  /** Fraction of an earned reward that vests. */
  const VEST_REWARD_SHARE: real := 1.0 - AVAILABLE_REWARD_SHARE
  /** Epochs between vesting chunks. */
  const VESTING_INTERVAL: nat := 2800
  /** Number of chunks a reward vests in. */
  const VESTING_PERIOD_INTERVALS: nat := 180

  /** The first vesting epoch for a reward earned at `epoch`: the smallest
      multiple of the vesting interval strictly after it. */
  function FirstVestingEpoch(epoch: int): (e: int)
    ensures epoch < e <= epoch + VESTING_INTERVAL
    ensures e % VESTING_INTERVAL == 0
  {
    (epoch / VESTING_INTERVAL) * VESTING_INTERVAL + VESTING_INTERVAL
  }

  /** Whether k is among the first `count` vesting epochs of a reward earned
      at `epoch` (the first vesting epoch and every interval after it). */
  predicate IsVestingEpoch(epoch: int, k: int, count: nat)
  {
    var d := k - FirstVestingEpoch(epoch);
    0 <= d && d % VESTING_INTERVAL == 0 && d / VESTING_INTERVAL < count
  }

  /** Every vesting epoch is an interval boundary after the earning epoch,
      and the last of `count` chunks vests within `count` intervals of it. */
  lemma VestingEpochsFollowEarning(epoch: int, k: int, count: nat)
    requires IsVestingEpoch(epoch, k, count)
    ensures epoch < k <= epoch + count * VESTING_INTERVAL
    ensures k % VESTING_INTERVAL == 0
  {
    var d := k - FirstVestingEpoch(epoch);
    assert d == (d / VESTING_INTERVAL) * VESTING_INTERVAL;
  }

  /** How a vesting table changes when a reward v earned at `epoch` vests:
      each of its vesting epochs gains an equal chunk of the vesting share,
      and no other entry changes. */
  ghost predicate VestsOver(before: map<int, real>, after: map<int, real>, epoch: int, v: real)
  {
    (forall k :: k in after <==> k in before || (v > 0.0 && IsVestingEpoch(epoch, k, VESTING_PERIOD_INTERVALS))) &&
    (forall k :: AmountAt(after, k) == AmountAt(before, k) +
      (if v > 0.0 && IsVestingEpoch(epoch, k, VESTING_PERIOD_INTERVALS)
       then v * VEST_REWARD_SHARE / VESTING_PERIOD_INTERVALS as real else 0.0))
  }

  /** Every field of the ledger, to state what an operation leaves alone. */
  datatype Ledger = Ledger(
    power: int, balance: real, lease: real, pledgeLocked: real, vestingLocked: real,
    vestingTable: map<int, real>, rewardEarned: real, feeBurned: real, leaseFeeAccrued: real,
    epochs: int, pledgeEpochs: real, expirations: map<int, seq<SectorBunch>>)

  class BaseMinerState {
    var power: int
    var balance: real
    var lease: real
    var pledgeLocked: real
    var vestingLocked: real
    /** Vesting amounts by epoch (absent keys hold 0). */
    var vestingTable: map<int, real>
    var rewardEarned: real
    var feeBurned: real
    var leaseFeeAccrued: real
    var epochs: int
    var pledgeEpochs: real
    /** Sector bunches by expiration epoch (absent keys hold no bunch). */
    var expirations: map<int, seq<SectorBunch>>

    ghost function Snapshot(): Ledger
      reads this
    {
      Ledger(power, balance, lease, pledgeLocked, vestingLocked, vestingTable, rewardEarned,
        feeBurned, leaseFeeAccrued, epochs, pledgeEpochs, expirations)
    }

    /** Ledger invariant of every miner variant: the lease is never negative
        and the vesting total is the sum of the vesting table, whose entries
        are non-negative. */
    ghost predicate Valid()
      reads this
    {
      0.0 <= lease &&
      vestingLocked == VestingSum(vestingTable) &&
      (forall e :: e in vestingTable ==> vestingTable[e] >= 0.0)
    }

    /** The strict miner's schedule invariant: every scheduled bunch is
        non-negative, and power and locked pledge are exactly what the
        expiration table still holds. */
    ghost predicate Scheduled()
      reads this
    {
      AllNonNegative(expirations) &&
      power as real == ScheduledPower(expirations) && pledgeLocked == ScheduledPledge(expirations)
    }

    constructor (balance: real)
      ensures Valid() && Scheduled()
      ensures Snapshot() == Ledger(0, balance, 0.0, 0.0, 0.0, map[], 0.0, 0.0, 0.0, 0, 0.0, map[])
    {
      power := 0;
      this.balance := balance;
      lease := 0.0;
      pledgeLocked := 0.0;
      vestingLocked := 0.0;
      vestingTable := map[];
      rewardEarned := 0.0;
      feeBurned := 0.0;
      leaseFeeAccrued := 0.0;
      epochs := 0;
      pledgeEpochs := 0.0;
      expirations := map[];
      new;
      EmptySchedule(expirations);
    }

    /** Balance not committed to pledge or vesting. */
    function AvailableBalance(): real
      reads this
    {
      balance - (pledgeLocked + vestingLocked)
    }

    /** The strict miner takes no shortfall: a lock buys exactly that much
        nominal pledge. */
    function MaxPledgeForTokens(net: NetworkState, availableLock: real, duration: nat): real
    {
      availableLock
    }

    /** Borrows v tokens: balance and lease grow together. */
    method Lease(v: real)
      requires v >= 0.0
      modifies this
      ensures Snapshot() == old(Snapshot()).(balance := old(balance) + v, lease := old(lease) + v)
    {
      balance := balance + v;
      lease := lease + v;
    }

    /** Leases whatever part of `lock` the available balance cannot cover,
        so that afterwards the lock is available. */
    method LeaseForLock(lock: real)
      modifies this
      ensures var leased := Max(lock - old(AvailableBalance()), 0.0);
        Snapshot() == old(Snapshot()).(balance := old(balance) + leased, lease := old(lease) + leased)
      ensures AvailableBalance() >= lock
      ensures AvailableBalance() - lock == Max(old(AvailableBalance()) - lock, 0.0)
    {
      Lease(Max(lock - AvailableBalance(), 0.0));
    }

    /** Pays back v leased tokens out of the available balance. */
    method Repay(v: real)
      requires 0.0 <= v <= lease && v <= AvailableBalance()
      modifies this
      ensures Snapshot() == old(Snapshot()).(balance := old(balance) - v, lease := old(lease) - v)
    {
      balance := balance - v;
      lease := lease - v;
    }

    /** Repays as much of the lease as the available balance allows: either
        the lease is cleared or nothing remains available. */
    method RepayLease()
      requires 0.0 <= lease && 0.0 <= AvailableBalance()
      modifies this
      ensures var repaid := Min(old(lease), old(AvailableBalance()));
        Snapshot() == old(Snapshot()).(balance := old(balance) - repaid, lease := old(lease) - repaid)
      ensures 0.0 <= lease && 0.0 <= AvailableBalance()
      ensures lease == 0.0 || AvailableBalance() == 0.0
    {
      Repay(Min(lease, AvailableBalance()));
    }

    /** Burns a fee of v out of the available balance. */
    method BurnFee(v: real)
      requires 0.0 <= v <= AvailableBalance()
      modifies this
      ensures Snapshot() == old(Snapshot()).(balance := old(balance) - v, feeBurned := old(feeBurned) + v)
    {
      balance := balance - v;
      feeBurned := feeBurned + v;
    }

    /** Credits an earned reward to the balance. */
    method EarnReward(v: real)
      requires v >= 0.0
      modifies this
      ensures Snapshot() == old(Snapshot()).(balance := old(balance) + v, rewardEarned := old(rewardEarned) + v)
    {
      balance := balance + v;
      rewardEarned := rewardEarned + v;
    }

    /** Adds a lease fee to the lease obligation. */
    method AccrueLeaseFee(v: real)
      requires v >= 0.0
      modifies this
      ensures Snapshot() == old(Snapshot()).(lease := old(lease) + v, leaseFeeAccrued := old(leaseFeeAccrued) + v)
    {
      lease := lease + v;
      leaseFeeAccrued := leaseFeeAccrued + v;
    }

    /** Locks the vesting share of an earned reward v in equal chunks at the
        next VESTING_PERIOD_INTERVALS interval boundaries after `epoch`, and
        returns the share that is available at once. */
    method VestReward(epoch: int, v: real) returns (availableReward: real)
      requires Valid() && v >= 0.0
      modifies this
      ensures Valid()
      ensures availableReward == v * AVAILABLE_REWARD_SHARE
      ensures vestingLocked == old(vestingLocked) + v * VEST_REWARD_SHARE
      ensures VestsOver(old(vestingTable), vestingTable, epoch, v)
      ensures Snapshot() == old(Snapshot()).(vestingLocked := vestingLocked, vestingTable := vestingTable)
    {
      availableReward := v * AVAILABLE_REWARD_SHARE;
      var vestingReward := v - availableReward;
      vestingLocked := vestingLocked + vestingReward;
      vestingTable := SpreadVesting(vestingTable, epoch, vestingReward);
    }

    /** Releases a vested amount from the vesting lock. */
    method HandleVest(vested: real)
      modifies this
      ensures Snapshot() == old(Snapshot()).(vestingLocked := old(vestingLocked) - vested)
    {
      vestingLocked := vestingLocked - vested;
    }

    /** Removes an expiring bunch's power and its recorded pledge. */
    method HandleExpiration(b: SectorBunch)
      modifies this
      ensures Snapshot() == old(Snapshot()).(power := old(power) - b.power, pledgeLocked := old(pledgeLocked) - b.pledge)
    {
      power := power - b.power;
      pledgeLocked := pledgeLocked - b.pledge;
    }

    /** Activates `power` for `duration` epochs, locking the full pledge
        requirement and leasing whatever the available balance lacks. */
    method ActivateSectors(net: NetworkState, power: nat, duration: nat, lock: real) returns (r: Result<(int, real)>)
      requires Valid() && Scheduled()
      requires power % SECTOR_SIZE == 0 && net.Valid()
      modifies this
      ensures Valid() && Scheduled()
      ensures var requirement := net.InitialPledgeForPower(power);
        var leased := Max(requirement - old(AvailableBalance()), 0.0);
        if lock < requirement then
          r == Err(LockBelowMinimum(lock, requirement)) && Snapshot() == old(Snapshot())
        else
          r == Ok((power, requirement)) &&
          Snapshot() == old(Snapshot()).(
            power := old(this.power) + power, balance := old(balance) + leased,
            lease := old(lease) + leased, pledgeLocked := old(pledgeLocked) + requirement,
            expirations := Append(old(expirations), net.epoch + duration, SectorBunch(power, requirement)))
      ensures r.Ok? ==> AvailableBalance() == Max(old(AvailableBalance()) - r.value.1, 0.0)
    {
      var requirement := net.InitialPledgeForPower(power);
      var resolved := ResolveStrictLock(lock, requirement);
      if resolved.Err? {
        return Err(resolved.error);
      }
      var locked := resolved.value;
      InitialPledgeMonotone(net, 0, power);
      AppendNonNegative(expirations, net.epoch + duration, SectorBunch(power, requirement));
      AddSectors(power, requirement, locked, net.epoch + duration);
      r := Ok((power, locked));
    }

    /** The ledger part of an activation: the power and locked pledge grow,
        the bunch (with its full requirement) is scheduled at its
        expiration, and whatever the lock lacks is leased. */
    method AddSectors(power: nat, requirement: real, locked: real, expiration: int)
      requires Valid()
      modifies this
      ensures Valid()
      ensures var leased := Max(locked - old(AvailableBalance()), 0.0);
        Snapshot() == old(Snapshot()).(
          power := old(this.power) + power, balance := old(balance) + leased,
          lease := old(lease) + leased, pledgeLocked := old(pledgeLocked) + locked,
          expirations := Append(old(expirations), expiration, SectorBunch(power, requirement)))
      ensures AvailableBalance() == Max(old(AvailableBalance()) - locked, 0.0)
      ensures ScheduledPower(expirations) == old(ScheduledPower(expirations)) + power as real
      ensures ScheduledPledge(expirations) == old(ScheduledPledge(expirations)) + requirement
    {
      LeaseForLock(locked);
      this.power := this.power + power;
      pledgeLocked := pledgeLocked + locked;
      var bunch := SectorBunch(power, requirement);
      ScheduleAppend(expirations, expiration, bunch);
      expirations := Append(expirations, expiration, bunch);
    }

    /** Earns a reward: a quarter is available at once and the rest vests;
        then as much of the lease as possible is repaid. */
    method ReceiveReward(net: NetworkState, reward: real)
      requires Valid() && Scheduled()
      requires reward >= 0.0 && AvailableBalance() + reward * AVAILABLE_REWARD_SHARE >= 0.0
      modifies this
      ensures Valid() && Scheduled()
      ensures var repaid := Min(old(lease), old(AvailableBalance()) + reward * AVAILABLE_REWARD_SHARE);
        Snapshot() == old(Snapshot()).(
          balance := old(balance) + reward - repaid, lease := old(lease) - repaid,
          rewardEarned := old(rewardEarned) + reward,
          vestingLocked := old(vestingLocked) + reward * VEST_REWARD_SHARE, vestingTable := vestingTable)
      ensures VestsOver(old(vestingTable), vestingTable, net.epoch, reward)
      ensures 0.0 <= AvailableBalance() && (lease == 0.0 || AvailableBalance() == 0.0)
    {
      EarnReward(reward);
      var _ := VestReward(net.epoch, reward);
      RepayLease();
    }

    /** First steps of the end of an epoch: the lease accrues one epoch's
        fee, and the epoch and pledge-epoch counters advance. */
    method BeginEpoch(net: NetworkState)
      requires 0.0 <= lease && 0.0 <= net.tokenLeaseFee
      modifies this
      ensures var fee := net.FeeForTokenLease(old(lease), 1.0);
        fee >= 0.0 &&
        Snapshot() == old(Snapshot()).(
          lease := old(lease) + fee, leaseFeeAccrued := old(leaseFeeAccrued) + fee,
          epochs := old(epochs) + 1, pledgeEpochs := old(pledgeEpochs) + old(pledgeLocked))
    {
      var fee := net.FeeForTokenLease(lease, 1.0);
      LeaseFeeAdditive(net, lease, 0.0, 1.0, 0.0);
      AccrueLeaseFee(fee);
      epochs := epochs + 1;
      pledgeEpochs := pledgeEpochs + pledgeLocked;
    }

    /** Removes and returns the bunches expiring at `epoch`. */
    method PopExpirations(epoch: int) returns (bs: seq<SectorBunch>)
      modifies this
      ensures bs == BunchesAt(old(expirations), epoch)
      ensures Snapshot() == old(Snapshot()).(expirations := old(expirations) - {epoch})
    {
      bs := BunchesAt(expirations, epoch);
      expirations := expirations - {epoch};
    }

    /** Releases the vesting scheduled at `epoch` and removes its entry. */
    method SettleVesting(epoch: int)
      requires Valid()
      modifies this
      ensures Valid()
      ensures Snapshot() == old(Snapshot()).(
        vestingLocked := old(vestingLocked) - AmountAt(old(vestingTable), epoch),
        vestingTable := old(vestingTable) - {epoch})
    {
      var vestingNow := AmountAt(vestingTable, epoch);
      VestingPop(vestingTable, epoch);
      vestingTable := vestingTable - {epoch};
      if vestingNow > 0.0 {
        HandleVest(vestingNow);
      }
    }

    /** The epoch bookkeeping every policy shares: accrue one epoch's lease
        fee, count the epoch and its locked pledge, and release the vesting
        due now. Expiring power touches none of these fields, so the
        policies may expire their bunches after it. */
    method AdvanceEpoch(net: NetworkState)
      requires Valid() && 0.0 <= net.tokenLeaseFee
      modifies this
      ensures Valid()
      ensures var fee := net.FeeForTokenLease(old(lease), 1.0);
        fee >= 0.0 &&
        Snapshot() == old(Snapshot()).(
          lease := old(lease) + fee, leaseFeeAccrued := old(leaseFeeAccrued) + fee,
          epochs := old(epochs) + 1, pledgeEpochs := old(pledgeEpochs) + old(pledgeLocked),
          vestingLocked := old(vestingLocked) - AmountAt(old(vestingTable), net.epoch),
          vestingTable := old(vestingTable) - {net.epoch})
    {
      BeginEpoch(net);
      SettleVesting(net.epoch);
    }

    /** End of an epoch: accrue the lease fee, count the epoch, expire the
        power scheduled now and release the vesting due now. */
    method HandleEpoch(net: NetworkState)
      requires Valid() && Scheduled() && 0.0 <= net.tokenLeaseFee
      modifies this
      ensures Valid() && Scheduled()
      ensures var fee := net.FeeForTokenLease(old(lease), 1.0);
        var expiring := BunchesAt(old(expirations), net.epoch);
        Snapshot() == old(Snapshot()).(
          power := old(power) - TotalPower(expiring), pledgeLocked := old(pledgeLocked) - TotalPledge(expiring),
          expirations := old(expirations) - {net.epoch},
          lease := old(lease) + fee, leaseFeeAccrued := old(leaseFeeAccrued) + fee,
          epochs := old(epochs) + 1, pledgeEpochs := old(pledgeEpochs) + old(pledgeLocked),
          vestingLocked := old(vestingLocked) - AmountAt(old(vestingTable), net.epoch),
          vestingTable := old(vestingTable) - {net.epoch})
      ensures net.epoch !in expirations && net.epoch !in vestingTable
      ensures old(expirations).Keys <= {net.epoch} ==> power == 0 && pledgeLocked == 0.0
      ensures old(AvailableBalance()) <= AvailableBalance()
    {
      AdvanceEpoch(net);
      PopNonNegative(expirations, net.epoch);
      SchedulePop(expirations, net.epoch);
      var expiring := PopExpirations(net.epoch);
      ExpireAll(expiring);
      if old(expirations).Keys <= {net.epoch} {
        assert expirations == map[];
        EmptySchedule(expirations);
      }
    }

    /** Expires each bunch of a list in turn. */
    method ExpireAll(expiring: seq<SectorBunch>)
      modifies this
      ensures Snapshot() == old(Snapshot()).(
        power := old(power) - TotalPower(expiring), pledgeLocked := old(pledgeLocked) - TotalPledge(expiring))
    {
      ghost var power0, locked0 := power, pledgeLocked;
      ghost var s0 := Snapshot();
      for i := 0 to |expiring|
        invariant power == power0 - TotalPower(expiring[..i])
        invariant pledgeLocked == locked0 - TotalPledge(expiring[..i])
        invariant Snapshot() == s0.(power := power, pledgeLocked := pledgeLocked)
      {
        assert expiring[..i + 1][..i] == expiring[..i];
        HandleExpiration(expiring[i]);
      }
      assert expiring[..|expiring|] == expiring;
    }
  }

  /** The vesting loop: places equal chunks of `vestingReward`, one per
      vesting interval from the first vesting epoch after `epoch`, while any
      of it remains; the table's total grows by exactly `vestingReward`. */
  method SpreadVesting(table0: map<int, real>, epoch: int, vestingReward: real) returns (table: map<int, real>)
    requires vestingReward >= 0.0
    requires forall k :: k in table0 ==> table0[k] >= 0.0
    ensures ChunksPlaced(table0, table, epoch, if vestingReward > 0.0 then VESTING_PERIOD_INTERVALS else 0,
      vestingReward / VESTING_PERIOD_INTERVALS as real)
    ensures VestingSum(table) == VestingSum(table0) + vestingReward
  {
    var remaining := vestingReward;
    var eachVest := remaining / VESTING_PERIOD_INTERVALS as real;
    var e := FirstVestingEpoch(epoch);
    ghost var n: nat := 0;
    table := table0;
    while remaining > 0.0
      invariant n <= VESTING_PERIOD_INTERVALS
      invariant eachVest >= 0.0 && (eachVest == 0.0 ==> n == 0)
      invariant remaining == vestingReward - Placed(n, eachVest)
      invariant e == FirstVestingEpoch(epoch) + n * VESTING_INTERVAL
      invariant ChunksPlaced(table0, table, epoch, n, eachVest)
      invariant VestingSum(table) == VestingSum(table0) + Placed(n, eachVest)
      decreases VESTING_PERIOD_INTERVALS - n
    {
      ChunkCount(vestingReward, n, remaining);
      var vestAmount := Min(eachVest, remaining);
      VestingAdd(table, e, vestAmount);
      PlaceChunk(table0, table, epoch, n, eachVest);
      table := table[e := AmountAt(table, e) + vestAmount];
      remaining := remaining - vestAmount;
      e := e + VESTING_INTERVAL;
      n := n + 1;
    }
    if eachVest > 0.0 {
      ChunksExhausted(vestingReward, n, remaining);
    }
  }

  /** What n chunks of size `each` add up to. */
  ghost function Placed(n: nat, each: real): real
  {
    if n == 0 then 0.0 else Placed(n - 1, each) + each
  }

  lemma {:induction false} PlacedIsProduct(n: nat, each: real)
    ensures Placed(n, each) == n as real * each
  {
    if n > 0 {
      PlacedIsProduct(n - 1, each);
      assert n as real * each == (n - 1) as real * each + each;
    }
  }

  /** What is left to place after n chunks is the product of the chunks
      still to come and the chunk size. */
  lemma ChunksLeft(vestingReward: real, n: nat, remaining: real)
    requires n <= VESTING_PERIOD_INTERVALS
    requires remaining == vestingReward - Placed(n, vestingReward / VESTING_PERIOD_INTERVALS as real)
    ensures remaining == (VESTING_PERIOD_INTERVALS - n) as real * (vestingReward / VESTING_PERIOD_INTERVALS as real)
  {
    var each := vestingReward / VESTING_PERIOD_INTERVALS as real;
    PlacedIsProduct(n, each);
    DivideMultiply(vestingReward, VESTING_PERIOD_INTERVALS as real);
    SubtractRight(VESTING_PERIOD_INTERVALS as real, n as real, each);
    Commute(each, VESTING_PERIOD_INTERVALS as real);
  }

  /** While some of the reward is still to be placed, a whole chunk is. */
  lemma ChunkCount(vestingReward: real, n: nat, remaining: real)
    requires vestingReward >= 0.0 && n <= VESTING_PERIOD_INTERVALS
    requires remaining == vestingReward - Placed(n, vestingReward / VESTING_PERIOD_INTERVALS as real)
    requires remaining > 0.0
    ensures n < VESTING_PERIOD_INTERVALS && remaining >= vestingReward / VESTING_PERIOD_INTERVALS as real
  {
    ChunksLeft(vestingReward, n, remaining);
    DivideNonNegative(vestingReward, VESTING_PERIOD_INTERVALS as real);
    WholeMultiple(VESTING_PERIOD_INTERVALS - n, vestingReward / VESTING_PERIOD_INTERVALS as real, remaining);
  }

  /** Once nothing is left to place, every one of the chunks was placed. */
  lemma ChunksExhausted(vestingReward: real, n: nat, remaining: real)
    requires vestingReward > 0.0 && n <= VESTING_PERIOD_INTERVALS
    requires remaining == vestingReward - Placed(n, vestingReward / VESTING_PERIOD_INTERVALS as real)
    requires remaining <= 0.0
    ensures n == VESTING_PERIOD_INTERVALS && remaining == 0.0
  {
    ChunksLeft(vestingReward, n, remaining);
    DividePositive(vestingReward, VESTING_PERIOD_INTERVALS as real);
    WholeMultiple(VESTING_PERIOD_INTERVALS - n, vestingReward / VESTING_PERIOD_INTERVALS as real, remaining);
  }

  /** A whole number k of non-negative chunks: positive only with at least
      one chunk, and then at least a chunk; with positive chunks, nothing
      only when k is zero. */
  lemma WholeMultiple(k: int, each: real, remaining: real)
    requires k >= 0 && each >= 0.0 && remaining == k as real * each
    ensures remaining > 0.0 ==> k >= 1 && remaining >= each
    ensures each > 0.0 && remaining <= 0.0 ==> k == 0 && remaining == 0.0
  {
    ProductSign(k as real, each);
  }

  /** `after` is `before` with one chunk added at each of the first n
      vesting epochs of a reward earned at `epoch`. */
  ghost predicate ChunksPlaced(before: map<int, real>, after: map<int, real>, epoch: int, n: nat, each: real)
  {
    (forall k :: k in after <==> k in before || IsVestingEpoch(epoch, k, n)) &&
    (forall k :: AmountAt(after, k) == AmountAt(before, k) + (if IsVestingEpoch(epoch, k, n) then each else 0.0)) &&
    (forall k :: k in after ==> after[k] >= 0.0)
  }

  /** Placing the next chunk extends the placed chunks by one. */
  lemma PlaceChunk(before: map<int, real>, after: map<int, real>, epoch: int, n: nat, each: real)
    requires ChunksPlaced(before, after, epoch, n, each) && each >= 0.0
    ensures var e := FirstVestingEpoch(epoch) + n * VESTING_INTERVAL;
      ChunksPlaced(before, after[e := AmountAt(after, e) + each], epoch, n + 1, each)
  {
    NextVestingEpoch(epoch, n);
  }

  /** The vesting epochs of n + 1 chunks are those of n chunks plus one more
      interval boundary. */
  lemma NextVestingEpoch(epoch: int, n: nat)
    ensures forall k :: IsVestingEpoch(epoch, k, n + 1) <==>
      IsVestingEpoch(epoch, k, n) || k == FirstVestingEpoch(epoch) + n * VESTING_INTERVAL
    ensures !IsVestingEpoch(epoch, FirstVestingEpoch(epoch) + n * VESTING_INTERVAL, n)
  {
  }
}
