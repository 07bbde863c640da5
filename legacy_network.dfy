/** The older network model of the repository: a plain record of the
    network's epoch, power, baseline, circulating supply and per-epoch
    reward, with the pledge requirement and the expected reward derived
    from it. Nothing in it changes state. */
module LegacyNetwork {
  import opened Consts
  import opened RealFacts

  /** Target share of the circulating supply locked as consensus pledge. */
  const SUPPLY_LOCK_TARGET: real := 0.30
  /** Epochs of expected reward included in the pledge requirement. */
  const INITIAL_PLEDGE_PROJECTION_PERIOD: nat := 20 * DAY

  datatype NetworkState = NetworkState(
    epoch: int, power: int, powerBaseline: int, circulatingSupply: real, epochReward: real)
  {
    /** The consensus pledge divides by the larger of network power and
        baseline, which must be positive; supply, reward and baseline are
        never negative. */
    predicate Valid()
    {
      0 <= powerBaseline && 0.0 <= circulatingSupply && 0.0 <= epochReward &&
      MaxInt(power, powerBaseline) > 0
    }

    /** The power the consensus pledge is shared over. */
    function PledgeShare(): int
    {
      MaxInt(power, powerBaseline)
    }

    /** The initial pledge for an incremental power addition: the reward it
        is expected to earn over the projection period, plus its share of
        the target lock of the circulating supply. */
    function InitialPledgeForPower(p: int): real
      requires PledgeShare() != 0
    {
      var storage := ExpectedRewardForPower(p, INITIAL_PLEDGE_PROJECTION_PERIOD);
      var consensus := circulatingSupply * p as real * SUPPLY_LOCK_TARGET / PledgeShare() as real;
      storage + consensus
    }

    /** The reward a power quantity is expected to earn over `duration`
        epochs: its pro-rata share of the epoch reward, or the whole epoch
        reward (whatever the power and duration) while the network has no
        power. */
    function ExpectedRewardForPower(p: int, duration: int): real
    {
      if power <= 0 then epochReward
      else duration as real * epochReward * p as real / power as real
    }
  }

  function MaxInt(a: int, b: int): int { if a >= b then a else b }

  /** Without network power the expected reward ignores the power and the
      duration asked about: every question gets the epoch reward. */
  lemma ExpectedRewardBootstrap(net: NetworkState, p: int, d: int, q: int, e: int)
    requires net.power <= 0
    ensures net.ExpectedRewardForPower(p, d) == net.ExpectedRewardForPower(q, e) == net.epochReward
  {
  }

  /** With network power, a power quantity expects its pro-rata share of
      the network's reward over the duration. */
  lemma ExpectedRewardProRata(net: NetworkState, p: int, d: int)
    requires net.power > 0
    ensures net.ExpectedRewardForPower(p, d) * net.power as real == p as real * (d as real * net.epochReward)
  {
    var n := net.power as real;
    var x := d as real * net.epochReward * p as real;
    DivideMultiply(x, n);
    Commute(d as real * net.epochReward, p as real);
  }

  /** On a valid network with power, the expected reward of non-negative
      power over a non-negative duration is non-negative and grows with
      the power. */
  lemma ExpectedRewardMonotone(net: NetworkState, p: int, q: int, d: int)
    requires net.Valid() && net.power > 0 && 0 <= p <= q && 0 <= d
    ensures 0.0 <= net.ExpectedRewardForPower(p, d) <= net.ExpectedRewardForPower(q, d)
  {
    var n := net.power as real;
    var rate := d as real * net.epochReward;
    ProductNonNegative(d as real, net.epochReward);
    Scale(rate, 0.0, p as real);
    Scale(rate, p as real, q as real);
    assert rate * 0.0 == 0.0;
    DivideMonotone(0.0, rate * p as real, n);
    DivideMonotone(rate * p as real, rate * q as real, n);
  }

  /** On a valid network with power, the requirement is non-negative and
      grows with the power. */
  lemma InitialPledgeMonotone(net: NetworkState, p: int, q: int)
    requires net.Valid() && net.power > 0 && 0 <= p <= q
    ensures 0.0 <= net.InitialPledgeForPower(p) <= net.InitialPledgeForPower(q)
  {
    ExpectedRewardMonotone(net, p, q, INITIAL_PLEDGE_PROJECTION_PERIOD);
    ConsensusMonotone(net.circulatingSupply, net.PledgeShare() as real, p, q);
  }

  /** While the network has power, adding no power requires no pledge;
      without network power it requires the epoch reward. */
  lemma NoPowerRequirement(net: NetworkState)
    requires net.PledgeShare() != 0
    ensures net.power > 0 ==> net.InitialPledgeForPower(0) == 0.0
    ensures net.power <= 0 ==> net.InitialPledgeForPower(0) == net.epochReward
  {
    var share := net.PledgeShare() as real;
    assert net.circulatingSupply * 0 as real * SUPPLY_LOCK_TARGET == 0.0;
    assert 0.0 / share == 0.0;
  }

  /** The consensus term of the requirement is non-negative and grows with
      the power. */
  lemma ConsensusMonotone(supply: real, share: real, p: int, q: int)
    requires supply >= 0.0 && share > 0.0 && 0 <= p <= q
    ensures 0.0 <= supply * p as real * SUPPLY_LOCK_TARGET / share
                <= supply * q as real * SUPPLY_LOCK_TARGET / share
  {
    Scale(supply, p as real, q as real);
    ProductNonNegative(supply, p as real);
    MultiplyMonotone(supply * p as real, supply * q as real, SUPPLY_LOCK_TARGET);
    ProductNonNegative(supply * p as real, SUPPLY_LOCK_TARGET);
    DivideMonotone(0.0, supply * p as real * SUPPLY_LOCK_TARGET, share);
    DivideMonotone(supply * p as real * SUPPLY_LOCK_TARGET, supply * q as real * SUPPLY_LOCK_TARGET, share);
  }

  /** On a valid network, the requirement for non-negative power is never
      negative, also while the network has no power. */
  lemma InitialPledgeNonNegative(net: NetworkState, p: int)
    requires net.Valid() && 0 <= p
    ensures 0.0 <= net.InitialPledgeForPower(p)
  {
    if net.power > 0 {
      InitialPledgeMonotone(net, p, p);
    } else {
      ConsensusMonotone(net.circulatingSupply, net.PledgeShare() as real, p, p);
    }
  }

  /** While network power is at or above the baseline, the requirement is
      linear in the power: per unit of network power, the projection
      period's reward plus the target lock of the supply. */
  lemma InitialPledgeLinear(net: NetworkState, p: int)
    requires net.power > 0 && net.power >= net.powerBaseline
    ensures net.InitialPledgeForPower(p) * net.power as real
         == p as real * (INITIAL_PLEDGE_PROJECTION_PERIOD as real * net.epochReward
                         + SUPPLY_LOCK_TARGET * net.circulatingSupply)
  {
    var n := net.power as real;
    var storage := net.ExpectedRewardForPower(p, INITIAL_PLEDGE_PROJECTION_PERIOD);
    var k := net.circulatingSupply * p as real * SUPPLY_LOCK_TARGET;
    ExpectedRewardProRata(net, p, INITIAL_PLEDGE_PROJECTION_PERIOD);
    assert net.PledgeShare() as real == n;
    DivideMultiply(k, n);
    DistributeRight(storage, k / n, n);
    Distribute(p as real, INITIAL_PLEDGE_PROJECTION_PERIOD as real * net.epochReward,
               SUPPLY_LOCK_TARGET * net.circulatingSupply);
  }
}
