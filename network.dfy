/** The network economic model of the shortfall tree: reward decay, the
    initial-pledge requirement and its inverse, reward projections and the
    token-lease fee. */
module ShortfallNetwork {
  import opened Consts
  import opened RealFacts

  /** Target fraction of circulating supply locked as consensus pledge. */
  const SUPPLY_LOCK_TARGET: real := 0.30

  /** Epochs of projected reward that make up the storage part of a pledge. */
  const INITIAL_PLEDGE_PROJECTION_PERIOD: nat := 20 * DAY

  /** Per-epoch reward decay, 1 - exp(ln(1/2) / (6 * YEAR)): rewards halve
      every six years. Rational approximation of the floating-point value. */
  const REWARD_DECAY: real := 0.00000010989775856007356

  /** Per-epoch baseline growth, exp(ln 3 / YEAR) - 1: the baseline triples
      every year. Rational approximation of the floating-point value. */
  const BASELINE_GROWTH: real := 0.0000010451035603598058

  function Pow(x: real, n: nat): real
  {
    if n == 0 then 1.0 else x * Pow(x, n - 1)
  }

  /** Reference definition: q^0 + q^1 + ... + q^d. */
  function GeometricSum(q: real, d: nat): real
  {
    if d == 0 then 1.0 else GeometricSum(q, d - 1) + Pow(q, d)
  }

  /** The closed form the network uses for the sum of (1 - decay)^x over
      x in 0..duration. */
  function SumOverExponentialDecay(duration: nat, decay: real): real
    requires decay != 0.0
  {
    (1.0 - Pow(1.0 - decay, duration) + decay * Pow(1.0 - decay, duration)) / decay
  }

  /** Telescoping: (1 - q) times q^0 + ... + q^d is 1 - q^(d + 1). */
  lemma {:induction false} GeometricSumTelescopes(q: real, d: nat)
    ensures GeometricSum(q, d) * (1.0 - q) == 1.0 - q * Pow(q, d)
  {
    if d > 0 {
      GeometricSumTelescopes(q, d - 1);
      var g, p := GeometricSum(q, d - 1), Pow(q, d);
      assert p == q * Pow(q, d - 1);
      DistributeRight(g, p, 1.0 - q);
      Subtract(p, 1.0, q);
      Commute(p, q);
    }
  }

  /** The closed form is the geometric sum it stands for. */
  lemma SumOverExponentialDecayIsGeometric(duration: nat, decay: real)
    requires decay != 0.0
    ensures SumOverExponentialDecay(duration, decay) == GeometricSum(1.0 - decay, duration)
  {
    var q := 1.0 - decay;
    var p := Pow(q, duration);
    var g := GeometricSum(q, duration);
    GeometricSumTelescopes(q, duration);
    assert 1.0 - q == decay;
    assert g * decay == 1.0 - q * p;
    SubtractRight(1.0, decay, p);
    assert 1.0 - p + decay * p == g * decay;
    DivideCancels(g, decay);
  }

  lemma {:induction false} PowBounds(q: real, n: nat)
    requires 0.0 <= q <= 1.0
    ensures 0.0 <= Pow(q, n) <= 1.0
  {
    if n > 0 {
      PowBounds(q, n - 1);
      assert Pow(q, n) == q * Pow(q, n - 1);
      ProductNonNegative(q, Pow(q, n - 1));
      MultiplyMonotone(q, 1.0, Pow(q, n - 1));
      assert q * Pow(q, n - 1) <= 1.0 * Pow(q, n - 1);
      assert 1.0 * Pow(q, n - 1) == Pow(q, n - 1);
    }
  }

  lemma {:induction false} GeometricSumBounds(q: real, d: nat)
    requires 0.0 <= q <= 1.0
    ensures 1.0 <= GeometricSum(q, d) <= (d + 1) as real
  {
    if d > 0 {
      GeometricSumBounds(q, d - 1);
      PowBounds(q, d);
    }
  }

  /** Splitting off the first term: the sum over e = d + 1 epochs is the
      first epoch plus q times the sum over the d that follow. */
  lemma {:induction false} GeometricSumShift(q: real, d: nat, e: nat)
    requires e == d + 1
    ensures GeometricSum(q, e) == 1.0 + q * GeometricSum(q, d)
  {
    if d == 0 {
      assert Pow(q, 1) == q * Pow(q, 0);
    } else {
      GeometricSumShift(q, d - 1, d);
      var g := GeometricSum(q, d - 1);
      assert Pow(q, e) == q * Pow(q, d);
      assert GeometricSum(q, e) == 1.0 + q * g + q * Pow(q, d);
      Distribute(q, g, Pow(q, d));
    }
  }

  /** For a decay in (0, 1], each epoch contributes between nothing and a
      full epoch's reward: the projection factor lies in [1, duration + 1]. */
  lemma SumOverExponentialDecayBounds(duration: nat, decay: real)
    requires 0.0 < decay <= 1.0
    ensures 1.0 <= SumOverExponentialDecay(duration, decay) <= (duration + 1) as real
  {
    SumOverExponentialDecayIsGeometric(duration, decay);
    GeometricSumBounds(1.0 - decay, duration);
  }

  /** A per-epoch reward projected over `duration` epochs of decay. */
  function ProjectedReward(epochReward: real, duration: nat, decay: real): real
    requires decay != 0.0
  {
    epochReward * SumOverExponentialDecay(duration, decay)
  }

  /** Projecting over d + 1 epochs is this epoch's reward plus the projection,
      over d epochs, of the decayed reward the next epoch will pay. */
  lemma ProjectionShift(epochReward: real, duration: nat, decay: real)
    requires decay != 0.0
    ensures ProjectedReward(epochReward, duration + 1, decay)
         == epochReward + ProjectedReward(epochReward * (1.0 - decay), duration, decay)
  {
    var q := 1.0 - decay;
    SumOverExponentialDecayIsGeometric(duration + 1, decay);
    SumOverExponentialDecayIsGeometric(duration, decay);
    GeometricSumShift(q, duration, duration + 1);
    var g := GeometricSum(q, duration);
    Distribute(epochReward, 1.0, q * g);
    Associate(epochReward, q, g);
  }

  /** A non-negative reward projects to a non-negative amount, and a positive
      one to a positive amount, no smaller than one epoch's reward. */
  lemma ProjectedRewardSign(epochReward: real, duration: nat, decay: real)
    requires 0.0 < decay <= 1.0
    ensures epochReward >= 0.0 ==> ProjectedReward(epochReward, duration, decay) >= epochReward
    ensures ProjectedReward(epochReward, duration, decay) > 0.0 <==> epochReward > 0.0
  {
    SumOverExponentialDecayBounds(duration, decay);
  }

  class NetworkState {
    var epoch: int
    var power: int
    var powerBaseline: real
    var circulatingSupply: real
    var epochReward: real
    var rewardDecay: real
    var tokenLeaseFee: real

    constructor (epoch: int, qaPower: int, baselinePower: real, circulatingSupply: real,
                 epochReward: real, rewardDecay: real, tokenLeaseFee: real)
      ensures this.epoch == epoch && power == qaPower && powerBaseline == baselinePower
      ensures this.circulatingSupply == circulatingSupply && this.epochReward == epochReward
      ensures this.rewardDecay == rewardDecay && this.tokenLeaseFee == tokenLeaseFee
    {
      this.epoch := epoch;
      power := qaPower;
      powerBaseline := baselinePower;
      this.circulatingSupply := circulatingSupply;
      this.epochReward := epochReward;
      this.rewardDecay := rewardDecay;
      this.tokenLeaseFee := tokenLeaseFee;
    }

    /** Parameters of a meaningful network: nothing negative, a decay rate in
        (0, 1], and some power or baseline to share the consensus pledge over. */
    predicate Valid()
      reads this
    {
      0 <= power && 0.0 <= powerBaseline && 0.0 <= circulatingSupply && 0.0 <= epochReward &&
      0.0 < rewardDecay <= 1.0 && 0.0 <= tokenLeaseFee && PledgeShare() > 0.0
    }

    /** The power the consensus pledge is shared over: the larger of network
        power and baseline. */
    function PledgeShare(): real
      reads this
    {
      Max(power as real, powerBaseline)
    }

    /** Advances one epoch: the reward decays and the baseline grows. */
    method HandleEpoch()
      modifies this
      ensures epoch == old(epoch) + 1
      ensures epochReward == old(epochReward) * (1.0 - rewardDecay)
      ensures powerBaseline == old(powerBaseline) * (1.0 + BASELINE_GROWTH)
      ensures power == old(power) && circulatingSupply == old(circulatingSupply)
      ensures rewardDecay == old(rewardDecay) && tokenLeaseFee == old(tokenLeaseFee)
      ensures old(Valid()) ==> Valid()
    {
      epoch := epoch + 1;
      epochReward := epochReward * (1.0 - rewardDecay);
      powerBaseline := powerBaseline * (1.0 + BASELINE_GROWTH);
    }

    /** Rewards a power quantity can expect over `duration` epochs: its
        pro-rata share of the network reward, or the whole reward while the
        network has no power. */
    function ExpectedRewardForPower(power: int, duration: nat, decay: real): real
      reads this
      requires decay != 0.0
    {
      if this.power <= 0 then ProjectedReward(epochReward, duration, decay)
      else ProjectedReward(epochReward * power as real / this.power as real, duration, decay)
    }

    /** The initial pledge required for an incremental power addition: a
        storage part (20 days of projected reward at the standard decay) plus
        a consensus part (the power's share of 30% of circulating supply). */
    function InitialPledgeForPower(power: int): real
      reads this
      requires PledgeShare() != 0.0
    {
      var storage := ExpectedRewardForPower(power, INITIAL_PLEDGE_PROJECTION_PERIOD, REWARD_DECAY);
      var consensus := circulatingSupply * power as real * SUPPLY_LOCK_TARGET / PledgeShare();
      storage + consensus
    }

    /** The denominator of the pledge-to-power inverse. */
    function PledgePerUnitShare(): real
      reads this
    {
      ProjectedReward(epochReward, INITIAL_PLEDGE_PROJECTION_PERIOD, REWARD_DECAY)
        + circulatingSupply * SUPPLY_LOCK_TARGET
    }

    /** The largest whole number of sectors' power that an incremental pledge
        can commit, rounded down to a sector multiple. */
    function PowerForInitialPledge(pledge: real): (p: int)
      reads this
      requires PledgePerUnitShare() != 0.0
      ensures p % SECTOR_SIZE == 0
      ensures p as real <= pledge * power as real / PledgePerUnitShare() < (p + SECTOR_SIZE) as real
    {
      var exact := pledge * power as real / PledgePerUnitShare();
      FloorToSectors(exact);
      (exact / SECTOR_SIZE as real).Floor * SECTOR_SIZE
    }

    /** The fee on `amount` leased tokens over `duration` epochs, at the
        network's annual lease fee rate. */
    function FeeForTokenLease(amount: real, duration: real): real
      reads this
    {
      amount * tokenLeaseFee * duration / YEAR as real
    }
  }

  /** Floor division by the sector size brackets the exact quotient. */
  lemma FloorToSectors(x: real)
    ensures var p := (x / SECTOR_SIZE as real).Floor * SECTOR_SIZE;
      p % SECTOR_SIZE == 0 && p as real <= x < (p + SECTOR_SIZE) as real
  {
    var s := SECTOR_SIZE as real;
    var f := (x / s).Floor;
    assert f as real <= x / s < f as real + 1.0;
    assert (f * SECTOR_SIZE) as real == f as real * s;
    assert f as real * s <= x / s * s;
    assert x / s * s < (f as real + 1.0) * s;
  }

  /** While the network has no power, every power quantity expects the whole
      network reward, whatever its size. */
  lemma ExpectedRewardBootstrap(net: NetworkState, p: int, q: int, duration: nat, decay: real)
    requires net.power <= 0 && decay != 0.0
    ensures net.ExpectedRewardForPower(p, duration, decay) == net.ExpectedRewardForPower(q, duration, decay)
    ensures net.ExpectedRewardForPower(p, duration, decay) == ProjectedReward(net.epochReward, duration, decay)
  {
  }

  /** Once the network has power, a power quantity expects exactly its
      pro-rata share of the projected network reward. */
  lemma ExpectedRewardProRata(net: NetworkState, p: int, duration: nat, decay: real)
    requires net.power > 0 && decay != 0.0
    ensures net.ExpectedRewardForPower(p, duration, decay) * net.power as real
         == p as real * ProjectedReward(net.epochReward, duration, decay)
  {
    var s := SumOverExponentialDecay(duration, decay);
    var n := net.power as real;
    assert net.epochReward * p as real / n * s * n == p as real * (net.epochReward * s);
  }

  /** On a valid network the expected reward of non-negative power is
      non-negative, and positive exactly when there is reward to share and
      the power counts (it is positive, or the network has none yet). */
  lemma ExpectedRewardSign(net: NetworkState, p: int, duration: nat, decay: real)
    requires net.Valid() && p >= 0 && 0.0 < decay <= 1.0
    ensures net.ExpectedRewardForPower(p, duration, decay) >= 0.0
    ensures net.ExpectedRewardForPower(p, duration, decay) > 0.0
        <==> net.epochReward > 0.0 && (net.power <= 0 || p > 0)
  {
    var x := net.epochReward;
    if net.power > 0 {
      var n, ep := net.power as real, net.epochReward * p as real;
      x := ep / n;
      ProductNonNegative(net.epochReward, p as real);
      DivideNonNegative(ep, n);
      if net.epochReward > 0.0 && p > 0 {
        ProductPositive(net.epochReward, p as real);
        DividePositive(ep, n);
      } else {
        assert ep == 0.0;
      }
    }
    assert x >= 0.0 && (x > 0.0 <==> net.epochReward > 0.0 && (net.power <= 0 || p > 0));
    assert net.ExpectedRewardForPower(p, duration, decay) == ProjectedReward(x, duration, decay);
    ProjectedRewardSign(x, duration, decay);
  }

  /** Expected reward never falls when the power grows. */
  lemma ExpectedRewardMonotone(net: NetworkState, p: int, q: int, duration: nat, decay: real)
    requires net.Valid() && p <= q && 0.0 < decay <= 1.0
    ensures net.ExpectedRewardForPower(p, duration, decay) <= net.ExpectedRewardForPower(q, duration, decay)
  {
    if net.power > 0 {
      var s := SumOverExponentialDecay(duration, decay);
      SumOverExponentialDecayBounds(duration, decay);
      var n := net.power as real;
      var a, b := net.epochReward * p as real, net.epochReward * q as real;
      MultiplyMonotone(p as real, q as real, net.epochReward);
      assert a <= b;
      DivideMonotone(a, b, n);
      MultiplyMonotone(a / n, b / n, s);
    }
  }

  /** On a valid network with power, adding no power requires no pledge. */
  lemma InitialPledgeOfNothing(net: NetworkState)
    requires net.Valid() && net.power > 0
    ensures net.InitialPledgeForPower(0) == 0.0
  {
  }

  /** On a valid network the pledge requirement is non-negative for
      non-negative power and never falls when the power grows. */
  lemma InitialPledgeMonotone(net: NetworkState, p: int, q: int)
    requires net.Valid() && 0 <= p <= q
    ensures 0.0 <= net.InitialPledgeForPower(p) <= net.InitialPledgeForPower(q)
  {
    ExpectedRewardSign(net, p, INITIAL_PLEDGE_PROJECTION_PERIOD, REWARD_DECAY);
    ExpectedRewardMonotone(net, p, q, INITIAL_PLEDGE_PROJECTION_PERIOD, REWARD_DECAY);
    ConsensusPledgeMonotone(net.circulatingSupply, net.PledgeShare(), p, q);
  }

  lemma ConsensusPledgeMonotone(supply: real, share: real, p: int, q: int)
    requires supply >= 0.0 && share > 0.0 && 0 <= p <= q
    ensures 0.0 <= supply * p as real * SUPPLY_LOCK_TARGET / share
                <= supply * q as real * SUPPLY_LOCK_TARGET / share
  {
    Scale(supply, p as real, q as real);
    ProductNonNegative(supply, p as real);
    ProductNonNegative(supply * p as real, SUPPLY_LOCK_TARGET);
    MultiplyMonotone(supply * p as real, supply * q as real, SUPPLY_LOCK_TARGET);
    DivideMonotone(supply * p as real * SUPPLY_LOCK_TARGET, supply * q as real * SUPPLY_LOCK_TARGET, share);
    DivideMonotone(0.0, supply * p as real * SUPPLY_LOCK_TARGET, share);
  }

  /** While network power is at or above the baseline, the pledge requirement
      is linear in power: power times the network's pledge per unit share. */
  lemma InitialPledgeLinear(net: NetworkState, p: int)
    requires net.power > 0 && net.power as real >= net.powerBaseline
    ensures net.InitialPledgeForPower(p) * net.power as real == p as real * net.PledgePerUnitShare()
  {
    ExpectedRewardProRata(net, p, INITIAL_PLEDGE_PROJECTION_PERIOD, REWARD_DECAY);
    var n := net.power as real;
    assert net.PledgeShare() == n;
    assert net.circulatingSupply * p as real * SUPPLY_LOCK_TARGET / n * n
        == p as real * (net.circulatingSupply * SUPPLY_LOCK_TARGET);
  }

  /** Round trip: while network power is at or above the baseline, the power
      bought by the pledge required for a whole number of sectors is exactly
      that power. */
  lemma PowerForInitialPledgeRoundTrip(net: NetworkState, p: int)
    requires net.power > 0 && net.power as real >= net.powerBaseline
    requires net.PledgePerUnitShare() != 0.0
    requires p % SECTOR_SIZE == 0
    ensures net.PowerForInitialPledge(net.InitialPledgeForPower(p)) == p
  {
    InitialPledgeLinear(net, p);
    var pledge := net.InitialPledgeForPower(p);
    assert pledge * net.power as real / net.PledgePerUnitShare() == p as real;
    PowerForExactPledge(net, pledge, p);
  }

  /** A pledge that buys an exact whole number of sectors buys exactly them. */
  lemma PowerForExactPledge(net: NetworkState, pledge: real, p: int)
    requires net.PledgePerUnitShare() != 0.0 && p % SECTOR_SIZE == 0
    requires pledge * net.power as real / net.PledgePerUnitShare() == p as real
    ensures net.PowerForInitialPledge(pledge) == p
  {
    var r := net.PowerForInitialPledge(pledge);
    assert r <= p < r + SECTOR_SIZE;
  }

  /** The requirement of non-negative power never exceeds that power's share
      of the pledge per unit share: the consensus term is shared over the
      larger of network power and baseline, never less than network power. */
  lemma InitialPledgeWithinInverse(net: NetworkState, p: int)
    requires net.Valid() && net.power > 0 && 0 <= p
    ensures net.InitialPledgeForPower(p) * net.power as real <= p as real * net.PledgePerUnitShare()
  {
    var n, share := net.power as real, net.PledgeShare();
    var reward := ProjectedReward(net.epochReward, INITIAL_PLEDGE_PROJECTION_PERIOD, REWARD_DECAY);
    var storage := net.ExpectedRewardForPower(p, INITIAL_PLEDGE_PROJECTION_PERIOD, REWARD_DECAY);
    var k := net.circulatingSupply * p as real * SUPPLY_LOCK_TARGET;
    var consensus := k / share;
    ExpectedRewardProRata(net, p, INITIAL_PLEDGE_PROJECTION_PERIOD, REWARD_DECAY);
    ProductNonNegative(net.circulatingSupply, p as real);
    ProductNonNegative(net.circulatingSupply * p as real, SUPPLY_LOCK_TARGET);
    DivideNonNegative(k, share);
    DivideMultiply(k, share);
    Scale(consensus, n, share);
    DistributeRight(storage, consensus, n);
    Distribute(p as real, reward, net.circulatingSupply * SUPPLY_LOCK_TARGET);
    assert p as real * (net.circulatingSupply * SUPPLY_LOCK_TARGET) == k;
  }

  /** Whatever positive power up to the floored inverse of a pledge costs no
      more than that pledge: the inverse never promises power the pledge
      cannot pay for. */
  lemma PowerForPledgeAffordable(net: NetworkState, pledge: real, q: int)
    requires net.Valid() && net.PledgePerUnitShare() != 0.0
    requires 0 < q <= net.PowerForInitialPledge(pledge)
    ensures net.InitialPledgeForPower(q) <= pledge
  {
    var n, unit := net.power as real, net.PledgePerUnitShare();
    ProjectedRewardSign(net.epochReward, INITIAL_PLEDGE_PROJECTION_PERIOD, REWARD_DECAY);
    ProductNonNegative(net.circulatingSupply, SUPPLY_LOCK_TARGET);
    assert unit > 0.0;
    if net.power == 0 {
      assert false;
    }
    MultiplyMonotone(q as real, pledge * n / unit, unit);
    DivideMultiply(pledge * n, unit);
    InitialPledgeWithinInverse(net, q);
    var cost := net.InitialPledgeForPower(q);
    if cost > pledge {
      ProductPositive(cost - pledge, n);
      SubtractRight(cost, pledge, n);
      assert false;
    }
  }

  /** The lease fee is non-negative for non-negative inputs and additive in
      both the amount and the duration. */
  lemma LeaseFeeAdditive(net: NetworkState, a: real, b: real, d: real, e: real)
    requires net.tokenLeaseFee >= 0.0 && a >= 0.0 && d >= 0.0
    ensures net.FeeForTokenLease(a, d) >= 0.0
    ensures net.FeeForTokenLease(a + b, d) == net.FeeForTokenLease(a, d) + net.FeeForTokenLease(b, d)
    ensures net.FeeForTokenLease(a, d + e) == net.FeeForTokenLease(a, d) + net.FeeForTokenLease(a, e)
  {
    assert a * net.tokenLeaseFee >= 0.0;
    assert a * net.tokenLeaseFee * d >= 0.0;
  }
}
