/** The onboarding strategy: each round it works out how many tokens it can
    lock and how much power that pledge buys, picks whichever of power and
    pledge binds, rounds to whole sectors and makes at most one activation,
    keeping lifetime counts of the power onboarded and pledge locked. */
module Strategy {
  import opened Consts
  import opened Accounting
  import opened ShortfallNetwork
  import opened ShortfallBase
  import opened ShortfallRatchet
  import opened ShortfallBurn

  /** The limits a strategy works within. */
  datatype StrategyConfig = StrategyConfig(
    /** Most storage power held at any one time. */
    maxPower: int,
    /** Most power onboarded ever, even after earlier power expires. */
    maxPowerOnboard: int,
    /** Most tokens locked as pledge ever, even after pledge is returned. */
    maxPledgeOnboard: real,
    /** Commitment duration of onboarded power, in epochs. */
    commitmentDuration: nat,
    /** Most tokens leased at any one time. */
    maxPledgeLease: real,
    /** Shortfall taken, as a fraction of the nominal pledge; 1 takes the
        most the miner allows. */
    useShortfall: real)
  {
    predicate Valid() {
      0.0 <= useShortfall <= 1.0
    }
  }

  /** A miner under one of the three collateral policies the strategy can
      drive. */
  datatype Miner =
    | Strict(strict: BaseMinerState)
    | Burn(burn: BurnShortfallMinerState)
    | Ratchet(ratchet: RepayRatchetShortfallMinerState)
  {
    /** The ledger every policy keeps. */
    function Ledger(): BaseMinerState {
      match this
      case Strict(s) => s
      case Burn(b) => b.base
      case Ratchet(r) => r.base
    }

    ghost function Repr(): set<object> {
      match this
      case Strict(s) => {s}
      case Burn(b) => {b, b.base}
      case Ratchet(r) => {r, r.base}
    }

    ghost predicate Valid()
      reads Repr()
    {
      match this
      case Strict(s) => s.Valid() && s.Scheduled()
      case Burn(b) => b.Valid()
      case Ratchet(r) => r.Valid()
    }

    /** The policy can price the largest pledge an available lock commits
        to without dividing by zero. */
    predicate CanPrice(net: NetworkState, duration: nat)
      reads net
    {
      match this
      case Strict(_) => true
      case Burn(b) => b.maxShortfallFraction != 1.0
      case Ratchet(r) =>
        r.rewardProjectionDecay != 0.0 && net.PledgePerUnitShare() != 0.0 &&
        r.ShortfallShare(net, duration) != 1.0
    }

    /** The largest nominal pledge an available lock commits to under the
        miner's policy. */
    function MaxPledgeForTokens(net: NetworkState, availableLock: real, duration: nat): real
      reads net
      requires CanPrice(net, duration)
    {
      match this
      case Strict(s) => s.MaxPledgeForTokens(net, availableLock, duration)
      case Burn(b) => b.MaxPledgeForTokens(availableLock)
      case Ratchet(r) => r.MaxPledgeForTokens(net, availableLock, duration)
    }
  }

  /** Activates sectors on whichever policy the miner runs. Every policy
      activates exactly the power asked for, adds to its locked pledge
      exactly the pledge it reports, never reports more than the pledge
      requirement, and never more than a non-zero lock offered. */
  method Activate(m: Miner, net: NetworkState, power: nat, duration: nat, lock: real)
    returns (r: Result<(int, real)>)
    requires m.Valid() && net.Valid() && power % SECTOR_SIZE == 0
    modifies m.Repr()
    ensures m.Valid()
    ensures r.Ok? ==>
      r.value.0 == power && m.Ledger().power == old(m.Ledger().power) + power &&
      m.Ledger().pledgeLocked == old(m.Ledger().pledgeLocked) + r.value.1
    ensures r.Ok? ==> r.value.1 <= net.InitialPledgeForPower(power)
    ensures r.Ok? && lock != 0.0 ==> r.value.1 <= lock
    ensures m.Ledger().power == old(m.Ledger().power) || m.Ledger().power == old(m.Ledger().power) + power
  {
    match m
    case Strict(s) =>
      r := s.ActivateSectors(net, power, duration, lock);
    case Burn(b) =>
      r := b.ActivateSectors(net, power, duration, lock);
    case Ratchet(rm) =>
      r := rm.ActivateSectors(net, power, duration, lock);
  }

  /** The tokens the strategy can lock this round: the miner's available
      balance plus what it may still lease, capped by what remains of the
      lifetime pledge allowance. */
  function AvailableLock(cfg: StrategyConfig, available: real, lease: real, pledged: real): (lock: real)
    ensures lock <= cfg.maxPledgeOnboard - pledged
    ensures lock <= available + (cfg.maxPledgeLease - lease)
    ensures lock == cfg.maxPledgeOnboard - pledged || lock == available + (cfg.maxPledgeLease - lease)
  {
    Min(available + (cfg.maxPledgeLease - lease), cfg.maxPledgeOnboard - pledged)
  }

  /** The power the strategy wants this round: the room left under both the
      power held and the lifetime onboarding allowance. */
  function TargetPower(cfg: StrategyConfig, minerPower: int, onboarded: int): (target: int)
    ensures target <= cfg.maxPower - minerPower && target <= cfg.maxPowerOnboard - onboarded
    ensures target == cfg.maxPower - minerPower || target == cfg.maxPowerOnboard - onboarded
  {
    MinInt(cfg.maxPower - minerPower, cfg.maxPowerOnboard - onboarded)
  }

  /** Rounds power down to whole sectors. */
  function RoundToSectors(power: int): (p: int)
    ensures p % SECTOR_SIZE == 0 && p <= power < p + SECTOR_SIZE
  {
    var q := power / SECTOR_SIZE;
    assert power == q * SECTOR_SIZE + power % SECTOR_SIZE;
    q * SECTOR_SIZE
  }

  /** What a round decides: the power to activate and the lock to offer. */
  datatype Decision = Decision(power: int, lock: real)

  /** Decides a round from the target power, the available lock and the
      nominal pledge it commits to. The power activated is the largest
      whole number of sectors within both the target and the power the
      pledge buys. When power binds the lock offered is the target's
      nominal pledge less the shortfall share; when pledge binds it is the
      whole available lock. */
  function Decide(net: NetworkState, useShortfall: real, target: int, availableLock: real, availablePledge: real)
    : (d: Decision)
    reads net
    requires net.Valid() && net.PledgePerUnitShare() != 0.0
    ensures var bound := MinInt(target, net.PowerForInitialPledge(availablePledge));
      d.power % SECTOR_SIZE == 0 && d.power <= bound < d.power + SECTOR_SIZE
    ensures target <= net.PowerForInitialPledge(availablePledge) ==>
      d.lock == net.InitialPledgeForPower(target) * (1.0 - useShortfall)
    ensures target > net.PowerForInitialPledge(availablePledge) ==> d.lock == availableLock
  {
    var powerForPledge := net.PowerForInitialPledge(availablePledge);
    if target <= powerForPledge then
      Decision(RoundToSectors(target), net.InitialPledgeForPower(target) * (1.0 - useShortfall))
    else
      Decision(RoundToSectors(powerForPledge), availableLock)
  }

  /** Taking the whole shortfall offers no lock at all when power binds, so
      the miner locks its minimum. */
  lemma FullShortfallLocksNothing(net: NetworkState, target: int, availableLock: real, availablePledge: real)
    requires net.Valid() && net.PledgePerUnitShare() != 0.0
    requires target <= net.PowerForInitialPledge(availablePledge)
    ensures Decide(net, 1.0, target, availableLock, availablePledge).lock == 0.0
  {
  }

  /** With a partial shortfall, a round that activates anything offers a
      lock within the available lock that still covers the part of the
      activated power's requirement not taken as shortfall: the power never
      costs more than the pledge the lock commits to. */
  lemma {:induction false} OfferWithinAvailableLock(net: NetworkState, useShortfall: real, target: int,
                                                    availableLock: real)
    requires net.Valid() && net.PledgePerUnitShare() != 0.0
    requires 0.0 <= useShortfall < 1.0
    ensures var d := Decide(net, useShortfall, target, availableLock, availableLock / (1.0 - useShortfall));
      d.power > 0 ==>
        0.0 <= d.lock <= availableLock &&
        net.InitialPledgeForPower(d.power) * (1.0 - useShortfall) <= d.lock
  {
    var availablePledge := availableLock / (1.0 - useShortfall);
    var d := Decide(net, useShortfall, target, availableLock, availablePledge);
    if d.power > 0 {
      if target <= net.PowerForInitialPledge(availablePledge) {
        OfferWhenPowerBinds(net, useShortfall, target, availableLock, d);
      } else {
        OfferWhenPledgeBinds(net, useShortfall, availableLock, d);
      }
    }
  }

  /** When power binds, the kept share of the target's requirement lies
      within the available lock and covers the kept share of the
      requirement of any smaller positive power. */
  lemma OfferWhenPowerBinds(net: NetworkState, useShortfall: real, target: int, availableLock: real, d: Decision)
    requires net.Valid() && net.PledgePerUnitShare() != 0.0 && useShortfall < 1.0
    requires 0 < d.power <= target <= net.PowerForInitialPledge(availableLock / (1.0 - useShortfall))
    requires d.lock == net.InitialPledgeForPower(target) * (1.0 - useShortfall)
    ensures 0.0 <= d.lock <= availableLock
    ensures net.InitialPledgeForPower(d.power) * (1.0 - useShortfall) <= d.lock
  {
    PowerForPledgeAffordable(net, availableLock / (1.0 - useShortfall), target);
    InitialPledgeMonotone(net, d.power, target);
    KeptWithinLock(net.InitialPledgeForPower(d.power), net.InitialPledgeForPower(target),
                   availableLock / (1.0 - useShortfall), availableLock, 1.0 - useShortfall);
  }

  /** When pledge binds, the whole available lock is offered and it covers
      the kept share of the activated power's requirement. */
  lemma OfferWhenPledgeBinds(net: NetworkState, useShortfall: real, availableLock: real, d: Decision)
    requires net.Valid() && net.PledgePerUnitShare() != 0.0 && useShortfall < 1.0
    requires 0 < d.power <= net.PowerForInitialPledge(availableLock / (1.0 - useShortfall))
    requires d.lock == availableLock
    ensures 0.0 <= d.lock <= availableLock
    ensures net.InitialPledgeForPower(d.power) * (1.0 - useShortfall) <= d.lock
  {
    PowerForPledgeAffordable(net, availableLock / (1.0 - useShortfall), d.power);
    InitialPledgeMonotone(net, 0, d.power);
    KeptWithinLock(net.InitialPledgeForPower(d.power), net.InitialPledgeForPower(d.power),
                   availableLock / (1.0 - useShortfall), availableLock, 1.0 - useShortfall);
  }

  /** The kept share of costs within the pledge a lock commits to stays
      within the lock. */
  lemma KeptWithinLock(cost: real, nominal: real, pledge: real, lock: real, keep: real)
    requires 0.0 < keep && 0.0 <= cost <= nominal <= pledge && pledge == lock / keep
    ensures 0.0 <= cost * keep <= nominal * keep <= lock
  {
    RealFacts.ProductNonNegative(cost, keep);
    RealFacts.MultiplyMonotone(cost, nominal, keep);
    RealFacts.MultiplyMonotone(nominal, pledge, keep);
    RealFacts.DivideMultiply(lock, keep);
  }

  /** What a round ended in: nothing activated, or the power activated and
      the pledge the miner locked for it. */
  datatype Activation = Idle | Activated(power: int, pledge: real)

  class MinerStrategy {
    const cfg: StrategyConfig
    /** Power onboarded over the strategy's life. */
    var onboarded: int
    /** Pledge locked over the strategy's life. */
    var pledged: real

    /** A strategy starts with nothing onboarded; the shortfall it takes
        must be a fraction. */
    constructor (cfg: StrategyConfig)
      requires cfg.Valid()
      ensures this.cfg == cfg && onboarded == 0 && pledged == 0.0
    {
      this.cfg := cfg;
      onboarded := 0;
      pledged := 0.0;
    }

    /** The round the strategy would play against miner `m` now. */
    function Plan(net: NetworkState, m: Miner): (d: Decision)
      reads this, net, m.Ledger()
      requires cfg.Valid() && net.Valid() && net.PledgePerUnitShare() != 0.0
      requires cfg.useShortfall == 1.0 ==> m.CanPrice(net, cfg.commitmentDuration)
      ensures d.power % SECTOR_SIZE == 0
      ensures d.power <= cfg.maxPower - m.Ledger().power && d.power <= cfg.maxPowerOnboard - onboarded
      ensures cfg.useShortfall < 1.0 && d.power > 0 ==>
        0.0 <= d.lock <= cfg.maxPledgeOnboard - pledged &&
        net.InitialPledgeForPower(d.power) * (1.0 - cfg.useShortfall) <= d.lock
    {
      var lock := AvailableLock(cfg, m.Ledger().AvailableBalance(), m.Ledger().lease, pledged);
      var pledge :=
        if cfg.useShortfall == 1.0 then m.MaxPledgeForTokens(net, lock, cfg.commitmentDuration)
        else lock / (1.0 - cfg.useShortfall);
      var target := TargetPower(cfg, m.Ledger().power, onboarded);
      var d := Decide(net, cfg.useShortfall, target, lock, pledge);
      assert cfg.useShortfall < 1.0 && d.power > 0 ==>
        0.0 <= d.lock <= lock && net.InitialPledgeForPower(d.power) * (1.0 - cfg.useShortfall) <= d.lock by {
        if cfg.useShortfall < 1.0 {
          OfferWithinAvailableLock(net, cfg.useShortfall, target, lock);
        }
      }
      d
    }

    /** Plays one round against miner `m`: activates the planned power if it
        is positive, and adds what the miner activated and locked to the
        lifetime counts. Neither the power held nor the power onboarded
        passes its cap, and with a partial shortfall neither does the pledge
        locked; a failed activation leaves the counts alone. */
    method Act(net: NetworkState, m: Miner) returns (r: Result<Activation>)
      requires cfg.Valid() && net.Valid() && m.Valid() && net.PledgePerUnitShare() != 0.0
      requires cfg.useShortfall == 1.0 ==> m.CanPrice(net, cfg.commitmentDuration)
      modifies this, m.Repr()
      ensures m.Valid()
      ensures var d := old(Plan(net, m));
        d.power <= 0 ==>
          r == Ok(Idle) && onboarded == old(onboarded) && pledged == old(pledged) && unchanged(m.Repr())
      ensures var d := old(Plan(net, m));
        d.power > 0 && r.Ok? ==>
          r.value.Activated? && r.value.power == d.power &&
          onboarded == old(onboarded) + d.power && pledged == old(pledged) + r.value.pledge &&
          m.Ledger().power == old(m.Ledger().power) + d.power &&
          m.Ledger().pledgeLocked == old(m.Ledger().pledgeLocked) + r.value.pledge
      ensures r.Err? ==> onboarded == old(onboarded) && pledged == old(pledged)
      ensures old(onboarded) <= onboarded
      ensures old(onboarded) <= cfg.maxPowerOnboard ==> onboarded <= cfg.maxPowerOnboard
      ensures old(m.Ledger().power) <= cfg.maxPower ==> m.Ledger().power <= cfg.maxPower
      ensures cfg.useShortfall < 1.0 && old(pledged) <= cfg.maxPledgeOnboard ==> pledged <= cfg.maxPledgeOnboard
    {
      var d := Plan(net, m);
      if d.power <= 0 {
        return Ok(Idle);
      }
      ghost var power0, onboarded0, pledged0 := m.Ledger().power, onboarded, pledged;
      assert d.power <= cfg.maxPower - power0 && d.power <= cfg.maxPowerOnboard - onboarded0;
      assert cfg.useShortfall < 1.0 ==> d.lock <= cfg.maxPledgeOnboard - pledged0;
      r := Onboard(net, m, d);
      if r.Ok? && cfg.useShortfall < 1.0 {
        PledgeWithinOffer(r.value.pledge, net.InitialPledgeForPower(d.power), d.lock, 1.0 - cfg.useShortfall);
      }
    }

    /** Activates a planned round and adds what the miner activated and
        locked to the lifetime counts; a failed activation leaves the counts
        alone. The pledge locked is within the requirement, and within the
        offer unless the offer was empty. */
    method Onboard(net: NetworkState, m: Miner, d: Decision) returns (r: Result<Activation>)
      requires cfg.Valid() && net.Valid() && m.Valid()
      requires d.power > 0 && d.power % SECTOR_SIZE == 0
      modifies this, m.Repr()
      ensures m.Valid()
      ensures r.Ok? ==>
        r.value.Activated? && r.value.power == d.power &&
        onboarded == old(onboarded) + d.power && pledged == old(pledged) + r.value.pledge &&
        m.Ledger().power == old(m.Ledger().power) + d.power &&
        m.Ledger().pledgeLocked == old(m.Ledger().pledgeLocked) + r.value.pledge
      ensures r.Err? ==> onboarded == old(onboarded) && pledged == old(pledged)
      ensures m.Ledger().power == old(m.Ledger().power) || m.Ledger().power == old(m.Ledger().power) + d.power
      ensures r.Ok? ==> r.value.pledge <= net.InitialPledgeForPower(d.power)
      ensures r.Ok? && d.lock != 0.0 ==> r.value.pledge <= d.lock
    {
      var activated := Activate(m, net, d.power, cfg.commitmentDuration, d.lock);
      if activated.Err? {
        return Err(activated.error);
      }
      var (power, pledge) := activated.value;
      onboarded := onboarded + power;
      pledged := pledged + pledge;
      r := Ok(Activated(power, pledge));
    }
  }

  /** A pledge within a requirement whose kept share an offer covers, and
      within the offer whenever the offer is not empty, is within the offer. */
  lemma PledgeWithinOffer(pledge: real, cost: real, lock: real, keep: real)
    requires 0.0 < keep && pledge <= cost && cost * keep <= lock
    requires lock != 0.0 ==> pledge <= lock
    ensures pledge <= lock
  {
    if lock == 0.0 && cost > 0.0 {
      RealFacts.ProductPositive(cost, keep);
    }
  }
}
