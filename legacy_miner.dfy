/** The earliest miner model of the repository: a balance, the power it
    has activated and the initial pledge that power holds; rewards are
    credited whole (no vesting) and there is no leasing, so an activation
    the available balance cannot pay for is refused. */
module LegacyMiner {
  import opened Accounting
  import opened LegacyNetwork

  class MinerState {
    var balance: real
    var power: int
    var initialPledge: real

    constructor (balance: real)
      ensures this.balance == balance && power == 0 && initialPledge == 0.0
      ensures AvailableBalance() == balance
    {
      this.balance := balance;
      power := 0;
      initialPledge := 0.0;
    }

    /** Balance not held as initial pledge. */
    function AvailableBalance(): real
      reads this
    {
      balance - initialPledge
    }

    /** Activates `power`, pledging its full requirement out of the
        available balance; when the available balance is short of the
        requirement nothing changes and the activation is refused. */
    method ActivateSectors(net: NetworkState, power: nat) returns (r: Result<()>)
      requires net.PledgeShare() != 0
      modifies this
      ensures var required := net.InitialPledgeForPower(power);
        if old(AvailableBalance()) < required then
          r == Err(InsufficientBalance(old(AvailableBalance()), required)) &&
          balance == old(balance) && this.power == old(this.power) && initialPledge == old(initialPledge)
        else
          r == Ok(()) && balance == old(balance) &&
          this.power == old(this.power) + power && initialPledge == old(initialPledge) + required
      ensures r.Ok? ==> 0.0 <= AvailableBalance()
      ensures r.Ok? && net.Valid() ==> AvailableBalance() <= old(AvailableBalance())
      ensures AvailableBalance() >= 0.0 <==> r.Ok? || old(AvailableBalance()) >= 0.0
    {
      var pledgeRequired := net.InitialPledgeForPower(power);
      var available := AvailableBalance();
      if available < pledgeRequired {
        return Err(InsufficientBalance(available, pledgeRequired));
      }
      if net.Valid() {
        InitialPledgeNonNegative(net, power);
      }
      this.power := this.power + power;
      initialPledge := initialPledge + pledgeRequired;
      r := Ok(());
    }

    /** Credits a reward to the balance; nothing vests. */
    method ReceiveReward(reward: real)
      modifies this
      ensures balance == old(balance) + reward && power == old(power) && initialPledge == old(initialPledge)
      ensures AvailableBalance() == old(AvailableBalance()) + reward
    {
      balance := balance + reward;
    }
  }
}
