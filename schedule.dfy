/** The deferred-event table shared by every miner variant: sector bunches
    scheduled by expiration epoch, and sums over the table. */
module Schedule {

  /** One activation batch: a power quantity and the pledge recorded for it. */
  datatype SectorBunch = SectorBunch(power: int, pledge: real)

  /** Total power of a list of bunches (summed from the back, so that a
      prefix grows by its last element). */
  function TotalPower(bs: seq<SectorBunch>): int
  {
    if bs == [] then 0 else TotalPower(bs[..|bs| - 1]) + bs[|bs| - 1].power
  }

  /** Total recorded pledge of a list of bunches. */
  function TotalPledge(bs: seq<SectorBunch>): real
  {
    if bs == [] then 0.0 else TotalPledge(bs[..|bs| - 1]) + bs[|bs| - 1].pledge
  }

  function PowerOf(bs: seq<SectorBunch>): real { TotalPower(bs) as real }

  /** The entry at key k; an absent key reads as no bunches. */
  function BunchesAt(m: map<int, seq<SectorBunch>>, k: int): seq<SectorBunch>
  {
    if k in m then m[k] else []
  }

  function AmountAt(m: map<int, real>, k: int): real
  {
    if k in m then m[k] else 0.0
  }

  /** Appends a bunch to the list scheduled at epoch k. */
  function Append(m: map<int, seq<SectorBunch>>, k: int, b: SectorBunch): (r: map<int, seq<SectorBunch>>)
    ensures r.Keys == m.Keys + {k}
    ensures BunchesAt(r, k) == BunchesAt(m, k) + [b]
    ensures forall j :: j != k ==> BunchesAt(r, j) == BunchesAt(m, j)
  {
    m[k := BunchesAt(m, k) + [b]]
  }

  /** A bunch as activations create it: no negative power or pledge. */
  predicate NonNegative(b: SectorBunch)
  {
    b.power >= 0 && b.pledge >= 0.0
  }

  /** Every bunch anywhere in the table is non-negative. */
  ghost predicate AllNonNegative(m: map<int, seq<SectorBunch>>)
  {
    forall k, i :: k in m && 0 <= i < |m[k]| ==> NonNegative(m[k][i])
  }

  function Amount(x: real): real { x }

  /** Sum of f over the values of a finite map with integer keys. */
  ghost function MapSum<V>(m: map<int, V>, f: V -> real): real
    decreases m.Keys
  {
    if m.Keys == {} then 0.0
    else
      HasKey(m);
      var k :| k in m.Keys;
      f(m[k]) + MapSum(m - {k}, f)
  }

  lemma HasKey<V>(m: map<int, V>)
    requires m.Keys != {}
    ensures exists k :: k in m.Keys
  {
    if forall k :: k !in m.Keys {
      assert false;
    }
  }

  ghost function ScheduledPower(m: map<int, seq<SectorBunch>>): real { MapSum(m, PowerOf) }

  ghost function ScheduledPledge(m: map<int, seq<SectorBunch>>): real { MapSum(m, TotalPledge) }

  ghost function VestingSum(m: map<int, real>): real { MapSum(m, Amount) }

  /** The sum does not depend on which key the definition happens to pick:
      any key can be split off. */
  lemma {:induction false} MapSumRemove<V>(m: map<int, V>, f: V -> real, k: int)
    requires k in m
    ensures MapSum(m, f) == f(m[k]) + MapSum(m - {k}, f)
    decreases m.Keys
  {
    var j :| j in m && MapSum(m, f) == f(m[j]) + MapSum(m - {j}, f);
    if j != k {
      var mj, mk := m - {j}, m - {k};
      MapSumRemove(mj, f, k);
      MapSumRemove(mk, f, j);
      assert mj - {k} == mk - {j};
    }
  }

  /** Replacing the entry at k changes the sum by the difference. */
  lemma MapSumUpdate<V>(m: map<int, V>, f: V -> real, k: int, v: V, old_: real)
    requires old_ == (if k in m then f(m[k]) else 0.0)
    ensures MapSum(m[k := v], f) == MapSum(m, f) - old_ + f(v)
  {
    MapSumRemove(m[k := v], f, k);
    assert m[k := v] - {k} == m - {k};
    if k in m {
      MapSumRemove(m, f, k);
    } else {
      assert m - {k} == m;
    }
  }

  /** Removing key k lowers the sum by its entry (nothing if it is absent). */
  lemma MapSumPop<V>(m: map<int, V>, f: V -> real, k: int, old_: real)
    requires old_ == (if k in m then f(m[k]) else 0.0)
    ensures MapSum(m - {k}, f) == MapSum(m, f) - old_
  {
    if k in m {
      MapSumRemove(m, f, k);
    } else {
      assert m - {k} == m;
    }
  }

  lemma {:induction false} TotalPowerAppend(bs: seq<SectorBunch>, b: SectorBunch)
    ensures TotalPower(bs + [b]) == TotalPower(bs) + b.power
    ensures TotalPledge(bs + [b]) == TotalPledge(bs) + b.pledge
  {
    assert (bs + [b])[..|bs|] == bs;
  }

  /** A prefix one bunch longer sums one bunch more. */
  lemma PrefixStep(bs: seq<SectorBunch>, i: int)
    requires 0 <= i < |bs|
    ensures TotalPower(bs[..i + 1]) == TotalPower(bs[..i]) + bs[i].power
    ensures TotalPledge(bs[..i + 1]) == TotalPledge(bs[..i]) + bs[i].pledge
  {
    assert bs[..i + 1] == bs[..i] + [bs[i]];
    TotalPowerAppend(bs[..i], bs[i]);
  }

  /** Scheduling a bunch adds its power and pledge to the table's totals. */
  lemma ScheduleAppend(m: map<int, seq<SectorBunch>>, k: int, b: SectorBunch)
    ensures ScheduledPower(Append(m, k, b)) == ScheduledPower(m) + b.power as real
    ensures ScheduledPledge(Append(m, k, b)) == ScheduledPledge(m) + b.pledge
  {
    var bs := BunchesAt(m, k);
    TotalPowerAppend(bs, b);
    MapSumUpdate(m, PowerOf, k, bs + [b], PowerOf(bs));
    MapSumUpdate(m, TotalPledge, k, bs + [b], TotalPledge(bs));
  }

  /** Popping epoch k removes exactly that entry's bunches from the totals. */
  lemma SchedulePop(m: map<int, seq<SectorBunch>>, k: int)
    ensures ScheduledPower(m - {k}) == ScheduledPower(m) - TotalPower(BunchesAt(m, k)) as real
    ensures ScheduledPledge(m - {k}) == ScheduledPledge(m) - TotalPledge(BunchesAt(m, k))
  {
    MapSumPop(m, PowerOf, k, PowerOf(BunchesAt(m, k)));
    MapSumPop(m, TotalPledge, k, TotalPledge(BunchesAt(m, k)));
  }

  /** Adding to the vesting amount at k raises the table's total by that much. */
  lemma VestingAdd(m: map<int, real>, k: int, a: real)
    ensures VestingSum(m[k := AmountAt(m, k) + a]) == VestingSum(m) + a
  {
    MapSumUpdate(m, Amount, k, AmountAt(m, k) + a, AmountAt(m, k));
  }

  lemma VestingPop(m: map<int, real>, k: int)
    ensures VestingSum(m - {k}) == VestingSum(m) - AmountAt(m, k)
  {
    MapSumPop(m, Amount, k, AmountAt(m, k));
  }

  /** Scheduling a non-negative bunch keeps the table non-negative. */
  lemma AppendNonNegative(m: map<int, seq<SectorBunch>>, k: int, b: SectorBunch)
    requires AllNonNegative(m) && NonNegative(b)
    ensures AllNonNegative(Append(m, k, b))
  {
    var r := Append(m, k, b);
    forall j, i | j in r && 0 <= i < |r[j]|
      ensures NonNegative(r[j][i])
    {
      if j == k && i == |BunchesAt(m, k)| {
        assert r[j][i] == b;
      } else {
        assert r[j][i] == m[j][i];
      }
    }
  }

  lemma {:induction false} TotalsNonNegative(bs: seq<SectorBunch>)
    requires forall i :: 0 <= i < |bs| ==> NonNegative(bs[i])
    ensures TotalPower(bs) >= 0 && TotalPledge(bs) >= 0.0
  {
    if bs != [] {
      TotalsNonNegative(bs[..|bs| - 1]);
    }
  }

  /** Popping an entry of a non-negative table leaves a non-negative table,
      and the popped bunches have non-negative totals. */
  lemma PopNonNegative(m: map<int, seq<SectorBunch>>, k: int)
    requires AllNonNegative(m)
    ensures AllNonNegative(m - {k})
    ensures TotalPower(BunchesAt(m, k)) >= 0 && TotalPledge(BunchesAt(m, k)) >= 0.0
  {
    TotalsNonNegative(BunchesAt(m, k));
  }

  /** In a list of non-negative bunches, a prefix together with the bunch
      after it never exceeds the whole list. */
  lemma {:induction false} PrefixWithin(bs: seq<SectorBunch>, i: int)
    requires forall j :: 0 <= j < |bs| ==> NonNegative(bs[j])
    requires 0 <= i < |bs|
    ensures TotalPower(bs[..i]) + bs[i].power <= TotalPower(bs)
    ensures TotalPledge(bs[..i]) + bs[i].pledge <= TotalPledge(bs)
  {
    var front := bs[..|bs| - 1];
    if i < |bs| - 1 {
      PrefixWithin(front, i);
      assert front[..i] == bs[..i];
    }
  }

  /** Prefix sums of non-negative bunches grow with the prefix. */
  lemma {:induction false} PrefixMonotone(bs: seq<SectorBunch>, i: int, j: int)
    requires forall k :: 0 <= k < |bs| ==> NonNegative(bs[k])
    requires 0 <= i <= j <= |bs|
    ensures TotalPower(bs[..i]) <= TotalPower(bs[..j]) && TotalPledge(bs[..i]) <= TotalPledge(bs[..j])
    decreases j - i
  {
    if i < j {
      PrefixMonotone(bs, i, j - 1);
      assert bs[..j][..j - 1] == bs[..j - 1];
    }
  }

  /** A non-negative table schedules non-negative totals. */
  lemma {:induction false} ScheduledNonNegative(m: map<int, seq<SectorBunch>>)
    requires AllNonNegative(m)
    ensures ScheduledPower(m) >= 0.0 && ScheduledPledge(m) >= 0.0
    decreases m.Keys
  {
    if m.Keys != {} {
      HasKey(m);
      var k :| k in m.Keys;
      MapSumRemove(m, PowerOf, k);
      MapSumRemove(m, TotalPledge, k);
      TotalsNonNegative(m[k]);
      ScheduledNonNegative(m - {k});
    }
  }

  /** With no bunch scheduled, nothing is scheduled. */
  lemma EmptySchedule(m: map<int, seq<SectorBunch>>)
    requires m == map[]
    ensures ScheduledPower(m) == 0.0 && ScheduledPledge(m) == 0.0
  {
  }
}
