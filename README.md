# Shortfall: a verified model of Filecoin pledge-shortfall miners

The repository simulates Filecoin storage miners that may lock less than the
full initial pledge for the power they commit. Such a miner runs a "pledge
shortfall" and pays for it out of its block rewards, either with a fee, a
repayment, or both. This model covers both of its trees:

* the current tree (`shortfall/`):
  * a network whose per-epoch reward decays and whose baseline grows;
  * a base miner that leases tokens it lacks, accrues a lease fee, vests 75%
    of each reward over 180 days and expires sectors on schedule;
  * the *repay-ratchet* policy. Its repayment take rate only ratchets upward,
    and its fee is proportional to the shortfall;
  * the *burn* policy. It accrues the shortfall as a pending fee and burns a
    share of each reward against it;
  * the onboarding strategy that decides how much power to add and how much
    to lock.
* the legacy tree (top-level `network.py`, `miner.py`, `miners/`):
  * a pro-rata network;
  * the first miner, which must lock the full requirement;
  * a base miner;
  * repay-ratchet, repay-proportional and burn policies with fixed constants.

Each source module has one Dafny module:

| Dafny module | file | source |
|---|---|---|
| `ShortfallNetwork` | network.dfy | shortfall/network.py |
| `ShortfallBase` | base_miner.dfy | shortfall/miners/base.py |
| `ShortfallRatchet` | ratchet_miner.dfy | shortfall/miners/repay_ratchet.py |
| `ShortfallBurn` | burn_miner.dfy | shortfall/miners/burn.py |
| `Strategy` | strategy.dfy | shortfall/strategy.py |
| `LegacyNetwork` | legacy_network.dfy | network.py |
| `LegacyMiner` | legacy_miner.dfy | miner.py |
| `LegacyBase` | legacy_base.dfy | miners/base.py |
| `LegacyRatchet` | legacy_ratchet.dfy | miners/repay_ratchet.py |
| `LegacyProportional` | legacy_proportional.dfy | miners/repay_proportional.py |
| `LegacyBurn` | legacy_burn.dfy | miners/burn.py |

Some modules are shared:

* `Accounting` holds the outcome type and the lock-resolution rules.
* `Schedule` holds sector bunches and the expiration and vesting schedules,
  with their sums.
* `Consts` holds the time and sector-size constants.
* `RealFacts` holds small facts of real arithmetic.

The modelling choices are as follows.

* Miners and the current network change their fields in place, so they are
  classes whose methods carry `modifies` clauses.
* The legacy network is a value and is never updated, so it is a datatype.
* A policy extends the base miner by holding it as `base`.
* Each miner class keeps an invariant `Valid()`:
  * the lease is never negative;
  * the vesting total equals the sum over its vesting table, whose entries
    are non-negative;
  * the power equals the sum over the expiration schedule. So does the
    pledge the schedule records: the locked pledge for the strict and burn
    miners, and the required pledge (`pledgeRequired`) for the ratchet and
    proportional miners. For the strict miner this part is the separate
    predicate `Scheduled()`, which also says every scheduled bunch is
    non-negative.
* The available balance is not part of `Valid()`. For the strict and burn
  miners each operation keeps it non-negative instead:
  * an activation leaves it at the old surplus over the lock, or zero;
  * a reward leaves it non-negative, given the source's own check that the
    fee and lease repayment fit in it;
  * the end of an epoch never lowers it, because expiring bunches and
    vesting only release tokens.
* The current tree's `HandleEpoch` methods (strict, ratchet and burn)
  release the vesting due before they expire the bunches due, while
  `shortfall/miners/base.py:119-127` expires first. The two steps change disjoint fields (vesting against
  power and locked pledge), so the end state is the same.
* An error that the source raises as `RuntimeError` becomes an `Err` result.
* Where a method raises after it has already changed state, the model makes
  the same change before returning the error.

## Model

| member | source | states |
|---|---|---|
| Accounting.ResolveLock | shortfall/miners/repay_ratchet.py:99-104 | A lock of zero asks for the policy minimum. A lock above the requirement is cut down to the requirement. The lock is refused exactly when it is non-zero, at most the requirement and under the minimum, and the error reports the lock and the minimum. An accepted lock lies between the minimum and the requirement. |
| Accounting.ResolveStrictLock | shortfall/miners/base.py:88-91 | A strict miner's lock is accepted exactly when it covers the requirement, and then exactly the requirement is locked. A smaller lock is refused with the requirement as the minimum. |
| Accounting.ClampedFraction | shortfall/miners/repay_ratchet.py:165-174 | The shortfall fraction is at most 1 and is 0 when no shortfall is allowed. It is positive exactly when the shortfall is positive. Below the maximum it is exactly shortfall/maximum, and at or above the maximum it saturates at 1. |
| Accounting.FractionOfMaximum | shortfall/miners/repay_ratchet.py:172-174 | Dividing a shortfall by a positive maximum keeps its sign, and the result compares with 1 as the shortfall compares with the maximum. |
| Accounting.Ratio | shortfall/miners/repay_ratchet.py:158-159 | The satisfaction ratio times the whole gives back the part, and the ratio is non-negative for a non-negative part. |
| Accounting.RatioKept | shortfall/miners/repay_ratchet.py:157-163 | When a part is kept at a fixed ratio to a shrinking whole, its ratio to the whole is unchanged. It reaches zero when the whole does. |
| ShortfallBase.FirstVestingEpoch | shortfall/miners/base.py:152 | The first vesting epoch after an epoch is the next multiple of the vesting interval, strictly later and at most one interval away. |
| ShortfallBase.VestingEpochsFollowEarning | shortfall/miners/base.py:150-157 | Every epoch that receives a vesting chunk is a multiple of the vesting interval. It lies after the earning epoch and within the vesting period. |
| ShortfallBase.SpreadVesting | shortfall/miners/base.py:150-157 | The loop places one equal chunk on each of the 180 vesting epochs that follow, or none for a zero reward. The vesting table's total grows by exactly the vesting reward. |
| ShortfallBase.PlacedIsProduct | shortfall/miners/base.py:153-157 | n chunks of one size add up to n times that size. |
| ShortfallBase.ChunksLeft | shortfall/miners/base.py:153-157 | After n chunks, the remaining reward is exactly the 180 − n chunks still to place. |
| ShortfallBase.ChunkCount | shortfall/miners/base.py:153 | While some reward remains, fewer than 180 chunks have been placed and at least one whole chunk remains. |
| ShortfallBase.ChunksExhausted | shortfall/miners/base.py:153 | When no reward remains, exactly 180 chunks have been placed. |
| ShortfallBase.WholeMultiple | shortfall/miners/base.py:153-157 | A remainder that is a whole multiple of the chunk is either zero or at least one chunk, so the loop exits exactly on zero. |
| ShortfallBase.PlaceChunk | shortfall/miners/base.py:154-156 | Adding one chunk to the next vesting epoch keeps the table an exact record of the chunks placed so far. |
| ShortfallBase.NextVestingEpoch | shortfall/miners/base.py:155-156 | The vesting epochs for n + 1 chunks are those for n plus the next interval, and that epoch is new. |
| ShortfallBase.BaseMinerState.constructor | shortfall/miners/base.py:25-40 | A new miner holds only its balance. It has no power, lease, pledge, vesting or schedule, and it satisfies the ledger invariant. |
| ShortfallBase.BaseMinerState.Lease | shortfall/miners/base.py:166-169 | Leasing raises balance and lease by the same amount, so net equity is unchanged. |
| ShortfallBase.BaseMinerState.LeaseForLock | shortfall/miners/base.py:92 | Leases exactly the part of the lock the available balance cannot cover. Afterwards the lock is covered, and what is left available is the old surplus, if any. |
| ShortfallBase.BaseMinerState.Repay | shortfall/miners/base.py:171-176 | Repaying lowers balance and lease by the same amount and keeps both non-negative. |
| ShortfallBase.BaseMinerState.RepayLease | shortfall/miners/base.py:106 | Repays the smaller of the lease and the available balance. Afterwards either the lease is cleared or nothing is available. |
| ShortfallBase.BaseMinerState.BurnFee | shortfall/miners/base.py:160-164 | Burning moves the amount from balance to the burned total and never overdraws the available balance. |
| ShortfallBase.BaseMinerState.EarnReward | shortfall/miners/base.py:137-141 | A reward raises the balance and the lifetime reward by the same amount. |
| ShortfallBase.BaseMinerState.AccrueLeaseFee | shortfall/miners/base.py:178-181 | A lease fee raises the lease and the lifetime fee total by the same amount. |
| ShortfallBase.BaseMinerState.VestReward | shortfall/miners/base.py:143-158 | 25% of a reward is available at once. The other 75% is locked and spread over the following vesting epochs, and nothing else in the ledger changes. |
| ShortfallBase.BaseMinerState.HandleVest | shortfall/miners/base.py:133-135 | Vesting releases the amount from the locked vesting total only. |
| ShortfallBase.BaseMinerState.HandleExpiration | shortfall/miners/base.py:129-131 | An expiring bunch removes its power and pledge from the miner. |
| ShortfallBase.BaseMinerState.ActivateSectors | shortfall/miners/base.py:75-99 | A lock short of the requirement is refused and leaves the miner unchanged. Otherwise exactly the requirement is locked, the missing tokens are leased, and the power and requirement are scheduled to expire after the duration. |
| ShortfallBase.BaseMinerState.AddSectors | shortfall/miners/base.py:92-97 | Adds the power and lock, leases the shortfall in available balance, and grows the scheduled power and pledge by the bunch. |
| ShortfallBase.BaseMinerState.ReceiveReward | shortfall/miners/base.py:101-106 | The reward is vested and its available part repays as much lease as it can. Afterwards either the lease is cleared or nothing is available. |
| ShortfallBase.BaseMinerState.BeginEpoch | shortfall/miners/base.py:112-117 | One epoch's lease fee is added to the lease and to the lifetime fee total, and the epoch and pledge-epoch counters advance. |
| ShortfallBase.BaseMinerState.AvailableBalance | shortfall/miners/base.py:67-68 | Defines the available balance as the balance less locked pledge and locked vesting. It has no contract of its own: the operations' contracts state what they do to it (activation, reward and end of epoch keep it non-negative). |
| ShortfallBase.BaseMinerState.MaxPledgeForTokens | shortfall/miners/base.py:70-73 | The strict miner takes no shortfall, so a lock buys exactly that much nominal pledge. It has no contract of its own. |
| ShortfallBase.BaseMinerState.PopExpirations | shortfall/miners/base.py:120 | Removes and returns the bunches scheduled for the epoch and changes nothing else. |
| ShortfallBase.BaseMinerState.SettleVesting | shortfall/miners/base.py:125-127 | The amount scheduled to vest this epoch is released and removed from the table, and the vesting invariant holds. |
| ShortfallBase.BaseMinerState.AdvanceEpoch | shortfall/miners/base.py:108-127 | The end-of-epoch fee and vesting steps together. |
| ShortfallBase.BaseMinerState.HandleEpoch | shortfall/miners/base.py:108-127 | Accrues one epoch's lease fee, expires the bunches due this epoch and vests the amount due. Nothing more is scheduled for this epoch. When nothing else was scheduled, no power or pledge remains. The available balance never falls. |
| ShortfallBase.BaseMinerState.ExpireAll | shortfall/miners/base.py:121-122 | Expiring a list of bunches removes their total power and pledge. |
| ShortfallNetwork.GeometricSumTelescopes | shortfall/network.py:103-104 | The decay sum satisfies the closed form of a geometric series. |
| ShortfallNetwork.SumOverExponentialDecayIsGeometric | shortfall/network.py:103-104 | The sum over exponential decay is the geometric series in 1 − decay. |
| ShortfallNetwork.PowBounds | shortfall/network.py:103-104 | Powers of a factor in [0, 1] stay in [0, 1]. |
| ShortfallNetwork.GeometricSumBounds | shortfall/network.py:103-104 | The series over 0..d of a factor in [0, 1] lies between 1 and d + 1. |
| ShortfallNetwork.GeometricSumShift | shortfall/network.py:103-104 | Extending the series by one term is 1 plus the factor times the old series. |
| ShortfallNetwork.SumOverExponentialDecayBounds | shortfall/network.py:103-104 | For a decay in [0, 1], the sum over a duration lies between 1 and duration + 1. |
| ShortfallNetwork.ProjectionShift | shortfall/network.py:95-97 | Projecting one more epoch adds the decayed projection of the rest to this epoch's reward. |
| ShortfallNetwork.ProjectedRewardSign | shortfall/network.py:95-97 | A projection is positive exactly when the per-epoch reward is. It is never below one epoch's reward. |
| ShortfallNetwork.NetworkState.constructor | shortfall/network.py:62-69 | The network starts from the configured epoch, power, baseline, supply, reward, decay and lease fee. |
| ShortfallNetwork.NetworkState.HandleEpoch | shortfall/network.py:71-74 | Each epoch advances the counter, decays the reward and grows the baseline, and leaves power, supply and rates alone. Validity is preserved. |
| ShortfallNetwork.NetworkState.PowerForInitialPledge | shortfall/network.py:82-86 | The power a pledge buys is a whole number of sectors. It is the largest such multiple that does not exceed the pro-rata power for that pledge. |
| ShortfallNetwork.FloorToSectors | shortfall/network.py:86 | Flooring to sectors gives a sector multiple within one sector below its input. |
| ShortfallNetwork.ExpectedRewardBootstrap | shortfall/network.py:91-92 | With no network power, every power is expected to earn the whole projected network reward. |
| ShortfallNetwork.ExpectedRewardProRata | shortfall/network.py:93 | With network power, expected reward is the power's pro-rata share of the projected reward. |
| ShortfallNetwork.ExpectedRewardSign | shortfall/network.py:88-93 | Expected reward is non-negative for non-negative power. It is positive when power and the epoch reward are positive. |
| ShortfallNetwork.ExpectedRewardMonotone | shortfall/network.py:88-93 | More power is never expected to earn less. |
| ShortfallNetwork.InitialPledgeOfNothing | shortfall/network.py:76-80 | Adding no power requires no pledge when the network has power. |
| ShortfallNetwork.InitialPledgeMonotone | shortfall/network.py:76-80 | The pledge requirement is non-negative and never falls as power grows. |
| ShortfallNetwork.ConsensusPledgeMonotone | shortfall/network.py:79 | The consensus part of the pledge is non-negative and monotone in power. |
| ShortfallNetwork.InitialPledgeLinear | shortfall/network.py:76-80 | Times network power, the requirement is power times the per-unit-share pledge, which is the quantity the inverse divides by. |
| ShortfallNetwork.PowerForInitialPledgeRoundTrip | shortfall/network.py:82-86 | Pricing a whole-sector power and converting the pledge back yields the same power. |
| ShortfallNetwork.PowerForExactPledge | shortfall/network.py:82-86 | A pledge exactly proportional to a sector multiple converts back to that power. |
| ShortfallNetwork.InitialPledgeWithinInverse | shortfall/network.py:76-86 | The requirement never exceeds the linear price that the inverse assumes. |
| ShortfallNetwork.SumOverExponentialDecay | shortfall/network.py:103-105 | Defines the closed form (1 − (1 − r)^d + r·(1 − r)^d) / r of the decay sum. It has no contract of its own: SumOverExponentialDecayIsGeometric proves it is the geometric sum, and the bounds lemma beside it places it between 1 and d + 1. |
| ShortfallNetwork.ProjectedReward | shortfall/network.py:95-97 | Defines the projection as the epoch reward times the decay sum. It has no contract of its own: ProjectionShift relates the projections over d and d + 1 epochs. |
| ShortfallNetwork.NetworkState.ExpectedRewardForPower | shortfall/network.py:88-93 | Defines the expected reward: the whole projected network reward while network power is not positive, otherwise the power's pro-rata share of it. It has no contract of its own: ExpectedRewardBootstrap, ExpectedRewardProRata, ExpectedRewardSign and ExpectedRewardMonotone state its properties. |
| ShortfallNetwork.NetworkState.InitialPledgeForPower | shortfall/network.py:76-80 | Defines the requirement as a storage part (20 days of projected reward) plus a consensus part (the power's share of 30% of supply, over the larger of power and baseline). It has no contract of its own: InitialPledgeOfNothing, InitialPledgeMonotone, InitialPledgeLinear and InitialPledgeWithinInverse state its properties. |
| ShortfallNetwork.NetworkState.FeeForTokenLease | shortfall/network.py:99-100 | Defines the lease fee as amount × annual rate × duration / one year. It has no contract of its own: BeginEpoch and HandleEpoch state the one-epoch fee they charge with it. |
| ShortfallNetwork.PowerForPledgeAffordable | shortfall/network.py:82-86 | The power a pledge buys never requires more than that pledge. |
| ShortfallNetwork.LeaseFeeAdditive | shortfall/network.py:99-100 | The lease fee is non-negative and additive in both the amount and the duration. |
| ShortfallRatchet.RepayRatchetShortfallMinerState.constructor | shortfall/miners/repay_ratchet.py:33-53 | A new ratchet miner has an empty ledger, no requirement and a zero take rate. Its repayment cap is the complement of the fee cap. |
| ShortfallRatchet.RepayRatchetShortfallMinerState.ShortfallFraction | shortfall/miners/repay_ratchet.py:165-174 | The fraction is at most 1 and positive exactly when a shortfall exists and is allowed. It is exact below the maximum and saturates above it. |
| ShortfallRatchet.RepayRatchetShortfallMinerState.FeeAndRepayment | shortfall/miners/repay_ratchet.py:140-150 | The fee is within the fee cap. The repayment is within the take rate and never exceeds the shortfall. Together they never exceed the reward, and both are zero without a shortfall. With a shortfall the fee is proportional to it, and the repayment clears it exactly when the reward at the take rate covers it. |
| ShortfallRatchet.RepayRatchetShortfallMinerState.ActivateSectors | shortfall/miners/repay_ratchet.py:80-127 | A lock below the policy minimum is refused with no change. Otherwise the sectors are added with the resolved lock. The take rate only rises, and when it would exceed the repayment cap the call fails after the sectors were added. |
| ShortfallRatchet.RepayRatchetShortfallMinerState.CommitSectors | shortfall/miners/repay_ratchet.py:105-125 | Records the sectors and then settles the take rate. The invariant holds and the rate does not fall. |
| ShortfallRatchet.RepayRatchetShortfallMinerState.SettleTakeRate | shortfall/miners/repay_ratchet.py:117-125 | The rate becomes high enough to repay the whole shortfall over the repayment term, unless that exceeds the cap, which is an error. The ledger is untouched. |
| ShortfallRatchet.RepayRatchetShortfallMinerState.ShortfallSettled | shortfall/miners/repay_ratchet.py:117-125 | When there is no shortfall the rate is settled without a check. |
| ShortfallRatchet.RepayRatchetShortfallMinerState.AddSectors | shortfall/miners/repay_ratchet.py:105-112 | Leases what the lock lacks, adds the power and lock to the base, and adds the full requirement to the pledge required. |
| ShortfallRatchet.RepayRatchetShortfallMinerState.RecordSectors | shortfall/miners/repay_ratchet.py:107-112 | The base schedules the bunch at the full requirement and locks only the lock, so the shortfall grows by their difference. |
| ShortfallRatchet.RepayRatchetShortfallMinerState.RatchetTakeRate | shortfall/miners/repay_ratchet.py:117-125 | Succeeds exactly when shortfall/expected is within the cap. Then the rate is the larger of the old rate and that ratio, and it covers the shortfall. On failure the rate is unchanged. |
| ShortfallRatchet.RepayRatchetShortfallMinerState.MinimumWithinRequirement | shortfall/miners/repay_ratchet.py:95-97 | The policy minimum never exceeds the requirement, and the incremental shortfall is non-negative. |
| ShortfallRatchet.RepayRatchetShortfallMinerState.IncrementalShortfall | shortfall/miners/repay_ratchet.py:95-96 | Defines an activation's allowed shortfall as the repayment share of its expected reward over the shorter of the commitment and the repayment term. It has no contract of its own: MinimumWithinRequirement bounds the minimum built from it. |
| ShortfallRatchet.RepayRatchetShortfallMinerState.MinimumPledge | shortfall/miners/repay_ratchet.py:89-97 | Defines the least accepted lock as the requirement less the incremental shortfall. It has no contract of its own: MinimumWithinRequirement and MaxPledgeInvertsMinimum state its properties. |
| ShortfallRatchet.RepayRatchetShortfallMinerState.MaxShortfall | shortfall/miners/repay_ratchet.py:167-168 | Defines the largest shortfall the miner's power may carry as the repayment share of that power's expected reward over the repayment term. It has no contract of its own: ShortfallFraction states how the fraction depends on it. |
| ShortfallRatchet.RepayRatchetShortfallMinerState.ShortfallShare | shortfall/miners/repay_ratchet.py:69-76 | Defines the share of nominal pledge that may go unlocked: the repayment share of the projected reward over the term, over the per-unit-share pledge. It has no contract of its own: MaxPledgeInvertsMinimum uses it. |
| ShortfallRatchet.RepayRatchetShortfallMinerState.MaxPledgeForTokens | shortfall/miners/repay_ratchet.py:69-76 | Defines the largest nominal pledge for a lock as the lock over one minus the shortfall share. It has no contract of its own: MaxPledgeInvertsMinimum proves it inverts the minimum lock. |
| ShortfallRatchet.RepayRatchetShortfallMinerState.ShortfallNeedsReward | shortfall/miners/repay_ratchet.py:117-121 | Once power is positive, the reward it projects over the term is positive, so the ratchet's division is defined. |
| ShortfallRatchet.RepayRatchetShortfallMinerState.ReceiveReward | shortfall/miners/repay_ratchet.py:130-154 | The reward is credited in full, without vesting. Then the fee is burned and the repayment locked. The rate resets to zero only when the shortfall is gone, and the lease is then repaid as far as possible. |
| ShortfallRatchet.RepayRatchetShortfallMinerState.TakeAndRepay | shortfall/miners/repay_ratchet.py:140-154 | Burns the fee and locks the repayment, then repays the lease. |
| ShortfallRatchet.RepayRatchetShortfallMinerState.TakeShares | shortfall/miners/repay_ratchet.py:140-150 | The fee leaves the balance, the repayment moves into the pledge, and the invariant holds. |
| ShortfallRatchet.RepayRatchetShortfallMinerState.LockRepayment | shortfall/miners/repay_ratchet.py:145-150 | The repayment raises the locked pledge, and the rate is reset once the shortfall reaches zero. |
| ShortfallRatchet.RepayRatchetShortfallMinerState.HandleExpiration | shortfall/miners/repay_ratchet.py:157-163 | Releases pledge in proportion to the satisfaction ratio. The ratio of locked to required is unchanged, and everything is released with the last requirement. |
| ShortfallRatchet.RepayRatchetShortfallMinerState.HandleEpoch | shortfall/miners/base.py:108-127 | The base epoch steps with the ratchet's proportional expiry. The take rate is unchanged and the satisfaction ratio is kept. |
| ShortfallRatchet.RepayRatchetShortfallMinerState.ExpireBunches | shortfall/miners/base.py:120-122 | Expires the bunches due at an epoch through the proportional release, keeping the satisfaction ratio. |
| ShortfallRatchet.Takes | shortfall/miners/repay_ratchet.py:140-150 | Bounds and the exact fee and repayment for a reward at a shortfall fraction. |
| ShortfallRatchet.SharesWithinReward | shortfall/miners/repay_ratchet.py:140-150 | Fee and repayment never exceed the reward when their caps add up to at most one. |
| ShortfallRatchet.FeeShare | shortfall/miners/repay_ratchet.py:140-142 | The fee is the reward times the fraction times the fee cap, and zero with no shortfall. |
| ShortfallRatchet.RepaymentShare | shortfall/miners/repay_ratchet.py:145-148 | The repayment is bounded by the take rate and the shortfall, and it equals the shortfall exactly when the rate covers it. |
| ShortfallRatchet.RateCovers | shortfall/miners/repay_ratchet.py:117-123 | A rate at least shortfall/expected repays the shortfall from the expected reward. |
| ShortfallRatchet.ProportionalRelease | shortfall/miners/repay_ratchet.py:157-163 | Releasing locked pledge in proportion to the expiring requirement keeps the ratio and never leaves more locked than required. |
| ShortfallRatchet.ReleaseKeepsRatio | shortfall/miners/repay_ratchet.py:159-161 | After a proportional release, locked/required is unchanged. |
| ShortfallRatchet.ReleaseWithin | shortfall/miners/repay_ratchet.py:159-161 | After a proportional release, a miner that never locked more than required still does not. |
| ShortfallRatchet.ReleaseAll | shortfall/miners/base.py:121-122 | Releasing a list of bunches removes their total power and requirement, and leaves the locked pledge at the original ratio of the rest. |
| ShortfallRatchet.ReleaseStep | shortfall/miners/base.py:121-122 | One iteration of that loop keeps the ratio invariant. |
| ShortfallRatchet.ReleaseExpiring | shortfall/miners/base.py:121-122 | Expiring bunches one by one removes their power and requirement and keeps the satisfaction ratio. It releases everything once no requirement is left. |
| ShortfallRatchet.OutlastsEveryBunch | shortfall/miners/repay_ratchet.py:159 | The precondition for expiring a list is exactly that the requirement is non-zero before each bunch, which the division needs. |
| ShortfallRatchet.ReleaseOne | shortfall/miners/repay_ratchet.py:159-161 | A single proportional release leaves the ratio times the remaining requirement. |
| ShortfallRatchet.MaxPledgeInvertsMinimum | shortfall/miners/repay_ratchet.py:70-77 | The maximum pledge for a given lock inverts the minimum lock: the minimum lock of a requirement buys back exactly that requirement. |
| ShortfallRatchet.MinimumIsShareOfPledge | shortfall/miners/repay_ratchet.py:95-97 | The minimum lock is the requirement less a fixed share of it. |
| ShortfallRatchet.PledgeTerms | shortfall/miners/repay_ratchet.py:70-77 | The minimum and the maximum pledge are built from the same projected reward and share terms. |
| ShortfallRatchet.ShareOfPledge | shortfall/miners/repay_ratchet.py:95-97 | Algebra that rewrites the minimum as a share of the requirement. |
| ShortfallBurn.BurnShortfallMinerState.constructor | shortfall/miners/burn.py:26-33 | A new burn miner has an empty ledger, its configured fraction, exponent and curve, and no pending fee. |
| ShortfallBurn.BurnShortfallMinerState.MinimumWithinRequirement | shortfall/miners/burn.py:61 | The minimum lock is between zero and the requirement, and the allowed shortfall is the configured fraction of it. |
| ShortfallBurn.BurnShortfallMinerState.MinimumPledge | shortfall/miners/burn.py:61 | Defines the least accepted lock as the requirement times one minus the largest shortfall fraction. It has no contract of its own: MinimumWithinRequirement and MaxPledgeInvertsMinimum state its properties. |
| ShortfallBurn.BurnShortfallMinerState.MaxPledgeForTokens | shortfall/miners/burn.py:43-46 | Defines the largest nominal pledge for a lock as the lock over one minus the largest shortfall fraction. It has no contract of its own: MaxPledgeInvertsMinimum proves it inverts the minimum lock. |
| ShortfallBurn.BurnShortfallMinerState.ActivateSectors | shortfall/miners/burn.py:49-80 | A lock below the minimum is refused with no change. Otherwise the sectors are added, and the unlocked part of the requirement becomes pending fee. |
| ShortfallBurn.BurnShortfallMinerState.AddSectors | shortfall/miners/burn.py:71-78 | Leases what the lock lacks and schedules the bunch at its lock. The pending fee grows by the requirement less the lock. |
| ShortfallBurn.BurnShortfallMinerState.ReceiveReward | shortfall/miners/burn.py:83-108 | The reward is credited in full, without vesting. A fee within the pending fee and the reward is burned, and the lease is repaid as far as possible. The available balance is left non-negative. |
| ShortfallBurn.BurnShortfallMinerState.BurnAndRepay | shortfall/miners/burn.py:88-108 | Burns the take and then repays the lease. |
| ShortfallBurn.BurnShortfallMinerState.BurnPendingFee | shortfall/miners/burn.py:88-105 | The burned amount leaves the balance and the pending fee, and the available balance stays non-negative. |
| ShortfallBurn.BurnShortfallMinerState.HandleExpiration | shortfall/miners/burn.py:110-117 | The pending fee shrinks in proportion to the expiring power, so the fee per unit of power is unchanged. It is forgiven entirely with the last power. |
| ShortfallBurn.BurnShortfallMinerState.HandleEpoch | shortfall/miners/base.py:108-127 | The base epoch steps with proportional forgiveness. The pending fee never grows, is unchanged when nothing expires, and keeps its ratio to power. It is forgiven entirely with the last power. The available balance never falls. |
| ShortfallBurn.BurnShortfallMinerState.ExpireBunches | shortfall/miners/base.py:120-122 | Expires the bunches due at an epoch and forgives fee in proportion to them. The fee is unchanged when nothing expires. |
| ShortfallBurn.OwedFraction | shortfall/miners/burn.py:93-94 | The owed fraction is in (0, 1] while a fee is pending. |
| ShortfallBurn.FeeTakeRate | shortfall/miners/burn.py:93-100 | The take rate is at least the base burn rate and at most 1. |
| ShortfallBurn.BurnTake | shortfall/miners/burn.py:88-105 | The fee is zero with nothing pending, and never exceeds the pending fee or the reward. It is at least the base rate's share. It is positive for a positive reward, and it clears the pending fee exactly when the reward at the rate covers it. |
| ShortfallBurn.RateShare | shortfall/miners/burn.py:97-103 | A rate between the base rate and 1 takes between the base share and the whole reward. |
| ShortfallBurn.PowerOutlastsEveryBunch | shortfall/miners/burn.py:113-116 | The precondition for expiring a list is exactly that power is non-zero before each bunch, which the division needs. |
| ShortfallBurn.ForgiveExpiring | shortfall/miners/base.py:121-122 | Expiring bunches one by one removes their power and pledge. The pending fee never grows, keeps its ratio to power, is zero once power is gone, and is unchanged when no bunch expires. |
| ShortfallBurn.KeptPerPower | shortfall/miners/burn.py:113-116 | Fee kept in proportion to power has an unchanged fee per power and vanishes with the power. |
| ShortfallBurn.ForgiveAll | shortfall/miners/base.py:121-122 | The forgiving loop leaves the pending fee at the original ratio of the remaining power. |
| ShortfallBurn.ForgiveStep | shortfall/miners/base.py:121-122 | One iteration of the forgiving loop keeps that ratio. |
| ShortfallBurn.ForgiveShare | shortfall/miners/burn.py:113-116 | Forgiving one bunch leaves the ratio times the remaining power, within the old pending fee. |
| ShortfallBurn.ForgiveOne | shortfall/miners/burn.py:113-116 | The source's scaling of the pending fee by the remaining share of power equals the ratio times the remaining power. |
| ShortfallBurn.Rescale | shortfall/miners/burn.py:113-116 | Algebra for rescaling by a share. |
| ShortfallBurn.ShareWithin | shortfall/miners/burn.py:113-116 | A non-negative ratio of a smaller power is no larger. |
| ShortfallBurn.MaxPledgeInvertsMinimum | shortfall/miners/burn.py:43-46 | The maximum pledge for a lock and the minimum lock for a pledge are inverse to each other. |
| Strategy.Activate | shortfall/strategy.py:106 | Dispatches activation to the miner's policy. The pledge locked never exceeds the requirement or a non-zero offered lock, and power grows by the amount asked or not at all. |
| Strategy.AvailableLock | shortfall/strategy.py:79-80 | The lock offered is the smaller of the available balance plus the lease headroom and the onboarding pledge headroom. |
| Strategy.TargetPower | shortfall/strategy.py:87 | The target is the smaller of the power headroom and the onboarding headroom. |
| Strategy.RoundToSectors | shortfall/strategy.py:103 | Rounding gives a sector multiple at most one sector below the power. |
| Strategy.Decide | shortfall/strategy.py:88-100 | When power binds, the target is kept and the lock is the requirement less the chosen shortfall. When the pledge binds, the affordable power is used with the whole available lock. |
| Strategy.FullShortfallLocksNothing | shortfall/strategy.py:95-96 | With full shortfall and power binding, the strategy locks nothing. |
| Strategy.OfferWithinAvailableLock | shortfall/strategy.py:81-100 | For a shortfall below 1, the lock offered never exceeds the available lock and always covers the requirement net of the shortfall. |
| Strategy.OfferWhenPowerBinds | shortfall/strategy.py:91-96 | In the power-bound branch the lock is within the available lock and covers the requirement net of the shortfall. |
| Strategy.OfferWhenPledgeBinds | shortfall/strategy.py:97-100 | In the pledge-bound branch the same holds. |
| Strategy.PledgeWithinOffer | shortfall/strategy.py:105-108 | The pledge a miner locks for an offer never exceeds the available lock. |
| Strategy.MinerStrategy.constructor | shortfall/strategy.py:72-76 | A new strategy has its configuration and has onboarded and pledged nothing. |
| Strategy.MinerStrategy.Plan | shortfall/strategy.py:79-103 | The planned power is a sector multiple within both power headrooms. For a shortfall below 1 its lock is within the pledge headroom. |
| Strategy.MinerStrategy.Act | shortfall/strategy.py:78-108 | Activates the planned power when it is positive. It never pushes the miner's power past the maximum or the onboarded totals past their caps, and an error leaves the counters alone. |
| Strategy.MinerStrategy.Onboard | shortfall/strategy.py:105-108 | Activates and adds the power and pledge actually taken to the lifetime counters. |
| LegacyNetwork.ExpectedRewardBootstrap | network.py:28-30 | With no network power, any power over any duration is expected to earn one epoch reward. |
| LegacyNetwork.ExpectedRewardProRata | network.py:28-31 | With network power, expected reward is the power's share of duration times the epoch reward. |
| LegacyNetwork.ExpectedRewardMonotone | network.py:28-31 | Expected reward is non-negative and never falls as power grows. |
| LegacyNetwork.InitialPledgeMonotone | network.py:20-24 | The requirement is non-negative and never falls as power grows. |
| LegacyNetwork.NoPowerRequirement | network.py:20-30 | Adding no power costs nothing on a network with power, but costs a whole epoch reward on an empty one. |
| LegacyNetwork.ConsensusMonotone | network.py:22 | The consensus part is non-negative and monotone in power. |
| LegacyNetwork.InitialPledgeNonNegative | network.py:20-24 | The requirement is never negative. |
| LegacyNetwork.InitialPledgeLinear | network.py:20-24 | On a network with power, the requirement is linear in the added power. |
| LegacyNetwork.NetworkState.InitialPledgeForPower | network.py:20-24 | Defines the requirement as the expected reward over the projection period plus the power's share of the target lock of supply. It has no contract of its own: InitialPledgeNonNegative, InitialPledgeMonotone and InitialPledgeLinear state its properties. |
| LegacyNetwork.NetworkState.ExpectedRewardForPower | network.py:28-31 | Defines the expected reward: one epoch reward while the network has no power, otherwise the power's share of duration times the epoch reward. It has no contract of its own: ExpectedRewardBootstrap, ExpectedRewardProRata and ExpectedRewardMonotone state its properties. |
| LegacyMiner.MinerState.constructor | miner.py:8-12 | A new miner has its balance, no power and no pledge. |
| LegacyMiner.MinerState.AvailableBalance | miner.py:14-15 | Defines the available balance as the balance less the initial pledge. It has no contract of its own: ActivateSectors and ReceiveReward state what they do to it. |
| LegacyMiner.MinerState.ActivateSectors | miner.py:17-24 | Activation fails, with no change, exactly when the available balance is under the requirement. Otherwise it adds the power and pledge, and the available balance stays non-negative. |
| LegacyMiner.MinerState.ReceiveReward | miner.py:26-28 | A reward raises the balance and the available balance by the reward. |
| LegacyBase.BaseMinerState.constructor | miners/base.py:13-24 | A new miner holds only its balance. |
| LegacyBase.BaseMinerState.AvailableBalance | miners/base.py:41-42 | Defines the available balance as the balance less the locked pledge. It has no contract of its own: the operations' contracts state what they do to it (activation and end of epoch keep it non-negative). |
| LegacyBase.BaseMinerState.Lease | miners/base.py:107-110 | Leasing leaves net equity unchanged. |
| LegacyBase.BaseMinerState.LeaseForLock | miners/base.py:64 | Leases exactly what the available balance lacks for the lock. |
| LegacyBase.BaseMinerState.Repay | miners/base.py:112-117 | Repaying lowers balance and lease together and keeps both non-negative. |
| LegacyBase.BaseMinerState.RepayLease | miners/base.py:78 | Repays the smaller of the lease and the available balance, clearing one of them. |
| LegacyBase.BaseMinerState.BurnFee | miners/base.py:101-105 | Burning moves the amount from balance to the burned total without overdrawing the available balance. |
| LegacyBase.BaseMinerState.EarnReward | miners/base.py:96-99 | A reward raises balance and lifetime reward together. |
| LegacyBase.BaseMinerState.AccrueLeaseFee | miners/base.py:119-122 | A fee raises lease and lifetime fee together. |
| LegacyBase.BaseMinerState.HandleExpiration | miners/base.py:92-94 | An expiring bunch removes its power and pledge. |
| LegacyBase.BaseMinerState.ActivateSectors | miners/base.py:48-71 | A lock short of the requirement is refused with no change. Otherwise exactly the requirement is locked, with the missing tokens leased and the bunch scheduled. |
| LegacyBase.BaseMinerState.AddSectors | miners/base.py:64-69 | Adds power and lock, leases the gap, and grows the scheduled sums by the bunch. |
| LegacyBase.BaseMinerState.ReceiveReward | miners/base.py:73-78 | The whole reward is earned and repays as much lease as it can. |
| LegacyBase.BaseMinerState.HandleEpoch | miners/base.py:80-90 | Accrues the lease fee and expires this epoch's bunches. Nothing remains scheduled for the epoch. The available balance never falls. |
| LegacyBase.BaseMinerState.PopExpirations | miners/base.py:88 | Removes and returns the epoch's bunches. |
| LegacyBase.BaseMinerState.ExpireAll | miners/base.py:89-90 | Expiring a list removes its total power and pledge. |
| LegacyRatchet.RepayRatchetShortfallMinerState.constructor | miners/repay_ratchet.py:25-28 | A new legacy ratchet miner has an empty ledger, no requirement and a zero take rate. |
| LegacyRatchet.RepayRatchetShortfallMinerState.FeeAndRepayment | miners/repay_ratchet.py:105-115 | Fee within 25% of the reward, repayment within the take rate and the shortfall, and their sum within the reward. Both are zero without a shortfall, and otherwise they are exact. |
| LegacyRatchet.RepayRatchetShortfallMinerState.ActivateSectors | miners/repay_ratchet.py:52-95 | A lock under the minimum is refused, reporting the requirement, with no change. Otherwise the sectors are added and the take rate ratchets up or the call fails above the cap. |
| LegacyRatchet.RepayRatchetShortfallMinerState.AddSectors | miners/repay_ratchet.py:77-84 | Leases the gap, adds power and lock, and adds the requirement to the pledge required. |
| LegacyRatchet.RepayRatchetShortfallMinerState.RecordSectors | miners/repay_ratchet.py:79-84 | The base records the bunch at its requirement with the lock, and the required pledge grows by the requirement. |
| LegacyRatchet.RepayRatchetShortfallMinerState.SettleTakeRate | miners/repay_ratchet.py:86-93 | The rate rises to cover the shortfall over the term, or the call fails when that exceeds the cap. |
| LegacyRatchet.RepayRatchetShortfallMinerState.ReceiveReward | miners/repay_ratchet.py:96-118 | The fee is burned, the repayment locked and the lease repaid. The take rate is never reset. |
| LegacyRatchet.RepayRatchetShortfallMinerState.TakeShares | miners/repay_ratchet.py:105-115 | The fee leaves the balance and the repayment joins the pledge. |
| LegacyRatchet.RepayRatchetShortfallMinerState.HandleExpiration | miners/repay_ratchet.py:120-127 | Releases pledge in proportion to the satisfaction ratio and keeps that ratio. |
| LegacyRatchet.RepayRatchetShortfallMinerState.HandleEpoch | miners/base.py:80-90 | The base epoch with proportional release. The satisfaction ratio is kept. |
| LegacyRatchet.RepayRatchetShortfallMinerState.ExpireBunches | miners/base.py:88-90 | Expires the epoch's bunches with proportional release. |
| LegacyRatchet.ShortfallFractionOf | miners/repay_ratchet.py:129-138 | The fraction is at most 1, positive exactly when a shortfall exists and is allowed, exact below the maximum and saturated above it. |
| LegacyRatchet.MinimumWithinRequirement | miners/repay_ratchet.py:62-69 | The minimum lock never exceeds the non-negative requirement. |
| LegacyRatchet.ExpectedRewardNonNegative | miners/repay_ratchet.py:62-69 | The expected reward used for the maximum shortfall is non-negative. |
| LegacyRatchet.MaxPledgeInvertsMinimum | miners/repay_ratchet.py:44-49 | The maximum pledge for the minimum lock of a requirement is that requirement. |
| LegacyRatchet.MaxShortfall | miners/repay_ratchet.py:131-132 | Defines the largest shortfall a power may carry as the repayment share of its expected reward over the repayment term. It has no contract of its own: ShortfallFractionOf states how the fraction depends on it. |
| LegacyRatchet.IncrementalShortfall | miners/repay_ratchet.py:67-68 | Defines an activation's allowed shortfall as the repayment share of its expected reward over the shorter of the commitment and the repayment term. It has no contract of its own: MinimumWithinRequirement bounds the minimum built from it. |
| LegacyRatchet.MinimumPledge | miners/repay_ratchet.py:62-69 | Defines the least accepted lock as the requirement less the incremental shortfall. It has no contract of its own: MinimumWithinRequirement and MaxPledgeInvertsMinimum state its properties. |
| LegacyRatchet.ShortfallShare | miners/repay_ratchet.py:48-49 | Defines the simplified share of nominal pledge that may go unlocked. It has no contract of its own: MaxPledgeInvertsMinimum uses it. |
| LegacyRatchet.MaxPledgeForTokens | miners/repay_ratchet.py:44-49 | Defines the largest nominal pledge for a lock as the lock over one minus the shortfall share. It has no contract of its own: MaxPledgeInvertsMinimum proves it inverts the minimum lock. |
| LegacyProportional.RepayProportionalShortfallMinerState.constructor | miners/repay_proportional.py:24-26 | A new proportional miner has an empty ledger and no requirement. |
| LegacyProportional.RepayProportionalShortfallMinerState.FeeAndRepayment | miners/repay_proportional.py:98-111 | The takes for the miner's current shortfall fraction, within the reward. |
| LegacyProportional.RepayProportionalShortfallMinerState.ActivateSectors | miners/repay_proportional.py:49-89 | A lock under the minimum is refused, reporting the minimum. If the resulting satisfaction would drop below the minimum for the miner's total power, the call fails after adding. A success always leaves the satisfaction at least that minimum. |
| LegacyProportional.RepayProportionalShortfallMinerState.AddSectors | miners/repay_proportional.py:70-77 | Leases the gap, adds power and lock, and grows the required pledge by the requirement. |
| LegacyProportional.RepayProportionalShortfallMinerState.ReceiveReward | miners/repay_proportional.py:92-115 | The fee is burned, the repayment locked and the lease repaid. |
| LegacyProportional.RepayProportionalShortfallMinerState.TakeShares | miners/repay_proportional.py:100-111 | The fee leaves the balance and the repayment joins the pledge. |
| LegacyProportional.RepayProportionalShortfallMinerState.HandleExpiration | miners/repay_proportional.py:118-124 | Proportional release that keeps the satisfaction ratio. |
| LegacyProportional.RepayProportionalShortfallMinerState.HandleEpoch | miners/base.py:80-90 | The base epoch with proportional release. |
| LegacyProportional.RepayProportionalShortfallMinerState.ExpireBunches | miners/base.py:88-90 | Expires the epoch's bunches with proportional release. |
| LegacyProportional.MinSatisfactionIsMinimumLock | miners/repay_proportional.py:59-62 | For a commitment at least as long as the repayment term, the satisfaction check's minimum equals the activation minimum. |
| LegacyProportional.MinSatisfaction | miners/repay_proportional.py:81-84 | Defines the least pledge the whole miner must lock as its whole requirement less the largest shortfall its power allows. It has no contract of its own: MinSatisfactionIsMinimumLock relates it to the minimum lock. |
| LegacyProportional.RepaymentTakeRate | miners/repay_proportional.py:107-109 | The repayment rate lies between a quarter of the cap and the cap. |
| LegacyProportional.ProportionalTakes | miners/repay_proportional.py:98-111 | Fee and repayment within their caps and the reward, both zero without a shortfall, and exact otherwise. |
| LegacyBurn.MaxPledgeInvertsMinimum | miners/burn.py:29-31 | The minimum lock is half the requirement, and the maximum pledge for it gives back the requirement. |
| LegacyBurn.MinimumPledge | miners/burn.py:45 | Defines the least accepted lock as half the requirement. It has no contract of its own: MaxPledgeInvertsMinimum states its properties. |
| LegacyBurn.MaxPledgeForTokens | miners/burn.py:29-31 | Defines the largest nominal pledge for a lock as the lock over the largest shortfall fraction. It has no contract of its own: MaxPledgeInvertsMinimum proves it gives back the requirement from the minimum lock. |
| LegacyBurn.BurnShortfallMinerState.constructor | miners/burn.py:17-19 | A new legacy burn miner has an empty ledger and no pending fee. |
| LegacyBurn.BurnShortfallMinerState.ActivateSectors | miners/burn.py:34-62 | A lock under half the requirement is refused with no change. Otherwise the unlocked part becomes pending fee. |
| LegacyBurn.BurnShortfallMinerState.AddSectors | miners/burn.py:53-60 | Leases the gap, schedules the bunch at its lock, and grows the pending fee by the requirement less the lock. |
| LegacyBurn.BurnShortfallMinerState.ReceiveReward | miners/burn.py:65-84 | The reward is earned, the quadratic take is burned and the lease repaid. The available balance is left non-negative. |
| LegacyBurn.BurnShortfallMinerState.BurnPendingFee | miners/burn.py:70-81 | The take leaves balance and pending fee together without overdrawing. |
| LegacyBurn.BurnShortfallMinerState.HandleExpiration | miners/burn.py:86-93 | The pending fee shrinks in proportion to expiring power and is forgiven with the last power. |
| LegacyBurn.BurnShortfallMinerState.HandleEpoch | miners/base.py:80-90 | The base epoch with proportional forgiveness. The pending fee never grows, is unchanged when nothing expires, and is forgiven with the last power. The available balance never falls. |
| LegacyBurn.BurnShortfallMinerState.ExpireBunches | miners/base.py:88-90 | Expires the epoch's bunches with proportional forgiveness. The fee is unchanged when nothing expires. |
| LegacyBurn.QuadraticTakeRate | miners/burn.py:71-74 | The rate is in (0, 1], and it is 1 exactly when nothing is locked. |
| LegacyBurn.LockedShare | miners/burn.py:72 | The locked share of locked plus pending is in [0, 1), and zero exactly when nothing is locked. |
| LegacyBurn.QuadraticBurnTake | miners/burn.py:70-81 | The take is within the pending fee and the reward, and zero with nothing pending. It is positive for a positive reward, takes the whole reward, up to the pending fee, when nothing is locked, and clears the pending fee exactly when the reward at the rate covers it. |

## Left out

- The source's constants module (`consts.py`) is not part of this model. `Consts` assumes a day of 2880 epochs, a 365-day year and 32 GiB sectors. The proofs use only the fact that these are positive.
- `REWARD_DECAY` and `BASELINE_GROWTH` are defined with `exp` and `log` in the source. Here they are rational values of about the same size, and proofs use only that each lies in [0, 1].
- Floating-point and `Decimal` arithmetic is modelled as exact real arithmetic, so rounding error is not captured.
- Powers with a real exponent (`**` in the burn policy) and `math.sqrt` in the proportional policy become function parameters. They are assumed only to map [0, 1] into [0, 1].
- A division by zero in the source, which Python reports with `ZeroDivisionError`, becomes a `requires` on the member that divides.
- The default lock of infinity is not modelled. Any lock at least the requirement behaves the same, because the source clamps it down.
- The `assert` checks on argument signs and sector multiples in the source are `requires` clauses.
- The text of error messages is not modelled, only the values they report.
- Summaries, `main.py`, `sim.py`, the miner factories, the preset configurations and the network presets are reporting and driving code, so they are not modelled.
- The legacy network has no lease-fee function, although the legacy `miners/base.py:84` calls one. Legacy `HandleEpoch` therefore takes the fee as a parameter.
- `LegacyProportional`: `max_pledge_for_tokens` (`miners/repay_proportional.py:42-46`) calls `projected_reward`, which the legacy network lacks, so it is not modelled.
- `LegacyBase.BaseMinerState`: `max_pledge_for_tokens` returns its lock unchanged and has no contract worth a row.
- Python dispatch on the miner's class is modelled by the `Strategy.Miner` datatype, which has one variant each for the strict, burn and ratchet miners.
- `Strategy.MinerStrategy.Act`: the cap on total pledge onboarded is proved only when the configured shortfall is below 1. With full shortfall the lock comes from the policy's own maximum pledge.
- The policies' invariants assume a valid network: non-negative supply, reward and power, and a decay in [0, 1].
- `LegacyBurn.MaxPledgeInvertsMinimum`: the source computes the minimum with 1 − 0.5 and the maximum pledge by dividing by 0.5. They are inverse only because the constant is one half, and the lemma is stated for that constant.
- `LegacyBurn.QuadraticTakeRate`: the rate is always positive, so the source's `if rate > 0` guard always holds. The model keeps the guard.
- The vesting loop in `ShortfallBase.SpreadVesting` works on the table as a value. The order of the dictionary's keys is not modelled.
- `ShortfallBurn.ForgiveExpiring`, `ShortfallRatchet.ReleaseExpiring`: the per-bunch expiry loops work on values passed in and out rather than on the miner's fields.
- The ratchet and proportional miners, current and legacy, do not keep the available balance non-negative, and no contract says they do. Their minimum lock is the requirement less the incremental shortfall (`shortfall/miners/repay_ratchet.py:95-97`, `miners/repay_ratchet.py:67-69`, `miners/repay_proportional.py:60-62`), which is negative when the shortfall share of expected reward exceeds the requirement. A zero lock then locks a negative amount, and a later proportional release of an expiring bunch re-locks pledge out of the available balance.
