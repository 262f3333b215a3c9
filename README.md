# Staking farm reward accrual ledger, in Dafny

This project models the reward accrual core of the MultiversX staking farm contract
(`farm-staking`). The core is a global reward-per-share counter that advances lazily.
Some mutating calls first turn the blocks elapsed since `last_reward_block_nonce` into
reward: `end_produce_rewards`, `set_per_block_rewards` and
`set_max_apr` do, and so do the stake, claim, compound and unstake flows of the other
modules. `top_up_rewards`, `start_produce_rewards`, `set_min_unbond_epochs` and `init`
do not. A top-up therefore does not accrue first, and the next accrual funds blocks
that elapsed before the top-up out of the enlarged capacity. The reward is bounded twice:

- by the per-block rate;
- by an APR cap: `supply * max_apr / 10_000 / BLOCKS_IN_YEAR` per block, truncated
  before it is multiplied by the number of elapsed blocks.

The reward is then clipped to the funded `reward_capacity` and added to
`accumulated_rewards`. It is also spread over the farm token supply as a
reward-per-share increase, scaled by the division safety constant. A position's payout
is `amount * (current_rps - initial_rps) / division_safety_constant`, or zero when the
counter has not moved past the position's snapshot. Around the ledger sit:

- the admin setters: top up, start and stop production, change the rate or APR cap,
  set the minimum unbond epochs;
- contract initialisation;
- the one-shot farm position migration nonce;
- the VM-query guard.

Files:

- `outcomes.dfy`: module `Outcomes`. The endpoint errors, `Outcome` and `Result`.
- `reward_math.dfy`: module `RewardMath`. The constants (`MAX_PERCENT = 10_000`,
  `BLOCKS_IN_YEAR = 31_536_000 / 6`, `MAX_MIN_UNBOND_EPOCHS = 30`), the pure formulas,
  and the lemmas about the payout formula.
- `ledger.dfy`: module `Ledger`. The ledger's storage cells as one value
  (`LedgerState`), and the accrual step and each setter as functions on that value.
  It also holds the properties of accrual and an invariant over any sequence of calls.
- `farm_staking.dfy`: module `FarmStaking`. Class `StakingFarm`, whose fields are the
  contract's storage cells. Every endpoint is a method that updates those fields in
  place. The ledger endpoints (accrual, top up, start and stop production, rate and
  APR cap) are proved to do exactly what the matching `Ledger` function says.
  `SetMinUnbondEpochs`, `Init` and the migration nonce have no `Ledger` function;
  their contracts state every cell they write directly.

Conventions of the model:

- All amounts are unsigned big integers, so they are `nat`, and `/` truncates.
- The block nonce is the `currentBlock` parameter.
- The caller's admin permission is the `isAdmin` parameter. A non-admin call fails with
  `NotAdmin` before any other check.
- A top-up's payment is a token id and an amount.
- A numeric storage cell that is empty reads as 0, and storing 0 leaves it empty. So
  "set if empty" writes exactly when the cell holds 0. Token id cells are empty when
  they hold `""`.
- A failing endpoint rolls back all of its writes. The methods therefore check every
  guard before their first write, and leave the storage unchanged on failure.

Two behaviours of the code worth stating:

- Accrual with production disabled still moves `last_reward_block_nonce` to the current
  block; only the reward is zero (`Ledger.AccrueWhileDisabled`).
- `top_up_rewards` requires an admin caller as well as the reward token.

## Model

| member | source | states |
|---|---|---|
| `RewardMath.PerBlockRewards` | farm-staking/farm-staking/src/custom_rewards.rs:114-127 | The rate-bound reward is zero exactly when no block elapsed, production is off or the rate is zero; otherwise it is at most rate times elapsed blocks |
| `RewardMath.AprBoundedPerBlock` | farm-staking/farm-staking/src/custom_rewards.rs:160-163 | Dividing by 10 000 and then by `BLOCKS_IN_YEAR` equals one division by their product; the result is the largest per-block amount whose yearly total stays within `amount * max_apr` basis points |
| `RewardMath.RewardPerShareIncrease` | farm-staking/farm-staking/src/custom_rewards.rs:138-144 | The increase, times the supply, stays within `reward * dsc`, and adding one more would exceed it |
| `RewardMath.CalculateReward` | farm-staking/farm-staking/src/custom_rewards.rs:146-158 | Zero when `current_rps <= initial_rps`; otherwise the truncated quotient of `amount * (current_rps - initial_rps)` by `dsc`; never negative |
| `RewardMath.CalculateRewardMonotone` | farm-staking/farm-staking/src/custom_rewards.rs:146-158 | The payout never decreases as the current reward per share grows |
| `RewardMath.CalculateRewardMonotoneInAmount` | farm-staking/farm-staking/src/custom_rewards.rs:146-158 | A larger position never earns less over the same counter movement |
| `RewardMath.CalculateRewardSplit` | farm-staking/farm-staking/src/custom_rewards.rs:146-158 | Claiming at an intermediate counter value and again later pays at most what one claim over the whole span pays |
| `RewardMath.RewardPerShareIncreaseSuperadditive` | farm-staking/farm-staking/src/custom_rewards.rs:138-144 | Two rewards spread separately raise the counter at most as much as their sum spread at once |
| `RewardMath.TotalPayoutBound` | farm-staking/farm-staking/src/custom_rewards.rs:146-158 | Paying a set of positions one by one never exceeds paying their summed amount at once |
| `RewardMath.NoOverDistribution` | farm-staking/farm-staking/src/custom_rewards.rs:129-158 | Positions making up the whole supply, snapshotted before a counter increase for `reward`, are owed at most `reward` in total |
| `Ledger.ExtraRewards` | farm-staking/farm-staking/src/custom_rewards.rs:19-40 | The extra reward is zero when no block elapsed or production is off; it is at most `rate * diff` and at most the truncated per-block APR bound times `diff`, and equals one of the two |
| `Ledger.ClipToCapacity` | farm-staking/farm-staking/src/custom_rewards.rs:45-52 | The kept reward is at most the extra reward, keeps `accumulated <= capacity`, and when anything is cut the accumulated rewards reach the capacity exactly |
| `Ledger.Accrue` | farm-staking/farm-staking/src/custom_rewards.rs:42-59 | Keeps `accumulated_rewards <= reward_capacity`; accumulated rewards grow by at most the extra reward and reach the capacity when clipped; the nonce moves to the current block when it is later; reward per share grows by exactly the accrued reward spread over the supply, and stays put when the supply is zero; nothing else changes |
| `Ledger.TopUpRewards` | farm-staking/farm-staking/src/custom_rewards.rs:63-71 | Raises the capacity by exactly the payment, changes nothing else, and keeps the ledger invariant |
| `Ledger.StartProduceRewards` | farm-staking/farm-staking/src/custom_rewards.rs:165-179 | Succeeds exactly when the rate is non-zero and production is off (zero rate reported first); on success production is on and accrual restarts at the current block, so nothing is produced retroactively |
| `Ledger.EndProduceRewards` | farm-staking/farm-staking/src/custom_rewards.rs:73-79 | Accrues up to the current block, then turns production off; afterwards no accrual at any block produces reward |
| `Ledger.SetPerBlockRewardAmount` | farm-staking/farm-staking/src/custom_rewards.rs:81-88 | Fails exactly on zero; on success it accrues under the old rate, then stores the new rate, keeping the invariant |
| `Ledger.SetMaxApr` | farm-staking/farm-staking/src/custom_rewards.rs:90-97 | Fails exactly on zero; on success it accrues under the old APR cap, then stores the new one, keeping the invariant |
| `Ledger.AccrueNothingElapsed` | farm-staking/farm-staking/src/custom_rewards.rs:19-40 | When the current block is not past the last reward block, accrual changes no state |
| `Ledger.AccrueIdempotentInBlock` | farm-staking/farm-staking/src/custom_rewards.rs:42-59 | A second accrual in the same block adds nothing |
| `Ledger.AccrueWhileDisabled` | farm-staking/farm-staking/src/custom_rewards.rs:19-40 | With production off, accrual only moves the block nonce forward: the nonce is written at lines 23 and 34, and the per-block reward of lines 119-121 is zero |
| `Ledger.AccrueClipsToCapacity` | farm-staking/farm-staking/src/custom_rewards.rs:49-55 | When the extra reward would overrun the capacity, the accumulated rewards end exactly at the capacity |
| `Ledger.AccrueRewardPerShareBacked` | farm-staking/farm-staking/src/custom_rewards.rs:129-144 | The counter increase times the supply never exceeds the newly accrued reward times `dsc` |
| `Ledger.AccrueNoOverDistribution` | farm-staking/farm-staking/src/custom_rewards.rs:42-59 | Positions making up the supply, snapshotted before an accrual, are owed in total at most what that accrual added |
| `Ledger.ExtraRewardsPathIndependent` | farm-staking/farm-staking/src/custom_rewards.rs:19-40 | With unchanged parameters, the extra reward over two consecutive spans equals the extra reward over their union |
| `Ledger.AccrueSplit` | farm-staking/farm-staking/src/custom_rewards.rs:42-59 | Accruing twice without a parameter change leaves the same accumulated rewards and nonce as accruing once; reward per share can only be lower, by truncation |
| `Ledger.Step` | farm-staking/farm-staking/src/custom_rewards.rs:61-179 | Any single ledger call, successful or rolled back, keeps the invariant and never lowers reward per share, accumulated rewards or capacity |
| `Ledger.Run` | farm-staking/farm-staking/src/custom_rewards.rs:61-179 | The same holds across any sequence of calls: reward per share and accumulated rewards never decrease, and accumulated rewards never exceed capacity |
| `FarmStaking.RequireQueried` | farm-staking/farm-staking/src/lib.rs:144-151 | Passes exactly when the caller is the contract's own address |
| `FarmStaking.StakingFarm.CalculateExtraRewardsSinceLastAllocation` | farm-staking/farm-staking/src/custom_rewards.rs:19-40 | Returns `Ledger.ExtraRewards` of the old state; only the nonce changes, and it moves to the current block whenever that block is later |
| `FarmStaking.StakingFarm.UpdateRewardPerShare` | farm-staking/farm-staking/src/custom_rewards.rs:129-136 | Adds the reward-per-share increase when the supply is positive; otherwise changes nothing |
| `FarmStaking.StakingFarm.GenerateAggregatedRewards` | farm-staking/farm-staking/src/custom_rewards.rs:42-59 | The storage afterwards is `Ledger.Accrue` of the storage before, so every property of `Accrue` holds of the contract |
| `FarmStaking.StakingFarm.TopUpRewards` | farm-staking/farm-staking/src/custom_rewards.rs:61-71 | Fails for a non-admin, then for a token other than the reward token, changing nothing; otherwise does `Ledger.TopUpRewards` |
| `FarmStaking.StakingFarm.EndProduceRewards` | farm-staking/farm-staking/src/custom_rewards.rs:73-79 | Fails for a non-admin, changing nothing; otherwise does `Ledger.EndProduceRewards` |
| `FarmStaking.StakingFarm.SetPerBlockRewardAmount` | farm-staking/farm-staking/src/custom_rewards.rs:81-88 | Fails for a non-admin or a zero amount, changing nothing; otherwise does `Ledger.SetPerBlockRewardAmount` |
| `FarmStaking.StakingFarm.SetMaxApr` | farm-staking/farm-staking/src/custom_rewards.rs:90-97 | Fails for a non-admin or a zero APR, changing nothing; otherwise does `Ledger.SetMaxApr` |
| `FarmStaking.StakingFarm.StartProduceRewards` | farm-staking/farm-staking/src/custom_rewards.rs:165-179 | Fails for a non-admin, a zero rate or production already on, changing nothing; otherwise does `Ledger.StartProduceRewards` |
| `FarmStaking.StakingFarm.TrySetMinUnbondEpochs` | farm-staking/farm-staking/src/custom_rewards.rs:105-112 | Rejects values above 30 and leaves the cell unchanged; otherwise stores the value; no other cell changes |
| `FarmStaking.StakingFarm.SetMinUnbondEpochs` | farm-staking/farm-staking/src/custom_rewards.rs:99-103 | Admin-only entry to the setter above; keeps `min_unbond_epochs <= 30` |
| `FarmStaking.StakingFarm.BaseFarmInit` | farm-staking/farm-staking/src/lib.rs:76-83 | The scale and the reward and farming tokens (one token here) are written only into empty cells |
| `FarmStaking.StakingFarm.TrySetFarmPositionMigrationNonce` | farm-staking/farm-staking/src/lib.rs:153-181 | Once the nonce is set, later calls change nothing. Without an issued farm token the nonce becomes 1. With one, a placeholder position is created and burned at once, and its nonce is kept. The placeholder has zero reward per share, zero compounded reward and zero farm amount, and the contract as owner |
| `FarmStaking.StakingFarm.InitRewardLimits` | farm-staking/farm-staking/src/lib.rs:86-92 | The APR cap and the min unbond epochs are written only into empty cells; a stored value is kept |
| `FarmStaking.StakingFarm.Init` | farm-staking/farm-staking/src/lib.rs:66-96 | Fails on a zero scale, then on a zero APR, then on min unbond epochs above 30, changing nothing. On success it writes the scale, APR and unbond epochs only where empty, so an upgrade never overwrites them. It sets the migration nonce once; when the farm token is issued it advances the NFT nonce counter by one and logs the create and burn of the all-zero placeholder position, otherwise it leaves the counter and log alone. It establishes the contract invariant |

## Left out

- The farm base initialisation (`base_farm_init`) is not part of this model. `BaseFarmInit` stands in for it with two assumptions:
  - it refuses a zero division safety constant;
  - it writes the constant, the reward token and the farming token only into empty cells.

  These are the assumptions the invariant `division_safety_constant > 0` rests on. The
  other checks and writes of `base_farm_init` are not modelled: the token id validity
  checks, the farm state, and the owner and admin registration.
- Admin permissions, pausing and whitelisting are not part of this model. The caller's
  permission is the `isAdmin` parameter.
- `call_value().single_fungible_esdt()` is host I/O, and so is its own check that exactly
  one fungible payment came with the call. The payment arrives as a token id and an amount.
- The farm token's `nft_create` and `nft_burn` are host I/O. They appear as a nonce
  counter and a log of created and burned positions. Whether the farm token is issued is
  a flag. Every other call that issues the token or changes these cells is not modelled.
- `merge_farm_tokens_endpoint` is not modelled. It depends on `migrate_old_farm_positions`,
  `claim_only_boosted_payment` and `merge_from_payments_and_burn`, which are not part of
  this model.
- `calculate_rewards_for_given_position` is modelled only as its `RequireQueried` guard.
  The rest goes through `FarmStakingWrapper`, which is not part of this model.
- The stake, claim, compound, unstake and unbond modules, the boosted yields, the weekly
  reward splitting and the energy queries are not part of this model. In `Ledger.Run`
  their effect on the ledger appears only as two calls:
  - `Aggregate`, the accrual each of them performs;
  - `SupplyWrite`, an arbitrary write of the farm token supply.

  The invariants of `Run` are proved for any such writes.
- The read-only views (`getRewardPerShare`, `getAccumulatedRewards`, `getRewardCapacity`,
  `getAnnualPercentageRewards`, `getMinUnbondEpochs`) are the class fields themselves.
- Block nonces and epochs are `u64` in the source and `nat` here. The only subtraction
  of nonces is guarded by a comparison, so no wrap-around is left out.
- The fees collector, the pair, router and simple-lock endpoint tables and the
  farm-staking-proxy test setup are outside the modelled core.
