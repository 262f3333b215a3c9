/** The reward accrual ledger of the staking farm, as values: the storage cells it
    reads and writes, the lazy accrual step (`generate_aggregated_rewards`), and
    what each governance setter does to those cells once its admin check passed.
    The `StakingFarm` class is proved to update its storage exactly as these
    functions say; the properties of the ledger are proved here, once. */
module Ledger {
  import opened RewardMath
  import opened Outcomes

  /** The storage cells of the accrual engine. A numeric cell never written reads as 0. */
  datatype LedgerState = LedgerState(
    rewardPerShare: nat,
    accumulatedRewards: nat,
    rewardCapacity: nat,
    perBlockRewardAmount: nat,
    maxApr: nat,
    lastRewardBlockNonce: nat,
    produceRewardsEnabled: bool,
    farmTokenSupply: nat,
    divisionSafetyConstant: nat)
  {
    /** The scale is positive and accrued reward never exceeds the funded capacity. */
    predicate Valid() {
      0 < divisionSafetyConstant && accumulatedRewards <= rewardCapacity
    }
  }

  /** Blocks elapsed since the last allocation, zero when the clock did not move past it. */
  function Elapsed(currentBlock: nat, lastBlock: nat): nat {
    if currentBlock > lastBlock then currentBlock - lastBlock else 0
  }

  /** The value `calculate_extra_rewards_since_last_allocation` returns: the smaller of
      the rate bound and the APR bound for the elapsed blocks, the APR bound being
      truncated per block before it is multiplied by the elapsed blocks. */
  function ExtraRewards(l: LedgerState, currentBlock: nat): (r: nat)
    ensures currentBlock <= l.lastRewardBlockNonce || !l.produceRewardsEnabled ==> r == 0
    ensures r <= l.perBlockRewardAmount * Elapsed(currentBlock, l.lastRewardBlockNonce)
    ensures r <= AprBoundedPerBlock(l.farmTokenSupply, l.maxApr) * Elapsed(currentBlock, l.lastRewardBlockNonce)
    ensures currentBlock > l.lastRewardBlockNonce && l.produceRewardsEnabled ==>
      r == l.perBlockRewardAmount * Elapsed(currentBlock, l.lastRewardBlockNonce) ||
      r == AprBoundedPerBlock(l.farmTokenSupply, l.maxApr) * Elapsed(currentBlock, l.lastRewardBlockNonce)
  {
    if currentBlock > l.lastRewardBlockNonce then
      var unbounded := PerBlockRewards(currentBlock, l.lastRewardBlockNonce, l.perBlockRewardAmount, l.produceRewardsEnabled);
      var aprBounded := AprBoundedPerBlock(l.farmTokenSupply, l.maxApr) * (currentBlock - l.lastRewardBlockNonce);
      if unbounded <= aprBounded then unbounded else aprBounded
    else
      0
  }

  /** The capacity clipping of `generate_aggregated_rewards`: the largest part of
      `extra` that still fits under `capacity`; the rest is discarded. */
  function ClipToCapacity(accumulated: nat, extra: nat, capacity: nat): (r: nat)
    requires accumulated <= capacity
    ensures r <= extra
    ensures accumulated + r <= capacity
    ensures r < extra ==> accumulated + r == capacity
  {
    var total := accumulated + extra;
    if total > capacity then extra - (total - capacity) else extra
  }

  /** `generate_aggregated_rewards`: turn the elapsed blocks into reward, clip it to
      the capacity, add it to the accumulated rewards and spread it over the supply. */
  function Accrue(l: LedgerState, currentBlock: nat): (r: LedgerState)
    requires l.Valid()
    ensures r.Valid()
    ensures r == l.(rewardPerShare := r.rewardPerShare, accumulatedRewards := r.accumulatedRewards,
                    lastRewardBlockNonce := r.lastRewardBlockNonce)
    ensures r.lastRewardBlockNonce == if currentBlock > l.lastRewardBlockNonce then currentBlock else l.lastRewardBlockNonce
    ensures l.accumulatedRewards <= r.accumulatedRewards <= l.accumulatedRewards + ExtraRewards(l, currentBlock)
    ensures r.accumulatedRewards < l.accumulatedRewards + ExtraRewards(l, currentBlock) ==>
      r.accumulatedRewards == r.rewardCapacity
    ensures l.farmTokenSupply == 0 ==> r.rewardPerShare == l.rewardPerShare
    ensures l.farmTokenSupply > 0 ==>
      r.rewardPerShare == l.rewardPerShare +
        RewardPerShareIncrease(r.accumulatedRewards - l.accumulatedRewards, l.divisionSafetyConstant, l.farmTokenSupply)
  {
    var extra := ExtraRewards(l, currentBlock);
    var advanced := l.(lastRewardBlockNonce :=
      if currentBlock > l.lastRewardBlockNonce then currentBlock else l.lastRewardBlockNonce);
    if extra > 0 then
      var clipped := ClipToCapacity(l.accumulatedRewards, extra, l.rewardCapacity);
      advanced.(
        accumulatedRewards := l.accumulatedRewards + clipped,
        rewardPerShare :=
          if l.farmTokenSupply > 0
          then l.rewardPerShare + RewardPerShareIncrease(clipped, l.divisionSafetyConstant, l.farmTokenSupply)
          else l.rewardPerShare)
    else
      advanced
  }

  // ---------------------------------------------------------------------------
  // The governance setters, after their admin check
  // ---------------------------------------------------------------------------

  /** `top_up_rewards` once the caller and the payment token were accepted. */
  function TopUpRewards(l: LedgerState, amount: nat): (r: LedgerState)
    ensures l.Valid() ==> r.Valid()
    ensures r.rewardCapacity == l.rewardCapacity + amount
    ensures r == l.(rewardCapacity := r.rewardCapacity)
  {
    l.(rewardCapacity := l.rewardCapacity + amount)
  }

  /** `start_produce_rewards`: production starts from the current block, never retroactively. */
  function StartProduceRewards(l: LedgerState, currentBlock: nat): (r: Result<LedgerState>)
    ensures r.Success? <==> l.perBlockRewardAmount != 0 && !l.produceRewardsEnabled
    ensures l.perBlockRewardAmount == 0 ==> r == Failure(ZeroRewardAmount)
    ensures l.perBlockRewardAmount != 0 && l.produceRewardsEnabled ==> r == Failure(AlreadyProducing)
    ensures r.Success? ==> r.value.produceRewardsEnabled && ExtraRewards(r.value, currentBlock) == 0
    ensures r.Success? ==> r.value == l.(produceRewardsEnabled := true, lastRewardBlockNonce := currentBlock)
  {
    if l.perBlockRewardAmount == 0 then Failure(ZeroRewardAmount)
    else if l.produceRewardsEnabled then Failure(AlreadyProducing)
    else Success(l.(produceRewardsEnabled := true, lastRewardBlockNonce := currentBlock))
  }

  /** `end_produce_rewards`: accrue up to now, then stop; no later accrual produces anything. */
  function EndProduceRewards(l: LedgerState, currentBlock: nat): (r: LedgerState)
    requires l.Valid()
    ensures r.Valid() && !r.produceRewardsEnabled
    ensures forall block: nat :: ExtraRewards(r, block) == 0
    ensures r == Accrue(l, currentBlock).(produceRewardsEnabled := false)
  {
    Accrue(l, currentBlock).(produceRewardsEnabled := false)
  }

  /** `set_per_block_rewards`: refuse zero; otherwise accrue under the old rate, then store the new one. */
  function SetPerBlockRewardAmount(l: LedgerState, amount: nat, currentBlock: nat): (r: Result<LedgerState>)
    requires l.Valid()
    ensures r.Success? <==> amount != 0
    ensures amount == 0 ==> r == Failure(ZeroPerBlockAmount)
    ensures r.Success? ==> r.value.Valid() && r.value.perBlockRewardAmount == amount
    ensures r.Success? ==> r.value == Accrue(l, currentBlock).(perBlockRewardAmount := amount)
  {
    if amount == 0 then Failure(ZeroPerBlockAmount)
    else Success(Accrue(l, currentBlock).(perBlockRewardAmount := amount))
  }

  /** `set_max_apr`: refuse zero; otherwise accrue under the old APR, then store the new one. */
  function SetMaxApr(l: LedgerState, maxApr: nat, currentBlock: nat): (r: Result<LedgerState>)
    requires l.Valid()
    ensures r.Success? <==> maxApr != 0
    ensures maxApr == 0 ==> r == Failure(ZeroMaxApr)
    ensures r.Success? ==> r.value.Valid() && r.value.maxApr == maxApr
    ensures r.Success? ==> r.value == Accrue(l, currentBlock).(maxApr := maxApr)
  {
    if maxApr == 0 then Failure(ZeroMaxApr)
    else Success(Accrue(l, currentBlock).(maxApr := maxApr))
  }

  // ---------------------------------------------------------------------------
  // Properties of one accrual step
  // ---------------------------------------------------------------------------

  /** No elapsed block, no change at all. */
  lemma AccrueNothingElapsed(l: LedgerState, currentBlock: nat)
    requires l.Valid() && currentBlock <= l.lastRewardBlockNonce
    ensures Accrue(l, currentBlock) == l
  {
  }

  /** A second accrual in the same block adds nothing: every call landing in one
      block sees the same reward per share. */
  lemma AccrueIdempotentInBlock(l: LedgerState, currentBlock: nat)
    requires l.Valid()
    ensures Accrue(Accrue(l, currentBlock), currentBlock) == Accrue(l, currentBlock)
  {
    var once := Accrue(l, currentBlock);
    assert currentBlock <= once.lastRewardBlockNonce;
    AccrueNothingElapsed(once, currentBlock);
  }

  /** With production disabled the only effect of accrual is to move the block nonce. */
  lemma AccrueWhileDisabled(l: LedgerState, currentBlock: nat)
    requires l.Valid() && !l.produceRewardsEnabled
    ensures Accrue(l, currentBlock) ==
      l.(lastRewardBlockNonce := if currentBlock > l.lastRewardBlockNonce then currentBlock else l.lastRewardBlockNonce)
  {
  }

  /** When clipping happens the accumulated rewards reach the capacity exactly. */
  lemma AccrueClipsToCapacity(l: LedgerState, currentBlock: nat)
    requires l.Valid()
    requires l.accumulatedRewards + ExtraRewards(l, currentBlock) > l.rewardCapacity
    ensures Accrue(l, currentBlock).accumulatedRewards == l.rewardCapacity
  {
  }

  /** The counter increase, applied to the whole supply, never exceeds the reward
      accrued in the same step. */
  lemma AccrueRewardPerShareBacked(l: LedgerState, currentBlock: nat)
    requires l.Valid() && l.farmTokenSupply > 0
    ensures var r := Accrue(l, currentBlock);
      (r.rewardPerShare - l.rewardPerShare) * l.farmTokenSupply
        <= (r.accumulatedRewards - l.accumulatedRewards) * l.divisionSafetyConstant
  {
  }

  /** Positions whose amounts make up the supply and whose snapshots are the counter
      before an accrual step are owed, in total, at most what that step accrued. */
  lemma AccrueNoOverDistribution(l: LedgerState, currentBlock: nat, amounts: seq<nat>)
    requires l.Valid() && Sum(amounts) == l.farmTokenSupply && l.farmTokenSupply > 0
    ensures var r := Accrue(l, currentBlock);
      TotalPayout(amounts, r.rewardPerShare, l.rewardPerShare, l.divisionSafetyConstant)
        <= r.accumulatedRewards - l.accumulatedRewards
  {
    var r := Accrue(l, currentBlock);
    NoOverDistribution(amounts, l.rewardPerShare, r.accumulatedRewards - l.accumulatedRewards, l.divisionSafetyConstant);
  }

  // ---------------------------------------------------------------------------
  // Accrual is lazy: how often it runs does not matter
  // ---------------------------------------------------------------------------

  /** With unchanged parameters, the reward produced over two consecutive spans
      equals the reward produced over their union. */
  lemma ExtraRewardsPathIndependent(l: LedgerState, midBlock: nat, currentBlock: nat)
    requires l.lastRewardBlockNonce <= midBlock <= currentBlock
    ensures ExtraRewards(l, midBlock) + ExtraRewards(l.(lastRewardBlockNonce := midBlock), currentBlock)
            == ExtraRewards(l, currentBlock)
  {
    if l.produceRewardsEnabled {
      var rate := l.perBlockRewardAmount;
      var aprRate := AprBoundedPerBlock(l.farmTokenSupply, l.maxApr);
      var d1 := midBlock - l.lastRewardBlockNonce;
      var d2 := currentBlock - midBlock;
      var m := if rate <= aprRate then rate else aprRate;
      MinOfMultiples(rate, aprRate, d1);
      MinOfMultiples(rate, aprRate, d2);
      MinOfMultiples(rate, aprRate, d1 + d2);
      assert ExtraRewards(l, midBlock) == m * d1;
      assert ExtraRewards(l.(lastRewardBlockNonce := midBlock), currentBlock) == m * d2;
      assert ExtraRewards(l, currentBlock) == m * (d1 + d2);
      MulDistributes(d1, d2, m);
    }
  }

  /** Accruing at an intermediate block and again later, with no parameter change in
      between, leaves the same accumulated rewards and block nonce as accruing once;
      the counter can only lose truncation dust. */
  lemma AccrueSplit(l: LedgerState, midBlock: nat, currentBlock: nat)
    requires l.Valid() && l.lastRewardBlockNonce <= midBlock <= currentBlock
    ensures var two := Accrue(Accrue(l, midBlock), currentBlock);
      var one := Accrue(l, currentBlock);
      two.accumulatedRewards == one.accumulatedRewards &&
      two.rewardPerShare <= one.rewardPerShare &&
      two == one.(rewardPerShare := two.rewardPerShare)
  {
    var m := Accrue(l, midBlock);
    var two := Accrue(m, currentBlock);
    var one := Accrue(l, currentBlock);
    assert m.lastRewardBlockNonce == midBlock;
    var e1 := ExtraRewards(l, midBlock);
    assert ExtraRewards(m, currentBlock) == ExtraRewards(l.(lastRewardBlockNonce := midBlock), currentBlock);
    ExtraRewardsPathIndependent(l, midBlock, currentBlock);
    if l.farmTokenSupply > 0 {
      RewardPerShareIncreaseSuperadditive(
        m.accumulatedRewards - l.accumulatedRewards, two.accumulatedRewards - m.accumulatedRewards,
        l.divisionSafetyConstant, l.farmTokenSupply);
    }
  }

  // ---------------------------------------------------------------------------
  // Any sequence of calls
  // ---------------------------------------------------------------------------

  /** A call that touches the ledger; a failing call rolls back and changes nothing.
      `Aggregate` is the accrual every staking operation performs first, and
      `SupplyWrite` stands for any write of the farm token supply by those
      operations, whatever its value. */
  datatype Call =
    | TopUp(amount: nat)
    | StartProduce(block: nat)
    | EndProduce(block: nat)
    | SetPerBlockReward(amount: nat, block: nat)
    | SetApr(maxApr: nat, block: nat)
    | Aggregate(block: nat)
    | SupplyWrite(supply: nat)

  function Step(l: LedgerState, call: Call): (r: LedgerState)
    requires l.Valid()
    ensures r.Valid() && r.divisionSafetyConstant == l.divisionSafetyConstant
    ensures l.rewardPerShare <= r.rewardPerShare && l.accumulatedRewards <= r.accumulatedRewards
    ensures l.rewardCapacity <= r.rewardCapacity
  {
    match call
    case TopUp(amount) => TopUpRewards(l, amount)
    case StartProduce(block) => StartProduceRewards(l, block).GetOr(l)
    case EndProduce(block) => EndProduceRewards(l, block)
    case SetPerBlockReward(amount, block) => SetPerBlockRewardAmount(l, amount, block).GetOr(l)
    case SetApr(maxApr, block) => SetMaxApr(l, maxApr, block).GetOr(l)
    case Aggregate(block) => Accrue(l, block)
    case SupplyWrite(supply) => l.(farmTokenSupply := supply)
  }

  /** The ledger after a sequence of calls: the invariant holds after every call,
      and neither the reward per share nor the accumulated rewards ever decrease. */
  function Run(l: LedgerState, calls: seq<Call>): (r: LedgerState)
    requires l.Valid()
    ensures r.Valid() && r.divisionSafetyConstant == l.divisionSafetyConstant
    ensures l.rewardPerShare <= r.rewardPerShare && l.accumulatedRewards <= r.accumulatedRewards
    ensures l.rewardCapacity <= r.rewardCapacity
    decreases |calls|
  {
    if calls == [] then l else Run(Step(l, calls[0]), calls[1..])
  }
}
