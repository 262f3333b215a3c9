/** The staking farm contract's storage and the endpoints that write it: the lazy
    accrual step, the governance setters, contract initialisation and the one-shot
    farm position migration nonce.

    The blockchain clock becomes a `currentBlock` parameter, the caller's admin
    permission an `isAdmin` parameter, the attached payment a token and an amount.
    A numeric storage cell that was never written, or was written with zero, is
    empty and reads as 0, so "set if empty" writes exactly when the cell holds 0.
    An endpoint that fails rolls back everything it wrote, so every method checks
    its guards before its first write. */
module FarmStaking {
  import opened RewardMath
  import opened Outcomes
  import opened Ledger

  type TokenId = string
  type Address = string

  /** The migration nonce used while the farm token has not been issued yet. */
  const DEFAULT_FARM_POSITION_MIGRATION_NONCE: nat := 1

  /** The attributes a staking farm position token carries. */
  datatype StakingFarmTokenAttributes = StakingFarmTokenAttributes(
    rewardPerShare: nat,
    compoundedReward: nat,
    currentFarmAmount: nat,
    originalOwner: Address)

  /** What the farm token's creations and burns do on the host's token ledger. */
  datatype NftEvent =
    | Created(nonce: nat, amount: nat, attributes: StakingFarmTokenAttributes)
    | Burned(nonce: nat, amount: nat)

  /** `require_queried`: only the contract itself, as in a VM query, may call. */
  function RequireQueried(caller: Address, scAddress: Address): (r: Outcome)
    ensures r == Pass <==> caller == scAddress
    ensures r != Pass ==> r == Fail(NotQueried)
  {
    if caller == scAddress then Pass else Fail(NotQueried)
  }

  class StakingFarm {
    // the reward accrual ledger
    var rewardPerShare: nat
    var accumulatedRewards: nat
    var rewardCapacity: nat
    var perBlockRewardAmount: nat
    var maxApr: nat
    var lastRewardBlockNonce: nat
    var produceRewardsEnabled: bool
    var farmTokenSupply: nat
    var divisionSafetyConstant: nat
    // configuration
    var minUnbondEpochs: nat
    var rewardTokenId: TokenId
    var farmingTokenId: TokenId
    var farmPositionMigrationNonce: nat
    // the farm token on the host: whether it is issued, the last nonce it created,
    // and the creations and burns performed so far
    var farmTokenIssued: bool
    var lastNftNonce: nat
    var nftEvents: seq<NftEvent>

    /** The ledger cells as one value. */
    function State(): LedgerState
      reads this
    {
      LedgerState(rewardPerShare, accumulatedRewards, rewardCapacity, perBlockRewardAmount, maxApr,
                  lastRewardBlockNonce, produceRewardsEnabled, farmTokenSupply, divisionSafetyConstant)
    }

    /** What holds of any storage this contract ever had, initialised or not. */
    ghost predicate Consistent()
      reads this
    {
      accumulatedRewards <= rewardCapacity && minUnbondEpochs <= MAX_MIN_UNBOND_EPOCHS
    }

    /** What holds once `init` succeeded. */
    ghost predicate Valid()
      reads this
    {
      Consistent() && State().Valid() && maxApr > 0 && farmPositionMigrationNonce > 0
    }

    /** Storage of a contract that was deployed but never initialised: every cell empty. */
    constructor ()
      ensures Consistent()
      ensures State() == LedgerState(0, 0, 0, 0, 0, 0, false, 0, 0)
      ensures minUnbondEpochs == 0 && rewardTokenId == "" && farmingTokenId == ""
      ensures farmPositionMigrationNonce == 0 && !farmTokenIssued && lastNftNonce == 0 && nftEvents == []
    {
      rewardPerShare, accumulatedRewards, rewardCapacity := 0, 0, 0;
      perBlockRewardAmount, maxApr, lastRewardBlockNonce := 0, 0, 0;
      produceRewardsEnabled := false;
      farmTokenSupply, divisionSafetyConstant := 0, 0;
      minUnbondEpochs := 0;
      rewardTokenId, farmingTokenId := "", "";
      farmPositionMigrationNonce := 0;
      farmTokenIssued, lastNftNonce, nftEvents := false, 0, [];
    }

    // -------------------------------------------------------------------------
    // Accrual
    // -------------------------------------------------------------------------

    /** `calculate_extra_rewards_since_last_allocation`: the reward for the elapsed
        blocks; moves the block nonce forward whenever the clock passed it, even
        when production is disabled. */
    method CalculateExtraRewardsSinceLastAllocation(currentBlock: nat) returns (extra: nat)
      modifies this`lastRewardBlockNonce
      ensures extra == ExtraRewards(old(State()), currentBlock)
      ensures State() == old(State()).(lastRewardBlockNonce :=
        if currentBlock > old(lastRewardBlockNonce) then currentBlock else old(lastRewardBlockNonce))
    {
      var lastRewardNonce := lastRewardBlockNonce;
      if currentBlock > lastRewardNonce {
        var extraRewardsUnbounded :=
          PerBlockRewards(currentBlock, lastRewardNonce, perBlockRewardAmount, produceRewardsEnabled);
        var extraRewardsAprBoundedPerBlock := AprBoundedPerBlock(farmTokenSupply, maxApr);
        var blockNonceDiff := currentBlock - lastRewardNonce;
        var extraRewardsAprBounded := extraRewardsAprBoundedPerBlock * blockNonceDiff;
        lastRewardBlockNonce := currentBlock;
        extra := if extraRewardsUnbounded <= extraRewardsAprBounded
                 then extraRewardsUnbounded else extraRewardsAprBounded;
      } else {
        extra := 0;
      }
    }

    /** `update_reward_per_share`: spread a reward over the supply; nothing to
        spread it over when the supply is zero. */
    method UpdateRewardPerShare(rewardIncrease: nat)
      modifies this`rewardPerShare
      ensures farmTokenSupply == 0 ==> rewardPerShare == old(rewardPerShare)
      ensures farmTokenSupply > 0 ==>
        rewardPerShare == old(rewardPerShare) + RewardPerShareIncrease(rewardIncrease, divisionSafetyConstant, farmTokenSupply)
    {
      if farmTokenSupply > 0 {
        var increase := RewardPerShareIncrease(rewardIncrease, divisionSafetyConstant, farmTokenSupply);
        rewardPerShare := rewardPerShare + increase;
      }
    }

    /** `generate_aggregated_rewards`: the accrual every mutating operation starts with. */
    method GenerateAggregatedRewards(currentBlock: nat)
      requires State().Valid()
      modifies this`lastRewardBlockNonce, this`accumulatedRewards, this`rewardPerShare
      ensures State().Valid()
      ensures State() == Accrue(old(State()), currentBlock)
    {
      var extraRewards := CalculateExtraRewardsSinceLastAllocation(currentBlock);
      if extraRewards > 0 {
        var accumulated := accumulatedRewards;
        var totalRewards := accumulated + extraRewards;
        var capacity := rewardCapacity;
        if totalRewards > capacity {
          var amountOverCapacity := totalRewards - capacity;
          extraRewards := extraRewards - amountOverCapacity;
        }
        accumulated := accumulated + extraRewards;
        accumulatedRewards := accumulated;
        UpdateRewardPerShare(extraRewards);
      }
    }

    // -------------------------------------------------------------------------
    // Governance endpoints
    // -------------------------------------------------------------------------

    /** `top_up_rewards`: an admin funds the capacity with a payment in the reward token. */
    method TopUpRewards(isAdmin: bool, paymentToken: TokenId, paymentAmount: nat) returns (r: Outcome)
      requires Valid()
      modifies this`rewardCapacity
      ensures Valid()
      ensures r == if !isAdmin then Fail(NotAdmin)
                   else if paymentToken != rewardTokenId then Fail(InvalidToken)
                   else Pass
      ensures State() == if r == Pass then Ledger.TopUpRewards(old(State()), paymentAmount) else old(State())
    {
      if !isAdmin {
        return Fail(NotAdmin);
      }
      if paymentToken != rewardTokenId {
        return Fail(InvalidToken);
      }
      rewardCapacity := rewardCapacity + paymentAmount;
      r := Pass;
    }

    /** `end_produce_rewards`: accrue up to now, then stop production. */
    method EndProduceRewards(isAdmin: bool, currentBlock: nat) returns (r: Outcome)
      requires Valid()
      modifies this`lastRewardBlockNonce, this`accumulatedRewards, this`rewardPerShare, this`produceRewardsEnabled
      ensures Valid()
      ensures r == if isAdmin then Pass else Fail(NotAdmin)
      ensures State() == if isAdmin then Ledger.EndProduceRewards(old(State()), currentBlock) else old(State())
    {
      if !isAdmin {
        return Fail(NotAdmin);
      }
      GenerateAggregatedRewards(currentBlock);
      produceRewardsEnabled := false;
      r := Pass;
    }

    /** `set_per_block_rewards`: refuse zero; accrue under the old rate, then store the new one. */
    method SetPerBlockRewardAmount(isAdmin: bool, perBlockAmount: nat, currentBlock: nat) returns (r: Outcome)
      requires Valid()
      modifies this`lastRewardBlockNonce, this`accumulatedRewards, this`rewardPerShare, this`perBlockRewardAmount
      ensures Valid()
      ensures var spec := Ledger.SetPerBlockRewardAmount(old(State()), perBlockAmount, currentBlock);
        r == (if isAdmin then spec.ToOutcome() else Fail(NotAdmin)) &&
        State() == (if isAdmin then spec.GetOr(old(State())) else old(State()))
    {
      if !isAdmin {
        return Fail(NotAdmin);
      }
      if perBlockAmount == 0 {
        return Fail(ZeroPerBlockAmount);
      }
      GenerateAggregatedRewards(currentBlock);
      perBlockRewardAmount := perBlockAmount;
      r := Pass;
    }

    /** `set_max_apr`: refuse zero; accrue under the old APR, then store the new one. */
    method SetMaxApr(isAdmin: bool, newMaxApr: nat, currentBlock: nat) returns (r: Outcome)
      requires Valid()
      modifies this`lastRewardBlockNonce, this`accumulatedRewards, this`rewardPerShare, this`maxApr
      ensures Valid()
      ensures var spec := Ledger.SetMaxApr(old(State()), newMaxApr, currentBlock);
        r == (if isAdmin then spec.ToOutcome() else Fail(NotAdmin)) &&
        State() == (if isAdmin then spec.GetOr(old(State())) else old(State()))
    {
      if !isAdmin {
        return Fail(NotAdmin);
      }
      if newMaxApr == 0 {
        return Fail(ZeroMaxApr);
      }
      GenerateAggregatedRewards(currentBlock);
      maxApr := newMaxApr;
      r := Pass;
    }

    /** `start_produce_rewards`: needs a non-zero rate and production off; accrual
        then starts at the current block. */
    method StartProduceRewards(isAdmin: bool, currentBlock: nat) returns (r: Outcome)
      requires Valid()
      modifies this`produceRewardsEnabled, this`lastRewardBlockNonce
      ensures Valid()
      ensures var spec := Ledger.StartProduceRewards(old(State()), currentBlock);
        r == (if isAdmin then spec.ToOutcome() else Fail(NotAdmin)) &&
        State() == (if isAdmin then spec.GetOr(old(State())) else old(State()))
    {
      if !isAdmin {
        return Fail(NotAdmin);
      }
      if perBlockRewardAmount == 0 {
        return Fail(ZeroRewardAmount);
      }
      if produceRewardsEnabled {
        return Fail(AlreadyProducing);
      }
      var currentNonce := currentBlock;
      produceRewardsEnabled := true;
      lastRewardBlockNonce := currentNonce;
      r := Pass;
    }

    /** `try_set_min_unbond_epochs`: at most `MAX_MIN_UNBOND_EPOCHS`. */
    method TrySetMinUnbondEpochs(epochs: nat) returns (r: Outcome)
      modifies this`minUnbondEpochs
      ensures r == if epochs <= MAX_MIN_UNBOND_EPOCHS then Pass else Fail(InvalidMinUnbondEpochs)
      ensures minUnbondEpochs == if r == Pass then epochs else old(minUnbondEpochs)
    {
      if epochs > MAX_MIN_UNBOND_EPOCHS {
        return Fail(InvalidMinUnbondEpochs);
      }
      minUnbondEpochs := epochs;
      r := Pass;
    }

    /** `set_min_unbond_epochs_endpoint`: the admin-only entry to the setter above. */
    method SetMinUnbondEpochs(isAdmin: bool, epochs: nat) returns (r: Outcome)
      requires Valid()
      modifies this`minUnbondEpochs
      ensures Valid()
      ensures r == if !isAdmin then Fail(NotAdmin)
                   else if epochs <= MAX_MIN_UNBOND_EPOCHS then Pass
                   else Fail(InvalidMinUnbondEpochs)
      ensures minUnbondEpochs == if r == Pass then epochs else old(minUnbondEpochs)
    {
      if !isAdmin {
        return Fail(NotAdmin);
      }
      r := TrySetMinUnbondEpochs(epochs);
    }

    // -------------------------------------------------------------------------
    // Initialisation
    // -------------------------------------------------------------------------

    /** The farm token's `nft_create`, as far as this contract sees it: a fresh nonce. */
    method NftCreate(amount: nat, attributes: StakingFarmTokenAttributes) returns (nonce: nat)
      modifies this`lastNftNonce, this`nftEvents
      ensures nonce == old(lastNftNonce) + 1 == lastNftNonce
      ensures nftEvents == old(nftEvents) + [Created(nonce, amount, attributes)]
    {
      lastNftNonce := lastNftNonce + 1;
      nonce := lastNftNonce;
      nftEvents := nftEvents + [Created(nonce, amount, attributes)];
    }

    /** The farm token's `nft_burn`. */
    method NftBurn(nonce: nat, amount: nat)
      modifies this`nftEvents
      ensures nftEvents == old(nftEvents) + [Burned(nonce, amount)]
    {
      nftEvents := nftEvents + [Burned(nonce, amount)];
    }

    /** `try_set_farm_position_migration_nonce`: set once, then never again. With the
        farm token issued, a placeholder position is created and burned at once and
        its nonce kept; otherwise the default nonce is used. */
    method TrySetFarmPositionMigrationNonce(scAddress: Address)
      modifies this`farmPositionMigrationNonce, this`lastNftNonce, this`nftEvents
      ensures farmPositionMigrationNonce > 0
      ensures old(farmPositionMigrationNonce) != 0 ==>
        farmPositionMigrationNonce == old(farmPositionMigrationNonce) &&
        lastNftNonce == old(lastNftNonce) && nftEvents == old(nftEvents)
      ensures old(farmPositionMigrationNonce) == 0 && !farmTokenIssued ==>
        farmPositionMigrationNonce == DEFAULT_FARM_POSITION_MIGRATION_NONCE &&
        lastNftNonce == old(lastNftNonce) && nftEvents == old(nftEvents)
      ensures old(farmPositionMigrationNonce) == 0 && farmTokenIssued ==>
        farmPositionMigrationNonce == old(lastNftNonce) + 1 == lastNftNonce &&
        nftEvents == old(nftEvents) + [
          Created(farmPositionMigrationNonce, 1, StakingFarmTokenAttributes(0, 0, 0, scAddress)),
          Burned(farmPositionMigrationNonce, 1)]
    {
      if farmPositionMigrationNonce != 0 {
        return;
      }
      var attributes := StakingFarmTokenAttributes(
        rewardPerShare := 0,
        compoundedReward := 0,
        currentFarmAmount := 0,
        originalOwner := scAddress);
      var migrationFarmTokenNonce;
      if farmTokenIssued {
        migrationFarmTokenNonce := NftCreate(1, attributes);
        NftBurn(migrationFarmTokenNonce, 1);
      } else {
        migrationFarmTokenNonce := DEFAULT_FARM_POSITION_MIGRATION_NONCE;
      }
      farmPositionMigrationNonce := migrationFarmTokenNonce;
    }

    /** The part of the farm base initialisation this model keeps: the scale and the
        reward and farming tokens (the same token here) are stored if still empty. */
    method BaseFarmInit(farmingToken: TokenId, dsc: nat)
      requires 0 < dsc
      modifies this`divisionSafetyConstant, this`rewardTokenId, this`farmingTokenId
      ensures divisionSafetyConstant == if old(divisionSafetyConstant) == 0 then dsc else old(divisionSafetyConstant)
      ensures rewardTokenId == if old(rewardTokenId) == "" then farmingToken else old(rewardTokenId)
      ensures farmingTokenId == if old(farmingTokenId) == "" then farmingToken else old(farmingTokenId)
    {
      if divisionSafetyConstant == 0 {
        divisionSafetyConstant := dsc;
      }
      if rewardTokenId == "" {
        rewardTokenId := farmingToken;
      }
      if farmingTokenId == "" {
        farmingTokenId := farmingToken;
      }
    }

    /** The APR cap and the unbond period `init` writes, each only into an empty cell. */
    method InitRewardLimits(maxAprArg: nat, minUnbondEpochsArg: nat)
      modifies this`maxApr, this`minUnbondEpochs
      ensures maxApr == if old(maxApr) == 0 then maxAprArg else old(maxApr)
      ensures minUnbondEpochs == if old(minUnbondEpochs) == 0 then minUnbondEpochsArg else old(minUnbondEpochs)
    {
      if maxApr == 0 {
        maxApr := maxAprArg;
      }
      if minUnbondEpochs == 0 {
        minUnbondEpochs := minUnbondEpochsArg;
      }
    }

    /** `init`, run on deployment and again on every upgrade over the existing
        storage: validates its arguments and writes only cells that are empty, so
        an upgrade never overwrites a stored scale, APR or unbond period. */
    method Init(farmingToken: TokenId, dsc: nat, maxAprArg: nat, minUnbondEpochsArg: nat, scAddress: Address)
      returns (r: Outcome)
      requires Consistent()
      modifies this`divisionSafetyConstant, this`rewardTokenId, this`farmingTokenId, this`maxApr,
               this`minUnbondEpochs, this`farmPositionMigrationNonce, this`lastNftNonce, this`nftEvents
      ensures r == if dsc == 0 then Fail(ZeroDivisionSafetyConstant)
                   else if maxAprArg == 0 then Fail(InvalidMaxAprPercentage)
                   else if minUnbondEpochsArg > MAX_MIN_UNBOND_EPOCHS then Fail(InvalidMinUnbondEpochs)
                   else Pass
      ensures r != Pass ==> unchanged(this)
      ensures r == Pass ==> Valid()
      ensures r == Pass ==>
        divisionSafetyConstant == (if old(divisionSafetyConstant) == 0 then dsc else old(divisionSafetyConstant)) &&
        maxApr == (if old(maxApr) == 0 then maxAprArg else old(maxApr)) &&
        minUnbondEpochs == (if old(minUnbondEpochs) == 0 then minUnbondEpochsArg else old(minUnbondEpochs)) &&
        rewardTokenId == (if old(rewardTokenId) == "" then farmingToken else old(rewardTokenId)) &&
        farmingTokenId == (if old(farmingTokenId) == "" then farmingToken else old(farmingTokenId))
      ensures r == Pass ==>
        State() == old(State()).(divisionSafetyConstant := divisionSafetyConstant, maxApr := maxApr)
      ensures r == Pass ==>
        farmPositionMigrationNonce ==
          if old(farmPositionMigrationNonce) != 0 then old(farmPositionMigrationNonce)
          else if farmTokenIssued then old(lastNftNonce) + 1
          else DEFAULT_FARM_POSITION_MIGRATION_NONCE
      ensures r == Pass && (old(farmPositionMigrationNonce) != 0 || !farmTokenIssued) ==>
        lastNftNonce == old(lastNftNonce) && nftEvents == old(nftEvents)
      ensures r == Pass && old(farmPositionMigrationNonce) == 0 && farmTokenIssued ==>
        lastNftNonce == old(lastNftNonce) + 1 &&
        nftEvents == old(nftEvents) + [
          Created(farmPositionMigrationNonce, 1, StakingFarmTokenAttributes(0, 0, 0, scAddress)),
          Burned(farmPositionMigrationNonce, 1)]
    {
      if dsc == 0 {
        return Fail(ZeroDivisionSafetyConstant);
      }
      if maxAprArg == 0 {
        return Fail(InvalidMaxAprPercentage);
      }
      if minUnbondEpochsArg > MAX_MIN_UNBOND_EPOCHS {
        return Fail(InvalidMinUnbondEpochs);
      }
      BaseFarmInit(farmingToken, dsc);
      InitRewardLimits(maxAprArg, minUnbondEpochsArg);
      TrySetFarmPositionMigrationNonce(scAddress);
      r := Pass;
    }
  }
}
