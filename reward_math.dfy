/** The pure arithmetic of the custom rewards module: per-block and APR bounds on
    newly produced reward, the reward-per-share increase, and the per-position payout.
    All amounts are unsigned big integers, modelled as `nat`; every `/` truncates,
    which on `nat` is Dafny's `/` exactly. */
module RewardMath {

  /** Basis points of 100%. */
  const MAX_PERCENT: nat := 10_000
  /** Seconds in a year divided by six seconds per block. */
  const BLOCKS_IN_YEAR: nat := 31_536_000 / 6
  /** Largest admissible `min_unbond_epochs`. */
  const MAX_MIN_UNBOND_EPOCHS: nat := 30

  // ---------------------------------------------------------------------------
  // Truncating division by a positive divisor. These facts hold for every
  // integer dividend, which spares the callers proving their products non-negative.
  // ---------------------------------------------------------------------------

  lemma MulMonotone(a: int, x: int, y: int)
    requires 0 <= a && x <= y
    ensures a * x <= a * y
  {
    assert a * y == a * x + a * (y - x);
  }

  lemma MulDistributes(a: int, b: int, c: int)
    ensures (a + b) * c == a * c + b * c
  {
  }

  lemma DivMod(x: int, d: int)
    requires 0 < d
    ensures x == (x / d) * d + x % d && 0 <= x % d < d
  {
  }

  /** `q` is `x / d` rounded down: `q` multiples of `d` fit within `x`, `q + 1` do not. */
  ghost predicate IsFloorQuotient(q: int, x: int, d: int) {
    q * d <= x < (q + 1) * d
  }

  lemma DivBounds(x: int, d: int)
    requires 0 < d
    ensures IsFloorQuotient(x / d, x, d)
  {
    DivMod(x, d);
    MulDistributes(x / d, 1, d);
  }

  /** Any multiple of `d` that fits below `z` is at most `z / d` multiples. */
  lemma QuotientBelow(q: int, z: int, d: int)
    requires 0 < d && q * d <= z
    ensures q <= z / d
  {
    var k := z / d;
    DivBounds(z, d);
    if q > k {
      MulMonotone(d, k + 1, q);
    }
  }

  lemma DivMonotone(x: int, y: int, d: int)
    requires 0 < d && x <= y
    ensures x / d <= y / d
  {
    DivBounds(x, d);
    QuotientBelow(x / d, y, d);
  }

  /** Truncating each part separately never gives more than truncating the whole. */
  lemma DivSuperadditive(x: int, y: int, d: int)
    requires 0 < d
    ensures x / d + y / d <= (x + y) / d
  {
    DivBounds(x, d);
    DivBounds(y, d);
    MulDistributes(x / d, y / d, d);
    QuotientBelow(x / d + y / d, x + y, d);
  }

  lemma MulCancel(a: int, b: int, d: int)
    requires 0 < d && a * d <= b * d
    ensures a <= b
  {
    if a > b {
      MulMonotone(d, b + 1, a);
    }
  }

  lemma DivOfMultiple(x: int, d: int)
    requires 0 < d
    ensures x * d / d == x
  {
    QuotientBelow(x, x * d, d);
    DivBounds(x * d, d);
    MulCancel(x * d / d, x, d);
  }

  /** The quotient is the one `q` with `x == q * d + r` and `0 <= r < d`. */
  lemma DivUnique(x: int, d: int, q: int, r: int)
    requires 0 < d && 0 <= r < d && x == q * d + r
    ensures x / d == q
  {
    QuotientBelow(q, x, d);
    var k := x / d;
    DivBounds(x, d);
    if k > q {
      MulMonotone(d, q + 1, k);
    }
  }

  /** A remainder below `b`, scaled by `a`, plus a remainder below `a` stays below `a * b`. */
  lemma RemaindersBelow(r1: int, a: int, r2: int, b: int)
    requires 0 <= r1 < a && 0 <= r2 < b
    ensures 0 <= r2 * a + r1 < a * b
  {
    MulMonotone(a, r2, b - 1);
    MulMonotone(a, 0, r2);
    assert a * (b - 1) + a == a * b;
  }

  lemma Recompose(p: int, b: int, r2: int, a: int, r1: int)
    ensures (p * b + r2) * a + r1 == p * (a * b) + (r2 * a + r1)
  {
    MulDistributes(p * b, r2, a);
    assert (p * b) * a == p * (a * b);
  }

  /** Two successive truncating divisions equal one division by the product. */
  lemma NestedDiv(x: int, a: int, b: int)
    requires 0 < a && 0 < b
    ensures x / a / b == x / (a * b)
  {
    var q := x / a;
    DivMod(x, a);
    DivMod(q, b);
    var r1, p, r2 := x % a, q / b, q % b;
    RemaindersBelow(r1, a, r2, b);
    Recompose(p, b, r2, a, r1);
    DivUnique(x, a * b, p, r2 * a + r1);
  }

  /** The smaller of two multiples of `d` is `d` times the smaller factor. */
  lemma MinOfMultiples(x: int, y: int, d: int)
    requires 0 <= d
    ensures (if x * d <= y * d then x * d else y * d) == (if x <= y then x else y) * d
  {
    if x <= y {
      MulMonotone(d, x, y);
    } else {
      MulMonotone(d, y, x);
    }
  }

  // ---------------------------------------------------------------------------
  // The formulas of the custom rewards module
  // ---------------------------------------------------------------------------

  /** `calculate_per_block_rewards`: the rate-bound reward for the blocks elapsed
      since the last allocation; nothing when no block elapsed or production is off. */
  function PerBlockRewards(currentBlock: nat, lastRewardBlock: nat, perBlockReward: nat, produceEnabled: bool): (r: nat)
    ensures r == 0 <==> currentBlock <= lastRewardBlock || !produceEnabled || perBlockReward == 0
    ensures currentBlock > lastRewardBlock ==> r <= perBlockReward * (currentBlock - lastRewardBlock)
  {
    if currentBlock <= lastRewardBlock || !produceEnabled then 0
    else
      assert perBlockReward * (currentBlock - lastRewardBlock) >= perBlockReward * 1 by {
        MulMonotone(perBlockReward, 1, currentBlock - lastRewardBlock);
      }
      perBlockReward * (currentBlock - lastRewardBlock)
  }

  /** `get_amount_apr_bounded`: the per-block reward that `amount` staked may earn at
      `maxApr` basis points a year. The two truncating divisions make it the largest
      per-block amount whose yearly total stays within the APR. */
  function AprBoundedPerBlock(amount: nat, maxApr: nat): (r: nat)
    ensures r == amount * maxApr / (MAX_PERCENT * BLOCKS_IN_YEAR)
    ensures IsFloorQuotient(r, amount * maxApr, MAX_PERCENT * BLOCKS_IN_YEAR)
  {
    NestedDiv(amount * maxApr, MAX_PERCENT, BLOCKS_IN_YEAR);
    DivBounds(amount * maxApr, MAX_PERCENT * BLOCKS_IN_YEAR);
    amount * maxApr / MAX_PERCENT / BLOCKS_IN_YEAR
  }

  /** `calculate_reward_per_share_increase`: the scaled reward each unit of supply
      earns; the largest increase whose distribution over `supply` stays within
      `reward` scaled by `divisionSafetyConstant`. */
  function RewardPerShareIncrease(reward: nat, divisionSafetyConstant: nat, supply: nat): (r: nat)
    requires 0 < supply
    ensures IsFloorQuotient(r, reward * divisionSafetyConstant, supply)
  {
    DivBounds(reward * divisionSafetyConstant, supply);
    reward * divisionSafetyConstant / supply
  }

  /** Spreading two rewards separately never raises the counter more than
      spreading their sum at once. */
  lemma RewardPerShareIncreaseSuperadditive(reward1: nat, reward2: nat, dsc: nat, supply: nat)
    requires 0 < supply
    ensures RewardPerShareIncrease(reward1, dsc, supply) + RewardPerShareIncrease(reward2, dsc, supply)
            <= RewardPerShareIncrease(reward1 + reward2, dsc, supply)
  {
    MulDistributes(reward1, reward2, dsc);
    DivSuperadditive(reward1 * dsc, reward2 * dsc, supply);
  }

  /** Truncating division of naturals, with the bounds that characterise it. */
  function FloorDiv(x: nat, d: nat): (q: nat)
    requires 0 < d
    ensures IsFloorQuotient(q, x, d)
  {
    DivBounds(x, d);
    x / d
  }

  /** `calculate_reward`: what a position of `amount` earned since its snapshot
      `initialRps`; never negative, zero when the counter has not moved past it. */
  function CalculateReward(amount: nat, currentRps: nat, initialRps: nat, divisionSafetyConstant: nat): (r: nat)
    requires 0 < divisionSafetyConstant
    ensures currentRps <= initialRps ==> r == 0
    ensures currentRps > initialRps ==>
      IsFloorQuotient(r, amount * (currentRps - initialRps), divisionSafetyConstant)
  {
    if currentRps > initialRps then
      var growth: nat := currentRps - initialRps;
      FloorDiv(amount * growth, divisionSafetyConstant)
    else
      0
  }

  // ---------------------------------------------------------------------------
  // Properties of the payout formula
  // ---------------------------------------------------------------------------

  /** A position's pending reward never shrinks as the global counter grows. */
  lemma CalculateRewardMonotone(amount: nat, rps1: nat, rps2: nat, initialRps: nat, dsc: nat)
    requires 0 < dsc && rps1 <= rps2
    ensures CalculateReward(amount, rps1, initialRps, dsc) <= CalculateReward(amount, rps2, initialRps, dsc)
  {
    if rps1 > initialRps {
      MulMonotone(amount, rps1 - initialRps, rps2 - initialRps);
      DivMonotone(amount * (rps1 - initialRps), amount * (rps2 - initialRps), dsc);
    }
  }

  /** A larger position never earns less over the same counter movement. */
  lemma CalculateRewardMonotoneInAmount(amount1: nat, amount2: nat, currentRps: nat, initialRps: nat, dsc: nat)
    requires 0 < dsc && amount1 <= amount2
    ensures CalculateReward(amount1, currentRps, initialRps, dsc) <= CalculateReward(amount2, currentRps, initialRps, dsc)
  {
    if currentRps > initialRps {
      var diff := currentRps - initialRps;
      MulMonotone(diff, amount1, amount2);
      assert amount1 * diff <= amount2 * diff;
      DivMonotone(amount1 * diff, amount2 * diff, dsc);
    }
  }

  /** Claiming at an intermediate counter value and again later never pays more
      than one claim over the whole span: re-snapshotting cannot mint reward. */
  lemma CalculateRewardSplit(amount: nat, initialRps: nat, midRps: nat, currentRps: nat, dsc: nat)
    requires 0 < dsc && initialRps <= midRps <= currentRps
    ensures CalculateReward(amount, midRps, initialRps, dsc) + CalculateReward(amount, currentRps, midRps, dsc)
            <= CalculateReward(amount, currentRps, initialRps, dsc)
  {
    var x := amount * (midRps - initialRps);
    var y := amount * (currentRps - midRps);
    assert x + y == amount * (currentRps - initialRps);
    DivSuperadditive(x, y, dsc);
  }

  /** Sum of a sequence of amounts. */
  function Sum(amounts: seq<nat>): nat {
    if amounts == [] then 0 else amounts[0] + Sum(amounts[1..])
  }

  /** Total payout to positions of the given amounts, all snapshotted at `initialRps`. */
  function TotalPayout(amounts: seq<nat>, currentRps: nat, initialRps: nat, dsc: nat): nat
    requires 0 < dsc
  {
    if amounts == [] then 0
    else CalculateReward(amounts[0], currentRps, initialRps, dsc) + TotalPayout(amounts[1..], currentRps, initialRps, dsc)
  }

  /** Paying positions one by one never exceeds paying their summed amount at once. */
  lemma {:induction false} TotalPayoutBound(amounts: seq<nat>, currentRps: nat, initialRps: nat, dsc: nat)
    requires 0 < dsc
    ensures TotalPayout(amounts, currentRps, initialRps, dsc) <= CalculateReward(Sum(amounts), currentRps, initialRps, dsc)
  {
    if amounts != [] {
      var head, tail := amounts[0], amounts[1..];
      TotalPayoutBound(tail, currentRps, initialRps, dsc);
      assert Sum(amounts) == head + Sum(tail);
      PayoutOfSum(head, Sum(tail), currentRps, initialRps, dsc);
    }
  }

  /** One position's payout plus the payout on the remaining amount never exceeds the
      payout on their sum. */
  lemma PayoutOfSum(head: nat, rest: nat, currentRps: nat, initialRps: nat, dsc: nat)
    requires 0 < dsc
    ensures CalculateReward(head, currentRps, initialRps, dsc) + CalculateReward(rest, currentRps, initialRps, dsc)
            <= CalculateReward(head + rest, currentRps, initialRps, dsc)
  {
    if currentRps > initialRps {
      var diff := currentRps - initialRps;
      MulDistributes(head, rest, diff);
      DivSuperadditive(head * diff, rest * diff, dsc);
    }
  }

  /** Holders whose amounts make up the whole supply, all snapshotted before a
      reward-per-share increase of `reward`, are owed in total at most `reward`:
      the per-share accounting never pays out more than was distributed. */
  lemma NoOverDistribution(amounts: seq<nat>, rps: nat, reward: nat, dsc: nat)
    requires 0 < dsc && 0 < Sum(amounts)
    ensures TotalPayout(amounts, rps + RewardPerShareIncrease(reward, dsc, Sum(amounts)), rps, dsc) <= reward
  {
    var supply := Sum(amounts);
    var inc := RewardPerShareIncrease(reward, dsc, supply);
    TotalPayoutBound(amounts, rps + inc, rps, dsc);
    if inc > 0 {
      var owed := supply * inc;
      var scaled := reward * dsc;
      assert owed <= scaled;
      DivMonotone(owed, scaled, dsc);
      DivOfMultiple(reward, dsc);
    }
  }
}
