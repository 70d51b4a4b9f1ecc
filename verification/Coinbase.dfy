/** Building the coinbase of a new block, and checking the coinbase of a received one. */
module Coinbase {
  import opened MachineTypes
  import opened Wrappers
  import opened Worth
  import opened Money
  import opened Reward

  const UINT128: int := 0x1_0000_0000_0000_0000_0000_0000_0000_0000
  const FIRST_FORK_HEIGHT: int := 694000

  /** A staking node in the ranking; the script pays to its script hash. */
  datatype Rank = Rank(script: nat, value: nat, weight: nat)

  datatype Out = Out(value: int, script: nat)

  /** The outputs, and the number of staking rewards that the payload announces. */
  datatype CoinbaseTx = CoinbaseTx(outs: seq<Out>, stakingRewards: nat)

  datatype CoinbaseError =
    | NoSubsidy
    | Overflow
    | DividedByZero
    | BadAmountRange
    | WrongRewardNumber
    | WrongValue
    | WrongScript
    /** A run-time panic of the source: the coinbase has fewer outputs than rewards. */
    | IndexOutOfRange

  /** `CalcStakingNodeWeight`. */
  function NodeWeight(height: uint64, r: Rank): nat
  {
    if height < FIRST_FORK_HEIGHT then r.value else r.weight
  }

  function WeightSum(height: uint64, ranks: seq<Rank>): nat
  {
    if ranks == [] then 0 else WeightSum(height, ranks[..|ranks| - 1]) + NodeWeight(height, ranks[|ranks| - 1])
  }

  /** `CalcTotalStakingWeight`. */
  method TotalStakingWeight(height: uint64, ranks: seq<Rank>) returns (r: Option<nat>)
    ensures r == if WeightSum(height, ranks) < UINT128 then Some(WeightSum(height, ranks)) else None
  {
    var total := 0;
    assert ranks[..0] == [];
    for i := 0 to |ranks|
      invariant total == WeightSum(height, ranks[..i]) < UINT128
    {
      assert ranks[..i + 1][..i] == ranks[..i];
      total := total + NodeWeight(height, ranks[i]);
      if total >= UINT128 {
        WeightGrows(height, ranks, i + 1);
        return None;
      }
    }
    assert ranks[..|ranks|] == ranks;
    r := Some(total);
  }

  lemma {:induction false} WeightGrows(height: uint64, ranks: seq<Rank>, i: nat)
    requires i <= |ranks|
    ensures WeightSum(height, ranks[..i]) <= WeightSum(height, ranks)
    decreases |ranks|
  {
    if i < |ranks| {
      WeightGrows(height, ranks[..|ranks| - 1], i);
      assert ranks[..|ranks| - 1][..i] == ranks[..i];
    } else {
      assert ranks[..i] == ranks;
    }
  }

  /** `calcNodeReward`: the node's part of the reward, rounded down. */
  function NodeReward(total: nat, totalWeight: nat, weight: nat): Result<nat, CoinbaseError>
  {
    if total * weight >= UINT128 then Err(Overflow)
    else if totalWeight == 0 then Err(DividedByZero)
    else
      Quotient(total * weight, totalWeight);
      if total * weight / totalWeight <= MAX_AMOUNT then Ok(total * weight / totalWeight) else Err(BadAmountRange)
  }

  /** The outputs for the staking nodes: one for each, up to the first whose reward is zero. */
  function StakingOuts(height: uint64, total: nat, totalWeight: nat, ranks: seq<Rank>): Result<seq<Out>, CoinbaseError>
  {
    if ranks == [] then Ok([])
    else
      match NodeReward(total, totalWeight, NodeWeight(height, ranks[0]))
      case Err(e) => Err(e)
      case Ok(reward) =>
        if reward == 0 then Ok([])
        else
          match StakingOuts(height, total, totalWeight, ranks[1..])
          case Err(e) => Err(e)
          case Ok(outs) => Ok([Out(reward, ranks[0].script)] + outs)
  }

  /** The rewards as far as they can be computed, up to the first that is zero. */
  function Front(height: uint64, total: nat, totalWeight: nat, ranks: seq<Rank>): seq<Out>
  {
    if ranks == [] then []
    else
      match NodeReward(total, totalWeight, NodeWeight(height, ranks[0]))
      case Err(_) => []
      case Ok(reward) =>
        if reward == 0 then []
        else [Out(reward, ranks[0].script)] + Front(height, total, totalWeight, ranks[1..])
  }

  /** If all can be computed, these are all. */
  lemma {:induction false} FrontIsAll(height: uint64, total: nat, totalWeight: nat, ranks: seq<Rank>)
    ensures var all := StakingOuts(height, total, totalWeight, ranks);
            all.Ok? ==> all.value == Front(height, total, totalWeight, ranks)
  {
    hide NodeReward;
    if ranks != [] {
      FrontIsAll(height, total, totalWeight, ranks[1..]);
    }
  }

  function Values(outs: seq<Out>): seq<int>
  {
    if outs == [] then [] else [outs[0].value] + Values(outs[1..])
  }

  /** What the nodes are weighed by: the value of their stakes below the height 694000, and their weight
      from there on. */
  function Measures(height: uint64, ranks: seq<Rank>): seq<int>
  {
    if height < 694000 then seq(|ranks|, i requires 0 <= i < |ranks| => ranks[i].value)
    else seq(|ranks|, i requires 0 <= i < |ranks| => ranks[i].weight)
  }

  lemma {:induction false} WeightsAre(height: uint64, ranks: seq<Rank>)
    ensures WeightSum(height, ranks) == Sum(Measures(height, ranks))
  {
    var m := Measures(height, ranks);
    if ranks == [] {
      assert m == [];
    } else {
      var n := |ranks| - 1;
      WeightsAre(height, ranks[..n]);
      assert Measures(height, ranks[..n]) == m[..n];
      SumSnoc(m, n);
      assert m[..n + 1] == m;
    }
  }

  lemma {:induction false} PaidAt(height: uint64, total: nat, totalWeight: nat, ranks: seq<Rank>, i: nat)
    requires StakingOuts(height, total, totalWeight, ranks).Ok?
    requires i < |StakingOuts(height, total, totalWeight, ranks).value|
    ensures var out := StakingOuts(height, total, totalWeight, ranks).value[i];
            && i < |ranks| && totalWeight > 0 && out.script == ranks[i].script
            && out.value == total * NodeWeight(height, ranks[i]) / totalWeight
    decreases |ranks|
  {
    if i > 0 {
      PaidAt(height, total, totalWeight, ranks[1..], i - 1);
    }
  }

  /** Each staking node that is paid gets its part of the reward, by value or by weight, rounded down. */
  lemma StakingPaid(height: uint64, total: nat, ranks: seq<Rank>, i: nat)
    requires StakingOuts(height, total, WeightSum(height, ranks), ranks).Ok?
    requires i < |StakingOuts(height, total, WeightSum(height, ranks), ranks).value|
    ensures var out := StakingOuts(height, total, WeightSum(height, ranks), ranks).value[i];
            && i < |ranks| && out.script == ranks[i].script
            && Portion(out.value, total, if height < 694000 then ranks[i].value else ranks[i].weight,
                       Sum(Measures(height, ranks)))
  {
    hide StakingOuts, WeightSum, Sum, Measures;
    WeightsAre(height, ranks);
    var w := WeightSum(height, ranks);
    PaidAt(height, total, w, ranks, i);
    Quotient(total * NodeWeight(height, ranks[i]), w);
    Distribute(total * NodeWeight(height, ranks[i]) / w, w);
  }

  /** The sum of the rewards does not exceed the reward that is divided. */
  lemma {:induction false} StakingWithin(height: uint64, total: nat, totalWeight: nat, ranks: seq<Rank>)
    requires StakingOuts(height, total, totalWeight, ranks).Ok?
    ensures var outs := StakingOuts(height, total, totalWeight, ranks).value;
            && |outs| <= |ranks| && (ranks != [] && totalWeight == 0 ==> outs == [])
            && 0 <= Sum(Values(outs)) && Sum(Values(outs)) * totalWeight <= total * FrontSum(height, ranks)
            && forall i :: 0 <= i < |outs| ==> outs[i].value > 0
  {
    if ranks != [] {
      var w := NodeWeight(height, ranks[0]);
      var reward := NodeReward(total, totalWeight, w).value;
      Quotient(total * w, totalWeight);
      FrontNonNegative(height, ranks[1..]);
      Distributes(total, w, FrontSum(height, ranks[1..]));
      if reward != 0 {
        StakingWithin(height, total, totalWeight, ranks[1..]);
        var rest := StakingOuts(height, total, totalWeight, ranks[1..]).value;
        Distributes(totalWeight, reward, Sum(Values(rest)));
      } else {
        NonNegative(total, FrontSum(height, ranks));
      }
    }
  }

  lemma Distributes(a: int, x: int, y: int)
    ensures a * (x + y) == a * x + a * y && (x + y) * a == x * a + y * a
  {
  }

  lemma NonNegative(a: int, b: int)
    requires a >= 0 && b >= 0
    ensures a * b >= 0
  {
  }

  /** The sum of the weights, taken from the front. */
  function FrontSum(height: uint64, ranks: seq<Rank>): int
  {
    if ranks == [] then 0 else NodeWeight(height, ranks[0]) + FrontSum(height, ranks[1..])
  }

  lemma {:induction false} FrontNonNegative(height: uint64, ranks: seq<Rank>)
    ensures FrontSum(height, ranks) >= 0
  {
    if ranks != [] {
      FrontNonNegative(height, ranks[1..]);
    }
  }

  lemma {:induction false} FrontIsSum(height: uint64, ranks: seq<Rank>)
    ensures FrontSum(height, ranks) == WeightSum(height, ranks)
    decreases |ranks|
  {
    if |ranks| > 1 {
      var n := |ranks| - 1;
      FrontIsSum(height, ranks[1..]);
      FrontIsSum(height, ranks[..n]);
      FrontIsSum(height, ranks[1..n]);
      assert ranks[1..][..n - 1] == ranks[1..n] && ranks[..n][1..] == ranks[1..n];
    }
  }

  /** The rewards that both sides start from. */
  function Rewards(height: uint64, hasValidBinding: bool, ranks: seq<Rank>): Option<(int, int)>
  {
    CalcBlockSubsidy(height, hasValidBinding, |ranks| > 0)
  }

  lemma RewardRange(height: uint64, hasValidBinding: bool, ranks: seq<Rank>)
    requires Rewards(height, hasValidBinding, ranks).Some?
    ensures var r := Rewards(height, hasValidBinding, ranks).value;
            && 0 <= r.0 && 0 <= r.1 && r.0 + r.1 <= BASE_SUBSIDY && (r.0 == 0 ==> r.1 == 0)
  {
    SharesOf(height, hasValidBinding, |ranks| > 0);
    HalvedRange(height, MIN_SUBSIDY);
    if height >= FORK_HEIGHT {
      HalvedRange(FakeStart(FORK_HEIGHT) + (height - FORK_HEIGHT), 4 * MIN_SUBSIDY);
    }
    hide Halved;
    assert Subsidy(height) == 0 || Subsidy(height) >= MIN_SUBSIDY;
  }

  /** The outputs for the staking nodes, when anything is minted. */
  function StakingPart(height: uint64, hasValidBinding: bool, ranks: seq<Rank>): Result<seq<Out>, CoinbaseError>
    requires Rewards(height, hasValidBinding, ranks).Some?
  {
    RewardRange(height, hasValidBinding, ranks);
    StakingOuts(height, Rewards(height, hasValidBinding, ranks).value.1, WeightSum(height, ranks), ranks)
  }

  /** What a built coinbase looks like: the staking rewards, and a last output with all the rest. */
  predicate BuiltAs(height: uint64, ranks: seq<Rank>, fee: nat, hasValidBinding: bool, script: nat, cb: CoinbaseTx)
  {
    && Rewards(height, hasValidBinding, ranks).Some? && cb.outs != []
    && var (miner, superNode) := Rewards(height, hasValidBinding, ranks).value;
       var staking := cb.outs[..|cb.outs| - 1];
       && cb.outs[|cb.outs| - 1].script == script && cb.stakingRewards == |staking|
       && Sum(Values(cb.outs)) == miner + superNode + fee
       && (miner == 0 ==> staking == [])
       && (miner != 0 ==>
           WeightSum(height, ranks) < UINT128 && StakingPart(height, hasValidBinding, ranks) == Ok(staking))
  }

  lemma {:induction false} ValuesSnoc(outs: seq<Out>, o: Out)
    ensures Sum(Values(outs + [o])) == Sum(Values(outs)) + o.value
  {
    if outs == [] {
      assert outs + [o] == [o] && [o][1..] == [];
      assert Values([o]) == [o.value] && [o.value][1..] == [];
    } else {
      assert (outs + [o])[1..] == outs[1..] + [o];
      ValuesSnoc(outs[1..], o);
    }
  }

  /** One step of the loops over the ranking. */
  lemma StakingStep(height: uint64, total: nat, totalWeight: nat, ranks: seq<Rank>, i: nat)
    requires i < |ranks|
    ensures var rest, r := StakingOuts(height, total, totalWeight, ranks[i..]),
        NodeReward(total, totalWeight, NodeWeight(height, ranks[i]));
            var next := StakingOuts(height, total, totalWeight, ranks[i + 1..]);
            && (r.Err? ==> rest.Err?)
            && (r.Ok? && r.value == 0 ==> rest == Ok([]))
            && (r.Ok? && r.value > 0 ==>
                (rest.Ok? <==> next.Ok?) && (rest.Ok? ==> rest.value == [Out(r.value, ranks[i].script)] + next.value))
  {
    hide NodeReward;
    assert ranks[i..][0] == ranks[i] && ranks[i..][1..] == ranks[i + 1..];
  }

  lemma FrontStep(height: uint64, total: nat, totalWeight: nat, ranks: seq<Rank>, i: nat)
    requires i < |ranks|
    ensures var r := NodeReward(total, totalWeight, NodeWeight(height, ranks[i]));
            var rest := Front(height, total, totalWeight, ranks[i..]);
            && (r.Err? || r.value == 0 ==> rest == [])
            && (r.Err? ==> r.error != IndexOutOfRange)
            && (r.Ok? && r.value != 0 ==>
                  rest == [Out(r.value, ranks[i].script)] + Front(height, total, totalWeight, ranks[i + 1..]))
  {
    assert ranks[i..][0] == ranks[i] && ranks[i..][1..] == ranks[i + 1..];
  }

  lemma FrontNothing(height: uint64, total: nat, totalWeight: nat, ranks: seq<Rank>)
    ensures ranks[0..] == ranks && Front(height, total, totalWeight, ranks[|ranks|..]) == []
  {
  }

  lemma StakingNothing(height: uint64, total: nat, totalWeight: nat, ranks: seq<Rank>)
    ensures ranks[0..] == ranks && StakingOuts(height, total, totalWeight, ranks[|ranks|..]) == Ok([])
  {
  }

  /** The loop that pays the staking nodes. */
  method PayStaking(height: uint64, total: nat, totalWeight: nat, ranks: seq<Rank>)
      returns (r: Result<(seq<Out>, int), CoinbaseError>)
    requires total <= BASE_SUBSIDY && totalWeight == WeightSum(height, ranks)
    ensures r.Ok? <==> StakingOuts(height, total, totalWeight, ranks).Ok?
    ensures r.Ok? ==>
        StakingOuts(height, total, totalWeight, ranks) == Ok(r.value.0) && r.value.1 == Sum(Values(r.value.0)) <= total
  {
    hide NodeReward, StakingOuts, Sum, Values;
    ghost var all := StakingOuts(height, total, totalWeight, ranks);
    var outs, paid := [], 0;
    StakingNothing(height, total, totalWeight, ranks);
    NoValues();
    if all.Ok? {
      PaidWithinTotal(height, total, totalWeight, ranks);
    }
    for i := 0 to |ranks|
      invariant 0 <= paid == Sum(Values(outs))
      invariant Continues(outs, StakingOuts(height, total, totalWeight, ranks[i..]), all)
      invariant all.Ok? ==> paid <= total
    {
      StakingStep(height, total, totalWeight, ranks, i);
      var reward := NodeReward(total, totalWeight, NodeWeight(height, ranks[i]));
      if reward.Err? {
        return Err(reward.error);
      }
      if reward.value == 0 {
        assert outs + [] == outs;
        return Ok((outs, paid));
      }
      var next := Out(reward.value, ranks[i].script);
      ValuesSnoc(outs, next);
      if all.Ok? {
        PrefixWithin(outs + [next], all.value, total);
      }
      var sum := Checked(paid + reward.value);
      if sum.None? {
        return Err(BadAmountRange);
      }
      outs, paid := outs + [next], sum.value;
    }
    assert outs + [] == outs;
    r := Ok((outs, paid));
  }

  lemma NoValues()
    ensures Sum(Values([])) == 0
  {
  }

  /** What the loop has paid so far and what it will pay make up the whole. */
  ghost predicate Continues(outs: seq<Out>, rest: Result<seq<Out>, CoinbaseError>, all: Result<seq<Out>, CoinbaseError>)
  {
    (rest.Ok? <==> all.Ok?) && (all.Ok? ==> all.value == outs + rest.value)
  }

  lemma PaidWithinTotal(height: uint64, total: nat, totalWeight: nat, ranks: seq<Rank>)
    requires StakingOuts(height, total, totalWeight, ranks).Ok? && totalWeight == WeightSum(height, ranks)
    ensures var outs := StakingOuts(height, total, totalWeight, ranks).value;
            Sum(Values(outs)) <= total && forall i :: 0 <= i < |outs| ==> outs[i].value > 0
  {
    StakingWithin(height, total, totalWeight, ranks);
    FrontIsSum(height, ranks);
    var paid := Sum(Values(StakingOuts(height, total, totalWeight, ranks).value));
    if totalWeight > 0 && paid >= total + 1 {
      MulLe(total + 1, paid, totalWeight);
      Distributes(totalWeight, total, 1);
      assert false;
    }
  }

  lemma {:induction false} PrefixWithin(a: seq<Out>, all: seq<Out>, total: int)
    requires a <= all && Sum(Values(all)) <= total && forall i :: 0 <= i < |all| ==> all[i].value > 0
    ensures Sum(Values(a)) <= total
    decreases |all|
  {
    if |a| < |all| {
      var n := |all| - 1;
      assert all == all[..n] + [all[n]];
      ValuesSnoc(all[..n], all[n]);
      PrefixWithin(a, all[..n], total);
    } else {
      assert a == all;
    }
  }

  /** The part of `reCreateCoinbaseTx` for a block that mints: the staking outputs, and the miner's
      reward with what the roundings left. The subtraction in it never fails. */
  method Mint(height: uint64, ranks: seq<Rank>, miner: nat, superNode: nat)
      returns (r: Result<(seq<Out>, int), CoinbaseError>)
    requires miner + superNode <= BASE_SUBSIDY
    ensures r.Ok? <==>
        WeightSum(height, ranks) < UINT128 && StakingOuts(height, superNode, WeightSum(height, ranks), ranks).Ok?
    ensures r.Ok? ==> Ok(r.value.0) == StakingOuts(height, superNode, WeightSum(height, ranks), ranks)
    ensures r.Ok? ==> 0 <= r.value.1 == miner + superNode - Sum(Values(r.value.0))
  {
    hide StakingOuts, Sum, Values, WeightSum;
    var totalWeight := TotalStakingWeight(height, ranks);
    if totalWeight.None? {
      return Err(Overflow);
    }
    var staking := PayStaking(height, superNode, totalWeight.value, ranks);
    if staking.Err? {
      return Err(staking.error);
    }
    StakingNonNegative(height, superNode, totalWeight.value, ranks);
    var diff := Checked(superNode - staking.value.1);
    assert diff.Some?;
    var sum := Checked(miner + diff.value);
    assert sum.Some?;
    r := Ok((staking.value.0, sum.value));
  }

  /** `reCreateCoinbaseTx`, given whether the miner has a valid binding. Its outputs sum to exactly the
      two rewards and the fees. */
  method ReCreateCoinbaseTx(height: uint64, ranks: seq<Rank>, totalFee: nat, hasValidBinding: bool, script: nat)
    returns (r: Result<CoinbaseTx, CoinbaseError>)
    ensures r.Ok? ==> BuiltAs(height, ranks, totalFee, hasValidBinding, script, r.value)
    ensures r.Ok? <==> Buildable(height, ranks, totalFee, hasValidBinding)
  {
    hide StakingOuts, Sum, Values, WeightSum, CalcBlockSubsidy, BuiltAs;
    var subsidy := CalcBlockSubsidy(height, hasValidBinding, |ranks| > 0);
    if subsidy.None? {
      return Err(NoSubsidy);
    }
    RewardRange(height, hasValidBinding, ranks);
    NoValues();
    var (miner, superNode) := subsidy.value;
    var outs, minerOut := [], miner;
    if miner != 0 {
      var minted := Mint(height, ranks, miner, superNode);
      if minted.Err? {
        return Err(minted.error);
      }
      outs, minerOut := minted.value.0, minted.value.1;
    }
    var last := Checked(minerOut + totalFee);
    if last.None? {
      return Err(BadAmountRange);
    }
    BuildsAs(height, ranks, totalFee, hasValidBinding, script, outs, minerOut);
    r := Ok(CoinbaseTx(outs + [Out(last.value, script)], |outs|));
  }

  lemma BuildsAs(height: uint64, ranks: seq<Rank>, fee: nat, hasValidBinding: bool, script: nat, outs: seq<Out>,
      minerOut: int)
    requires Rewards(height, hasValidBinding, ranks).Some?
    requires var (miner, superNode) := Rewards(height, hasValidBinding, ranks).value;
             && minerOut == miner + superNode - Sum(Values(outs)) && (miner == 0 ==> outs == [])
             && (miner != 0 ==>
                 WeightSum(height, ranks) < UINT128 && StakingPart(height, hasValidBinding, ranks) == Ok(outs))
    ensures BuiltAs(height, ranks, fee, hasValidBinding, script,
                    CoinbaseTx(outs + [Out(minerOut + fee, script)], |outs|))
  {
    hide StakingPart, Sum, Values, WeightSum, Rewards;
    ValuesSnoc(outs, Out(minerOut + fee, script));
    assert (outs + [Out(minerOut + fee, script)])[..|outs|] == outs;
  }

  lemma StakingNonNegative(height: uint64, total: nat, totalWeight: nat, ranks: seq<Rank>)
    requires StakingOuts(height, total, totalWeight, ranks).Ok?
    ensures 0 <= Sum(Values(StakingOuts(height, total, totalWeight, ranks).value))
  {
    StakingWithin(height, total, totalWeight, ranks);
  }

  /** When a coinbase can be built: there is a subsidy, the rewards can be computed, and what is left
      for the miner with the fees is an amount. */
  predicate Buildable(height: uint64, ranks: seq<Rank>, fee: nat, hasValidBinding: bool)
  {
    && Rewards(height, hasValidBinding, ranks).Some?
    && var (miner, superNode) := Rewards(height, hasValidBinding, ranks).value;
       if miner == 0 then fee <= MAX_AMOUNT
       else
         && WeightSum(height, ranks) < UINT128 && StakingPart(height, hasValidBinding, ranks).Ok?
         && miner + superNode - Sum(Values(StakingPart(height, hasValidBinding, ranks).value)) + fee <= MAX_AMOUNT
  }

  /** What `checkCoinbase` lets pass. */
  predicate Passes(height: uint64, ranks: seq<Rank>, hasValidBinding: bool, cb: CoinbaseTx)
  {
    && Rewards(height, hasValidBinding, ranks).Some? && WeightSum(height, ranks) < UINT128
    && StakingPart(height, hasValidBinding, ranks).Ok?
    && StakingPart(height, hasValidBinding, ranks).value <= cb.outs
    && cb.stakingRewards == |StakingPart(height, hasValidBinding, ranks).value|
  }

  /** When the source indexes out of range: the coinbase ends before the rewards do, and all before its
      end are right. */
  predicate Panics(height: uint64, ranks: seq<Rank>, hasValidBinding: bool, cb: CoinbaseTx)
  {
    && cb.stakingRewards <= |ranks|
    && Rewards(height, hasValidBinding, ranks).Some? && WeightSum(height, ranks) < UINT128
    && cb.outs < StakingFront(height, hasValidBinding, ranks)
  }

  function StakingFront(height: uint64, hasValidBinding: bool, ranks: seq<Rank>): seq<Out>
    requires Rewards(height, hasValidBinding, ranks).Some?
  {
    RewardRange(height, hasValidBinding, ranks);
    Front(height, Rewards(height, hasValidBinding, ranks).value.1, WeightSum(height, ranks), ranks)
  }

  /** `checkCoinbase`: the announced number of rewards, and each reward's value and script. */
  method CheckCoinbase(height: uint64, ranks: seq<Rank>, hasValidBinding: bool, cb: CoinbaseTx)
    returns (r: Result<int, CoinbaseError>)
    ensures r.Ok? <==> Passes(height, ranks, hasValidBinding, cb)
    ensures r == Err(IndexOutOfRange) <==> Panics(height, ranks, hasValidBinding, cb)
    ensures r.Ok? ==> Rewards(height, hasValidBinding, ranks).Some? &&
                      r.value == Rewards(height, hasValidBinding, ranks).value.0 +
                          Rewards(height, hasValidBinding, ranks).value.1
  {
    hide StakingOuts, Front, NodeReward, WeightSum, CalcBlockSubsidy;
    if Passes(height, ranks, hasValidBinding, cb) {
      PartLength(height, ranks, hasValidBinding);
    }
    if cb.stakingRewards > |ranks| {
      return Err(WrongRewardNumber);
    }
    var subsidy := CalcBlockSubsidy(height, hasValidBinding, |ranks| > 0);
    if subsidy.None? {
      return Err(NoSubsidy);
    }
    RewardRange(height, hasValidBinding, ranks);
    var (miner, superNode) := subsidy.value;
    var weight := TotalStakingWeight(height, ranks);
    if weight.None? {
      return Err(Overflow);
    }
    var totalWeight := weight.value;
    var checked := CheckRewards(height, superNode, totalWeight, ranks, cb);
    if checked.Err? {
      return Err(checked.error);
    }
    if checked.value != cb.stakingRewards {
      return Err(WrongRewardNumber);
    }
    r := Ok(miner + superNode);
  }

  /** Two nodes with equal stakes, and a coinbase that pays the first and ends there. */
  lemma PanicExample(cb: CoinbaseTx)
    requires cb == CoinbaseTx([Out(41600000000, 7)], 2)
    ensures Panics(1, [Rank(7, 1, 1), Rank(8, 1, 1)], false, cb)
  {
    var ranks := [Rank(7, 1, 1), Rank(8, 1, 1)];
    FirstReward(ranks);
    assert ranks[..1] == [ranks[0]] && ranks[..1][..0] == [];
    assert WeightSum(1, ranks[..1]) == 1;
    assert WeightSum(1, ranks) == 2;
    assert ranks[1..] == [ranks[1]] && ranks[1..][1..] == [];
    assert NodeReward(83200000000, 2, 1) == Ok(41600000000);
    assert Front(1, 83200000000, 2, ranks[1..]) == [Out(41600000000, 8)];
    assert Front(1, 83200000000, 2, ranks) == [Out(41600000000, 7), Out(41600000000, 8)];
  }

  /** The rewards of the first block. */
  lemma FirstReward(ranks: seq<Rank>)
    requires ranks != []
    ensures Rewards(1, false, ranks) == Some((19200000000, 83200000000))
  {
    HalvedIs(1, 0, 1, MIN_SUBSIDY);
    hide Halved;
  }

  lemma PartLength(height: uint64, ranks: seq<Rank>, hasValidBinding: bool)
    requires Rewards(height, hasValidBinding, ranks).Some? && StakingPart(height, hasValidBinding, ranks).Ok?
    ensures |StakingPart(height, hasValidBinding, ranks).value| <= |ranks|
  {
    RewardRange(height, hasValidBinding, ranks);
    StakingWithin(height, Rewards(height, hasValidBinding, ranks).value.1, WeightSum(height, ranks), ranks);
  }

  /** The loop over the ranking: the number of rewards that were found in their places. */
  method CheckRewards(height: uint64, total: nat, totalWeight: nat, ranks: seq<Rank>, cb: CoinbaseTx)
    returns (r: Result<nat, CoinbaseError>)
    ensures var all := StakingOuts(height, total, totalWeight, ranks);
            && (r.Ok? <==> all.Ok? && all.value <= cb.outs) && (r.Ok? ==> r.value == |all.value|)
    ensures r == Err(IndexOutOfRange) <==> cb.outs < Front(height, total, totalWeight, ranks)
  {
    hide StakingOuts, NodeReward, Front;
    ghost var all := StakingOuts(height, total, totalWeight, ranks);
    ghost var front := Front(height, total, totalWeight, ranks);
    StakingNothing(height, total, totalWeight, ranks);
    FrontNothing(height, total, totalWeight, ranks);
    for i := 0 to |ranks|
      invariant i <= |cb.outs| && Continues(cb.outs[..i], StakingOuts(height, total, totalWeight, ranks[i..]), all)
      invariant front == cb.outs[..i] + Front(height, total, totalWeight, ranks[i..])
    {
      StakingStep(height, total, totalWeight, ranks, i);
      FrontStep(height, total, totalWeight, ranks, i);
      var wanted := NodeReward(total, totalWeight, NodeWeight(height, ranks[i]));
      if wanted.Err? {
        return Err(wanted.error);
      }
      if wanted.value == 0 {
        assert cb.outs[..i] + [] == cb.outs[..i];
        return Ok(i);
      }
      if all.Ok? {
        assert all.value[i] == Out(wanted.value, ranks[i].script);
      }
      if i >= |cb.outs| {
        return Err(IndexOutOfRange);
      }
      if wanted.value != cb.outs[i].value {
        return Err(WrongValue);
      }
      if ranks[i].script != cb.outs[i].script {
        return Err(WrongScript);
      }
      assert cb.outs[..i + 1] == cb.outs[..i] + [cb.outs[i]];
    }
    assert cb.outs[..|ranks|] + [] == cb.outs[..|ranks|];
    r := Ok(|ranks|);
  }

  /** The outputs do not exceed the rewards and the fees, and all of these are amounts. */
  predicate TotalFits(cb: CoinbaseTx, reward: int, fees: int)
  {
    && reward + fees <= MAX_AMOUNT && Sum(Values(cb.outs)) <= reward + fees
    && forall i :: 0 <= i < |cb.outs| ==> cb.outs[i].value >= 0
  }

  /** The end of `validateCoinbase`. */
  method CheckTotal(cb: CoinbaseTx, reward: nat, fees: nat) returns (ok: bool)
    ensures ok <==> TotalFits(cb, reward, fees)
  {
    hide Sum, Values;
    var limit := Checked(reward + fees);
    if limit.None? {
      return false;
    }
    var total := 0;
    NoValues();
    assert cb.outs[..0] == [];
    for i := 0 to |cb.outs|
      invariant total == Sum(Values(cb.outs[..i])) && 0 <= total
      invariant forall j :: 0 <= j < i ==> cb.outs[j].value >= 0
      invariant total <= MAX_AMOUNT
    {
      assert cb.outs[..i + 1] == cb.outs[..i] + [cb.outs[i]];
      ValuesSnoc(cb.outs[..i], cb.outs[i]);
      var v := cb.outs[i].value;
      if v < 0 || total + v > MAX_AMOUNT {
        TotalGrows(cb.outs, i + 1);
        return false;
      }
      total := total + v;
    }
    assert cb.outs[..|cb.outs|] == cb.outs;
    ok := total <= limit.value;
  }

  lemma {:induction false} TotalGrows(outs: seq<Out>, i: nat)
    requires i <= |outs|
    ensures (forall j :: 0 <= j < |outs| ==> outs[j].value >= 0) ==> Sum(Values(outs[..i])) <= Sum(Values(outs))
    decreases |outs|
  {
    if i < |outs| {
      var n := |outs| - 1;
      assert outs == outs[..n] + [outs[n]];
      ValuesSnoc(outs[..n], outs[n]);
      TotalGrows(outs[..n], i);
      assert outs[..n][..i] == outs[..i];
    } else {
      assert outs[..i] == outs;
    }
  }

  /** What `validateCoinbase` lets pass, given whether the miner has a valid binding. */
  predicate Accepts(height: uint64, ranks: seq<Rank>, fees: nat, hasValidBinding: bool, cb: CoinbaseTx)
  {
    && Passes(height, ranks, hasValidBinding, cb)
    && var (miner, superNode) := Rewards(height, hasValidBinding, ranks).value;
       TotalFits(cb, miner + superNode, fees)
  }

  /** The last part of `validateCoinbase`. */
  method ValidateCoinbase(height: uint64, ranks: seq<Rank>, fees: nat, hasValidBinding: bool, cb: CoinbaseTx)
    returns (ok: bool)
    ensures ok <==> Accepts(height, ranks, fees, hasValidBinding, cb)
  {
    hide Passes, TotalFits, CalcBlockSubsidy;
    var reward := CheckCoinbase(height, ranks, hasValidBinding, cb);
    if reward.Err? {
      return false;
    }
    RewardRange(height, hasValidBinding, ranks);
    ok := CheckTotal(cb, reward.value, fees);
  }

  /** A coinbase that was built is accepted under the same binding flag and with the same fees, if and
      only if the weights of the ranking can be added up and are not all zero, and the rewards and the
      fees together are an amount. When something is minted, building it has made sure of the first two. */
  lemma BuiltPasses(height: uint64, ranks: seq<Rank>, fee: nat, hasValidBinding: bool, script: nat, cb: CoinbaseTx)
    requires BuiltAs(height, ranks, fee, hasValidBinding, script, cb)
    ensures var (miner, superNode) := Rewards(height, hasValidBinding, ranks).value;
            var weighable := WeightSum(height, ranks) < UINT128 && (ranks == [] || WeightSum(height, ranks) > 0);
            && (Accepts(height, ranks, fee, hasValidBinding, cb) <==>
                weighable && miner + superNode + fee <= MAX_AMOUNT)
            && (miner != 0 ==> weighable)
            && Sum(Values(cb.outs)) == miner + superNode + fee
  {
    hide TotalFits, CalcBlockSubsidy, Sum, Values, WeightSum;
    RewardRange(height, hasValidBinding, ranks);
    var superNode := Rewards(height, hasValidBinding, ranks).value.1;
    if ranks != [] && superNode == 0 && WeightSum(height, ranks) > 0 {
      DivOfZero(NodeWeight(height, ranks[0]), WeightSum(height, ranks));
    }
    BuiltTotal(height, ranks, fee, hasValidBinding, script, cb);
  }

  lemma BuiltTotal(height: uint64, ranks: seq<Rank>, fee: nat, hasValidBinding: bool, script: nat, cb: CoinbaseTx)
    requires BuiltAs(height, ranks, fee, hasValidBinding, script, cb)
    ensures var (miner, superNode) := Rewards(height, hasValidBinding, ranks).value;
            TotalFits(cb, miner + superNode, fee) <==> miner + superNode + fee <= MAX_AMOUNT
  {
    hide CalcBlockSubsidy, Sum, Values, WeightSum, StakingOuts;
    RewardRange(height, hasValidBinding, ranks);
    var (miner, superNode) := Rewards(height, hasValidBinding, ranks).value;
    var n := |cb.outs| - 1;
    assert cb.outs == cb.outs[..n] + [cb.outs[n]];
    ValuesSnoc(cb.outs[..n], cb.outs[n]);
    if miner != 0 {
      PaidWithinTotal(height, superNode, WeightSum(height, ranks), ranks);
    } else {
      NoValues();
    }
    assert cb.outs[n].value >= 0;
    assert forall i :: 0 <= i < n ==> cb.outs[i] == cb.outs[..n][i] && cb.outs[i].value > 0;
  }

  /** Fees that make the total too large: such a coinbase is built and refused. */
  lemma TooManyFees(cb: CoinbaseTx)
    requires cb == CoinbaseTx([Out(83200000000, 7), Out(MAX_AMOUNT, 5)], 1)
    ensures BuiltAs(1, [Rank(7, 1, 1)], MAX_AMOUNT - 19200000000, false, 5, cb)
    ensures !Accepts(1, [Rank(7, 1, 1)], MAX_AMOUNT - 19200000000, false, cb)
  {
    var ranks := [Rank(7, 1, 1)];
    FirstReward(ranks);
    hide CalcBlockSubsidy;
    assert ranks[..0] == [] && WeightSum(1, ranks) == 1 && ranks[1..] == [];
    assert NodeReward(83200000000, 1, 1) == Ok(83200000000);
    assert cb.outs[..|cb.outs| - 1] == [Out(83200000000, 7)];
    assert StakingOuts(1, 83200000000, 1, ranks[1..]) == Ok([]);
    assert StakingOuts(1, 83200000000, 1, ranks) == Ok([Out(83200000000, 7)] + []);
    assert [Out(83200000000, 7)] + [] == cb.outs[..|cb.outs| - 1];
    assert StakingPart(1, false, ranks) == Ok(cb.outs[..|cb.outs| - 1]);
    NoValues();
    ValuesSnoc([], cb.outs[0]);
    ValuesSnoc([cb.outs[0]], cb.outs[1]);
    assert [] + [cb.outs[0]] == [cb.outs[0]] && [cb.outs[0]] + [cb.outs[1]] == cb.outs;
    assert Sum(Values(cb.outs)) == 83200000000 + MAX_AMOUNT;
    BuiltPasses(1, ranks, MAX_AMOUNT - 19200000000, false, 5, cb);
  }

  /** A block that mints nothing, with a ranking whose only weight is zero. */
  lemma NoWeights(cb: CoinbaseTx)
    requires cb == CoinbaseTx([Out(3, 5)], 0)
    ensures BuiltAs(111150721, [Rank(7, 0, 0)], 3, true, 5, cb)
    ensures !Accepts(111150721, [Rank(7, 0, 0)], 3, true, cb)
  {
    var ranks := [Rank(7, 0, 0)];
    AfterAll(111150721);
    SharesOf(111150721, true, true);
    hide CalcBlockSubsidy;
    assert ranks[..0] == [] && WeightSum(111150721, ranks) == 0;
    assert cb.outs[..0] == [] && cb.outs[1..] == [] && Values(cb.outs) == [3] && [3][1..] == [];
  }

  lemma DivOfZero(w: int, d: int)
    requires d > 0
    ensures 0 * w == 0 && 0 / d == 0
  {
  }

  /** With the ranking in descending order, the loops do not stop early: every node whose reward is
      not zero is paid. */
  lemma {:induction false} AllPaid(height: uint64, total: nat, totalWeight: nat, ranks: seq<Rank>, i: nat)
    requires StakingOuts(height, total, totalWeight, ranks).Ok? && i < |ranks|
    requires forall j, k :: 0 <= j <= k < |ranks| ==> NodeWeight(height, ranks[j]) >= NodeWeight(height, ranks[k])
    ensures var outs := StakingOuts(height, total, totalWeight, ranks).value;
            var r := NodeReward(total, totalWeight, NodeWeight(height, ranks[i]));
            && r.Ok? && (i < |outs| <==> r.value != 0) && (i < |outs| ==> outs[i] == Out(r.value, ranks[i].script))
    decreases |ranks|
  {
    var first := NodeReward(total, totalWeight, NodeWeight(height, ranks[0]));
    SmallerReward(total, totalWeight, NodeWeight(height, ranks[0]), NodeWeight(height, ranks[i]));
    if i > 0 && first.value != 0 {
      AllPaid(height, total, totalWeight, ranks[1..], i - 1);
    }
  }

  lemma RewardFits(total: nat, totalWeight: nat, weight: nat)
    requires weight <= totalWeight && total <= MAX_AMOUNT
    ensures NodeReward(total, totalWeight, weight).Ok? <==> totalWeight > 0 && total * weight < UINT128
  {
    if totalWeight > 0 && total * weight < UINT128 {
      var q := total * weight / totalWeight;
      Quotient(total * weight, totalWeight);
      MulLe(weight, totalWeight, total);
      if total + 1 <= q {
        MulLe(total + 1, q, totalWeight);
        Distribute(total, totalWeight);
        assert false;
      }
    }
  }

  lemma {:induction false} AllComputed(height: uint64, total: nat, totalWeight: nat, ranks: seq<Rank>)
    requires forall i :: 0 <= i < |ranks| ==> NodeReward(total, totalWeight, NodeWeight(height, ranks[i])).Ok?
    ensures StakingOuts(height, total, totalWeight, ranks).Ok?
  {
    hide NodeReward;
    if ranks != [] {
      AllComputed(height, total, totalWeight, ranks[1..]);
    }
  }

  /** For a ranking in descending order the rewards can be computed exactly if the weights are not all zero
      and the first product fits in 128 bits; no other error can occur. */
  lemma StakingDecided(height: uint64, total: nat, ranks: seq<Rank>)
    requires total <= MAX_AMOUNT
    requires forall j, k :: 0 <= j <= k < |ranks| ==> NodeWeight(height, ranks[j]) >= NodeWeight(height, ranks[k])
    ensures StakingOuts(height, total, WeightSum(height, ranks), ranks).Ok? <==>
            ranks == [] || (WeightSum(height, ranks) > 0 && total * NodeWeight(height, ranks[0]) < UINT128)
  {
    hide NodeReward, NodeWeight, WeightSum;
    if ranks != [] {
      var w, first := WeightSum(height, ranks), NodeWeight(height, ranks[0]);
      FrontIsSum(height, ranks);
      FrontNonNegative(height, ranks[1..]);
      RewardFits(total, w, first);
      if NodeReward(total, w, first).Ok? {
        forall i | 0 <= i < |ranks|
          ensures NodeReward(total, w, NodeWeight(height, ranks[i])).Ok?
        {
          SmallerReward(total, w, first, NodeWeight(height, ranks[i]));
        }
        AllComputed(height, total, w, ranks);
      }
    }
  }

  lemma SmallerReward(total: nat, totalWeight: nat, a: nat, b: nat)
    requires b <= a && NodeReward(total, totalWeight, a).Ok?
    ensures NodeReward(total, totalWeight, b).Ok? && NodeReward(total, totalWeight, b).value <= NodeReward(total,
        totalWeight, a).value
  {
    MulLe(b, a, total);
    Quotient(total * a, totalWeight);
    Quotient(total * b, totalWeight);
    var x, y := total * a / totalWeight, total * b / totalWeight;
    if x + 1 <= y {
      MulLe(x + 1, y, totalWeight);
      assert false;
    }
  }
}
