/** The supply: conservation along the chain and the reward schedule together. */
module Supply {
  import opened Ledger
  import opened Worth
  import opened Money
  import opened Conservation
  import opened Reward

  /** What the block at a height may pay out under the flags that hold for it. */
  ghost function Allowed(h: nat, flags: nat -> (bool, bool)): int
    requires h < 0x1_0000_0000_0000_0000
  {
    var r := CalcBlockSubsidy(h, flags(h).0, flags(h).1);
    if r.Some? then r.value.0 + r.value.1 else 0
  }

  lemma {:induction false} SumAllowed(rewards: seq<int>, flags: nat -> (bool, bool))
    requires |rewards| < 0x1_0000_0000_0000_0000
    requires forall i :: 0 <= i < |rewards| ==> rewards[i] == Allowed(i + 1, flags)
    ensures Sum(rewards) == PaidSum(|rewards|, flags)
    decreases |rewards|
  {
    hide CalcBlockSubsidy;
    if rewards != [] {
      var n := |rewards| - 1;
      SumAllowed(rewards[..n], flags);
      SumSnoc(rewards, n);
      assert rewards[..n + 1] == rewards;
    }
  }

  /** In every chain of accepted blocks on top of the first one, whatever bindings and stakes there
      are, the money in existence never exceeds what was there by more than the supply cap. */
  lemma SupplyWithinCap(v: View, blocks: seq<Block>, rewards: seq<int>, flags: nat -> (bool, bool))
    requires Sized(v) && |rewards| == |blocks| < 0x1_0000_0000_0000_0000
    requires forall i :: 0 <= i < |blocks| ==> rewards[i] == Allowed(i + 1, flags)
    requires forall i :: 0 <= i < |blocks| ==> Accepted(Replay(v, blocks[..i]), blocks[i], rewards[i])
    ensures Sized(Replay(v, blocks)) && Total(Replay(v, blocks)) <= Total(v) + MAX_AMOUNT
  {
    hide Total, Accepted, Allowed;
    ChainConserves(v, blocks, rewards);
    SumAllowed(rewards, flags);
    PaidWithinCap(|rewards|, flags);
  }
}
