/** The block subsidy: a halving schedule whose heights are moved at the fork MASSIP0002, and its
    split between the miner and the staking nodes. */
module Reward {
  import opened MachineTypes
  import opened Wrappers
  import opened Naf
  import opened Money

  const BASE_SUBSIDY: int := 1024 * 100000000
  const MIN_SUBSIDY: int := 6250000
  const HALVING_INTERVAL: int := 13440
  const WARM_UP_HEIGHT: int := 1398801
  const FORK_HEIGHT: int := 1404801

  /** The number of times a number can be halved before it is zero, less one. */
  function Log2(t: nat): nat
  {
    if t < 2 then 0 else 1 + Log2(t / 2)
  }

  lemma {:induction false} Log2Bounds(t: nat)
    requires t > 0
    ensures Pow2(Log2(t)) <= t < 2 * Pow2(Log2(t))
  {
    if t >= 2 {
      Log2Bounds(t / 2);
    }
  }

  lemma {:induction false} Pow2Grows(i: nat, j: nat)
    requires i <= j
    ensures 0 < Pow2(i) <= Pow2(j)
    decreases j
  {
    if i < j {
      Pow2Grows(i, j - 1);
    } else if j > 0 {
      Pow2Grows(i - 1, j - 1);
    }
  }

  lemma Log2Is(t: nat, n: nat)
    requires Pow2(n) <= t < 2 * Pow2(n)
    ensures Log2(t) == n
  {
    Pow2Grows(0, n);
    Log2Bounds(t);
    if Log2(t) < n {
      Pow2Grows(Log2(t) + 1, n);
    } else if n < Log2(t) {
      Pow2Grows(n + 1, Log2(t));
    }
  }

  /** The period number whose logarithm is taken; the subtraction wraps for height zero. */
  function Period(height: uint64): nat
  {
    (height as int + 0xFFFF_FFFF_FFFF_FFFF) % 0x1_0000_0000_0000_0000 / HALVING_INTERVAL + 1
  }

  /** `calcRshNumBeforeIp2`. */
  method CalcRshNum(height: uint64) returns (i: nat)
    ensures i == Log2(Period(height))
  {
    var t := Period(height);
    i := 0;
    while true
      invariant t > 0 && Log2(Period(height)) == i + Log2(t)
      decreases t
    {
      t := t / 2;
      if t != 0 {
        i := i + 1;
      } else {
        return;
      }
    }
  }

  /** The base subsidy shifted right, or nothing below the given minimum. */
  function Halved(height: uint64, least: int): int
  {
    var n := Log2(Period(height));
    Pow2Grows(0, n);
    var s := BASE_SUBSIDY / Pow2(n);
    if s < least then 0 else s
  }

  /** The height at which the schedule continues after the fork: the same fraction of the fifth period
      as the fork is of the seventh. Zero means that heights are not moved. */
  function FakeStart(forkHeight: int): int
  {
    if 846720 < forkHeight <= 1706880 then 201601 + (forkHeight - 846720) * 215040 / 860160 else 0
  }

  /** The subsidy before it is divided. */
  function Subsidy(height: uint64): int
  {
    if height < FORK_HEIGHT then Halved(height, MIN_SUBSIDY)
    else Halved(FakeStart(FORK_HEIGHT) + (height - FORK_HEIGHT), 4 * MIN_SUBSIDY)
  }

  /** `allocSubsidyBeforeIp2`: the shares of the miner and of the staking nodes. */
  function AllocBefore(s: int, hasValidBinding: bool, hasStaking: bool, hasGameReward: bool): (int, int)
  {
    if hasGameReward then
      var miner := s * (if hasValidBinding then 8125 else 1875) / 10000;
      (miner, if hasStaking then s - miner else 0)
    else
      var miner := s * 1875 / 10000;
      (miner, if hasStaking then miner else 0)
  }

  /** `allocSubsidy`. */
  function AllocAfter(s: int, hasStaking: bool): (int, int)
  {
    var staking := if hasStaking then s / 10 else 0;
    (if staking == 0 then s * 9 / 10 else s - staking, staking)
  }

  /** `CalcBlockSubsidy`: the rewards of the miner and of the staking nodes. After the fork there is
      none without a valid binding. */
  function CalcBlockSubsidy(height: uint64, hasValidBinding: bool, hasStaking: bool): Option<(int, int)>
  {
    var s := Subsidy(height);
    if height < FORK_HEIGHT then
      var warmUp := height >= WARM_UP_HEIGHT;
      if s == 0 then Some((0, 0)) else Alloted(AllocBefore(s, hasValidBinding && !warmUp, hasStaking, !warmUp))
    else if !hasValidBinding then None
    else if s == 0 then Some((0, 0)) else Alloted(AllocAfter(s, hasStaking))
  }

  /** Both shares must be amounts. */
  function Alloted(shares: (int, int)): Option<(int, int)>
  {
    if Checked(shares.0).Some? && Checked(shares.1).Some? then Some(shares) else None
  }

  /** The shares never exceed the subsidy. They use all of it exactly if there is staking, outside the
      warm-up, with a share that is not rounded to zero. */
  lemma SharesOf(height: uint64, hasValidBinding: bool, hasStaking: bool)
    ensures var r := CalcBlockSubsidy(height, hasValidBinding, hasStaking);
            && 0 <= Subsidy(height) <= BASE_SUBSIDY
            && (r.None? <==> height >= FORK_HEIGHT && !hasValidBinding)
            && (r.Some? ==> 0 <= r.value.0 && 0 <= r.value.1 && r.value.0 + r.value.1 <= Subsidy(height))
            && (r.Some? && hasStaking && !(WARM_UP_HEIGHT <= height < FORK_HEIGHT) && Subsidy(height) != 0 ==>
                  r.value.0 + r.value.1 == Subsidy(height))
  {
    HalvedRange(height, MIN_SUBSIDY);
    if height >= FORK_HEIGHT {
      HalvedRange(FakeStart(FORK_HEIGHT) + (height - FORK_HEIGHT), 4 * MIN_SUBSIDY);
    }
    hide Halved;
    var s := Subsidy(height);
    assert s == 0 || s >= MIN_SUBSIDY;
  }

  /** The part is the whole times the fraction, rounded down. */
  predicate Portion(part: int, whole: int, num: int, den: int)
  {
    den * part <= num * whole < den * part + den
  }

  /** Who gets what. Before the warm-up the miner has 81.25% with a valid binding and 18.75% without one,
      and the staking nodes have the rest; in the warm-up each side has 18.75%; after the fork the staking
      nodes have a tenth and the miner the rest. Without staking nodes their share is not paid out. */
  lemma SharesAre(height: uint64, hasValidBinding: bool, hasStaking: bool)
    requires height < FORK_HEIGHT || hasValidBinding
    ensures var s, r := Subsidy(height), CalcBlockSubsidy(height, hasValidBinding, hasStaking);
            && r.Some?
            && var (miner, nodes) := r.value;
               if height < WARM_UP_HEIGHT then
                 && Portion(miner, s, if hasValidBinding then 8125 else 1875, 10000)
                 && nodes == if hasStaking then s - miner else 0
               else if height < FORK_HEIGHT then
                 && Portion(miner, s, 1875, 10000)
                 && nodes == if hasStaking then miner else 0
               else if hasStaking then Portion(nodes, s, 1, 10) && miner == s - nodes
               else nodes == 0 && Portion(miner, s, 9, 10)
  {
    SharesOf(height, hasValidBinding, hasStaking);
    HalvedRange(height, MIN_SUBSIDY);
    if height >= FORK_HEIGHT {
      HalvedRange(FakeStart(FORK_HEIGHT) + (height - FORK_HEIGHT), 4 * MIN_SUBSIDY);
    }
    hide Halved;
  }

  /** The shares at the first block, in the warm-up, and after the fork. */
  lemma ShareExamples()
    ensures CalcBlockSubsidy(1, true, true) == Some((83200000000, 19200000000))
    ensures CalcBlockSubsidy(1, false, true) == Some((19200000000, 83200000000))
    ensures CalcBlockSubsidy(1400000, true, true) == Some((300000000, 300000000))
    ensures CalcBlockSubsidy(2000000, true, true) == Some((1440000000, 160000000))
    ensures CalcBlockSubsidy(2000000, true, false) == Some((1440000000, 0))
  {
    assert Pow2(0) == 1 && Pow2(3) == 8 && Pow2(6) == 64;
    HalvedIs(1, 0, 1, MIN_SUBSIDY);
    HalvedIs(1400000, 6, 64, MIN_SUBSIDY);
    HalvedIs(936320, 6, 64, 4 * MIN_SUBSIDY);
    hide Halved, Pow2;
    assert FakeStart(FORK_HEIGHT) + (2000000 - FORK_HEIGHT) == 936320;
  }

  lemma HalvedRange(height: uint64, least: int)
    requires least > 0
    ensures 0 <= Halved(height, least) <= BASE_SUBSIDY && (Halved(height, least) == 0 || Halved(height, least) >= least)
  {
    var n := Log2(Period(height));
    Pow2Grows(0, n);
    DivBound(BASE_SUBSIDY, Pow2(n));
  }

  lemma MulLe(x: int, y: int, d: int)
    requires x <= y && d >= 0
    ensures x * d <= y * d
  {
  }

  /** What a quotient is. */
  lemma Quotient(a: int, d: int)
    requires a >= 0 && d > 0
    ensures 0 <= a / d && a / d * d <= a < (a / d + 1) * d
  {
    var q, r := a / d, a % d;
    assert a == q * d + r && 0 <= r < d;
    Distribute(q, d);
    if q + 1 <= 0 {
      MulLe(q + 1, 0, d);
      assert false;
    }
  }

  lemma DivBound(a: int, d: int)
    requires a >= 0 && d > 0
    ensures 0 <= a / d <= a
  {
    Quotient(a, d);
    MulLe(1, d, a / d);
  }

  /** The subsidies of the first blocks. */
  function SubsidySum(h: nat): int
    requires h < 0x1_0000_0000_0000_0000
  {
    if h == 0 then 0 else SubsidySum(h - 1) + Subsidy(h)
  }

  lemma {:induction false} SumRun(a: nat, b: nat, c: int)
    requires 0 < a <= b + 1 <= 0x1_0000_0000_0000_0000
    requires forall h: uint64 :: a <= h <= b ==> Subsidy(h) == c
    ensures SubsidySum(b) == SubsidySum(a - 1) + (b + 1 - a) * c
    decreases b
  {
    hide Subsidy;
    if a <= b {
      SumRun(a, b - 1, c);
      assert Subsidy(b) == c;
      Distribute(b - a, c);
    }
  }

  lemma Distribute(n: int, c: int)
    ensures (n + 1) * c == n * c + c
  {
  }

  /** A period of the schedule: the heights at which the base subsidy is halved `n` times. */
  lemma HalvedIs(height: uint64, n: nat, p: int, least: int)
    requires Pow2(n) == p && 0 < p <= 8192 && 13440 * (p - 1) < height as int <= 13440 * (2 * p - 1)
    ensures Halved(height, least) == if BASE_SUBSIDY / p < least then 0 else BASE_SUBSIDY / p
  {
    hide Pow2;
    assert (height as int + 0xFFFF_FFFF_FFFF_FFFF) % 0x1_0000_0000_0000_0000 == height - 1;
    assert p <= Period(height) < 2 * p;
    Log2Is(Period(height), n);
  }

  lemma BeforeFork(n: nat, p: int, a: int, b: int)
    requires Pow2(n) == p && 0 < p <= 64 && 13440 * (p - 1) < a <= b <= 13440 * (2 * p - 1) && b < FORK_HEIGHT
    ensures SubsidySum(b) == SubsidySum(a - 1) + (b + 1 - a) * (BASE_SUBSIDY / p)
  {
    hide Pow2, Halved;
    forall h: uint64 | a <= h <= b
      ensures Subsidy(h) == BASE_SUBSIDY / p
    {
      HalvedIs(h, n, p, MIN_SUBSIDY);
      LargeEnough(p, MIN_SUBSIDY, 64);
    }
    SumRun(a, b, BASE_SUBSIDY / p);
  }

  lemma LargeEnough(p: int, least: int, most: int)
    requires 0 < p <= most && 0 < least && least * most <= BASE_SUBSIDY
    ensures BASE_SUBSIDY / p >= least
  {
    var q := BASE_SUBSIDY / p;
    Quotient(BASE_SUBSIDY, p);
    MulLe(p, most, least);
    if q + 1 <= least {
      MulLe(q + 1, least, p);
      assert false;
    }
  }

  /** After the fork, heights given as the source moves them. */
  lemma AfterFork(n: nat, p: int, a: int, b: int)
    requires Pow2(n) == p && 0 < p <= 4096 && 13440 * (p - 1) < a <= b <= 13440 * (2 * p - 1) && a >= 341121
    ensures SubsidySum(b + 1063680) == SubsidySum(a + 1063679) + (b + 1 - a) * (BASE_SUBSIDY / p)
  {
    hide Pow2, Halved;
    forall h: uint64 | a + 1063680 <= h <= b + 1063680
      ensures Subsidy(h) == BASE_SUBSIDY / p
    {
      assert FakeStart(FORK_HEIGHT) == 341121;
      HalvedIs(h - 1063680, n, p, 4 * MIN_SUBSIDY);
      LargeEnough(p, 4 * MIN_SUBSIDY, 4096);
    }
    SumRun(a + 1063680, b + 1063680, BASE_SUBSIDY / p);
  }

  /** From the height where the halved subsidy falls below the minimum there is none. */
  lemma AfterAll(height: uint64)
    requires height > 111150720
    ensures Subsidy(height) == 0
  {
    var moved := height - 1063680;
    assert FakeStart(FORK_HEIGHT) == 341121;
    var t := Period(moved);
    assert (moved as int + 0xFFFF_FFFF_FFFF_FFFF) % 0x1_0000_0000_0000_0000 == moved - 1;
    assert t >= 8192;
    Log2Bounds(t);
    var n := Log2(t);
    PowThirteen();
    if n < 13 {
      Pow2Grows(n + 1, 13);
    }
    Pow2Grows(13, n);
    SmallAfter(Pow2(n));
  }

  lemma SmallAfter(d: int)
    requires d >= 8192
    ensures 0 <= BASE_SUBSIDY / d < 4 * MIN_SUBSIDY
  {
    var q := BASE_SUBSIDY / d;
    Quotient(BASE_SUBSIDY, d);
    MulLe(8192, d, q);
  }

  lemma PowThirteen()
    ensures Pow2(0) == 1 && Pow2(1) == 2 && Pow2(2) == 4 && Pow2(3) == 8 && Pow2(4) == 16 && Pow2(5) == 32 &&
        Pow2(6) == 64
    ensures Pow2(7) == 128 && Pow2(8) == 256 && Pow2(9) == 512 && Pow2(10) == 1024 && Pow2(11) == 2048 &&
        Pow2(12) == 4096
    ensures Pow2(13) == 8192
  {
  }

  /** The six periods before the seventh, and the part of it before the fork. */
  lemma SumBefore()
    ensures SubsidySum(1404800) == 6 * 13440 * BASE_SUBSIDY + 558080 * 1600000000
  {
    hide SubsidySum, Pow2;
    PowThirteen();
    SumZero();
    BeforeFork(0, 1, 1, 13440);
    BeforeFork(1, 2, 13441, 40320);
    BeforeFork(2, 4, 40321, 94080);
    BeforeFork(3, 8, 94081, 201600);
    BeforeFork(4, 16, 201601, 416640);
    BeforeFork(5, 32, 416641, 846720);
    BeforeFork(6, 64, 846721, 1404800);
  }

  /** The rest of the fifth period, and eight more. */
  lemma SumAfter()
    ensures SubsidySum(111150720) == SubsidySum(1404800) + 75520 * 6400000000 + 8 * 13440 * BASE_SUBSIDY
  {
    hide SubsidySum, Pow2;
    PowThirteen();
    AfterFork(4, 16, 341121, 416640);
    AfterFork(5, 32, 416641, 846720);
    AfterFork(6, 64, 846721, 1706880);
    AfterFork(7, 128, 1706881, 3427200);
    AfterFork(8, 256, 3427201, 6867840);
    AfterFork(9, 512, 6867841, 13749120);
    AfterFork(10, 1024, 13749121, 27511680);
    AfterFork(11, 2048, 27511681, 55036800);
    AfterFork(12, 4096, 55036801, 110087040);
  }

  /** Six periods of the old schedule, a part of the seventh and the rest of the fifth, which make up
      one period, and eight more periods: the subsidies sum to exactly the supply cap. */
  lemma SumIsCap()
    ensures SubsidySum(111150720) == MAX_AMOUNT
  {
    hide SubsidySum;
    SumBefore();
    SumAfter();
  }

  lemma SumZero()
    ensures SubsidySum(0) == 0
  {
  }

  lemma {:induction false} SumGrows(a: nat, b: nat)
    requires a <= b < 0x1_0000_0000_0000_0000
    ensures SubsidySum(a) <= SubsidySum(b)
    decreases b
  {
    hide Subsidy, CalcBlockSubsidy;
    if a < b {
      SumGrows(a, b - 1);
      SharesOf(b, true, true);
    }
  }

  /** The subsidies up to any height stay within the cap, and reach it. */
  lemma SumWithinCap(h: nat)
    requires h < 0x1_0000_0000_0000_0000
    ensures SubsidySum(h) <= MAX_AMOUNT
    ensures h >= 111150720 ==> SubsidySum(h) == MAX_AMOUNT
  {
    hide SubsidySum, Subsidy;
    SumIsCap();
    if h < 111150720 {
      SumGrows(h, 111150720);
    } else {
      forall k: uint64 | 111150721 <= k <= h
        ensures Subsidy(k) == 0
      {
        AfterAll(k);
      }
      SumRun(111150721, h, 0);
    }
  }

  /** What is paid out up to a height, under any choice of the flags; a block for which there is no
      reward is not accepted and pays nothing. */
  ghost function PaidSum(h: nat, flags: nat -> (bool, bool)): int
    requires h < 0x1_0000_0000_0000_0000
  {
    if h == 0 then 0
    else
      var r := CalcBlockSubsidy(h, flags(h).0, flags(h).1);
      PaidSum(h - 1, flags) + if r.Some? then r.value.0 + r.value.1 else 0
  }

  /** Whatever the flags, the rewards never add up to more than the cap. */
  lemma {:induction false} PaidWithinCap(h: nat, flags: nat -> (bool, bool))
    requires h < 0x1_0000_0000_0000_0000
    ensures PaidSum(h, flags) <= SubsidySum(h) <= MAX_AMOUNT
    decreases h
  {
    hide Subsidy, CalcBlockSubsidy;
    SumWithinCap(h);
    if h > 0 {
      PaidWithinCap(h - 1, flags);
      SharesOf(h, flags(h).0, flags(h).1);
    }
  }
}
