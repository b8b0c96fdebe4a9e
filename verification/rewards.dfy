/** The block-reward halving schedule shared by every chain in the repository:
    0.05 token (5·10^16 base units) per block, halved every 210 000 000 blocks.

    The source has five copies of this computation. Three of them stop at 64
    halvings; two divide by `1 << uint(halvings)` without that guard. Both
    shapes are modelled here as written, with Go's `int64` shift and
    truncating `sdk.Int.Quo`, and are compared against one reference
    schedule, `RewardAt`, that halves the reward once per epoch. */
module Rewards {
  import opened Wrappers
  import opened Arith

  const InitialReward: nat := 50_000_000_000_000_000
  const HalvingInterval: nat := 210_000_000

  /** Reference schedule: the reward of epoch `e`, obtained by halving
      (rounding down) the initial reward `e` times. */
  function EpochReward(e: nat): nat {
    if e == 0 then InitialReward else EpochReward(e - 1) / 2
  }

  /** Reference block reward at `height`. */
  function RewardAt(height: nat): nat {
    EpochReward(height / HalvingInterval)
  }

  lemma {:induction false} EpochRewardClosedForm(e: nat)
    ensures EpochReward(e) == InitialReward / Pow2(e)
  {
    if e > 0 {
      EpochRewardClosedForm(e - 1);
      DivDiv(InitialReward, Pow2(e - 1), 2);
    }
  }

  /** After 56 halvings nothing is left: 2^56 exceeds the initial reward. */
  lemma EpochRewardVanishes(e: nat)
    ensures e >= 56 ==> EpochReward(e) == 0
  {
    if e >= 56 {
      EpochRewardClosedForm(e);
      Pow2Widths();
      Pow2Monotone(56, e);
    }
  }

  lemma {:induction false} EpochRewardNonIncreasing(e1: nat, e2: nat)
    requires e1 <= e2
    ensures EpochReward(e2) <= EpochReward(e1)
    decreases e2 - e1
  {
    if e1 < e2 {
      EpochRewardNonIncreasing(e1, e2 - 1);
    }
  }

  /** A later block never earns more than an earlier one. */
  lemma RewardNonIncreasing(h1: nat, h2: nat)
    requires h1 <= h2
    ensures RewardAt(h2) <= RewardAt(h1)
  {
    EpochRewardNonIncreasing(h1 / HalvingInterval, h2 / HalvingInterval);
  }

  /** The reward is constant within an epoch and halves from one epoch to the next. */
  lemma RewardHalvesEachEpoch(height: nat)
    ensures RewardAt(height + HalvingInterval) == RewardAt(height) / 2
    ensures RewardAt(height) <= InitialReward
  {
    assert (height + HalvingInterval) / HalvingInterval == height / HalvingInterval + 1;
    EpochRewardNonIncreasing(0, height / HalvingInterval);
  }

  /** `sdk.NewInt(1 << uint(s))`: the shift is on `int64`, so bit 63 makes the
      value negative and any larger shift leaves 0. */
  function Int64Shl1(s: nat): (r: int)
    ensures s < 63 ==> r == Pow2(s)
    ensures s == 63 ==> r == -(TwoTo63 as int)
    ensures s >= 64 ==> r == 0
  {
    WrapPow2(s);
    WrapInt64(Pow2(s))
  }

  lemma WrapPow2(s: nat)
    ensures s < 63 ==> WrapInt64(Pow2(s)) == Pow2(s)
    ensures s == 63 ==> WrapInt64(Pow2(s)) == -(TwoTo63 as int)
    ensures s >= 64 ==> WrapInt64(Pow2(s)) == 0
  {
    if s >= 64 {
      WrapPow2Large(s);
    } else if s < 63 {
      WrapPow2Small(s);
    } else {
      Pow2Widths();
      DivUnique(Pow2(s), TwoTo64, 0, TwoTo63);
    }
  }

  lemma WrapPow2Small(s: nat)
    requires s < 63
    ensures WrapInt64(Pow2(s)) == Pow2(s)
  {
    Pow2Widths();
    Pow2Monotone(s, 62);
    Pow2Add(62, 1);
    assert Pow2(s) < TwoTo63;
    DivUnique(Pow2(s), TwoTo64, 0, Pow2(s));
  }

  lemma WrapPow2Large(s: nat)
    requires s >= 64
    ensures WrapInt64(Pow2(s)) == 0
  {
    Pow2Widths();
    Pow2Add(64, s - 64);
    DivUnique(Pow2(s), TwoTo64, Pow2(s - 64), 0);
  }

  /** `sdk.Int.Quo`: truncating division; division by zero panics (None). */
  function Quo(a: int, b: int): (r: Option<int>)
    ensures r.None? <==> b == 0
    ensures b > 0 && a >= 0 ==> r == Some(a / b)
  {
    if b == 0 then None else Some(TruncDiv(a, b))
  }

  /** The guarded copy: zero once halvings reach 64, otherwise the initial
      reward divided by the shifted divisor. It never panics, and it agrees
      with the reference schedule at every height. */
  function CappedReward(height: nat): (r: nat)
    ensures r == RewardAt(height)
    ensures r <= InitialReward
  {
    RewardHalvesEachEpoch(height);
    var halvings := height / HalvingInterval;
    EpochRewardVanishes(halvings);
    ShiftedQuotient(halvings);
    if halvings >= 64 then 0
    else TruncDiv(InitialReward, Int64Shl1(halvings))
  }

  /** Below 64 halvings the truncated quotient by the `int64` shift is the
      epoch's reward, even at 63 where the divisor has turned negative. */
  lemma ShiftedQuotient(e: nat)
    ensures e < 64 ==> Int64Shl1(e) != 0 && TruncDiv(InitialReward, Int64Shl1(e)) == EpochReward(e)
  {
    EpochRewardClosedForm(e);
    EpochRewardVanishes(e);
    if e == 63 {
      DivUnique(InitialReward, TwoTo63, 0, InitialReward);
    }
  }

  /** The unguarded copy (`if halvings > 0 { base = base.Quo(1 << uint(halvings)) }`).
      None stands for the division-by-zero panic. */
  function UncappedReward(height: nat): (r: Option<int>)
    ensures r.Some? <==> height / HalvingInterval < 64
    ensures r.Some? ==> r.value == RewardAt(height)
  {
    var halvings := height / HalvingInterval;
    ShiftedQuotient(halvings);
    if halvings > 0 then Quo(InitialReward, Int64Shl1(halvings))
    else
      Some(InitialReward)
  }

  /** The first height at which the unguarded copy panics: 64 · 210 000 000. */
  lemma UncappedRewardPanics()
    ensures UncappedReward(64 * HalvingInterval).None?
    ensures UncappedReward(64 * HalvingInterval - 1) == Some(0)
    ensures CappedReward(64 * HalvingInterval) == 0
  {
    assert (64 * HalvingInterval - 1) / HalvingInterval == 63;
    EpochRewardVanishes(63);
  }

  /** The intended unguarded schedule: the initial reward divided by
      2^halvings with an unbounded divisor, total at every height and equal
      to the reference schedule. */
  function HalvedBase(height: nat): (r: nat)
    ensures r == RewardAt(height)
  {
    EpochRewardClosedForm(height / HalvingInterval);
    InitialReward / Pow2(height / HalvingInterval)
  }
}
