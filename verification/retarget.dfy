/** Bitcoin-style difficulty retargeting as the keepers compute it on `uint64`:
    scale the current difficulty by target time over actual time, then keep the
    result within a factor of four of the current value, and (in the UTXO
    module) within the parameter bounds. Products wrap modulo 2^64, as Go's
    unsigned arithmetic does; the lemmas state what holds when they do not. */
module Retarget {
  import opened Wrappers
  import opened Bytes

  /** The retargeting period, in blocks. */
  const Period: nat := 2016

  /** Target block time, in milliseconds. */
  const TargetBlockTimeMs: nat := 500

  /** Go's `uint64` product. */
  function MulU64(a: nat, b: nat): (r: nat)
    ensures r < U64
    ensures a * b < U64 ==> r == a * b
  {
    (a * b) % U64
  }

  /** Go's conversion `uint64(x)` of an `int64`. */
  function ToU64(x: int): (r: nat)
    ensures r < U64
    ensures 0 <= x < U64 ==> r == x
  {
    x % U64
  }

  /** `newDifficulty := cur * uint64(target) / uint64(actual)`; None is the
      division-by-zero panic. */
  function Scale(cur: nat, target: int, actual: int): (r: Option<nat>)
    requires cur < U64
    ensures r.None? <==> ToU64(actual) == 0
    ensures r.Some? ==> r.value < U64
    ensures r.Some? && 0 < target && cur * target < U64 && 0 < actual < U64 ==>
      r.value * actual <= cur * target < (r.value + 1) * actual
  {
    var d := ToU64(actual);
    if d == 0 then None else Some(MulU64(cur, ToU64(target)) / d)
  }

  /** The factor-of-four limit: above `cur*4` becomes `cur*4`, else below
      `cur/4` becomes `cur/4`. */
  function ClampQuarter(proposed: nat, cur: nat): (r: nat)
    requires proposed < U64 && cur < U64
    ensures r < U64
  {
    var hi := MulU64(cur, 4);
    if proposed > hi then hi
    else if proposed < cur / 4 then cur / 4
    else proposed
  }

  /** Without wrap-around the limit keeps the result within [cur/4, 4·cur], and
      leaves a proposal already in that range unchanged. */
  lemma ClampQuarterBounds(proposed: nat, cur: nat)
    requires proposed < U64 && cur * 4 < U64
    ensures cur / 4 <= ClampQuarter(proposed, cur) <= cur * 4
    ensures ClampQuarter(proposed, cur) == proposed <==> cur / 4 <= proposed <= cur * 4
  {
  }

  /** The parameter limit: below `min` becomes `min`, else above `max` becomes `max`. */
  function ClampParams(proposed: nat, min: nat, max: nat): (r: nat)
    ensures r == proposed || r == min || r == max
    ensures proposed < min ==> r == min
  {
    if proposed < min then min
    else if proposed > max then max
    else proposed
  }

  /** Whenever the bounds are ordered the result lies between them, and a
      proposal already between them is kept. */
  lemma ClampParamsBounds(proposed: nat, min: nat, max: nat)
    ensures min <= max ==> min <= ClampParams(proposed, min, max) <= max
    ensures min <= max ==> (ClampParams(proposed, min, max) == proposed <==> min <= proposed <= max)
  {
  }

  /** With inverted bounds the minimum wins for small proposals but a large one
      is pulled down below it. */
  lemma ClampParamsInverted()
    ensures ClampParams(5, 10, 3) == 10
    ensures ClampParams(20, 10, 3) == 3
  {
  }
}
