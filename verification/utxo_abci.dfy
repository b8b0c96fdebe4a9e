/** The Z-chain UTXO module's block hooks: the retarget every 2016 blocks at
    the start of a block, and the `block_processed` event at its end. The
    statistics hooks only log and are left out. */
module UtxoAbci {
  import opened Wrappers
  import opened Arith
  import opened Bytes
  import opened Decimal
  import opened Chain
  import opened Retarget
  import opened UtxoParams
  import opened UtxoKeeper
  import opened UtxoEvents
  import DifficultyStore


  /** `GetBlockTimeRange`: historical block times are not consulted; the
      range always reads as the 500 ms target, whatever the heights. */
  function GetBlockTimeRange(startHeight: int, endHeight: int): (ms: int)
    ensures ms == TargetBlockTimeMs
  {
    500
  }

  /** `ctx.BlockHeight()%2016 == 0 && ctx.BlockHeight() > 0`: the positive
      multiples of 2016. */
  predicate IsRetargetHeight(height: nat): (r: bool)
    ensures r <==> height >= Period && (height / Period) * Period == height
  {
    height % Period == 0 && height > 0
  }

  /** The difficulty `AdjustDifficulty` computes from the current one:
      scale, limit to a factor of four, then to the parameter bounds.
      None is the division-by-zero panic. */
  function NextDifficulty(cur: nat, actualTime: int, params: Params): (r: Option<nat>)
    requires cur < U64 && params.minDifficulty < U64 && params.maxDifficulty < U64
    ensures r.None? <==> ToU64(actualTime) == 0
    ensures r.Some? ==> r.value < U64
    ensures r.Some? && params.minDifficulty <= params.maxDifficulty ==>
      params.minDifficulty <= r.value <= params.maxDifficulty
  {
    match Scale(cur, TargetBlockTimeMs, actualTime)
    case None => None
    case Some(scaled) =>
      ClampParamsBounds(ClampQuarter(scaled, cur), params.minDifficulty, params.maxDifficulty);
      Some(ClampParams(ClampQuarter(scaled, cur), params.minDifficulty, params.maxDifficulty))
  }

  /** `Keeper.AdjustDifficulty`: store the next difficulty and announce the
      old and new values with the height, as decimal text. */
  function AdjustDifficulty(st: State, params: Params, ctx: BlockCtx): (r: (State, Event))
    requires DifficultyStore.Readable(st.difficulty)
    requires params.minDifficulty < U64 && params.maxDifficulty < U64
    ensures var cur := GetDifficulty(st);
      var next := NextDifficulty(cur, GetBlockTimeRange(ctx.height - Period, ctx.height), params);
      next.Some?
      && DifficultyStore.Readable(r.0.difficulty) && GetDifficulty(r.0) == next.value
      && r.0 == st.(difficulty := r.0.difficulty)
      && r.1.kind == EventTypeDifficultyAdjust
      && AttributeValue(r.1, "old_difficulty") == Some(NatToDecimal(cur))
      && AttributeValue(r.1, "new_difficulty") == Some(NatToDecimal(next.value))
  {
    var cur := GetDifficulty(st);
    var next := NextDifficulty(cur, GetBlockTimeRange(ctx.height - Period, ctx.height), params).value;
    (SetDifficulty(st, next), DifficultyAdjustEvent(cur, next, ctx.height))
  }

  /** Since the block-time range always equals the target, a difficulty
      inside the parameter bounds is a fixed point as long as `cur * 500`
      does not wrap. */
  lemma AdjustDifficultyStable(st: State, params: Params, ctx: BlockCtx)
    requires DifficultyStore.Readable(st.difficulty)
    requires params.minDifficulty < U64 && params.maxDifficulty < U64
    requires GetDifficulty(st) * TargetBlockTimeMs < U64
    requires params.minDifficulty <= GetDifficulty(st) <= params.maxDifficulty
    ensures GetDifficulty(AdjustDifficulty(st, params, ctx).0) == GetDifficulty(st)
  {
    var cur := GetDifficulty(st);
    var scaled := Scale(cur, TargetBlockTimeMs, 500).value;
    assert scaled * 500 <= cur * 500 < (scaled + 1) * 500;
    assert scaled == cur;
    ClampQuarterBounds(cur, cur);
  }

  /** When `cur * 500` wraps, the scaled value collapses and the factor-of-four
      limit drops the difficulty to a quarter: the smallest wrapping value,
      2^64 / 500 + 1, becomes a quarter of itself. */
  lemma AdjustDifficultyWraps(st: State, params: Params, ctx: BlockCtx)
    requires params.minDifficulty == 1 && params.maxDifficulty == U64 - 1
    ensures var st0 := st.(difficulty := DifficultyStore.SetDifficulty(36_893_488_147_419_104));
      GetDifficulty(AdjustDifficulty(st0, params, ctx).0) == 9_223_372_036_854_776
  {
    var cur := 36_893_488_147_419_104;
    DifficultyStore.SetThenGet(cur);
    assert cur * 500 == U64 + 384;
    assert MulU64(cur, 500) == 384;
    assert Scale(cur, TargetBlockTimeMs, 500) == Some(0);
    assert ClampQuarter(0, cur) == 9_223_372_036_854_776;
  }

  /** The announced values read back as the stored difficulties. */
  lemma AdjustDifficultyEventDecodes(st: State, params: Params, ctx: BlockCtx)
    requires DifficultyStore.Readable(st.difficulty)
    requires params.minDifficulty < U64 && params.maxDifficulty < U64
    ensures var (st', e) := AdjustDifficulty(st, params, ctx);
      ParseInt(AttributeValue(e, "old_difficulty").value) == Some(GetDifficulty(st))
      && ParseInt(AttributeValue(e, "new_difficulty").value) == Some(GetDifficulty(st'))
  {
    var (st', e) := AdjustDifficulty(st, params, ctx);
    Int64RoundTrip(GetDifficulty(st));
    Int64RoundTrip(GetDifficulty(st'));
  }

  /** `BeginBlocker`: retarget at every positive multiple of 2016, otherwise
      leave the state alone; the events emitted are returned. */
  function BeginBlocker(st: State, params: Params, ctx: BlockCtx): (r: (State, seq<Event>))
    requires DifficultyStore.Readable(st.difficulty)
    requires params.minDifficulty < U64 && params.maxDifficulty < U64
    ensures !IsRetargetHeight(ctx.height) ==> r == (st, [])
    ensures IsRetargetHeight(ctx.height) ==>
      |r.1| == 1 && r.1[0].kind == EventTypeDifficultyAdjust
      && r.0.utxos == st.utxos && r.0.transactions == st.transactions
    ensures DifficultyStore.Readable(r.0.difficulty)
  {
    if IsRetargetHeight(ctx.height) then
      var (st', e) := AdjustDifficulty(st, params, ctx);
      (st', [e])
    else (st, [])
  }

  /** Between retargets the difficulty entry is never touched. */
  lemma {:induction false} DifficultyConstantBetweenRetargets(st: State, params: Params, ctxs: seq<BlockCtx>)
    requires DifficultyStore.Readable(st.difficulty)
    requires params.minDifficulty < U64 && params.maxDifficulty < U64
    requires forall j :: 0 <= j < |ctxs| ==> !IsRetargetHeight(ctxs[j].height)
    ensures RunBeginBlockers(st, params, ctxs) == st
  {
    if |ctxs| > 0 {
      assert BeginBlocker(st, params, ctxs[0]).0 == st;
      DifficultyConstantBetweenRetargets(st, params, ctxs[1..]);
    }
  }

  /** The state after `BeginBlocker` runs for each context in turn. */
  function RunBeginBlockers(st: State, params: Params, ctxs: seq<BlockCtx>): (st': State)
    requires DifficultyStore.Readable(st.difficulty)
    requires params.minDifficulty < U64 && params.maxDifficulty < U64
    ensures DifficultyStore.Readable(st'.difficulty)
    decreases |ctxs|
  {
    if |ctxs| == 0 then st else RunBeginBlockers(BeginBlocker(st, params, ctxs[0]).0, params, ctxs[1..])
  }

  /** `EndBlocker`: one `block_processed` event with the height and the block
      time in seconds. */
  function EndBlocker(ctx: BlockCtx): (e: Event)
    requires ctx.height < TwoTo63 && -(TwoTo63 as int) <= ctx.timeUnix < TwoTo63
    ensures e.kind == EventTypeBlockProcessed
    ensures AttributeValue(e, "height").Some? && AttributeValue(e, "timestamp").Some?
    ensures ParseInt(AttributeValue(e, "height").value) == Some(ctx.height as int)
    ensures ParseInt(AttributeValue(e, "timestamp").value) == Some(ctx.timeUnix)
  {
    Int64RoundTrip(ctx.height);
    Int64RoundTrip(ctx.timeUnix);
    BlockProcessedEvent(ctx.height, ctx.timeUnix)
  }
}
