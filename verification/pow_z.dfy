/** The Z chain's zk-SNARK proof-of-work keeper (`z-blockchain/x/pow`): a
    miner submits a proof for the current block, which is checked against the
    block's hashes, the stored difficulty and the miner's address; a valid
    proof earns the halving block reward in "z". Every 2016 blocks the
    difficulty is rescaled. The keeper's state here is its difficulty entry. */
module PowZ {
  import opened Wrappers
  import opened Bytes
  import opened Chain
  import opened ZkPow
  import DifficultyStore
  import Retarget
  import Arith
  import Rewards

  /** `types.ModuleName`. */
  const ModuleName: string := "pow"
  const Denom: string := "z"

  datatype PowError = InvalidZkProof | BankFailure(call: BankCall)

  /** `DistributeReward`: mint the block reward of "z" to the module,
      then send it to the miner. */
  function DistributeReward(fails: BankCall -> bool, ctx: BlockCtx, miner: Address)
    : (r: Result<seq<BankCall>, PowError>)
    ensures var p := Payout(ModuleName, Denom, ctx.height, miner);
      r.Ok? <==> !fails(p[0]) && !fails(p[1])
    ensures r.Ok? ==> r.value == [Mint(ModuleName, Denom, Rewards.RewardAt(ctx.height)),
                                  SendFromModule(ModuleName, miner, Denom, Rewards.RewardAt(ctx.height))]
    ensures r.Err? ==> r.error.BankFailure? && fails(r.error.call)
  {
    match ZkPow.DistributeReward(fails, ModuleName, Denom, ctx.height, miner)
    case Ok(calls) => Ok(calls)
    case Err(call) => Err(BankFailure(call))
  }

  /** `MineBlock`: verify the proof against the public inputs built from the
      stored difficulty, then distribute the reward. */
  function MineBlock(verify: ZkVerifier, fails: BankCall -> bool, cell: DifficultyStore.Cell,
                     ctx: BlockCtx, miner: Address, proof: seq<Byte>)
    : (r: Result<seq<BankCall>, PowError>)
    requires DifficultyStore.Readable(cell)
    ensures var inputs := PreparePublicInputs(ctx, DifficultyStore.GetDifficulty(cell), miner);
      r == Err(InvalidZkProof) <==> !verify(proof, inputs, ctx)
    ensures var inputs := PreparePublicInputs(ctx, DifficultyStore.GetDifficulty(cell), miner);
      var p := Payout(ModuleName, Denom, ctx.height, miner);
      r.Ok? <==> verify(proof, inputs, ctx) && !fails(p[0]) && !fails(p[1])
    ensures r.Ok? ==> r.value == Payout(ModuleName, Denom, ctx.height, miner)
    ensures r.Err? && r.error.BankFailure? ==>
      fails(r.error.call) && r.error.call in Payout(ModuleName, Denom, ctx.height, miner)
  {
    var difficulty := DifficultyStore.GetDifficulty(cell);
    var inputs := PreparePublicInputs(ctx, difficulty, miner);
    if !verify(proof, inputs, ctx) then Err(InvalidZkProof)
    else DistributeReward(fails, ctx, miner)
  }

  /** If the verifier accepts a proof for at most one input string per block,
      a proof that earned a reward for one miner is rejected for every other
      miner: the miner's address is bound into the checked inputs. */
  lemma ProofBoundToMiner(verify: ZkVerifier, fails: BankCall -> bool, cell: DifficultyStore.Cell,
                          ctx: BlockCtx, m1: Address, m2: Address, proof: seq<Byte>)
    requires DifficultyStore.Readable(cell)
    requires forall x, y :: verify(proof, x, ctx) && verify(proof, y, ctx) ==> x == y
    requires MineBlock(verify, fails, cell, ctx, m1, proof).Ok?
    requires m1 != m2
    ensures MineBlock(verify, fails, cell, ctx, m2, proof) == Err(InvalidZkProof)
  {
    var d := DifficultyStore.GetDifficulty(cell);
    if verify(proof, PreparePublicInputs(ctx, d, m2), ctx) {
      PublicInputsInjective(ctx, d, m1, d, m2);
    }
  }

  /** `AdjustDifficulty`. At heights divisible by 2016 the new difficulty is
      `cur * 500 / actual` on `uint64`, kept within a factor of four of `cur`
      and stored. `GetBlockTime` is a stub returning the block's own Unix time,
      so `actual` is `ctx.timeUnix`. None is the division-by-zero panic. */
  function AdjustDifficulty(cell: DifficultyStore.Cell, ctx: BlockCtx): (r: Option<DifficultyStore.Cell>)
    requires DifficultyStore.Readable(cell)
    ensures ctx.height % Retarget.Period != 0 ==> r == Some(cell)
    ensures ctx.height % Retarget.Period == 0 ==> (r.None? <==> Retarget.ToU64(ctx.timeUnix) == 0)
    ensures r.Some? ==> DifficultyStore.Readable(r.value)
    ensures ctx.height % Retarget.Period == 0 && r.Some? ==> r.value.Some? && |r.value.value| == 8
  {
    if ctx.height % Retarget.Period != 0 then Some(cell)
    else
      var cur := DifficultyStore.GetDifficulty(cell);
      var actualTime := ctx.timeUnix;
      match Retarget.Scale(cur, Retarget.TargetBlockTimeMs, actualTime)
      case None => None
      case Some(proposed) =>
        var next := Retarget.ClampQuarter(proposed, cur);
        Some(DifficultyStore.SetDifficulty(next))
  }

  /** Without wrap-around, a retarget keeps the difficulty within a factor of
      four of the current one, and stores `cur * 500 / actual` itself when
      that already lies in range. */
  lemma AdjustDifficultyBounds(cell: DifficultyStore.Cell, ctx: BlockCtx)
    requires DifficultyStore.Readable(cell)
    requires ctx.height % Retarget.Period == 0
    requires 0 < ctx.timeUnix < U64
    requires DifficultyStore.GetDifficulty(cell) * 500 < U64
    ensures AdjustDifficulty(cell, ctx).Some?
    ensures var cur := DifficultyStore.GetDifficulty(cell);
      var d := DifficultyStore.GetDifficulty(AdjustDifficulty(cell, ctx).value);
      var q := cur * 500 / ctx.timeUnix;
      cur / 4 <= d <= cur * 4 && (d == q <==> cur / 4 <= q <= cur * 4)
  {
    var cur := DifficultyStore.GetDifficulty(cell);
    var t := ctx.timeUnix;
    var q := cur * 500 / t;
    assert Retarget.Scale(cur, Retarget.TargetBlockTimeMs, t) == Some(q);
    Retarget.ClampQuarterBounds(q, cur);
    DifficultyStore.SetThenGet(Retarget.ClampQuarter(q, cur));
  }

  /** Because the block-time stub yields an absolute Unix time in seconds, any
      retarget at a block dated 2000 seconds or more after the epoch divides
      the difficulty by four (rounding down). */
  lemma RealClockQuarters(cell: DifficultyStore.Cell, ctx: BlockCtx)
    requires DifficultyStore.Readable(cell)
    requires ctx.height % Retarget.Period == 0
    requires 2000 <= ctx.timeUnix < U64
    requires DifficultyStore.GetDifficulty(cell) * 500 < U64
    ensures AdjustDifficulty(cell, ctx).Some?
    ensures var cur := DifficultyStore.GetDifficulty(cell);
      DifficultyStore.GetDifficulty(AdjustDifficulty(cell, ctx).value) == cur / 4
  {
    var cur := DifficultyStore.GetDifficulty(cell);
    var t := ctx.timeUnix;
    var q := cur * 500 / t;
    assert Retarget.Scale(cur, Retarget.TargetBlockTimeMs, t) == Some(q);
    Arith.DivLeDiv(cur * 500, 2000, t);
    assert (cur * 500) / 2000 == cur / 4;
    DifficultyStore.SetThenGet(Retarget.ClampQuarter(q, cur));
  }
}
