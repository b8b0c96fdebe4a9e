/** nuChain's zk-SNARK proof-of-work keeper (`nuchain/x/pow`). It checks a
    proof as the Z chain's keeper does and pays the block reward in "nu";
    afterwards it submits a zk-rollup batch for the block to the Altcoinchain
    L1. A call yields the effects it attempted, in order, and the outcome. */
module PowNu {
  import opened Wrappers
  import opened Bytes
  import opened Chain
  import opened ZkPow
  import DifficultyStore
  import Rewards

  /** `types.ModuleName` of nuChain's `x/pow`. */
  const ModuleName: string := "pow"
  const Denom: string := "nu"

  /** `altcoin.RollupBatch`. The block hash is kept as bytes rather than as
      its hex string. */
  datatype RollupBatch = RollupBatch(height: nat, blockHash: seq<Byte>, timestamp: int,
                                     zkProof: seq<Byte>, txCount: nat)

  /** One external call made by `MineBlock`. */
  datatype Effect = Bank(call: BankCall) | SubmitBatch(batch: RollupBatch)

  datatype PowError = InvalidZkProof | BankFailure(call: BankCall) | L1Failure(batch: RollupBatch)

  /** The effects attempted, in order, and whether the call succeeded. */
  datatype Attempt = Attempt(effects: seq<Effect>, outcome: Outcome<PowError>)

  /** `DistributeReward`: mint the block reward of "nu" to the
      module, then send it to the miner. */
  function DistributeReward(fails: BankCall -> bool, ctx: BlockCtx, miner: Address)
    : (r: Result<seq<BankCall>, PowError>)
    ensures var p := Payout(ModuleName, Denom, ctx.height, miner);
      r.Ok? <==> !fails(p[0]) && !fails(p[1])
    ensures r.Ok? ==> r.value == [Mint(ModuleName, Denom, Rewards.RewardAt(ctx.height)),
                                  SendFromModule(ModuleName, miner, Denom, Rewards.RewardAt(ctx.height))]
    ensures r.Err? ==> r.error.BankFailure? && fails(r.error.call)
  {
    match ZkPow.DistributeReward(fails, ModuleName, Denom, ctx.height, miner)
    case Ok(calls) => Ok(calls)
    case Err(call) => Err(BankFailure(call))
  }

  /** `SubmitToL1`: the batch for the current block. `len(ctx.TxBytes())` is
      the parameter `txCount`. */
  function L1Batch(ctx: BlockCtx, proof: seq<Byte>, txCount: nat): (b: RollupBatch)
    ensures b.height == ctx.height && b.blockHash == ctx.blockHash
    ensures b.timestamp == ctx.timeUnix && b.zkProof == proof && b.txCount == txCount
  {
    RollupBatch(ctx.height, ctx.blockHash, ctx.timeUnix, proof, txCount)
  }

  /** The bank calls a reward distribution attempts before it stops. */
  function BankEffects(fails: BankCall -> bool, p: seq<BankCall>): (effects: seq<Effect>)
    requires |p| == 2
    ensures |effects| == (if fails(p[0]) then 1 else 2)
    ensures forall i :: 0 <= i < |effects| ==> effects[i] == Bank(p[i])
  {
    if fails(p[0]) then [Bank(p[0])] else [Bank(p[0]), Bank(p[1])]
  }

  /** `MineBlock`: verify the proof, distribute the reward, then submit the
      rollup batch to the L1. */
  function MineBlock(verify: ZkVerifier, bankFails: BankCall -> bool, l1Fails: RollupBatch -> bool,
                     cell: DifficultyStore.Cell, ctx: BlockCtx, txCount: nat,
                     miner: Address, proof: seq<Byte>)
    : (a: Attempt)
    requires DifficultyStore.Readable(cell)
    ensures var inputs := PreparePublicInputs(ctx, DifficultyStore.GetDifficulty(cell), miner);
      !verify(proof, inputs, ctx) ==> a == Attempt([], Fail(InvalidZkProof))
    ensures var inputs := PreparePublicInputs(ctx, DifficultyStore.GetDifficulty(cell), miner);
      var p := Payout(ModuleName, Denom, ctx.height, miner);
      a.outcome.Pass? <==>
        verify(proof, inputs, ctx) && !bankFails(p[0]) && !bankFails(p[1]) && !l1Fails(L1Batch(ctx, proof, txCount))
    ensures a.outcome.Pass? ==>
      var p := Payout(ModuleName, Denom, ctx.height, miner);
      a.effects == [Bank(p[0]), Bank(p[1]), SubmitBatch(L1Batch(ctx, proof, txCount))]
    ensures forall i :: 0 <= i < |a.effects| && a.effects[i].SubmitBatch? ==>
      var p := Payout(ModuleName, Denom, ctx.height, miner);
      i == 2 && a.effects[..2] == [Bank(p[0]), Bank(p[1])] && !bankFails(p[0]) && !bankFails(p[1])
    ensures a.outcome.Fail? && a.outcome.error.BankFailure? ==>
      bankFails(a.outcome.error.call) && forall e :: e in a.effects ==> e.Bank?
  {
    var difficulty := DifficultyStore.GetDifficulty(cell);
    var inputs := PreparePublicInputs(ctx, difficulty, miner);
    if !verify(proof, inputs, ctx) then Attempt([], Fail(InvalidZkProof))
    else
      var p := Payout(ModuleName, Denom, ctx.height, miner);
      var banked := BankEffects(bankFails, p);
      match DistributeReward(bankFails, ctx, miner)
      case Err(e) => Attempt(banked, Fail(e))
      case Ok(_) =>
        var batch := L1Batch(ctx, proof, txCount);
        var effects := banked + [SubmitBatch(batch)];
        if l1Fails(batch) then Attempt(effects, Fail(L1Failure(batch)))
        else Attempt(effects, Pass)
  }

  /** A failed L1 submission is reported only after both bank calls of the
      reward were made and succeeded. */
  lemma L1FailureAfterReward(verify: ZkVerifier, bankFails: BankCall -> bool, l1Fails: RollupBatch -> bool,
                             cell: DifficultyStore.Cell, ctx: BlockCtx, txCount: nat,
                             miner: Address, proof: seq<Byte>)
    requires DifficultyStore.Readable(cell)
    ensures var a := MineBlock(verify, bankFails, l1Fails, cell, ctx, txCount, miner, proof);
      var p := Payout(ModuleName, Denom, ctx.height, miner);
      a.outcome.Fail? && a.outcome.error.L1Failure? ==>
        a.effects == [Bank(p[0]), Bank(p[1]), SubmitBatch(a.outcome.error.batch)]
        && !bankFails(p[0]) && !bankFails(p[1]) && l1Fails(a.outcome.error.batch)
  {
  }
}
