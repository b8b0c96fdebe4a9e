/** What the two zk-SNARK proof-of-work keepers (the Z chain's and nuChain's
    `x/pow`) have in common: the public inputs a proof is checked against, and
    the reward payout through the bank. The zk-SNARK verifier is a Cysic
    library call and is a parameter here. */
module ZkPow {
  import opened Wrappers
  import opened Bytes
  import opened Chain
  import Rewards

  /** `cysic.VerifyZkSNARK(proof, publicInputs, ctx.BlockHeader())`. */
  type ZkVerifier = (seq<Byte>, seq<Byte>, BlockCtx) -> bool

  /** `PreparePublicInputs`: block hash, previous block hash, the difficulty
      as eight big-endian bytes, and the miner's address bytes, concatenated. */
  function PreparePublicInputs(ctx: BlockCtx, difficulty: nat, miner: Address): (r: seq<Byte>)
    requires difficulty < U64
    ensures |r| == |ctx.blockHash| + |ctx.lastBlockHash| + 8 + |miner|
  {
    ctx.blockHash + ctx.lastBlockHash + PutUint64BE(difficulty) + miner
  }

  /** Where the difficulty starts in the public inputs. */
  function DifficultyOffset(ctx: BlockCtx): nat {
    |ctx.blockHash| + |ctx.lastBlockHash|
  }

  /** Every field reads back from its place: the two hashes, the difficulty
      as a big-endian number, and the miner's bytes as the tail. */
  lemma PublicInputsLayout(ctx: BlockCtx, difficulty: nat, miner: Address)
    requires difficulty < U64
    ensures var r := PreparePublicInputs(ctx, difficulty, miner);
      var a := |ctx.blockHash|;
      var b := DifficultyOffset(ctx);
      r[..a] == ctx.blockHash
      && r[a..b] == ctx.lastBlockHash
      && FromBE(r[b..b + 8]) == difficulty
      && r[b + 8..] == miner
  {
    var r := PreparePublicInputs(ctx, difficulty, miner);
    var a := |ctx.blockHash|;
    var b := DifficultyOffset(ctx);
    var d := PutUint64BE(difficulty);
    assert r == ctx.blockHash + ctx.lastBlockHash + d + miner;
    assert r[..a] == ctx.blockHash;
    assert r[a..b] == ctx.lastBlockHash;
    assert r[b..b + 8] == d;
    assert r[b + 8..] == miner;
  }

  /** For one block, the public inputs determine the difficulty and the
      miner: a proof made for one miner or difficulty is checked against
      different inputs for any other. */
  lemma PublicInputsInjective(ctx: BlockCtx, d1: nat, m1: Address, d2: nat, m2: Address)
    requires d1 < U64 && d2 < U64
    requires PreparePublicInputs(ctx, d1, m1) == PreparePublicInputs(ctx, d2, m2)
    ensures d1 == d2 && m1 == m2
  {
    PublicInputsLayout(ctx, d1, m1);
    PublicInputsLayout(ctx, d2, m2);
  }

  /** The two bank calls of `DistributeReward`: mint the block reward of
      `denom` to the module, then send the same amount to the miner. */
  function Payout(moduleName: string, denom: string, height: nat, miner: Address): (calls: seq<BankCall>)
    ensures |calls| == 2
    ensures calls[0] == Mint(moduleName, denom, Rewards.RewardAt(height))
    ensures calls[1] == SendFromModule(moduleName, miner, denom, Rewards.RewardAt(height))
  {
    var amount := Rewards.CappedReward(height);
    [Mint(moduleName, denom, amount), SendFromModule(moduleName, miner, denom, amount)]
  }

  /** `DistributeReward`: stop at the first bank call that fails; on success
      the result is the calls made. */
  function DistributeReward(fails: BankCall -> bool, moduleName: string, denom: string, height: nat, miner: Address)
    : (r: Result<seq<BankCall>, BankCall>)
    ensures var p := Payout(moduleName, denom, height, miner);
      r.Ok? <==> !fails(p[0]) && !fails(p[1])
    ensures r.Ok? ==> r.value == Payout(moduleName, denom, height, miner)
    ensures r.Err? ==> fails(r.error) && r.error in Payout(moduleName, denom, height, miner)
    ensures r.Err? && fails(Payout(moduleName, denom, height, miner)[0]) ==>
      r.error == Payout(moduleName, denom, height, miner)[0]
  {
    var p := Payout(moduleName, denom, height, miner);
    if fails(p[0]) then Err(p[0])
    else if fails(p[1]) then Err(p[1])
    else Ok(p)
  }
}
