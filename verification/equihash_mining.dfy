/** The Equihash mining keeper of the Z-chain UTXO module: it checks an
    Equihash 144_5 submission against a header built from the current block,
    requires its final hash to meet the compact target of the keeper's
    in-memory difficulty, admits only the listed GPUs, and pays the block
    reward plus a GPU bonus in "z".

    The final hash is the code's stand-in for BLAKE2b: the first 32 bytes of
    the data, zero-padded. Its first byte is the header version, 1, so the
    hash is at least 256^31 while the difficulty the keeper starts with
    encodes to a target of 0: `EquihashMiningNeverPays` states the
    consequence. */
module EquihashMining {
  import opened Wrappers
  import opened Arith
  import opened Bytes
  import opened Chain
  import opened UtxoTypes
  import opened Equihash
  import opened CompactBits
  import UtxoKeeper
  import DifficultyStore
  import Rewards

  /** `big.NewInt(1000000)`. */
  const InitialDifficulty: nat := 1_000_000
  /** `500 * time.Millisecond`. */
  const TargetBlockTimeMs: nat := 500
  /** Difficulty is adjusted every 2016 blocks. */
  const AdjustmentInterval: nat := 2016

  /** The keeper's own state on top of the UTXO keeper's: the difficulty it
      mines against is a `*big.Int` held in memory, not the store entry. */
  datatype EquihashKeeper = EquihashKeeper(base: UtxoKeeper.State, currentDifficulty: int)

  datatype ParseError = ProofTooShort | InvalidSolutionLength

  datatype MiningError =
    | HardwareIdRequired
    | InvalidSolution(reason: ParseError)
    | InvalidEquihashSolution
    | TargetNotMet
    | NotAsicResistant
    | InvalidMinerAddress(address: string)
    | BankFailure(call: BankCall)

  /** `NewEquihashMiningKeeper`: the initial difficulty is below 2^24, so its
      compact form decodes to a target of zero. */
  function NewEquihashMiningKeeper(base: UtxoKeeper.State): (k: EquihashKeeper)
    ensures k.base == base && k.currentDifficulty > 0
    ensures GetEquihashTarget(CalculateEquihashDifficulty(k.currentDifficulty)) == 0
  {
    SmallTargetDecodesToZero(InitialDifficulty);
    EquihashKeeper(base, InitialDifficulty)
  }

  // ---------------------------------------------------------------- header

  /** `createEquihashHeader`: version 1, the previous block id and data hash,
      the block time truncated to `uint32`, the current difficulty in compact
      form, and the nonce of the submitted proof (not the one inside the
      solution bytes). */
  function CreateEquihashHeader(k: EquihashKeeper, ctx: BlockCtx, proof: MiningProof): (h: EquihashHeader)
    requires proof.nonce < U64
    ensures HeaderInRange(h) && h.solution == []
    ensures h.version == 1 && h.nonce == proof.nonce
    ensures (ctx.timeUnix - h.timestamp) % U32 == 0
    ensures 0 <= ctx.timeUnix < U32 ==> h.timestamp == ctx.timeUnix
  {
    EquihashHeader(
      1, ctx.lastBlockHash, ctx.dataHash, ctx.timeUnix % U32,
      CalculateEquihashDifficulty(k.currentDifficulty), proof.nonce, [])
  }

  // ---------------------------------------------------------------- solution bytes

  /** The index bytes: each index as four little-endian bytes, in order. */
  function SolutionBytes(solution: seq<nat>): (r: seq<Byte>)
    requires forall i :: 0 <= i < |solution| ==> solution[i] < U32
    ensures |r| == 4 * |solution|
  {
    if |solution| == 0 then [] else PutUint32LE(solution[0]) + SolutionBytes(solution[1..])
  }

  /** The loop of `parseEquihashSolution`: one index per four bytes. */
  function ParseIndices(b: seq<Byte>): (r: seq<nat>)
    requires |b| % 4 == 0
    ensures |r| == |b| / 4
    ensures forall i :: 0 <= i < |r| ==> r[i] < U32
  {
    if |b| == 0 then []
    else
      FromLEBound(b[..4]);
      Pow256Widths();
      [FromLE(b[..4])] + ParseIndices(b[4..])
  }

  /** Each parsed index is the little-endian value of its own four bytes. */
  lemma {:induction false} ParseIndicesAt(b: seq<Byte>, i: nat)
    requires |b| % 4 == 0 && i < |b| / 4
    ensures ParseIndices(b)[i] == FromLE(b[4 * i..4 * i + 4])
  {
    assert ParseIndices(b) == [FromLE(b[..4])] + ParseIndices(b[4..]);
    if i > 0 {
      ParseIndicesAt(b[4..], i - 1);
      assert ParseIndices(b)[i] == ParseIndices(b[4..])[i - 1];
      assert b[4..][4 * (i - 1)..4 * (i - 1) + 4] == b[4 * i..4 * i + 4];
    } else {
      assert b[4 * i..4 * i + 4] == b[..4];
    }
  }

  /** Parsing the bytes of a solution gives the solution back. */
  lemma {:induction false} ParseSolutionBytes(solution: seq<nat>)
    requires forall i :: 0 <= i < |solution| ==> solution[i] < U32
    ensures ParseIndices(SolutionBytes(solution)) == solution
  {
    if |solution| > 0 {
      var b := SolutionBytes(solution);
      ParseSolutionBytes(solution[1..]);
      assert b[..4] == PutUint32LE(solution[0]);
      assert b[4..] == SolutionBytes(solution[1..]);
      assert solution == [solution[0]] + solution[1..];
    }
  }

  /** Re-encoding parsed indices gives the bytes back. */
  lemma {:induction false} SolutionBytesOfParse(b: seq<Byte>)
    requires |b| % 4 == 0
    ensures SolutionBytes(ParseIndices(b)) == b
  {
    if |b| > 0 {
      var r := ParseIndices(b);
      SolutionBytesOfParse(b[4..]);
      LEOfFromLE(b[..4]);
      assert r[1..] == ParseIndices(b[4..]);
      assert PutUint32LE(r[0]) == b[..4];
      assert b == b[..4] + b[4..];
    }
  }

  /** `parseEquihashSolution`: an eight-byte little-endian nonce followed by
      exactly 32 four-byte indices. The timestamp is the wall clock, passed
      in as `now`. */
  function ParseEquihashSolution(zk: seq<Byte>, now: int): (r: Result<EquihashSolution, ParseError>)
    ensures |zk| < 8 <==> r == Err(ProofTooShort)
    ensures r.Ok? <==> |zk| == 8 + 4 * SolutionWidth
    ensures r.Ok? ==> r.value.nonce < U64 && r.value.nonce == FromLE(zk[..8]) && r.value.timestamp == now
    ensures r.Ok? ==> |r.value.solution| == SolutionWidth
    ensures r.Ok? ==> forall i :: 0 <= i < |r.value.solution| ==> r.value.solution[i] < U32
    ensures r.Ok? ==> SolutionBytes(r.value.solution) == zk[8..]
  {
    if |zk| < 8 then Err(ProofTooShort)
    else if |zk| - 8 != SolutionWidth * 4 then Err(InvalidSolutionLength)
    else
      FromLEBound(zk[..8]);
      Pow256Widths();
      SolutionBytesOfParse(zk[8..]);
      Ok(EquihashSolution(FromLE(zk[..8]), ParseIndices(zk[8..]), now))
  }

  /** The bytes a solution is parsed from are determined by the solution. */
  lemma ParseEquihashSolutionInjective(zk1: seq<Byte>, zk2: seq<Byte>, now: int)
    requires ParseEquihashSolution(zk1, now).Ok? && ParseEquihashSolution(zk2, now).Ok?
    requires ParseEquihashSolution(zk1, now) == ParseEquihashSolution(zk2, now)
    ensures zk1 == zk2
  {
    LEOfFromLE(zk1[..8]);
    LEOfFromLE(zk2[..8]);
    assert zk1 == zk1[..8] + zk1[8..];
    assert zk2 == zk2[..8] + zk2[8..];
  }

  // ---------------------------------------------------------------- difficulty target

  /** `blake2bHash` as the code has it: the first 32 bytes of the data,
      zero-padded. */
  function Blake2bStub(data: seq<Byte>): (r: Digest)
    ensures forall i :: 0 <= i < 32 ==> r[i] == (if i < |data| then data[i] else 0)
  {
    var n := if |data| < 32 then |data| else 32;
    data[..n] + seq(32 - n, _ => 0)
  }

  /** `calculateSolutionHash`: the challenge followed by the index bytes. */
  function CalculateSolutionHash(h: EquihashHeader, s: EquihashSolution): (r: Digest)
    requires HeaderInRange(h)
    requires forall i :: 0 <= i < |s.solution| ==> s.solution[i] < U32
    ensures r[0] == (h.version % 256) as Byte
  {
    var challenge := GenerateEquihashChallenge(h);
    assert challenge[0] == PutUint32LE(h.version)[0];
    Blake2bStub(challenge + SolutionBytes(s.solution))
  }

  /** `checkDifficultyTarget`: the hash, read big-endian, is at most the
      target. Since the stand-in hash starts with the version's low byte, a
      version-1 header fails against any target below 256^31, and a target
      of 2^256 or more passes everything. */
  function CheckDifficultyTarget(h: EquihashHeader, s: EquihashSolution): (ok: bool)
    requires HeaderInRange(h)
    requires forall i :: 0 <= i < |s.solution| ==> s.solution[i] < U32
    ensures h.version == 1 && GetEquihashTarget(h.bits) < HashFloor ==> !ok
    ensures GetEquihashTarget(h.bits) >= Pow256(32) ==> ok
  {
    FromBEBound(CalculateSolutionHash(h, s));
    if h.version == 1 then
      SolutionHashFloor(h, s);
      FromBE(CalculateSolutionHash(h, s)) <= GetEquihashTarget(h.bits)
    else FromBE(CalculateSolutionHash(h, s)) <= GetEquihashTarget(h.bits)
  }

  /** 256^31, the least 32-byte big-endian number whose first byte is 1. */
  const HashFloor: nat := 0x100_0000_0000_0000_0000_0000_0000_0000_0000_0000_0000_0000_0000_0000_0000_0000

  lemma HashFloorIsPow256()
    ensures Pow256(31) == HashFloor
  {
    Pow256Widths();
    Pow256Add(8, 8);
    assert Pow256(16) == 0x1_0000_0000_0000_0000_0000_0000_0000_0000;
    Pow256Add(16, 8);
    assert Pow256(24) == 0x1_0000_0000_0000_0000_0000_0000_0000_0000_0000_0000_0000_0000;
    Pow256Add(24, 4);
    assert Pow256(28) == 0x1_0000_0000_0000_0000_0000_0000_0000_0000_0000_0000_0000_0000_0000_0000;
    Pow256Add(28, 3);
  }

  /** The stand-in hash of a version-1 header starts with byte 1, so it is at
      least 256^31 whatever the solution. */
  lemma SolutionHashFloor(h: EquihashHeader, s: EquihashSolution)
    requires HeaderInRange(h) && h.version == 1
    requires forall i :: 0 <= i < |s.solution| ==> s.solution[i] < U32
    ensures FromBE(CalculateSolutionHash(h, s)) >= HashFloor
  {
    HashFloorIsPow256();
    var r := CalculateSolutionHash(h, s);
    FromBEPrefix(r, 1);
    assert FromBE(r[..1]) == r[0] as nat == 1;
    RoundDown(FromBE(r), Pow256(31));
  }

  /** The target a difficulty encodes to never exceeds the difficulty, as
      long as the difficulty has fewer than 256 bytes. */
  lemma TargetAtMostDifficulty(d: int)
    requires d <= 0 || ByteLength(d) < 256
    ensures GetEquihashTarget(CalculateEquihashDifficulty(d)) <= (if d > 0 then d else 0)
  {
    if 0 < d < Pow24 {
      SmallTargetDecodesToZero(d);
    } else if d >= Pow24 {
      ShortIffSmall(d);
      CompactRoundTrip(d);
    }
  }

  /** A difficulty below 256^31 encodes to a target below 256^31. */
  lemma SmallDifficultyTarget(d: int)
    requires d < HashFloor
    ensures GetEquihashTarget(CalculateEquihashDifficulty(d)) < HashFloor
  {
    HashFloorIsPow256();
    if d > 0 {
      ByteLengthBounds(d);
      if ByteLength(d) > 31 {
        Pow256Monotone(31, ByteLength(d) - 1);
      }
    }
    TargetAtMostDifficulty(d);
  }

  // ---------------------------------------------------------------- hardware

  /** The ASIC list: both entries map to `false`. */
  const AsicDevices: map<string, bool> := map["antminer-z9" := false, "innosilicon-a9" := false]

  const GpuDevices: map<string, bool> := map[
    "nvidia-rtx-3080" := true, "nvidia-rtx-3090" := true,
    "nvidia-rtx-4080" := true, "nvidia-rtx-4090" := true,
    "amd-rx-6800-xt" := true, "amd-rx-6900-xt" := true,
    "amd-rx-7800-xt" := true, "amd-rx-7900-xtx" := true]

  /** A Go `map[string]bool` lookup: a missing key reads as `false`. */
  function Flag(m: map<string, bool>, key: string): (b: bool)
    ensures b ==> key in m
  {
    if key in m then m[key] else false
  }

  /** `verifyASICResistance`. Every ASIC entry is `false`, so the first test
      always holds and the answer is the GPU list's. */
  function VerifyAsicResistance(hardwareId: string): (ok: bool)
    ensures ok <==> GpuBonus(hardwareId) > 0
    ensures hardwareId in AsicDevices ==> !ok
  {
    if !Flag(AsicDevices, hardwareId) && Flag(AsicDevices, hardwareId) != true then
      Flag(GpuDevices, hardwareId)
    else false
  }

  /** `getGPUBonus`. */
  function GpuBonus(hardwareId: string): (bonus: nat)
    ensures bonus > 0 <==> hardwareId in GpuDevices
    ensures bonus == 0 || 2_000_000_000_000_000 <= bonus <= 5_500_000_000_000_000
  {
    match hardwareId
    case "nvidia-rtx-3080" => 2_000_000_000_000_000
    case "nvidia-rtx-3090" => 3_000_000_000_000_000
    case "nvidia-rtx-4080" => 4_000_000_000_000_000
    case "nvidia-rtx-4090" => 5_000_000_000_000_000
    case "amd-rx-6800-xt" => 2_500_000_000_000_000
    case "amd-rx-6900-xt" => 3_500_000_000_000_000
    case "amd-rx-7800-xt" => 4_500_000_000_000_000
    case "amd-rx-7900-xtx" => 5_500_000_000_000_000
    case _ => 0
  }

  // ---------------------------------------------------------------- reward

  /** The two bank calls of a paid submission: mint the block reward plus the
      GPU bonus of "z" to the module, then send the same amount to the miner. */
  function Payout(ctx: BlockCtx, miner: Address, hardwareId: string): (calls: seq<BankCall>)
    ensures var amount := Rewards.RewardAt(ctx.height) + GpuBonus(hardwareId);
      calls == [Mint(UtxoKeeper.ModuleName, "z", amount), SendFromModule(UtxoKeeper.ModuleName, miner, "z", amount)]
  {
    var amount := Rewards.CappedReward(ctx.height) + GpuBonus(hardwareId);
    [Mint(UtxoKeeper.ModuleName, "z", amount), SendFromModule(UtxoKeeper.ModuleName, miner, "z", amount)]
  }

  /** `distributeEquihashReward`: the payout's calls in order, stopping at the
      first the bank refuses. */
  function DistributeEquihashReward(fails: BankCall -> bool, ctx: BlockCtx, miner: Address, hardwareId: string)
    : (r: Result<seq<BankCall>, MiningError>)
    ensures r.Ok? <==> !fails(Payout(ctx, miner, hardwareId)[0]) && !fails(Payout(ctx, miner, hardwareId)[1])
    ensures r.Ok? ==> r.value == Payout(ctx, miner, hardwareId)
    ensures r.Err? ==> r.error.BankFailure? && fails(r.error.call) && r.error.call in Payout(ctx, miner, hardwareId)
  {
    var calls := Payout(ctx, miner, hardwareId);
    if fails(calls[0]) then Err(BankFailure(calls[0]))
    else if fails(calls[1]) then Err(BankFailure(calls[1]))
    else Ok(calls)
  }

  // ---------------------------------------------------------------- submission

  /** `ProcessEquihashMining`. `sha` is the SHA-256 the 144_5 check uses,
      `now` the wall-clock second the parser stamps. */
  function ProcessEquihashMining(sha: Sha256, k: EquihashKeeper, ctx: BlockCtx, proof: MiningProof, now: int,
                                 parseAddress: string -> Option<Address>, fails: BankCall -> bool)
    : (r: Result<seq<BankCall>, MiningError>)
    requires proof.nonce < U64
    ensures proof.hardwareId == "" ==> r == Err(HardwareIdRequired)
    ensures proof.hardwareId != "" && |proof.zkProof| < 8 ==> r == Err(InvalidSolution(ProofTooShort))
    ensures r.Ok? ==>
      |proof.zkProof| == 8 + 4 * SolutionWidth
      && proof.hardwareId in GpuDevices
      && parseAddress(proof.minerAddress).Some?
      && r.value == Payout(ctx, parseAddress(proof.minerAddress).value, proof.hardwareId)
  {
    if proof.hardwareId == "" then Err(HardwareIdRequired)
    else
      var parsed := ParseEquihashSolution(proof.zkProof, now);
      if parsed.Err? then Err(InvalidSolution(parsed.error))
      else
        var header := CreateEquihashHeader(k, ctx, proof);
        assert HeaderInRange(header);
        ProcessSolution(sha, header, parsed.value, ctx, proof, parseAddress, fails)
  }

  /** The checks of `ProcessEquihashMining` after the solution has been parsed. */
  function ProcessSolution(sha: Sha256, header: EquihashHeader, solution: EquihashSolution, ctx: BlockCtx,
                           proof: MiningProof, parseAddress: string -> Option<Address>, fails: BankCall -> bool)
    : (r: Result<seq<BankCall>, MiningError>)
    requires HeaderInRange(header)
    requires forall i :: 0 <= i < |solution.solution| ==> solution.solution[i] < U32
    ensures r.Ok? ==>
      proof.hardwareId in GpuDevices
      && parseAddress(proof.minerAddress).Some?
      && r.value == Payout(ctx, parseAddress(proof.minerAddress).value, proof.hardwareId)
  {
    if !VerifyEquihashSolution(sha, header, solution) then Err(InvalidEquihashSolution)
    else if !CheckDifficultyTarget(header, solution) then Err(TargetNotMet)
    else if !VerifyAsicResistance(proof.hardwareId) then Err(NotAsicResistant)
    else match parseAddress(proof.minerAddress)
      case None => Err(InvalidMinerAddress(proof.minerAddress))
      case Some(miner) => DistributeEquihashReward(fails, ctx, miner, proof.hardwareId)
  }

  /** A solution gets past the checks only if it passes the 144_5 check
      and meets the target. */
  lemma ProcessSolutionChecks(sha: Sha256, header: EquihashHeader, solution: EquihashSolution, ctx: BlockCtx,
                              proof: MiningProof, parseAddress: string -> Option<Address>, fails: BankCall -> bool)
    requires HeaderInRange(header)
    requires forall i :: 0 <= i < |solution.solution| ==> solution.solution[i] < U32
    ensures !VerifyEquihashSolution(sha, header, solution) ==>
      ProcessSolution(sha, header, solution, ctx, proof, parseAddress, fails) == Err(InvalidEquihashSolution)
    ensures ProcessSolution(sha, header, solution, ctx, proof, parseAddress, fails).Ok? ==>
      VerifyEquihashSolution(sha, header, solution) && CheckDifficultyTarget(header, solution)
  {
  }

  /** An accepted submission carries 32 distinct indices below 2^20 whose
      aligned pairs of index hashes collide. */
  lemma AcceptedSolutionCollides(sha: Sha256, k: EquihashKeeper, ctx: BlockCtx, proof: MiningProof, now: int,
                                 parseAddress: string -> Option<Address>, fails: BankCall -> bool, j: nat)
    requires proof.nonce < U64 && j < SolutionWidth / 2
    ensures ProcessEquihashMining(sha, k, ctx, proof, now, parseAddress, fails).Ok? ==>
      var s := ParseEquihashSolution(proof.zkProof, now);
      var challenge := GenerateEquihashChallenge(CreateEquihashHeader(k, ctx, proof));
      s.Ok?
      && (forall a, b :: 0 <= a < b < |s.value.solution| ==> s.value.solution[a] != s.value.solution[b])
      && HasCollision(IndexHash(sha, challenge, s.value.solution[2 * j]), IndexHash(sha, challenge, s.value.solution[2 * j + 1]))
  {
    if ProcessEquihashMining(sha, k, ctx, proof, now, parseAddress, fails).Ok? {
      var header := CreateEquihashHeader(k, ctx, proof);
      var s := ParseEquihashSolution(proof.zkProof, now).value;
      var challenge := GenerateEquihashChallenge(header);
      ProcessSolutionChecks(sha, header, s, ctx, proof, parseAddress, fails);
      assert VerifyEquihashSolution(sha, header, s);
      assert Verify144_5(sha, challenge, s.solution);
      SolutionPairsCollide(sha, challenge, s.solution, j);
    }
  }

  /** While the keeper's difficulty is below 256^31, and in particular at the
      initial 1 000 000, no submission is ever paid: the hash is at least
      256^31 and the target is below it. */
  lemma EquihashMiningNeverPays(sha: Sha256, k: EquihashKeeper, ctx: BlockCtx, proof: MiningProof, now: int,
                                parseAddress: string -> Option<Address>, fails: BankCall -> bool)
    requires proof.nonce < U64 && k.currentDifficulty < HashFloor
    ensures ProcessEquihashMining(sha, k, ctx, proof, now, parseAddress, fails).Err?
  {
    var header := CreateEquihashHeader(k, ctx, proof);
    var p := ParseEquihashSolution(proof.zkProof, now);
    if proof.hardwareId != "" && p.Ok? {
      ProcessSolutionChecks(sha, header, p.value, ctx, proof, parseAddress, fails);
      SolutionHashFloor(header, p.value);
      SmallDifficultyTarget(k.currentDifficulty);
      assert !CheckDifficultyTarget(header, p.value);
    }
  }

  // ---------------------------------------------------------------- adjustment

  /** `getBlockTimeRange` as written: the target time per block times the
      number of blocks, whatever the blocks' real times were. */
  function GetBlockTimeRange(startHeight: int, endHeight: int): (ms: int)
    ensures endHeight - startHeight == AdjustmentInterval ==> ms == TargetBlockTimeMs * AdjustmentInterval
  {
    TargetBlockTimeMs * (endHeight - startHeight)
  }

  /** `big.Int.Uint64`: the low 64 bits of the magnitude. */
  function BigUint64(x: int): (r: nat)
    ensures r < U64
    ensures 0 <= x < U64 ==> r == x
  {
    (if x < 0 then -x else x) % U64
  }

  /** `cur * target / actual` on `big.Int` (Euclidean division), limited to
      at most `cur * 4` and, failing that, at least `cur / 4`. */
  function ScaleDifficulty(cur: int, targetTime: int, actualTime: int): (r: int)
    requires actualTime != 0
    ensures cur >= 0 ==> cur / 4 <= r <= cur * 4
    ensures cur >= 0 && cur / 4 <= cur * targetTime / actualTime <= cur * 4 ==> r == cur * targetTime / actualTime
  {
    var proposed := cur * targetTime / actualTime;
    var maxIncrease := cur * 4;
    var maxDecrease := cur / 4;
    if proposed > maxIncrease then maxIncrease
    else if proposed < maxDecrease then maxDecrease
    else proposed
  }

  /** `AdjustEquihashDifficulty`: at heights divisible by 2016 (height 0
      included) rescale the in-memory difficulty and store its low 64 bits. */
  function AdjustEquihashDifficulty(k: EquihashKeeper, ctx: BlockCtx): (k': EquihashKeeper)
    ensures ctx.height % AdjustmentInterval != 0 ==> k' == k
    ensures ctx.height % AdjustmentInterval == 0 ==>
      DifficultyStore.Readable(k'.base.difficulty)
      && UtxoKeeper.GetDifficulty(k'.base) == BigUint64(k'.currentDifficulty)
      && k'.base.utxos == k.base.utxos
  {
    var h := ctx.height as int;
    if h % AdjustmentInterval != 0 then k
    else
      var actualTime := GetBlockTimeRange(h - AdjustmentInterval, h);
      var targetTime := TargetBlockTimeMs * AdjustmentInterval;
      var next := ScaleDifficulty(k.currentDifficulty, targetTime, actualTime);
      EquihashKeeper(UtxoKeeper.SetDifficulty(k.base, BigUint64(next)), next)
  }

  /** With the block-time stub, actual and target time agree, so adjustment
      never changes a non-negative difficulty. */
  lemma AdjustKeepsDifficulty(k: EquihashKeeper, ctx: BlockCtx)
    requires k.currentDifficulty >= 0
    ensures AdjustEquihashDifficulty(k, ctx).currentDifficulty == k.currentDifficulty
  {
    var d := k.currentDifficulty;
    var t := TargetBlockTimeMs * AdjustmentInterval;
    DivUnique(d * t, t, d, 0);
  }

  /** Hence, from a fresh keeper, after any run of adjustments, no submission
      is paid. */
  lemma AdjustedKeeperNeverPays(sha: Sha256, base: UtxoKeeper.State, ctxs: seq<BlockCtx>, ctx: BlockCtx,
                                proof: MiningProof, now: int,
                                parseAddress: string -> Option<Address>, fails: BankCall -> bool)
    requires proof.nonce < U64
    ensures AdjustAll(NewEquihashMiningKeeper(base), ctxs).currentDifficulty == InitialDifficulty
    ensures ProcessEquihashMining(sha, AdjustAll(NewEquihashMiningKeeper(base), ctxs), ctx, proof, now,
                                  parseAddress, fails).Err?
  {
    var k := AdjustAll(NewEquihashMiningKeeper(base), ctxs);
    AdjustAllKeeps(NewEquihashMiningKeeper(base), ctxs);
    Pow256Widths();
    Pow256Monotone(3, 31);
    EquihashMiningNeverPays(sha, k, ctx, proof, now, parseAddress, fails);
  }

  /** Adjustment at each block of `ctxs` in turn. */
  function AdjustAll(k: EquihashKeeper, ctxs: seq<BlockCtx>): EquihashKeeper
    decreases |ctxs|
  {
    if |ctxs| == 0 then k else AdjustAll(AdjustEquihashDifficulty(k, ctxs[0]), ctxs[1..])
  }

  lemma {:induction false} AdjustAllKeeps(k: EquihashKeeper, ctxs: seq<BlockCtx>)
    requires k.currentDifficulty >= 0
    ensures AdjustAll(k, ctxs).currentDifficulty == k.currentDifficulty
    decreases |ctxs|
  {
    if |ctxs| > 0 {
      AdjustKeepsDifficulty(k, ctxs[0]);
      AdjustAllKeeps(AdjustEquihashDifficulty(k, ctxs[0]), ctxs[1..]);
    }
  }
}
