/** The oracle's UTXO-sidechain bridge (`UTXOSidechainBridge`): it keeps a
    registry of Cysic hardware miners, pays a verified hardware-mining proof
    in "z" on the Z chain and tells nuChain over LayerZero to pay the same
    amount in "nu". Its per-block bookkeeping over the registry and its
    statistics are in `BridgeBlocks`.

    The Cysic verifier, the SHA-256 of the JSON-encoded mining inputs, bech32
    parsing, the bank and LayerZero are parameters (`Env`). */
module Bridge {
  import opened Wrappers
  import opened Bytes
  import opened Chain
  import opened BridgeUtxo
  import UtxoKeeper
  import Rewards

  /** The module account the bridge mints from. */
  const ModuleName: string := "utxo_bridge"
  const Denom: string := "z"
  /** The LayerZero destination of reward coordination. */
  const NuChainDestination: string := "nuchain-1"
  /** `distributeNuRewards`' fixed base: 0.05 NU per nuChain block. */
  const NuBlockReward: nat := 50_000_000_000_000_000

  datatype HardwareMiner = HardwareMiner(
    address: string,
    hardwareId: string,
    hashPower: nat,
    wattConsumption: nat,
    nuChainAddress: string,
    zChainAddress: string,
    isActive: bool,
    /** `LastProof`, as Unix seconds. */
    lastProof: int,
    totalRewards: int)

  datatype MiningPool = MiningPool(
    poolId: string,
    operator: string,
    miners: seq<HardwareMiner>,
    totalHashPower: nat,
    feePercentage: nat,
    poolEndpoint: string,
    isActive: bool)

  datatype NuChainBlock = NuChainBlock(height: int, hash: string, timestamp: int, rewards: int)

  datatype ZChainBlock = ZChainBlock(
    height: int,
    hash: string,
    timestamp: int,
    difficulty: nat,
    minerReward: int,
    hardwareId: string)

  /** The bridge's in-memory state. */
  datatype State = State(
    utxoSet: UtxoSet,
    pendingTxs: map<string, Transaction>,
    hardwareMiners: map<string, HardwareMiner>,
    miningPools: map<string, MiningPool>)

  /** `NewUTXOSidechainBridge`: every map starts empty. */
  function NewBridge(): (st: State)
    ensures |st.utxoSet| == 0 && |st.pendingTxs| == 0
    ensures |st.hardwareMiners| == 0 && |st.miningPools| == 0
  {
    State(map[], map[], map[], map[])
  }

  /** The JSON payload `coordinateNuChainReward` sends to nuChain. */
  datatype NuRewardMessage = NuRewardMessage(
    minerAddress: string,
    nuChainAddress: string,
    zReward: int,
    nuReward: int,
    hardwareId: string,
    blockHeight: nat,
    timestamp: int)

  /** What the bridge calls into. */
  datatype Env = Env(
    crypto: UtxoKeeper.Crypto,
    /** `prepareMiningInputs`: the SHA-256 of the JSON of the block's hashes,
        height and time and the miner's identity and hardware figures. */
    miningInputs: (BlockCtx, HardwareMiner) -> Digest,
    /** `cysicClient.VerifyProof(proof, publicInputs)`. */
    verifyProof: (seq<Byte>, seq<Byte>) -> bool,
    /** `sdk.AccAddressFromBech32`. */
    parseAddress: string -> Option<Address>,
    bankFails: BankCall -> bool,
    /** Whether `layerZeroClient.SendMessage(destination, payload)` fails. */
    sendFails: (string, NuRewardMessage) -> bool)

  /** One external call. */
  datatype Effect = Bank(call: BankCall) | LayerZero(destination: string, message: NuRewardMessage)

  datatype BridgeError =
    | MinerNotRegistered(address: string)
    | InvalidCysicProof
    | InvalidZChainAddress(address: string)
    | BankFailure(call: BankCall)
    | NuChainRewardFailed(message: NuRewardMessage)

  // ------------------------------------------------------------ rewards

  /** `calculateBaseReward`: the guarded halving schedule. */
  function CalculateBaseReward(height: nat): (r: nat)
    ensures r == Rewards.RewardAt(height)
    ensures r <= Rewards.InitialReward
  {
    Rewards.RewardHalvesEachEpoch(height);
    Rewards.CappedReward(height)
  }

  /** The devices `getHardwareBonus` rewards. */
  const BonusDevices: set<string> :=
    {"nvidia-rtx-4090", "nvidia-a100", "nvidia-h100", "xilinx-fpga", "amd-rx-7900-xtx"}

  /** `getHardwareBonus`: a fixed bonus per known device, 0 for any other. */
  function GetHardwareBonus(hardwareId: string): (bonus: nat)
    ensures bonus > 0 <==> hardwareId in BonusDevices
    ensures bonus <= 15_000_000_000_000_000
  {
    match hardwareId
    case "nvidia-rtx-4090" => 5_000_000_000_000_000
    case "nvidia-a100" => 5_000_000_000_000_000
    case "nvidia-h100" => 10_000_000_000_000_000
    case "xilinx-fpga" => 15_000_000_000_000_000
    case "amd-rx-7900-xtx" => 5_500_000_000_000_000
    case _ => 0
  }

  /** The bridge pays every device the Z-chain keeper pays, the same bonus,
      and two consumer GPUs the keeper does not support. */
  lemma BonusTablesAgree(hardwareId: string)
    ensures UtxoKeeper.HardwareBonus(hardwareId) > 0 ==>
      GetHardwareBonus(hardwareId) == UtxoKeeper.HardwareBonus(hardwareId)
    ensures hardwareId in {"nvidia-rtx-4090", "amd-rx-7900-xtx"} ==>
      GetHardwareBonus(hardwareId) > 0 && UtxoKeeper.HardwareBonus(hardwareId) == 0
  {
  }

  /** `baseReward.Add(hardwareBonus)`. */
  function TotalReward(height: nat, hardwareId: string): (r: nat)
    ensures r == Rewards.RewardAt(height) + GetHardwareBonus(hardwareId)
  {
    CalculateBaseReward(height) + GetHardwareBonus(hardwareId)
  }

  // ------------------------------------------------------------ ProcessHardwareMining

  /** `distributeZTokens`' two bank calls: mint `amount` of "z" to the bridge
      module, then send it to the recipient. */
  function ZPayout(recipient: Address, amount: int): (calls: seq<BankCall>)
    ensures |calls| == 2
    ensures calls[0] == Mint(ModuleName, Denom, amount)
    ensures calls[1] == SendFromModule(ModuleName, recipient, Denom, amount)
  {
    [Mint(ModuleName, Denom, amount), SendFromModule(ModuleName, recipient, Denom, amount)]
  }

  /** `coordinateNuChainReward`'s payload: the NU reward equals the Z reward. */
  function NuReward(ctx: BlockCtx, miner: HardwareMiner, zReward: int): (m: NuRewardMessage)
    ensures m.nuReward == m.zReward == zReward
    ensures m.minerAddress == miner.address && m.nuChainAddress == miner.nuChainAddress
    ensures m.hardwareId == miner.hardwareId && m.blockHeight == ctx.height && m.timestamp == ctx.timeUnix
  {
    NuRewardMessage(miner.address, miner.nuChainAddress, zReward, zReward, miner.hardwareId,
                    ctx.height, ctx.timeUnix)
  }

  /** The effects attempted, in order, and the bridge afterwards on success. */
  datatype MiningAttempt = MiningAttempt(effects: seq<Effect>, result: Result<State, BridgeError>)

  /** Whether every step of `ProcessHardwareMining` for a registered miner goes through. */
  predicate MiningSucceeds(env: Env, miner: HardwareMiner, ctx: BlockCtx, proof: seq<Byte>) {
    var total := TotalReward(ctx.height, miner.hardwareId);
    env.verifyProof(proof, env.miningInputs(ctx, miner))
    && env.parseAddress(miner.zChainAddress).Some?
    && !env.bankFails(ZPayout(env.parseAddress(miner.zChainAddress).value, total)[0])
    && !env.bankFails(ZPayout(env.parseAddress(miner.zChainAddress).value, total)[1])
    && !env.sendFails(NuChainDestination, NuReward(ctx, miner, total))
  }

  /** `ProcessHardwareMining`: look the miner up, verify the Cysic proof,
      pay base reward plus hardware bonus in "z", ask nuChain to pay the
      same in "nu", and only then record the proof time and the reward. */
  function ProcessHardwareMining(env: Env, st: State, ctx: BlockCtx, minerAddress: string, proof: seq<Byte>)
    : (a: MiningAttempt)
    ensures minerAddress !in st.hardwareMiners ==> a == MiningAttempt([], Err(MinerNotRegistered(minerAddress)))
    ensures a.result.Ok? <==>
      minerAddress in st.hardwareMiners && MiningSucceeds(env, st.hardwareMiners[minerAddress], ctx, proof)
    ensures a.result.Ok? ==>
      var m := st.hardwareMiners[minerAddress];
      var total := Rewards.RewardAt(ctx.height) + GetHardwareBonus(m.hardwareId);
      var recipient := env.parseAddress(m.zChainAddress).value;
      a.result.value == st.(hardwareMiners := st.hardwareMiners[minerAddress :=
                              m.(lastProof := ctx.timeUnix, totalRewards := m.totalRewards + total)])
      && a.effects == [Bank(ZPayout(recipient, total)[0]), Bank(ZPayout(recipient, total)[1]),
                       LayerZero(NuChainDestination, NuReward(ctx, m, total))]
    ensures a.result.Err? && a.result.error.NuChainRewardFailed? ==>
      minerAddress in st.hardwareMiners && env.parseAddress(st.hardwareMiners[minerAddress].zChainAddress).Some?
      && var m := st.hardwareMiners[minerAddress];
      var total := Rewards.RewardAt(ctx.height) + GetHardwareBonus(m.hardwareId);
      var recipient := env.parseAddress(m.zChainAddress).value;
      |a.effects| == 3 && a.effects[..2] == [Bank(ZPayout(recipient, total)[0]), Bank(ZPayout(recipient, total)[1])]
      && !env.bankFails(ZPayout(recipient, total)[0]) && !env.bankFails(ZPayout(recipient, total)[1])
    ensures a.result.Err? && a.result.error.BankFailure? ==>
      env.bankFails(a.result.error.call) && |a.effects| > 0 && a.effects[|a.effects| - 1] == Bank(a.result.error.call)
  {
    if minerAddress !in st.hardwareMiners then MiningAttempt([], Err(MinerNotRegistered(minerAddress)))
    else
      var miner := st.hardwareMiners[minerAddress];
      if !env.verifyProof(proof, env.miningInputs(ctx, miner)) then MiningAttempt([], Err(InvalidCysicProof))
      else
        var total := TotalReward(ctx.height, miner.hardwareId);
        match env.parseAddress(miner.zChainAddress)
        case None => MiningAttempt([], Err(InvalidZChainAddress(miner.zChainAddress)))
        case Some(recipient) =>
          var p := ZPayout(recipient, total);
          if env.bankFails(p[0]) then MiningAttempt([Bank(p[0])], Err(BankFailure(p[0])))
          else if env.bankFails(p[1]) then MiningAttempt([Bank(p[0]), Bank(p[1])], Err(BankFailure(p[1])))
          else
            var msg := NuReward(ctx, miner, total);
            var effects := [Bank(p[0]), Bank(p[1]), LayerZero(NuChainDestination, msg)];
            if env.sendFails(NuChainDestination, msg) then MiningAttempt(effects, Err(NuChainRewardFailed(msg)))
            else
              var updated := miner.(lastProof := ctx.timeUnix, totalRewards := miner.totalRewards + total);
              MiningAttempt(effects, Ok(st.(hardwareMiners := st.hardwareMiners[minerAddress := updated])))
  }

  // ------------------------------------------------------------ RegisterHardwareMiner

  /** `RegisterHardwareMiner`: store an active miner with no rewards under its
      address, replacing any earlier registration. It never fails. */
  function RegisterHardwareMiner(st: State, ctx: BlockCtx, address: string, hardwareId: string,
                                 hashPower: nat, wattConsumption: nat,
                                 nuChainAddress: string, zChainAddress: string)
    : (st': State)
    ensures st'.hardwareMiners.Keys == st.hardwareMiners.Keys + {address}
    ensures forall k :: k in st.hardwareMiners && k != address ==> st'.hardwareMiners[k] == st.hardwareMiners[k]
    ensures var m := st'.hardwareMiners[address];
      m.address == address && m.hardwareId == hardwareId && m.hashPower == hashPower
      && m.wattConsumption == wattConsumption && m.nuChainAddress == nuChainAddress
      && m.zChainAddress == zChainAddress && m.isActive && m.lastProof == ctx.timeUnix && m.totalRewards == 0
    ensures st'.utxoSet == st.utxoSet && st'.pendingTxs == st.pendingTxs && st'.miningPools == st.miningPools
  {
    var miner := HardwareMiner(address, hardwareId, hashPower, wattConsumption, nuChainAddress, zChainAddress,
                               true, ctx.timeUnix, 0);
    st.(hardwareMiners := st.hardwareMiners[address := miner])
  }

  /** Registering again erases the rewards recorded so far, and a freshly
      registered miner's first successful proof records exactly the reward
      it was paid. */
  lemma RegisterThenMine(env: Env, st: State, ctx: BlockCtx, address: string, hardwareId: string,
                         hashPower: nat, wattConsumption: nat, nuChainAddress: string, zChainAddress: string,
                         ctx2: BlockCtx, proof: seq<Byte>)
    ensures var st1 := RegisterHardwareMiner(st, ctx, address, hardwareId, hashPower, wattConsumption,
                                             nuChainAddress, zChainAddress);
      var a := ProcessHardwareMining(env, st1, ctx2, address, proof);
      !(a.result.Err? && a.result.error.MinerNotRegistered?)
      && (a.result.Ok? ==>
            a.result.value.hardwareMiners[address].totalRewards == TotalReward(ctx2.height, hardwareId)
            && a.result.value.hardwareMiners[address].lastProof == ctx2.timeUnix)
  {
  }
}
