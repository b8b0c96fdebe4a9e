/** The oracle's nuChain keeper (`oracle/nuchain-cosmos-module.go`). It keeps
    miners registered from Altcoinchain and Polygon in an in-memory map keyed
    "source:miner", pays them "nu" for Cysic zk-proofs, records the rewards
    of each block height, and pays recent provers once per block.

    A call yields the bank calls it attempted, in order, and its result; a
    Go panic is None. The JSON decoder, the Cysic verifier, the bech32
    parser, the bank and the `sdk.Dec` hash-power share are parameters. */
module OracleKeeper {
  import opened Wrappers
  import opened Bytes
  import opened Chain
  import opened MapSums
  import Rewards
  import Arith
  import Decimal

  const ModuleName: string := "oracle"
  const Denom: string := "nu"

  /** A miner is skipped by the per-block payout when its last proof is
      more than this far behind the current height. */
  const RecentWindow: int := 10

  /** The chains `GetNetworkStats` reports, a fixed list. */
  const ActiveChains: seq<string> := ["altcoinchain-2330", "polygon-137"]

  datatype MinerState = MinerState(
    address: string,
    nuChainAddress: string,
    rigIds: seq<nat>,
    totalHashPower: nat,
    totalWattCost: nat,
    sourceChain: string,
    /** `ctx.BlockTime().Unix()` of the registration or of the last proof. */
    lastProofTime: int,
    isActive: bool,
    pendingRewards: int)

  /** The analytics record of one block height. */
  datatype BlockReward = BlockReward(
    blockHeight: int,
    totalReward: int,
    distributions: map<string, int>,
    wattConsumption: map<string, nat>,
    timestamp: int,
    cysicProofs: map<string, seq<Byte>>)

  datatype CrossChainMiningMessage = CrossChainMiningMessage(
    kind: string,
    minerAddress: string,
    nuChainAddress: string,
    rigIds: seq<nat>,
    totalHashPower: nat,
    totalWattCost: nat,
    sourceChain: string,
    cysicProof: seq<Byte>,
    publicInputs: seq<Byte>,
    /** The height the sender claims; it is not compared with the chain's. */
    blockHeight: int,
    timestamp: int)

  /** `OracleKeeper`; `totalHashPower` is a `uint64` running counter. */
  datatype State = State(
    miners: map<string, MinerState>,
    totalHashPower: nat,
    blockRewards: map<int, BlockReward>)

  datatype OracleError =
    | DecodeFailed
    | UnknownMessageType(kind: string)
    | MinerAlreadyRegistered(key: string)
    | MinerNotRegistered(key: string)
    | InvalidCysicProof(miner: string)
    | InvalidNuChainAddress(address: string)
    | BankFailure(call: BankCall)

  /** The bank calls attempted and the result. */
  datatype Step = Step(calls: seq<BankCall>, result: Result<State, OracleError>)

  datatype Env = Env(
    /** `json.Unmarshal`. */
    decode: seq<Byte> -> Option<CrossChainMiningMessage>,
    /** `cysicVerifier.VerifyProof(proof, publicInputs)`. */
    verifyProof: (seq<Byte>, seq<Byte>) -> bool,
    /** `NewDec(int64(minerHP)).Quo(NewDec(int64(totalHP))).MulInt(base).TruncateInt()`,
        used only with a non-zero total. */
    share: (nat, nat, int) -> int,
    /** `sdk.AccAddressFromBech32`. */
    parseAddress: string -> Option<Address>,
    bankFails: BankCall -> bool,
    /** `processMiningRewardClaim`, which the file calls but does not define. */
    rewardClaim: (State, BlockCtx, CrossChainMiningMessage) -> Option<Step>)

  /** `NewOracleKeeper`: no miners, no records, a zero counter. */
  function NewOracleKeeper(): (st: State)
    ensures HashPowerCounted(st)
    ensures st.miners == map[] && st.blockRewards == map[]
  {
    State(map[], 0, map[])
  }

  /** `fmt.Sprintf("%s:%s", sourceChain, minerAddress)`. */
  function MinerKey(sourceChain: string, minerAddress: string): (k: string)
    ensures |k| == |sourceChain| + 1 + |minerAddress|
    ensures k[..|sourceChain|] == sourceChain && k[|sourceChain|] == ':'
    ensures k[|sourceChain| + 1..] == minerAddress
  {
    sourceChain + ":" + minerAddress
  }

  /** Source chains without a colon keep miners apart: chain and address
      can be read back from the key. */
  lemma MinerKeyInjective(s1: string, a1: string, s2: string, a2: string)
    requires ':' !in s1 && ':' !in s2
    requires MinerKey(s1, a1) == MinerKey(s2, a2)
    ensures s1 == s2 && a1 == a2
  {
    assert MinerKey(s1, a1) == s1 + [':'] + a1;
    assert MinerKey(s2, a2) == s2 + [':'] + a2;
    Decimal.SplitAtFirst(s1, a1, s2, a2, ':');
  }

  /** A colon inside the source chain or the address makes two miners share a key. */
  lemma MinerKeyAmbiguous()
    ensures MinerKey("a:b", "c") == MinerKey("a", "b:c")
  {
  }

  // ------------------------------------------------------------ hash power

  function HashPowerOf(miners: map<string, MinerState>): string -> int {
    k => if k in miners then miners[k].totalHashPower else 0
  }

  /** The counter equals the hash power of every registered miner, active or
      not, added up in `uint64`. */
  ghost predicate HashPowerCounted(st: State) {
    st.totalHashPower == SumOver(st.miners.Keys, HashPowerOf(st.miners)) % U64
  }

  /** Changing a miner's other fields leaves the hash-power sum alone. */
  lemma SameHashPowerSameSum(miners: map<string, MinerState>, key: string, m: MinerState)
    requires key in miners && m.totalHashPower == miners[key].totalHashPower
    ensures SumOver(miners[key := m].Keys, HashPowerOf(miners[key := m]))
         == SumOver(miners.Keys, HashPowerOf(miners))
  {
    assert miners[key := m].Keys == miners.Keys;
    SumOverCongruent(miners.Keys, HashPowerOf(miners[key := m]), HashPowerOf(miners));
  }

  // ------------------------------------------------------------ registration

  /** The miner a registration stores: active, with nothing pending, and
      its last proof time set to the block time. */
  function Registered(ctx: BlockCtx, msg: CrossChainMiningMessage): (m: MinerState)
    ensures m.isActive && m.pendingRewards == 0 && m.lastProofTime == ctx.timeUnix
    ensures m.address == msg.minerAddress && m.sourceChain == msg.sourceChain
    ensures m.nuChainAddress == msg.nuChainAddress && m.rigIds == msg.rigIds
    ensures m.totalHashPower == msg.totalHashPower && m.totalWattCost == msg.totalWattCost
  {
    MinerState(msg.minerAddress, msg.nuChainAddress, msg.rigIds, msg.totalHashPower,
               msg.totalWattCost, msg.sourceChain, ctx.timeUnix, true, 0)
  }

  /** `processMinerRegistration`. */
  function ProcessMinerRegistration(st: State, ctx: BlockCtx, msg: CrossChainMiningMessage)
    : (r: Result<State, OracleError>)
    ensures var key := MinerKey(msg.sourceChain, msg.minerAddress);
      r.Err? <==> key in st.miners
    ensures r.Err? ==> r.error == MinerAlreadyRegistered(MinerKey(msg.sourceChain, msg.minerAddress))
    ensures r.Ok? ==>
      var key := MinerKey(msg.sourceChain, msg.minerAddress);
      r.value.miners.Keys == st.miners.Keys + {key}
      && r.value.miners[key] == Registered(ctx, msg)
      && (forall k :: k in st.miners ==> r.value.miners[k] == st.miners[k])
      && r.value.totalHashPower == (st.totalHashPower + msg.totalHashPower) % U64
      && r.value.blockRewards == st.blockRewards
  {
    var key := MinerKey(msg.sourceChain, msg.minerAddress);
    if key in st.miners then Err(MinerAlreadyRegistered(key))
    else
      Ok(st.(miners := st.miners[key := Registered(ctx, msg)],
             totalHashPower := (st.totalHashPower + msg.totalHashPower) % U64))
  }

  /** Registration keeps the counter equal to the wrapped sum of hash powers. */
  lemma RegistrationKeepsCount(st: State, ctx: BlockCtx, msg: CrossChainMiningMessage)
    requires HashPowerCounted(st)
    ensures var r := ProcessMinerRegistration(st, ctx, msg);
      r.Ok? ==> HashPowerCounted(r.value)
  {
    var r := ProcessMinerRegistration(st, ctx, msg);
    if r.Ok? {
      var key := MinerKey(msg.sourceChain, msg.minerAddress);
      var before := SumOver(st.miners.Keys, HashPowerOf(st.miners));
      assert r.value.miners == st.miners[key := Registered(ctx, msg)];
      SumOverInsert(st.miners, key, Registered(ctx, msg));
      Arith.ModAddLeft(before, msg.totalHashPower, U64);
    }
  }

  /** Adding a new miner adds its hash power to the sum. */
  lemma SumOverInsert(miners: map<string, MinerState>, key: string, m: MinerState)
    requires key !in miners
    ensures SumOver(miners[key := m].Keys, HashPowerOf(miners[key := m]))
      == m.totalHashPower + SumOver(miners.Keys, HashPowerOf(miners))
  {
    var after := miners[key := m];
    assert after.Keys - {key} == miners.Keys;
    SumOverRemove(after.Keys, HashPowerOf(after), key);
    SumOverCongruent(miners.Keys, HashPowerOf(after), HashPowerOf(miners));
  }

  /** Two miners whose source chain and address differ can still collide,
      and the second is then turned away as already registered. */
  lemma CollidingMinerRejected(ctx: BlockCtx, msg: CrossChainMiningMessage)
    requires msg.sourceChain == "a:b" && msg.minerAddress == "c"
    ensures var first := ProcessMinerRegistration(NewOracleKeeper(), ctx, msg);
      var second := msg.(sourceChain := "a", minerAddress := "b:c");
      first.Ok? && ProcessMinerRegistration(first.value, ctx, second) == Err(MinerAlreadyRegistered("a:b:c"))
  {
    assert MinerKey("a:b", "c") == "a:b:c";
    assert MinerKey("a", "b:c") == "a:b:c";
  }

  // ------------------------------------------------------------ rewards

  /** The halved base of `calculateMinerReward` as written, with no 64-halving
      guard: from the 64th halving on the `int64` shift is 0 and the division
      panics (None). `blockHeight / halvingInterval` truncates toward zero,
      so a negative height makes no halving. */
  function HalvedBaseRewardAsWritten(blockHeight: int): (r: Option<int>)
    ensures blockHeight < 0 ==> r == Some(Rewards.InitialReward)
    ensures blockHeight >= 0 ==> (r.Some? <==> blockHeight / Rewards.HalvingInterval < 64)
    ensures blockHeight >= 0 && r.Some? ==> r.value == Rewards.RewardAt(blockHeight)
  {
    if blockHeight < 0 then Some(Rewards.InitialReward)
    else Rewards.UncappedReward(blockHeight)
  }

  /** The 64th halving makes the written computation panic, one block earlier it pays 0. */
  lemma RewardPanicsAtSixtyFourHalvings()
    ensures HalvedBaseRewardAsWritten(64 * Rewards.HalvingInterval).None?
    ensures HalvedBaseRewardAsWritten(64 * Rewards.HalvingInterval - 1) == Some(0)
  {
    Rewards.UncappedRewardPanics();
  }

  /** The halved base the keeper uses: the written computation wherever it
      does not panic, and 0 where it does, as the guarded copies pay. A
      negative height still makes no halving. */
  function HalvedBaseReward(blockHeight: int): (r: nat)
    ensures blockHeight < 0 ==> r == Rewards.InitialReward
    ensures blockHeight >= 0 ==> r == Rewards.RewardAt(blockHeight)
    ensures HalvedBaseRewardAsWritten(blockHeight).Some? ==> r == HalvedBaseRewardAsWritten(blockHeight).value
    ensures HalvedBaseRewardAsWritten(blockHeight).None? ==> r == 0
  {
    if blockHeight < 0 then Rewards.InitialReward
    else
      Rewards.EpochRewardVanishes(blockHeight / Rewards.HalvingInterval);
      Rewards.HalvedBase(blockHeight)
  }

  /** `calculateMinerReward`: the whole halved base while the counter is
      zero, otherwise the miner's share of it. */
  function CalculateMinerReward(share: (nat, nat, int) -> int, totalHashPower: nat,
                                miner: MinerState, blockHeight: int)
    : (r: int)
    ensures totalHashPower == 0 ==> r == HalvedBaseReward(blockHeight)
    ensures totalHashPower != 0 ==> r == share(miner.totalHashPower, totalHashPower, HalvedBaseReward(blockHeight))
  {
    var base := HalvedBaseReward(blockHeight);
    if totalHashPower == 0 then base
    else share(miner.totalHashPower, totalHashPower, base)
  }

  /** With a zero counter, a proof pays the reference schedule's reward at the
      claimed height, and nothing from the 64th halving on. */
  lemma ZeroCounterPaysSchedule(share: (nat, nat, int) -> int, miner: MinerState, blockHeight: nat)
    ensures CalculateMinerReward(share, 0, miner, blockHeight) == Rewards.RewardAt(blockHeight)
    ensures blockHeight >= 64 * Rewards.HalvingInterval ==> CalculateMinerReward(share, 0, miner, blockHeight) == 0
  {
    Rewards.EpochRewardVanishes(blockHeight / Rewards.HalvingInterval);
  }

  // ------------------------------------------------------------ payment

  /** What `distributeNuTokens` asks of the bank. */
  function NuPayout(recipient: Address, amount: int): seq<BankCall> {
    [Mint(ModuleName, Denom, amount), SendFromModule(ModuleName, recipient, Denom, amount)]
  }

  datatype Transfer = Transfer(calls: seq<BankCall>, outcome: Outcome<OracleError>)

  /** `distributeNuTokens`: parse the address, then mint and send `amount`.
      `sdk.NewCoin` panics on a negative amount (None). */
  function DistributeNuTokens(env: Env, nuChainAddress: string, amount: int): (r: Option<Transfer>)
    ensures env.parseAddress(nuChainAddress).None? ==>
      r == Some(Transfer([], Fail(InvalidNuChainAddress(nuChainAddress))))
    ensures r.None? <==> env.parseAddress(nuChainAddress).Some? && amount < 0
    ensures r.Some? && r.value.outcome.Pass? <==>
      env.parseAddress(nuChainAddress).Some? && amount >= 0
      && !env.bankFails(NuPayout(env.parseAddress(nuChainAddress).value, amount)[0])
      && !env.bankFails(NuPayout(env.parseAddress(nuChainAddress).value, amount)[1])
    ensures r.Some? && env.parseAddress(nuChainAddress).Some? ==>
      var p := NuPayout(env.parseAddress(nuChainAddress).value, amount);
      (r.value.outcome.Pass? ==> r.value.calls == p)
      && (r.value.outcome.Fail? ==>
            0 < |r.value.calls| <= 2 && r.value.calls == p[..|r.value.calls|]
            && r.value.outcome.error == BankFailure(r.value.calls[|r.value.calls| - 1])
            && env.bankFails(r.value.calls[|r.value.calls| - 1]))
  {
    match env.parseAddress(nuChainAddress)
    case None => Some(Transfer([], Fail(InvalidNuChainAddress(nuChainAddress))))
    case Some(recipient) =>
      if amount < 0 then None
      else
        var p := NuPayout(recipient, amount);
        if env.bankFails(p[0]) then Some(Transfer([p[0]], Fail(BankFailure(p[0]))))
        else if env.bankFails(p[1]) then Some(Transfer(p, Fail(BankFailure(p[1]))))
        else Some(Transfer(p, Pass))
  }

  // ------------------------------------------------------------ block records

  /** The record `storeBlockReward` creates on the first reward of a height. */
  function EmptyRecord(blockHeight: int, ctx: BlockCtx): BlockReward {
    BlockReward(blockHeight, 0, map[], map[], ctx.timeUnix, map[])
  }

  /** `storeBlockReward`: create the height's record on first use, add the
      reward to its total, and overwrite the miner's distribution and watt
      entries. */
  function StoreBlockReward(records: map<int, BlockReward>, ctx: BlockCtx, blockHeight: int,
                            miner: MinerState, reward: int)
    : (r: map<int, BlockReward>)
    ensures r.Keys == records.Keys + {blockHeight}
    ensures forall h :: h in records && h != blockHeight ==> r[h] == records[h]
    ensures var before := if blockHeight in records then records[blockHeight] else EmptyRecord(blockHeight, ctx);
      var after := r[blockHeight];
      after.blockHeight == before.blockHeight && after.timestamp == before.timestamp
      && after.cysicProofs == before.cysicProofs
      && after.totalReward == before.totalReward + reward
      && after.distributions.Keys == before.distributions.Keys + {miner.address}
      && after.distributions[miner.address] == reward
      && (forall a :: a in before.distributions && a != miner.address ==>
            after.distributions[a] == before.distributions[a])
      && after.wattConsumption == before.wattConsumption[miner.address := miner.totalWattCost]
  {
    var before := if blockHeight in records then records[blockHeight] else EmptyRecord(blockHeight, ctx);
    records[blockHeight := before.(totalReward := before.totalReward + reward,
                                   distributions := before.distributions[miner.address := reward],
                                   wattConsumption := before.wattConsumption[miner.address := miner.totalWattCost])]
  }

  /** One call of `storeBlockReward`. */
  datatype Stored = Stored(ctx: BlockCtx, miner: MinerState, reward: int)

  /** A sequence of stores at one height, oldest first. */
  function StoreAll(records: map<int, BlockReward>, blockHeight: int, stores: seq<Stored>)
    : (r: map<int, BlockReward>)
    ensures r.Keys == records.Keys + (if |stores| > 0 then {blockHeight} else {})
    decreases |stores|
  {
    if |stores| == 0 then records
    else
      var last := stores[|stores| - 1];
      StoreBlockReward(StoreAll(records, blockHeight, stores[..|stores| - 1]), last.ctx, blockHeight,
                       last.miner, last.reward)
  }

  function RewardSum(stores: seq<Stored>): int {
    if |stores| == 0 then 0 else RewardSum(stores[..|stores| - 1]) + stores[|stores| - 1].reward
  }

  ghost function StoredMiners(stores: seq<Stored>): set<string> {
    set i | 0 <= i < |stores| :: stores[i].miner.address
  }

  /** After any number of rewards at a fresh height, the record's total is
      their sum, its timestamp is the first store's block time, and it has
      one distribution entry per distinct miner address. */
  lemma {:induction false} StoreAllAccumulates(records: map<int, BlockReward>, blockHeight: int,
                                               stores: seq<Stored>)
    requires blockHeight !in records && |stores| > 0
    ensures var r := StoreAll(records, blockHeight, stores);
      r[blockHeight].totalReward == RewardSum(stores)
      && r[blockHeight].timestamp == stores[0].ctx.timeUnix
      && r[blockHeight].blockHeight == blockHeight
      && r[blockHeight].distributions.Keys == StoredMiners(stores)
    decreases |stores|
  {
    var init := stores[..|stores| - 1];
    var last := stores[|stores| - 1];
    if |init| == 0 {
      assert StoredMiners(stores) == {last.miner.address};
    } else {
      StoreAllAccumulates(records, blockHeight, init);
      assert init[0] == stores[0];
      StoredMinersSnoc(stores);
    }
  }

  lemma StoredMinersSnoc(stores: seq<Stored>)
    requires |stores| > 0
    ensures StoredMiners(stores) == StoredMiners(stores[..|stores| - 1]) + {stores[|stores| - 1].miner.address}
  {
    var init := stores[..|stores| - 1];
    forall a | a in StoredMiners(stores) ensures a in StoredMiners(init) + {stores[|stores| - 1].miner.address} {
      var i :| 0 <= i < |stores| && stores[i].miner.address == a;
      if i < |init| {
        assert init[i] == stores[i];
      }
    }
    forall a | a in StoredMiners(init) ensures a in StoredMiners(stores) {
      var i :| 0 <= i < |init| && init[i].miner.address == a;
      assert stores[i] == init[i];
    }
  }

  /** Two rewards to one miner at one height: the total counts both, the
      distribution keeps only the second. */
  lemma LatestDistributionWins(ctx1: BlockCtx, ctx2: BlockCtx, blockHeight: int, miner: MinerState,
                               reward1: int, reward2: int)
    ensures var once := StoreBlockReward(map[], ctx1, blockHeight, miner, reward1);
      var twice := StoreBlockReward(once, ctx2, blockHeight, miner, reward2);
      twice[blockHeight].totalReward == reward1 + reward2
      && twice[blockHeight].distributions == map[miner.address := reward2]
      && twice[blockHeight].timestamp == ctx1.timeUnix
  {
    var once := StoreBlockReward(map[], ctx1, blockHeight, miner, reward1);
    var twice := StoreBlockReward(once, ctx2, blockHeight, miner, reward2);
    assert twice[blockHeight].distributions.Keys == {miner.address};
  }

  // ------------------------------------------------------------ proofs

  /** The reward a proof submission computes for a registered miner. */
  function ProofReward(env: Env, st: State, msg: CrossChainMiningMessage): int
    requires MinerKey(msg.sourceChain, msg.minerAddress) in st.miners
  {
    CalculateMinerReward(env.share, st.totalHashPower, st.miners[MinerKey(msg.sourceChain, msg.minerAddress)],
                         msg.blockHeight)
  }

  /** `processCysicProofSubmission`: find the miner, verify the proof, pay the
      reward, then record the proof time, the pending reward and the block
      record at the claimed height. */
  function ProcessCysicProofSubmission(env: Env, st: State, ctx: BlockCtx, msg: CrossChainMiningMessage)
    : (r: Option<Step>)
    ensures var key := MinerKey(msg.sourceChain, msg.minerAddress);
      key !in st.miners ==> r == Some(Step([], Err(MinerNotRegistered(key))))
    ensures var key := MinerKey(msg.sourceChain, msg.minerAddress);
      key in st.miners && !env.verifyProof(msg.cysicProof, msg.publicInputs) ==>
        r == Some(Step([], Err(InvalidCysicProof(msg.minerAddress))))
    ensures var key := MinerKey(msg.sourceChain, msg.minerAddress);
      r.None? <==> key in st.miners && env.verifyProof(msg.cysicProof, msg.publicInputs)
                   && env.parseAddress(st.miners[key].nuChainAddress).Some? && ProofReward(env, st, msg) < 0
    ensures r.Some? && r.value.result.Ok? ==>
      var key := MinerKey(msg.sourceChain, msg.minerAddress);
      key in st.miners && env.verifyProof(msg.cysicProof, msg.publicInputs)
      && var reward := ProofReward(env, st, msg);
      var m := st.miners[key];
      var after := r.value.result.value;
      env.parseAddress(m.nuChainAddress).Some?
      && r.value.calls == NuPayout(env.parseAddress(m.nuChainAddress).value, reward)
      && after.miners.Keys == st.miners.Keys
      && after.miners[key] == m.(lastProofTime := ctx.timeUnix, pendingRewards := m.pendingRewards + reward)
      && (forall k :: k in st.miners && k != key ==> after.miners[k] == st.miners[k])
      && after.totalHashPower == st.totalHashPower
      && after.blockRewards == StoreBlockReward(st.blockRewards, ctx, msg.blockHeight, m, reward)
    ensures r.Some? && r.value.result.Err? ==> forall c :: c in r.value.calls ==> c.Mint? || c.SendFromModule?
  {
    var key := MinerKey(msg.sourceChain, msg.minerAddress);
    if key !in st.miners then Some(Step([], Err(MinerNotRegistered(key))))
    else if !env.verifyProof(msg.cysicProof, msg.publicInputs) then
      Some(Step([], Err(InvalidCysicProof(msg.minerAddress))))
    else
      var m := st.miners[key];
      var reward := ProofReward(env, st, msg);
      match DistributeNuTokens(env, m.nuChainAddress, reward)
      case None => None
      case Some(Transfer(calls, Fail(e))) => Some(Step(calls, Err(e)))
      case Some(Transfer(calls, Pass)) =>
        var paid := m.(lastProofTime := ctx.timeUnix, pendingRewards := m.pendingRewards + reward);
        Some(Step(calls, Ok(st.(miners := st.miners[key := paid],
                                blockRewards := StoreBlockReward(st.blockRewards, ctx, msg.blockHeight, m, reward)))))
  }

  /** A proof submission keeps the counter equal to the wrapped hash-power sum. */
  lemma ProofSubmissionKeepsCount(env: Env, st: State, ctx: BlockCtx, msg: CrossChainMiningMessage)
    requires HashPowerCounted(st)
    ensures var r := ProcessCysicProofSubmission(env, st, ctx, msg);
      r.Some? && r.value.result.Ok? ==> HashPowerCounted(r.value.result.value)
  {
    var r := ProcessCysicProofSubmission(env, st, ctx, msg);
    if r.Some? && r.value.result.Ok? {
      var key := MinerKey(msg.sourceChain, msg.minerAddress);
      assert r.value.result.value.miners == st.miners[key := r.value.result.value.miners[key]];
      SameHashPowerSameSum(st.miners, key, r.value.result.value.miners[key]);
    }
  }

  /** The verifier sees only the proof and its public inputs: a proof that
      passes for one registered miner passes for any other registered miner,
      at any claimed height. */
  lemma ProofNotBoundToMiner(env: Env, st: State, ctx: BlockCtx, msg: CrossChainMiningMessage,
                             sourceChain: string, minerAddress: string, blockHeight: int)
    requires MinerKey(sourceChain, minerAddress) in st.miners
    requires var r := ProcessCysicProofSubmission(env, st, ctx, msg);
      r.Some? && r.value.result.Ok?
    ensures var other := msg.(sourceChain := sourceChain, minerAddress := minerAddress, blockHeight := blockHeight);
      var r := ProcessCysicProofSubmission(env, st, ctx, other);
      r.Some? ==> r.value.result != Err(InvalidCysicProof(minerAddress))
  {
  }

  /** The claimed height is the sender's to choose: with a zero counter, a
      negative height earns the initial reward, whatever the chain's height. */
  lemma NegativeHeightEarnsInitialReward(env: Env, st: State, msg: CrossChainMiningMessage)
    requires MinerKey(msg.sourceChain, msg.minerAddress) in st.miners
    requires st.totalHashPower == 0 && msg.blockHeight < 0
    ensures ProofReward(env, st, msg) == Rewards.InitialReward
  {
  }

  // ------------------------------------------------------------ dispatch

  /** `ProcessCrossChainMiningMessage`: decode, then dispatch on the type. */
  function ProcessCrossChainMiningMessage(env: Env, st: State, ctx: BlockCtx, msgBytes: seq<Byte>)
    : (r: Option<Step>)
    ensures env.decode(msgBytes).None? ==> r == Some(Step([], Err(DecodeFailed)))
    ensures env.decode(msgBytes).Some? ==>
      var msg := env.decode(msgBytes).value;
      (msg.kind == "miner_registration" ==> r == Some(Step([], ProcessMinerRegistration(st, ctx, msg))))
      && (msg.kind == "mining_reward_claim" ==> r == env.rewardClaim(st, ctx, msg))
      && (msg.kind == "cysic_proof_submission" ==> r == ProcessCysicProofSubmission(env, st, ctx, msg))
      && (msg.kind !in {"miner_registration", "mining_reward_claim", "cysic_proof_submission"} ==>
            r == Some(Step([], Err(UnknownMessageType(msg.kind)))))
  {
    match env.decode(msgBytes)
    case None => Some(Step([], Err(DecodeFailed)))
    case Some(msg) =>
      if msg.kind == "miner_registration" then Some(Step([], ProcessMinerRegistration(st, ctx, msg)))
      else if msg.kind == "mining_reward_claim" then env.rewardClaim(st, ctx, msg)
      else if msg.kind == "cysic_proof_submission" then ProcessCysicProofSubmission(env, st, ctx, msg)
      else Some(Step([], Err(UnknownMessageType(msg.kind))))
  }

  /** Only the two handlers defined in the file can report an unknown type, and
      neither does: apart from the undefined reward-claim handler, the error
      `UnknownMessageType` comes exactly from an unlisted type. */
  lemma UnknownTypeOnlyFromDispatch(env: Env, st: State, ctx: BlockCtx, msgBytes: seq<Byte>)
    requires env.decode(msgBytes).Some? && env.decode(msgBytes).value.kind != "mining_reward_claim"
    ensures var r := ProcessCrossChainMiningMessage(env, st, ctx, msgBytes);
      var kind := env.decode(msgBytes).value.kind;
      (r.Some? && r.value.result.Err? && r.value.result.error.UnknownMessageType?)
        <==> kind !in {"miner_registration", "cysic_proof_submission"}
  {
  }

  /** `GetMinerStats`. */
  function GetMinerStats(st: State, minerAddress: string, sourceChain: string): (r: Option<MinerState>)
    ensures r.Some? <==> MinerKey(sourceChain, minerAddress) in st.miners
    ensures r.Some? ==> r.value == st.miners[MinerKey(sourceChain, minerAddress)]
  {
    var key := MinerKey(sourceChain, minerAddress);
    if key in st.miners then Some(st.miners[key]) else None
  }

  /** A registration is found by the same address and source chain. */
  lemma RegisteredMinerFound(st: State, ctx: BlockCtx, msg: CrossChainMiningMessage)
    ensures var r := ProcessMinerRegistration(st, ctx, msg);
      r.Ok? ==> GetMinerStats(r.value, msg.minerAddress, msg.sourceChain) == Some(Registered(ctx, msg))
  {
  }

  // ------------------------------------------------------------ network stats

  datatype NetworkStats = NetworkStats(
    totalMiners: nat,
    totalHashPower: nat,
    totalRewards: int,
    totalWattConsumption: nat,
    activeChains: seq<string>,
    blockRewardsCount: nat)

  function PendingOf(miners: map<string, MinerState>): string -> int {
    k => if k in miners then miners[k].pendingRewards else 0
  }

  function WattOf(miners: map<string, MinerState>): string -> int {
    k => if k in miners then miners[k].totalWattCost else 0
  }

  /** The `uint64` accumulation of watt costs, in iteration order. */
  function WattSumWrapped(miners: map<string, MinerState>, order: seq<string>): (total: nat)
    ensures total < U64
    ensures total == SumInOrder(order, WattOf(miners)) % U64
    decreases |order|
  {
    if |order| == 0 then 0
    else
      var init := order[..|order| - 1];
      var last := WattOf(miners)(order[|order| - 1]);
      Arith.ModAddLeft(SumInOrder(init, WattOf(miners)), last, U64);
      (WattSumWrapped(miners, init) + last) % U64
  }

  /** `GetNetworkStats`; `order` is the map's iteration order. */
  function GetNetworkStats(st: State, order: seq<string>): (s: NetworkStats)
    requires Enumerates(order, st.miners.Keys)
    ensures s.totalMiners == |st.miners| && s.blockRewardsCount == |st.blockRewards|
    ensures s.totalHashPower == st.totalHashPower && s.activeChains == ActiveChains
    ensures s.totalRewards == SumOver(st.miners.Keys, PendingOf(st.miners))
    ensures s.totalWattConsumption == SumOver(st.miners.Keys, WattOf(st.miners)) % U64
  {
    SumInOrderIsSumOver(order, st.miners.Keys, PendingOf(st.miners));
    SumInOrderIsSumOver(order, st.miners.Keys, WattOf(st.miners));
    NetworkStats(|st.miners|, st.totalHashPower, SumInOrder(order, PendingOf(st.miners)),
                 WattSumWrapped(st.miners, order), ActiveChains, |st.blockRewards|)
  }

  /** The statistics add up every miner: deactivating one changes nothing. */
  lemma StatsIgnoreActivity(st: State, order: seq<string>, key: string)
    requires Enumerates(order, st.miners.Keys) && key in st.miners
    ensures var st2 := st.(miners := st.miners[key := st.miners[key].(isActive := false)]);
      Enumerates(order, st2.miners.Keys) && GetNetworkStats(st2, order) == GetNetworkStats(st, order)
  {
    var st2 := st.(miners := st.miners[key := st.miners[key].(isActive := false)]);
    assert st2.miners.Keys == st.miners.Keys;
    SumOverCongruent(st.miners.Keys, PendingOf(st2.miners), PendingOf(st.miners));
    SumOverCongruent(st.miners.Keys, WattOf(st2.miners), WattOf(st.miners));
  }

  /** Under the counter invariant the reported hash power is that of every
      registered miner, active or not. */
  lemma StatsHashPowerIsSum(st: State, order: seq<string>)
    requires Enumerates(order, st.miners.Keys) && HashPowerCounted(st)
    ensures GetNetworkStats(st, order).totalHashPower == SumOver(st.miners.Keys, HashPowerOf(st.miners)) % U64
  {
  }

  // ------------------------------------------------------------ per-block payout

  /** The miners `ProcessBlockRewards` considers: active, with a last proof
      time no more than ten behind the height. The proof time is in Unix
      seconds and the height in blocks. */
  predicate Eligible(m: MinerState, currentHeight: nat) {
    m.isActive && currentHeight - m.lastProofTime <= RecentWindow
  }

  datatype Paid = Paid(miner: MinerState, calls: seq<BankCall>)

  /** One iteration of `ProcessBlockRewards`' loop. A failed distribution is
      logged and skipped; the calls it made stay made. */
  function PayOne(env: Env, totalHashPower: nat, currentHeight: nat, m: MinerState): (r: Paid)
    ensures !Eligible(m, currentHeight) ==> r == Paid(m, [])
    ensures r.miner == m || r.miner == m.(pendingRewards := r.miner.pendingRewards)
    ensures r.miner.pendingRewards != m.pendingRewards ==>
      var reward := CalculateMinerReward(env.share, totalHashPower, m, currentHeight);
      Eligible(m, currentHeight) && reward > 0
      && r.miner.pendingRewards == m.pendingRewards + reward
      && env.parseAddress(m.nuChainAddress).Some?
      && r.calls == NuPayout(env.parseAddress(m.nuChainAddress).value, reward)
    ensures var reward := CalculateMinerReward(env.share, totalHashPower, m, currentHeight);
      Eligible(m, currentHeight) && reward > 0 && env.parseAddress(m.nuChainAddress).Some?
      && !env.bankFails(NuPayout(env.parseAddress(m.nuChainAddress).value, reward)[0])
      && !env.bankFails(NuPayout(env.parseAddress(m.nuChainAddress).value, reward)[1])
      ==> r.miner.pendingRewards == m.pendingRewards + reward
  {
    if !Eligible(m, currentHeight) then Paid(m, [])
    else
      var reward := CalculateMinerReward(env.share, totalHashPower, m, currentHeight);
      if reward <= 0 then Paid(m, [])
      else
        var t := DistributeNuTokens(env, m.nuChainAddress, reward).value;
        if t.outcome.Fail? then Paid(m, t.calls)
        else Paid(m.(pendingRewards := m.pendingRewards + reward), t.calls)
  }

  /** The loop over `order`, updating each visited miner in the map. */
  function PayAll(env: Env, totalHashPower: nat, currentHeight: nat,
                  miners: map<string, MinerState>, order: seq<string>)
    : (r: (map<string, MinerState>, seq<BankCall>))
    requires forall i :: 0 <= i < |order| ==> order[i] in miners
    ensures r.0.Keys == miners.Keys
    ensures forall k :: k in miners && k !in order ==> r.0[k] == miners[k]
    decreases |order|
  {
    if |order| == 0 then (miners, [])
    else
      var k := order[0];
      var p := PayOne(env, totalHashPower, currentHeight, miners[k]);
      var rest := PayAll(env, totalHashPower, currentHeight, miners[k := p.miner], order[1..]);
      (rest.0, p.calls + rest.1)
  }

  /** The result of one miner's iteration, from the map before the loop. */
  function PaidMiner(env: Env, totalHashPower: nat, currentHeight: nat, m: MinerState): MinerState {
    PayOne(env, totalHashPower, currentHeight, m).miner
  }

  predicate Distinct(order: seq<string>) {
    forall i, j :: 0 <= i < j < |order| ==> order[i] != order[j]
  }

  /** When every key is visited once, each visited miner ends up as its own
      iteration left it. */
  lemma {:induction false} PayAllPointwise(env: Env, totalHashPower: nat, currentHeight: nat,
                                           miners: map<string, MinerState>, order: seq<string>)
    requires forall i :: 0 <= i < |order| ==> order[i] in miners
    requires Distinct(order)
    ensures var r := PayAll(env, totalHashPower, currentHeight, miners, order);
      forall i :: 0 <= i < |order| ==>
        r.0[order[i]] == PaidMiner(env, totalHashPower, currentHeight, miners[order[i]])
    decreases |order|
  {
    if |order| > 0 {
      var k := order[0];
      var rest := order[1..];
      var p := PayOne(env, totalHashPower, currentHeight, miners[k]);
      var m2 := miners[k := p.miner];
      assert forall i :: 0 <= i < |rest| ==> rest[i] == order[i + 1] && rest[i] != k;
      PayAllPointwise(env, totalHashPower, currentHeight, m2, rest);
      assert forall i :: 0 <= i < |rest| ==> m2[rest[i]] == miners[rest[i]];
      var r := PayAll(env, totalHashPower, currentHeight, miners, order);
      forall i | 0 <= i < |order|
        ensures r.0[order[i]] == PaidMiner(env, totalHashPower, currentHeight, miners[order[i]])
      {
        if i > 0 {
          assert order[i] == rest[i - 1];
        }
      }
    }
  }

  /** `ProcessBlockRewards`: one pass over the miners in iteration order. It
      reports no error. */
  function ProcessBlockRewards(env: Env, st: State, ctx: BlockCtx, order: seq<string>)
    : (r: (State, seq<BankCall>))
    requires Enumerates(order, st.miners.Keys)
    ensures r.0.miners.Keys == st.miners.Keys
    ensures r.0.totalHashPower == st.totalHashPower && r.0.blockRewards == st.blockRewards
    ensures forall k :: k in st.miners ==>
      r.0.miners[k] == PaidMiner(env, st.totalHashPower, ctx.height, st.miners[k])
  {
    PayAllPointwise(env, st.totalHashPower, ctx.height, st.miners, order);
    var res := PayAll(env, st.totalHashPower, ctx.height, st.miners, order);
    (st.(miners := res.0), res.1)
  }

  /** Inactive miners and miners whose last proof is more than ten behind
      are left exactly as they were. */
  lemma SkippedMinersUnchanged(env: Env, st: State, ctx: BlockCtx, order: seq<string>, key: string)
    requires Enumerates(order, st.miners.Keys) && key in st.miners
    requires !st.miners[key].isActive || ctx.height - st.miners[key].lastProofTime > RecentWindow
    ensures ProcessBlockRewards(env, st, ctx, order).0.miners[key] == st.miners[key]
  {
  }

  /** Whichever order the map is visited in, the miners end up the same. */
  lemma BlockRewardsOrderFree(env: Env, st: State, ctx: BlockCtx, order1: seq<string>, order2: seq<string>)
    requires Enumerates(order1, st.miners.Keys) && Enumerates(order2, st.miners.Keys)
    ensures ProcessBlockRewards(env, st, ctx, order1).0 == ProcessBlockRewards(env, st, ctx, order2).0
  {
    var r1 := ProcessBlockRewards(env, st, ctx, order1);
    var r2 := ProcessBlockRewards(env, st, ctx, order2);
    assert r1.0.miners == r2.0.miners;
  }

  /** The per-block payout keeps the counter equal to the wrapped hash-power sum. */
  lemma BlockRewardsKeepCount(env: Env, st: State, ctx: BlockCtx, order: seq<string>)
    requires Enumerates(order, st.miners.Keys) && HashPowerCounted(st)
    ensures HashPowerCounted(ProcessBlockRewards(env, st, ctx, order).0)
  {
    var r := ProcessBlockRewards(env, st, ctx, order);
    SumOverCongruent(st.miners.Keys, HashPowerOf(r.0.miners), HashPowerOf(st.miners));
  }

  /** A proof time in Unix seconds keeps a miner eligible at every height up to
      ten past that time: a miner registered at block time `t` is paid at
      every later block whose height stays below `t`. */
  lemma UnixProofTimeNeverStale(ctx: BlockCtx, msg: CrossChainMiningMessage, currentHeight: nat)
    requires currentHeight <= ctx.timeUnix + RecentWindow
    ensures Eligible(Registered(ctx, msg), currentHeight)
  {
  }
}
