/** nuChain's mining keeper (`nuchain/x/mining/keeper`): mining rigs, pool
    operators and staking nodes registered from cross-chain messages, and the
    per-block distribution of NU to active rigs and of WATT to online
    staking nodes.

    The three prefixed stores are maps from the key each record is written
    under. A store iterator visits every key once, in an order the model takes
    as a parameter. JSON payload decoding, bech32 parsing, the bank and the
    `sdk.Dec` share of each rig are parameters too. */
module MiningKeeper {
  import opened Wrappers
  import opened Arith
  import opened Bytes
  import opened Decimal
  import opened Chain
  import opened MapSums
  import opened MiningTypes
  import Rewards

  const ModuleName: string := "mining"
  const MiningRigKey: string := "mining_rig/"
  const PoolOperatorKey: string := "pool_operator/"
  const StakingNodeKey: string := "staking_node/"

  /** Base units per NU token. */
  const NuUnit: nat := 1_000_000_000_000_000_000
  /** The 21 NU a staking node must hold. */
  const RequiredStake: nat := 21 * NuUnit
  /** WATT base units sent per supported chain to each online node per block. */
  const WattReward: nat := 1_000_000_000_000_000

  const KnownMessageTypes: set<string> := {"mining_rig_update", "pool_operator_stake", "reward_distribution"}

  datatype State = State(
    rigs: map<string, MiningRigNFT>,
    pools: map<string, PoolOperator>,
    nodes: map<string, StakingNode>)

  /** `json.Unmarshal` of the two payload kinds. */
  datatype Codec = Codec(
    decodeRig: seq<Byte> -> Option<MiningRigNFT>,
    decodePool: seq<Byte> -> Option<PoolOperator>)

  /** `processRewardDistribution`, which the keeper dispatches to but which
      the source does not define. */
  type RewardDistributionHandler = (State, CrossChainMessage) -> Result<State, string>

  /** What distribution depends on outside the keeper: which bank calls fail,
      bech32 parsing of owners, and the `sdk.Dec` share of the block reward
      a rig with the given hash power earns out of the given total. */
  datatype Env = Env(
    fails: BankCall -> bool,
    parseAddress: string -> Option<Address>,
    share: (nat, nat, nat) -> int)

  datatype MiningError =
    | UnknownMessageType(messageType: string)
    | RigUnmarshalFailed
    | InvalidHashPower(hashPower: nat)
    | PoolUnmarshalFailed
    | WattNotStaked
    | RewardDistributionFailed(reason: string)
    | InsufficientStake(required: nat, got: nat)
    | NoActiveRigs
    | MiningRewardsFailed(call: BankCall)

  /** `m'` is `m` with `key` bound to `v`: added, or overwriting what was there. */
  predicate Overwrites<V(==)>(m: map<string, V>, m': map<string, V>, key: string, v: V) {
    m'.Keys == m.Keys + {key}
    && m'[key] == v
    && forall k :: k in m && k != key ==> m'[k] == m[k]
  }

  // ------------------------------------------------------------ keys

  /** The key a rig is stored under: prefix, decimal token id, '-', chain id. */
  function RigKey(tokenId: nat, chainId: string): (k: string)
    ensures k == MiningRigKey + NatToDecimal(tokenId) + ['-'] + chainId
    ensures k[..|MiningRigKey|] == MiningRigKey && k[|k| - |chainId|..] == chainId
  {
    MiningRigKey + NatToDecimal(tokenId) + "-" + chainId
  }

  /** Token id and chain id can be read back from a rig key, since the
      decimal id holds no '-'. */
  lemma RigKeyInjective(t1: nat, c1: string, t2: nat, c2: string)
    requires RigKey(t1, c1) == RigKey(t2, c2)
    ensures t1 == t2 && c1 == c2
  {
    var p := MiningRigKey;
    var x := NatToDecimal(t1);
    var y := NatToDecimal(t2);
    assert RigKey(t1, c1)[|p|..] == x + ['-'] + c1;
    assert RigKey(t2, c2)[|p|..] == y + ['-'] + c2;
    DecimalHasNo(t1, '-');
    DecimalHasNo(t2, '-');
    SplitAtFirst(x, c1, y, c2, '-');
    NatToDecimalInjective(t1, t2);
  }

  /** The key a pool operator is stored under: prefix, address, '-', chain id. */
  function PoolKey(address: string, chainId: string): (k: string)
    ensures |k| == |PoolOperatorKey| + |address| + 1 + |chainId|
    ensures k[..|PoolOperatorKey|] == PoolOperatorKey && k[|k| - |chainId|..] == chainId
    ensures k[|PoolOperatorKey|..|PoolOperatorKey| + |address|] == address && k[|PoolOperatorKey| + |address|] == '-'
  {
    PoolOperatorKey + address + "-" + chainId
  }

  /** Addresses and chain ids may themselves hold '-', so two different
      operators can share a key. */
  lemma PoolKeyAmbiguous()
    ensures PoolKey("a-b", "c") == PoolKey("a", "b-c")
  {
  }

  /** The key a staking node is stored under: prefix and operator address. */
  function NodeKey(operator: string): (k: string)
    ensures |k| == |StakingNodeKey| + |operator|
    ensures k[..|StakingNodeKey|] == StakingNodeKey && k[|StakingNodeKey|..] == operator
  {
    StakingNodeKey + operator
  }

  /** The operator can be read back from a node key. */
  lemma NodeKeyInjective(o1: string, o2: string)
    requires NodeKey(o1) == NodeKey(o2)
    ensures o1 == o2
  {
    assert o1 == NodeKey(o1)[|StakingNodeKey|..];
  }

  /** Rigs, pool operators and staking nodes live in separate key spaces:
      their prefixes already differ in the first character. */
  lemma KeySpacesDisjoint(t: nat, c: string, a: string, c2: string, o: string)
    ensures RigKey(t, c) != PoolKey(a, c2) && RigKey(t, c) != NodeKey(o) && PoolKey(a, c2) != NodeKey(o)
  {
    assert RigKey(t, c)[0] == 'm' && PoolKey(a, c2)[0] == 'p' && NodeKey(o)[0] == 's';
  }

  // ------------------------------------------------------------ messages

  /** `processMiningRigUpdate`: decode the rig and store it, overwriting any
      rig with the same token and chain; a hash power of zero is refused. */
  function ProcessMiningRigUpdate(codec: Codec, st: State, msg: CrossChainMessage): (r: Result<State, MiningError>)
    ensures codec.decodeRig(msg.payload).None? ==> r == Err(RigUnmarshalFailed)
    ensures r.Ok? <==> codec.decodeRig(msg.payload).Some? && codec.decodeRig(msg.payload).value.hashPower != 0
    ensures r.Err? && codec.decodeRig(msg.payload).Some? ==> r == Err(InvalidHashPower(0))
    ensures r.Ok? ==>
      var rig := codec.decodeRig(msg.payload).value;
      Overwrites(st.rigs, r.value.rigs, RigKey(rig.tokenId, rig.chainId), rig)
      && r.value.pools == st.pools && r.value.nodes == st.nodes
  {
    match codec.decodeRig(msg.payload)
    case None => Err(RigUnmarshalFailed)
    case Some(rig) =>
      if rig.hashPower == 0 then Err(InvalidHashPower(rig.hashPower))
      else Ok(st.(rigs := st.rigs[RigKey(rig.tokenId, rig.chainId) := rig]))
  }

  /** `processPoolOperatorStake`: decode the operator and store it unless it
      has not staked WATT. */
  function ProcessPoolOperatorStake(codec: Codec, st: State, msg: CrossChainMessage): (r: Result<State, MiningError>)
    ensures codec.decodePool(msg.payload).None? ==> r == Err(PoolUnmarshalFailed)
    ensures r.Ok? <==> codec.decodePool(msg.payload).Some? && codec.decodePool(msg.payload).value.hasStakedWatt
    ensures r.Err? && codec.decodePool(msg.payload).Some? ==> r == Err(WattNotStaked)
    ensures r.Ok? ==>
      var pool := codec.decodePool(msg.payload).value;
      Overwrites(st.pools, r.value.pools, PoolKey(pool.address, pool.chainId), pool)
      && r.value.rigs == st.rigs && r.value.nodes == st.nodes
  {
    match codec.decodePool(msg.payload)
    case None => Err(PoolUnmarshalFailed)
    case Some(pool) =>
      if !pool.hasStakedWatt then Err(WattNotStaked)
      else Ok(st.(pools := st.pools[PoolKey(pool.address, pool.chainId) := pool]))
  }

  /** `ProcessCrossChainMessage`: dispatch on the message type. */
  function ProcessCrossChainMessage(codec: Codec, onReward: RewardDistributionHandler, st: State,
                                    msg: CrossChainMessage)
    : (r: Result<State, MiningError>)
    ensures r == Err(UnknownMessageType(msg.messageType)) <==> msg.messageType !in KnownMessageTypes
    ensures msg.messageType == "mining_rig_update" ==> r == ProcessMiningRigUpdate(codec, st, msg)
    ensures msg.messageType == "pool_operator_stake" ==> r == ProcessPoolOperatorStake(codec, st, msg)
    ensures msg.messageType == "reward_distribution" ==>
      (r.Ok? <==> onReward(st, msg).Ok?) && (r.Ok? ==> r.value == onReward(st, msg).value)
  {
    match msg.messageType
    case "mining_rig_update" => ProcessMiningRigUpdate(codec, st, msg)
    case "pool_operator_stake" => ProcessPoolOperatorStake(codec, st, msg)
    case "reward_distribution" =>
      (match onReward(st, msg)
       case Ok(st') => Ok(st')
       case Err(e) => Err(RewardDistributionFailed(e)))
    case _ => Err(UnknownMessageType(msg.messageType))
  }

  /** The relayed sender, nonce and timestamp play no part: whoever submits a
      payload registers the rig or operator it describes. */
  lemma SenderIgnored(codec: Codec, onReward: RewardDistributionHandler, st: State, msg: CrossChainMessage,
                      sender: string, nonce: nat, timestamp: int)
    requires msg.messageType != "reward_distribution"
    ensures ProcessCrossChainMessage(codec, onReward, st, msg.(sender := sender, nonce := nonce, timestamp := timestamp))
         == ProcessCrossChainMessage(codec, onReward, st, msg)
  {
  }

  // ------------------------------------------------------------ staking nodes

  /** `CalculateVotingPower`: whole NU tokens staked. */
  function CalculateVotingPower(stake: nat): (vp: nat)
    ensures vp * NuUnit <= stake < (vp + 1) * NuUnit
  {
    RoundDown(stake, NuUnit);
    stake / NuUnit
  }

  /** `GetStakedAmount`, a placeholder that reports 21 NU for everyone. */
  function GetStakedAmount(operator: string): (s: nat)
    ensures s == RequiredStake
  {
    21 * NuUnit
  }

  /** `CreateStakingNode`: refuse less than 21 NU; otherwise store an online
      node under the operator's address, overwriting any earlier one. */
  function CreateStakingNode(st: State, operator: string, moniker: string, supportedChains: seq<string>,
                             height: int, staked: nat)
    : (r: Result<State, MiningError>)
    ensures r.Err? <==> staked < RequiredStake
    ensures r.Err? ==> r.error == InsufficientStake(RequiredStake, staked)
    ensures r.Ok? ==>
      NodeKey(operator) in r.value.nodes
      && var n := r.value.nodes[NodeKey(operator)];
         Overwrites(st.nodes, r.value.nodes, NodeKey(operator), n)
         && n.operator == operator && n.moniker == moniker && n.supportedChains == supportedChains
         && n.stakedNu == staked && n.isOnline && n.lastBlockSigned == height
         && n.votingPower * NuUnit <= staked < (n.votingPower + 1) * NuUnit
         && n.votingPower >= 21
    ensures r.Ok? ==> r.value.rigs == st.rigs && r.value.pools == st.pools
  {
    if staked < RequiredStake then Err(InsufficientStake(RequiredStake, staked))
    else
      var vp := CalculateVotingPower(staked);
      assert vp >= 21;
      var node := StakingNode(operator, moniker, staked, true, height, vp, supportedChains);
      Ok(st.(nodes := st.nodes[NodeKey(operator) := node]))
  }

  /** `stakedAmount.Uint64()` as the source stores it: the conversion panics
      (None) for amounts that do not fit in 64 bits. */
  function StakedNuAsWritten(stake: nat): (r: Option<nat>)
    ensures r.Some? <==> stake < U64
    ensures r.Some? ==> r.value == stake
  {
    if stake < U64 then Some(stake) else None
  }

  /** `CreateStakingNode` with `StakedNu` a `uint64`. 21 NU is 21 * 10^18
      base units, more than 2^64, so every stake the validation lets through makes
      the conversion panic (None): no node can ever be created. */
  function CreateStakingNodeAsWritten(st: State, operator: string, moniker: string, supportedChains: seq<string>,
                                      height: int, staked: nat)
    : (r: Option<Result<State, MiningError>>)
    ensures r.None? <==> staked >= RequiredStake
    ensures r.Some? ==> r.value == Err(InsufficientStake(RequiredStake, staked))
  {
    if staked < RequiredStake then Some(Err(InsufficientStake(RequiredStake, staked)))
    else match StakedNuAsWritten(staked)
      case None => None
      case Some(v) =>
        var node := StakingNode(operator, moniker, v, true, height, CalculateVotingPower(staked), supportedChains);
        Some(Ok(st.(nodes := st.nodes[NodeKey(operator) := node])))
  }

  /** The placeholder stake itself already overflows. */
  lemma PlaceholderStakeOverflows(st: State, operator: string, moniker: string, supportedChains: seq<string>,
                                  height: int)
    ensures GetStakedAmount(operator) >= U64
    ensures CreateStakingNodeAsWritten(st, operator, moniker, supportedChains, height, GetStakedAmount(operator)).None?
    ensures CreateStakingNode(st, operator, moniker, supportedChains, height, GetStakedAmount(operator)).Ok?
  {
  }

  /** With the placeholder stake every request succeeds, with voting power 21. */
  lemma PlaceholderStakeAccepted(st: State, operator: string, moniker: string, supportedChains: seq<string>,
                                 height: int)
    ensures var r := CreateStakingNode(st, operator, moniker, supportedChains, height, GetStakedAmount(operator));
      r.Ok? && r.value.nodes[NodeKey(operator)].votingPower == 21
  {
    DivUnique(RequiredStake, NuUnit, 21, 0);
  }

  // ------------------------------------------------------------ hash power

  /** The hash power a store key contributes to the total: that of an active rig. */
  function ActivePower(rigs: map<string, MiningRigNFT>): string -> int {
    k => if k in rigs && rigs[k].isActive then rigs[k].hashPower else 0
  }

  /** `GetTotalHashPower`: the `uint64` sum, in iteration order, of the hash
      power of active rigs. */
  function GetTotalHashPower(rigs: map<string, MiningRigNFT>, order: seq<string>): (total: nat)
    ensures total < U64
    ensures total == SumInOrder(order, ActivePower(rigs)) % U64
    decreases |order|
  {
    if |order| == 0 then 0
    else
      var init := order[..|order| - 1];
      var last := ActivePower(rigs)(order[|order| - 1]);
      var prev := GetTotalHashPower(rigs, init);
      ModAddLeft(SumInOrder(init, ActivePower(rigs)), last, U64);
      (prev + last) % U64
  }

  /** Whatever order the iterator takes, the total is the sum over all stored
      rigs of their active hash power, reduced modulo 2^64. */
  lemma TotalHashPowerIsSum(rigs: map<string, MiningRigNFT>, order: seq<string>)
    requires Enumerates(order, rigs.Keys)
    ensures GetTotalHashPower(rigs, order) == SumOver(rigs.Keys, ActivePower(rigs)) % U64
  {
    SumInOrderIsSumOver(order, rigs.Keys, ActivePower(rigs));
  }

  /** An inactive rig's hash power does not count, whatever it is. */
  lemma InactiveRigIgnored(rigs: map<string, MiningRigNFT>, order: seq<string>, key: string, hashPower: nat)
    requires key in rigs && !rigs[key].isActive
    ensures GetTotalHashPower(rigs[key := rigs[key].(hashPower := hashPower)], order)
         == GetTotalHashPower(rigs, order)
  {
    var rigs' := rigs[key := rigs[key].(hashPower := hashPower)];
    assert forall i :: 0 <= i < |order| ==> ActivePower(rigs')(order[i]) == ActivePower(rigs)(order[i]);
    SumInOrderMonotone(order, ActivePower(rigs'), ActivePower(rigs));
    SumInOrderMonotone(order, ActivePower(rigs), ActivePower(rigs'));
  }

  // ------------------------------------------------------------ mining rewards

  /** The bank calls made so far and, when one failed, that call. */
  datatype Payment = Payment(calls: seq<BankCall>, failed: Option<BankCall>)

  /** One iteration of `distributeMiningRewards`' loop. An inactive rig, or
      one whose share is not positive, gets nothing. Otherwise the share is
      minted, then sent to the owner; an owner that does not parse skips the
      send, and the minted coins stay with the module. */
  function RigPayment(env: Env, rigs: map<string, MiningRigNFT>, key: string, totalReward: nat, totalHashPower: nat)
    : (p: Payment)
    ensures p.failed.Some? ==> env.fails(p.failed.value) && |p.calls| > 0 && p.calls[|p.calls| - 1] == p.failed.value
    ensures forall i :: 0 <= i < |p.calls| && (p.failed.None? || i < |p.calls| - 1) ==> !env.fails(p.calls[i])
  {
    if key !in rigs || !rigs[key].isActive then Payment([], None)
    else
      var rig := rigs[key];
      var reward := env.share(rig.hashPower, totalHashPower, totalReward);
      if reward <= 0 then Payment([], None)
      else
        var mint := Mint(ModuleName, "nu", reward);
        if env.fails(mint) then Payment([mint], Some(mint))
        else match env.parseAddress(rig.owner)
          case None => Payment([mint], None)
          case Some(to) =>
            var send := SendFromModule(ModuleName, to, "nu", reward);
            if env.fails(send) then Payment([mint, send], Some(send))
            else Payment([mint, send], None)
  }

  /** `distributeMiningRewards`: the loop over the rigs in iteration order,
      stopping at the first bank call that fails. */
  function DistributeMiningRewards(env: Env, rigs: map<string, MiningRigNFT>, order: seq<string>,
                                   totalReward: nat, totalHashPower: nat)
    : (p: Payment)
    ensures p.failed.Some? ==> env.fails(p.failed.value) && |p.calls| > 0 && p.calls[|p.calls| - 1] == p.failed.value
    ensures forall i :: 0 <= i < |p.calls| && (p.failed.None? || i < |p.calls| - 1) ==> !env.fails(p.calls[i])
    decreases |order|
  {
    if |order| == 0 then Payment([], None)
    else
      var prev := DistributeMiningRewards(env, rigs, order[..|order| - 1], totalReward, totalHashPower);
      if prev.failed.Some? then prev
      else
        var step := RigPayment(env, rigs, order[|order| - 1], totalReward, totalHashPower);
        Payment(prev.calls + step.calls, step.failed)
  }

  /** The share a rig is owed: positive for an active rig with a positive share, else 0. */
  function Owed(env: Env, rigs: map<string, MiningRigNFT>, totalReward: nat, totalHashPower: nat): string -> int {
    k => if k in rigs && rigs[k].isActive && env.share(rigs[k].hashPower, totalHashPower, totalReward) > 0
         then env.share(rigs[k].hashPower, totalHashPower, totalReward) else 0
  }

  /** The part of it that reaches the owner: all of it when the owner parses. */
  function Delivered(env: Env, rigs: map<string, MiningRigNFT>, totalReward: nat, totalHashPower: nat): string -> int {
    k => if k in rigs && env.parseAddress(rigs[k].owner).Some? then Owed(env, rigs, totalReward, totalHashPower)(k) else 0
  }

  /** Total amount of the `Mint` calls, and of the `SendFromModule` calls. */
  function Minted(calls: seq<BankCall>): int {
    if |calls| == 0 then 0
    else Minted(calls[..|calls| - 1]) + (if calls[|calls| - 1].Mint? then calls[|calls| - 1].amount else 0)
  }

  function Sent(calls: seq<BankCall>): int {
    if |calls| == 0 then 0
    else Sent(calls[..|calls| - 1]) + (if calls[|calls| - 1].SendFromModule? then calls[|calls| - 1].amount else 0)
  }

  lemma {:induction false} TotalsAppend(a: seq<BankCall>, b: seq<BankCall>)
    ensures Minted(a + b) == Minted(a) + Minted(b)
    ensures Sent(a + b) == Sent(a) + Sent(b)
    decreases |b|
  {
    if |b| == 0 {
      assert a + b == a;
    } else {
      var ab := a + b;
      assert ab[..|ab| - 1] == a + b[..|b| - 1];
      assert ab[|ab| - 1] == b[|b| - 1];
      TotalsAppend(a, b[..|b| - 1]);
    }
  }

  /** One rig's payment mints what the rig is owed and sends what reaches its owner. */
  lemma RigPaymentTotals(env: Env, rigs: map<string, MiningRigNFT>, key: string, totalReward: nat, totalHashPower: nat)
    requires RigPayment(env, rigs, key, totalReward, totalHashPower).failed.None?
    ensures var p := RigPayment(env, rigs, key, totalReward, totalHashPower);
      Minted(p.calls) == Owed(env, rigs, totalReward, totalHashPower)(key)
      && Sent(p.calls) == Delivered(env, rigs, totalReward, totalHashPower)(key)
  {
    if key in rigs && rigs[key].isActive {
      var rig := rigs[key];
      var reward := env.share(rig.hashPower, totalHashPower, totalReward);
      if reward > 0 {
        var mint := Mint(ModuleName, "nu", reward);
        assert Minted([mint]) == reward && Sent([mint]) == 0 by { assert [mint][..0] == []; }
        if env.parseAddress(rig.owner).Some? {
          var send := SendFromModule(ModuleName, env.parseAddress(rig.owner).value, "nu", reward);
          assert [mint, send][..1] == [mint];
        }
      }
    }
  }

  /** When no bank call fails, the loop mints exactly the owed shares of all
      rigs and sends exactly the delivered ones: skipped rigs get nothing, and
      the shares of owners that do not parse are minted but never sent. */
  lemma {:induction false} MiningRewardTotals(env: Env, rigs: map<string, MiningRigNFT>, order: seq<string>,
                                              totalReward: nat, totalHashPower: nat)
    requires DistributeMiningRewards(env, rigs, order, totalReward, totalHashPower).failed.None?
    ensures var p := DistributeMiningRewards(env, rigs, order, totalReward, totalHashPower);
      Minted(p.calls) == SumInOrder(order, Owed(env, rigs, totalReward, totalHashPower))
      && Sent(p.calls) == SumInOrder(order, Delivered(env, rigs, totalReward, totalHashPower))
    decreases |order|
  {
    if |order| > 0 {
      var init := order[..|order| - 1];
      var prev := DistributeMiningRewards(env, rigs, init, totalReward, totalHashPower);
      var step := RigPayment(env, rigs, order[|order| - 1], totalReward, totalHashPower);
      MiningRewardTotals(env, rigs, init, totalReward, totalHashPower);
      RigPaymentTotals(env, rigs, order[|order| - 1], totalReward, totalHashPower);
      TotalsAppend(prev.calls, step.calls);
    }
  }

  // ------------------------------------------------------------ staking rewards

  /** The LayerZero message `sendWattReward` sends to `chainId`. */
  datatype WattMessage = WattMessage(chainId: string, recipient: string, amount: nat, blockHeight: int)

  /** The messages one node gets: one per supported chain, if it is online. */
  function NodeMessages(nodes: map<string, StakingNode>, key: string, height: int): (msgs: seq<WattMessage>)
    ensures key !in nodes || !nodes[key].isOnline ==> msgs == []
    ensures key in nodes && nodes[key].isOnline ==>
      |msgs| == |nodes[key].supportedChains|
      && forall i :: 0 <= i < |msgs| ==>
           msgs[i] == WattMessage(nodes[key].supportedChains[i], nodes[key].operator, WattReward, height)
  {
    if key !in nodes || !nodes[key].isOnline then []
    else
      var node := nodes[key];
      seq(|node.supportedChains|, i requires 0 <= i < |node.supportedChains| =>
        WattMessage(node.supportedChains[i], node.operator, WattReward, height))
  }

  /** The number of chains a store key's node is rewarded on. */
  function ChainCount(nodes: map<string, StakingNode>): string -> int {
    k => if k in nodes && nodes[k].isOnline then |nodes[k].supportedChains| else 0
  }

  /** `distributeStakingRewards`: every online node, in iteration order, is
      sent 0.001 WATT on each of its chains. A failed send is only logged, so
      this step always succeeds. */
  function DistributeStakingRewards(nodes: map<string, StakingNode>, order: seq<string>, height: int)
    : (msgs: seq<WattMessage>)
    ensures |msgs| == SumInOrder(order, ChainCount(nodes))
    ensures forall i :: 0 <= i < |msgs| ==> msgs[i].amount == WattReward && msgs[i].blockHeight == height
    decreases |order|
  {
    if |order| == 0 then []
    else DistributeStakingRewards(nodes, order[..|order| - 1], height) + NodeMessages(nodes, order[|order| - 1], height)
  }

  // ------------------------------------------------------------ block rewards

  /** What `DistributeBlockRewards` did: the bank calls, the WATT messages,
      and its result. */
  datatype BlockRewards = BlockRewards(calls: seq<BankCall>, wattMessages: seq<WattMessage>, outcome: Outcome<MiningError>)

  /** `DistributeBlockRewards`: refuse when no active rig has hash power,
      otherwise distribute the halved base reward by hash power, then WATT
      to staking nodes. The base is `Rewards.HalvedBase`, the corrected form
      of the source's unguarded shift. */
  function DistributeBlockRewards(env: Env, st: State, rigOrder: seq<string>, nodeOrder: seq<string>, height: nat)
    : (r: BlockRewards)
    ensures r.outcome == Fail(NoActiveRigs) <==> GetTotalHashPower(st.rigs, rigOrder) == 0
    ensures r.outcome == Fail(NoActiveRigs) ==> r.calls == [] && r.wattMessages == []
    ensures r.outcome.Fail? ==> r.wattMessages == []
    ensures var total := GetTotalHashPower(st.rigs, rigOrder);
      var p := DistributeMiningRewards(env, st.rigs, rigOrder, Rewards.RewardAt(height), total);
      total != 0 ==> r.calls == p.calls && (r.outcome.Pass? <==> p.failed.None?)
    ensures r.outcome.Pass? ==> r.wattMessages == DistributeStakingRewards(st.nodes, nodeOrder, height)
  {
    var total := GetTotalHashPower(st.rigs, rigOrder);
    if total == 0 then BlockRewards([], [], Fail(NoActiveRigs))
    else
      var base := Rewards.HalvedBase(height);
      var p := DistributeMiningRewards(env, st.rigs, rigOrder, base, total);
      match p.failed
      case Some(call) => BlockRewards(p.calls, [], Fail(MiningRewardsFailed(call)))
      case None => BlockRewards(p.calls, DistributeStakingRewards(st.nodes, nodeOrder, height), Pass)
  }
}
