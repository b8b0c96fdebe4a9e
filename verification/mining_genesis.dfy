/** Genesis state of nuChain's mining module and its `Validate`. */
module MiningGenesis {
  import opened Wrappers
  import opened MiningTypes
  import opened MiningParams
  import MiningKeeper

  datatype GenesisState = GenesisState(
    params: Params,
    miningRigs: seq<MiningRigNFT>,
    poolOperators: seq<PoolOperator>,
    stakingNodes: seq<StakingNode>,
    lastBlockHeight: int)

  datatype GenesisError =
    | ZeroRigTokenId
    | EmptyRigOwner
    | EmptyRigChainId
    | EmptyPoolAddress
    | EmptyPoolChainId
    | EmptyNodeOperator
    | InsufficientNodeStake(operator: string, stakedNu: nat)
    | InvalidParams(e: ParamError)

  function DefaultGenesis(): (gs: GenesisState)
    ensures gs.params == DefaultParams()
    ensures gs.miningRigs == [] && gs.poolOperators == [] && gs.stakingNodes == []
    ensures gs.lastBlockHeight == 0
  {
    GenesisState(DefaultParams(), [], [], [], 0)
  }

  function RigViolations(r: MiningRigNFT): seq<GenesisError> {
    Check(r.tokenId != 0, ZeroRigTokenId)
    + Check(r.owner != "", EmptyRigOwner)
    + Check(r.chainId != "", EmptyRigChainId)
  }

  function PoolViolations(p: PoolOperator): seq<GenesisError> {
    Check(p.address != "", EmptyPoolAddress)
    + Check(p.chainId != "", EmptyPoolChainId)
  }

  /** A node needs an operator and the 21 NU the keeper demands. */
  function NodeViolations(n: StakingNode): seq<GenesisError> {
    Check(n.operator != "", EmptyNodeOperator)
    + Check(n.stakedNu >= MiningKeeper.RequiredStake, InsufficientNodeStake(n.operator, n.stakedNu))
  }

  function AllRigViolations(rs: seq<MiningRigNFT>): seq<GenesisError> {
    if |rs| == 0 then [] else RigViolations(rs[0]) + AllRigViolations(rs[1..])
  }

  function AllPoolViolations(ps: seq<PoolOperator>): seq<GenesisError> {
    if |ps| == 0 then [] else PoolViolations(ps[0]) + AllPoolViolations(ps[1..])
  }

  function AllNodeViolations(ns: seq<StakingNode>): seq<GenesisError> {
    if |ns| == 0 then [] else NodeViolations(ns[0]) + AllNodeViolations(ns[1..])
  }

  /** Every check `Validate` makes, in order: rigs, pools, nodes, then params. */
  function Violations(gs: GenesisState): seq<GenesisError> {
    AllRigViolations(gs.miningRigs)
    + AllPoolViolations(gs.poolOperators)
    + AllNodeViolations(gs.stakingNodes)
    + (match MiningParams.Validate(gs.params)
       case Pass => []
       case Fail(e) => [InvalidParams(e)])
  }

  /** The loop over rigs: the first missing field of the first bad rig. */
  function ValidateRigs(rs: seq<MiningRigNFT>): (r: Outcome<GenesisError>)
    ensures r == FirstFailure(AllRigViolations(rs))
  {
    if |rs| == 0 then Pass
    else if rs[0].tokenId == 0 then Fail(ZeroRigTokenId)
    else if rs[0].owner == "" then Fail(EmptyRigOwner)
    else if rs[0].chainId == "" then Fail(EmptyRigChainId)
    else ValidateRigs(rs[1..])
  }

  function ValidatePools(ps: seq<PoolOperator>): (r: Outcome<GenesisError>)
    ensures r == FirstFailure(AllPoolViolations(ps))
  {
    if |ps| == 0 then Pass
    else if ps[0].address == "" then Fail(EmptyPoolAddress)
    else if ps[0].chainId == "" then Fail(EmptyPoolChainId)
    else ValidatePools(ps[1..])
  }

  function ValidateNodes(ns: seq<StakingNode>): (r: Outcome<GenesisError>)
    ensures r == FirstFailure(AllNodeViolations(ns))
  {
    if |ns| == 0 then Pass
    else if ns[0].operator == "" then Fail(EmptyNodeOperator)
    else if ns[0].stakedNu < MiningKeeper.RequiredStake then Fail(InsufficientNodeStake(ns[0].operator, ns[0].stakedNu))
    else ValidateNodes(ns[1..])
  }

  /** `GenesisState.Validate`. */
  function Validate(gs: GenesisState): (r: Outcome<GenesisError>)
    ensures r == FirstFailure(Violations(gs))
    ensures r.Pass? ==> MiningParams.Validate(gs.params).Pass?
    ensures r.Pass? ==> forall n :: n in gs.stakingNodes ==> n.operator != "" && n.stakedNu >= MiningKeeper.RequiredStake
  {
    AllNodesPass(gs.stakingNodes);
    match ValidateRigs(gs.miningRigs)
    case Fail(e) => Fail(e)
    case Pass =>
      match ValidatePools(gs.poolOperators)
      case Fail(e) => Fail(e)
      case Pass =>
        match ValidateNodes(gs.stakingNodes)
        case Fail(e) => Fail(e)
        case Pass =>
          match MiningParams.Validate(gs.params)
          case Fail(e) => Fail(InvalidParams(e))
          case Pass => Pass
  }

  lemma {:induction false} AllNodesPass(ns: seq<StakingNode>)
    ensures AllNodeViolations(ns) == [] ==>
      forall n :: n in ns ==> n.operator != "" && n.stakedNu >= MiningKeeper.RequiredStake
  {
    if |ns| > 0 {
      AllNodesPass(ns[1..]);
      assert forall n :: n in ns ==> n == ns[0] || n in ns[1..];
    }
  }

  lemma DefaultGenesisValid()
    ensures Validate(DefaultGenesis()).Pass?
  {
    DefaultParamsValid();
  }

  /** A node `CreateStakingNode` stored for a non-empty operator passes the
      genesis node check, so exported nodes can be imported again. */
  lemma CreatedNodePassesGenesis(st: MiningKeeper.State, operator: string, moniker: string,
                                 supportedChains: seq<string>, height: int, staked: nat)
    requires operator != ""
    requires MiningKeeper.CreateStakingNode(st, operator, moniker, supportedChains, height, staked).Ok?
    ensures var st' := MiningKeeper.CreateStakingNode(st, operator, moniker, supportedChains, height, staked).value;
      NodeViolations(st'.nodes[MiningKeeper.NodeKey(operator)]) == []
  {
  }
}
