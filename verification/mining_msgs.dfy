/** The three messages of nuChain's mining module and their stateless checks
    (`ValidateBasic`), routing and signers. Address decoding (bech32) is the
    `parseAddress` parameter; sign bytes are JSON and are left out. The
    `NewMsg*` constructors are the datatype constructors. */
module MiningMsgs {
  import opened Wrappers
  import opened Bytes
  import opened Chain

  const RouterKey: string := "mining"
  const TypeMsgCreateStakingNode: string := "create_staking_node"
  const TypeMsgProcessCrossChainMessage: string := "process_cross_chain_message"
  const TypeMsgUpdateMiningRig: string := "update_mining_rig"

  datatype MsgCreateStakingNode = MsgCreateStakingNode(
    creator: string,
    moniker: string,
    supportedChains: seq<string>)

  datatype MsgProcessCrossChainMessage = MsgProcessCrossChainMessage(
    creator: string,
    sourceChain: string,
    messageType: string,
    payload: seq<Byte>,
    nonce: nat)

  datatype MsgUpdateMiningRig = MsgUpdateMiningRig(
    creator: string,
    tokenId: nat,
    chainId: string,
    contractAddress: string,
    hashPower: nat,
    wattConsumption: nat,
    isActive: bool)

  datatype Msg =
    | CreateStakingNode(createStakingNode: MsgCreateStakingNode)
    | ProcessCrossChainMessage(processCrossChainMessage: MsgProcessCrossChainMessage)
    | UpdateMiningRig(updateMiningRig: MsgUpdateMiningRig)

  /** Why `ValidateBasic` refused a message. `InvalidCreatorAddress` is
      reported as `ErrInvalidAddress`, every other reason as `ErrInvalidRequest`. */
  datatype ValidationError =
    | InvalidCreatorAddress
    | EmptyMoniker
    | EmptySupportedChains
    | EmptySourceChain
    | EmptyMessageType
    | ZeroTokenId
    | EmptyChainId

  function Creator(msg: Msg): string {
    match msg
    case CreateStakingNode(m) => m.creator
    case ProcessCrossChainMessage(m) => m.creator
    case UpdateMiningRig(m) => m.creator
  }

  /** `Route` is the module's router key for every message. */
  function Route(msg: Msg): (route: string)
    ensures route == RouterKey
  {
    RouterKey
  }

  /** `Type`: each kind of message has its own type string. */
  function Type(msg: Msg): (t: string)
    ensures msg.CreateStakingNode? <==> t == TypeMsgCreateStakingNode
    ensures msg.ProcessCrossChainMessage? <==> t == TypeMsgProcessCrossChainMessage
    ensures msg.UpdateMiningRig? <==> t == TypeMsgUpdateMiningRig
  {
    match msg
    case CreateStakingNode(_) => TypeMsgCreateStakingNode
    case ProcessCrossChainMessage(_) => TypeMsgProcessCrossChainMessage
    case UpdateMiningRig(_) => TypeMsgUpdateMiningRig
  }

  /** The type string tells the three kinds of message apart. */
  lemma TypeDistinguishesKinds(a: Msg, b: Msg)
    requires Type(a) == Type(b)
    ensures a.CreateStakingNode? <==> b.CreateStakingNode?
    ensures a.ProcessCrossChainMessage? <==> b.ProcessCrossChainMessage?
    ensures a.UpdateMiningRig? <==> b.UpdateMiningRig?
  {
  }

  function CreateStakingNodeViolations(m: MsgCreateStakingNode, parseAddress: string -> Option<Address>)
    : seq<ValidationError>
  {
    Check(parseAddress(m.creator).Some?, InvalidCreatorAddress)
    + Check(m.moniker != "", EmptyMoniker)
    + Check(|m.supportedChains| > 0, EmptySupportedChains)
  }

  function ProcessCrossChainMessageViolations(m: MsgProcessCrossChainMessage, parseAddress: string -> Option<Address>)
    : seq<ValidationError>
  {
    Check(parseAddress(m.creator).Some?, InvalidCreatorAddress)
    + Check(m.sourceChain != "", EmptySourceChain)
    + Check(m.messageType != "", EmptyMessageType)
  }

  function UpdateMiningRigViolations(m: MsgUpdateMiningRig, parseAddress: string -> Option<Address>)
    : seq<ValidationError>
  {
    Check(parseAddress(m.creator).Some?, InvalidCreatorAddress)
    + Check(m.tokenId != 0, ZeroTokenId)
    + Check(m.chainId != "", EmptyChainId)
  }

  /** `MsgCreateStakingNode.ValidateBasic`. */
  function ValidateCreateStakingNode(m: MsgCreateStakingNode, parseAddress: string -> Option<Address>)
    : (r: Outcome<ValidationError>)
    ensures r == FirstFailure(CreateStakingNodeViolations(m, parseAddress))
    ensures r.Pass? <==> parseAddress(m.creator).Some? && m.moniker != "" && |m.supportedChains| > 0
  {
    if parseAddress(m.creator).None? then Fail(InvalidCreatorAddress)
    else if m.moniker == "" then Fail(EmptyMoniker)
    else if |m.supportedChains| == 0 then Fail(EmptySupportedChains)
    else Pass
  }

  /** `MsgProcessCrossChainMessage.ValidateBasic`; payload and nonce are not checked. */
  function ValidateProcessCrossChainMessage(m: MsgProcessCrossChainMessage, parseAddress: string -> Option<Address>)
    : (r: Outcome<ValidationError>)
    ensures r == FirstFailure(ProcessCrossChainMessageViolations(m, parseAddress))
    ensures r.Pass? <==> parseAddress(m.creator).Some? && m.sourceChain != "" && m.messageType != ""
  {
    if parseAddress(m.creator).None? then Fail(InvalidCreatorAddress)
    else if m.sourceChain == "" then Fail(EmptySourceChain)
    else if m.messageType == "" then Fail(EmptyMessageType)
    else Pass
  }

  /** `MsgUpdateMiningRig.ValidateBasic`; hash power and watts are not checked. */
  function ValidateUpdateMiningRig(m: MsgUpdateMiningRig, parseAddress: string -> Option<Address>)
    : (r: Outcome<ValidationError>)
    ensures r == FirstFailure(UpdateMiningRigViolations(m, parseAddress))
    ensures r.Pass? <==> parseAddress(m.creator).Some? && m.tokenId != 0 && m.chainId != ""
  {
    if parseAddress(m.creator).None? then Fail(InvalidCreatorAddress)
    else if m.tokenId == 0 then Fail(ZeroTokenId)
    else if m.chainId == "" then Fail(EmptyChainId)
    else Pass
  }

  function ValidateBasic(msg: Msg, parseAddress: string -> Option<Address>): (r: Outcome<ValidationError>)
    ensures parseAddress(Creator(msg)).None? ==> r == Fail(InvalidCreatorAddress)
  {
    match msg
    case CreateStakingNode(m) => ValidateCreateStakingNode(m, parseAddress)
    case ProcessCrossChainMessage(m) => ValidateProcessCrossChainMessage(m, parseAddress)
    case UpdateMiningRig(m) => ValidateUpdateMiningRig(m, parseAddress)
  }

  /** A rig update with zero hash power passes `ValidateBasic`; only the
      keeper refuses it. */
  lemma ZeroHashPowerPassesValidateBasic(m: MsgUpdateMiningRig, parseAddress: string -> Option<Address>)
    requires parseAddress(m.creator).Some? && m.tokenId != 0 && m.chainId != ""
    ensures ValidateUpdateMiningRig(m.(hashPower := 0), parseAddress).Pass?
  {
  }

  /** `GetSigners`: the creator's decoded address; None is the panic on an
      undecodable creator. */
  function GetSigners(msg: Msg, parseAddress: string -> Option<Address>): (r: Option<seq<Address>>)
    ensures r.None? <==> parseAddress(Creator(msg)).None?
    ensures r.Some? ==> r.value == [parseAddress(Creator(msg)).value]
  {
    match parseAddress(Creator(msg))
    case None => None
    case Some(a) => Some([a])
  }

  /** A message that passed `ValidateBasic` never makes `GetSigners` panic. */
  lemma ValidatedMsgHasSigner(msg: Msg, parseAddress: string -> Option<Address>)
    requires ValidateBasic(msg, parseAddress).Pass?
    ensures GetSigners(msg, parseAddress).Some? && |GetSigners(msg, parseAddress).value| == 1
  {
  }
}
