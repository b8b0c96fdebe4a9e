/** nuChain's mining message server: each handler's own pre-checks, the
    keeper call it makes, and the event emitted on success. Keeper errors
    are wrapped in `ErrInvalidRequest`. */
module MiningMsgServer {
  import opened Wrappers
  import opened Bytes
  import opened Chain
  import opened MiningTypes
  import opened MiningKeeper
  import MiningMsgs
  import opened MiningEvents

  datatype ServerError =
    | InvalidAddress(reason: string)
    | InvalidRequest(reason: string)
    /** `sdkerrors.Wrap(sdkerrors.ErrInvalidRequest, err.Error())`. */
    | KeeperFailed(cause: MiningError)

  /** `CreateStakingNode`. `formatAddress` is `sdk.AccAddress.String()`,
      the text the keeper stores the operator under. The stake is the
      keeper's placeholder. */
  function CreateStakingNodeHandler(st: State, m: MiningMsgs.MsgCreateStakingNode, ctx: BlockCtx,
                                    parseAddress: string -> Option<Address>, formatAddress: Address -> string)
    : (r: Result<(State, Event), ServerError>)
    ensures m.creator == "" ==> r == Err(InvalidAddress("creator cannot be empty"))
    ensures m.creator != "" && m.moniker == "" ==> r == Err(InvalidRequest("moniker cannot be empty"))
    ensures m.creator != "" && m.moniker != "" && |m.supportedChains| == 0 ==>
      r == Err(InvalidRequest("supported chains cannot be empty"))
    ensures r.Ok? <==>
      m.creator != "" && m.moniker != "" && |m.supportedChains| > 0 && parseAddress(m.creator).Some?
    ensures r.Ok? ==>
      var operator := formatAddress(parseAddress(m.creator).value);
      r.value.0 == CreateStakingNode(st, operator, m.moniker, m.supportedChains, ctx.height,
                                     GetStakedAmount(operator)).value
      && r.value.0.nodes[NodeKey(operator)].votingPower == 21
      && r.value.1 == CreateStakingNodeEvent(m.creator, m.moniker, m.supportedChains)
  {
    if m.creator == "" then Err(InvalidAddress("creator cannot be empty"))
    else if m.moniker == "" then Err(InvalidRequest("moniker cannot be empty"))
    else if |m.supportedChains| == 0 then Err(InvalidRequest("supported chains cannot be empty"))
    else match parseAddress(m.creator)
      case None => Err(InvalidAddress("invalid creator address"))
      case Some(creator) =>
        var operator := formatAddress(creator);
        PlaceholderStakeAccepted(st, operator, m.moniker, m.supportedChains, ctx.height);
        match CreateStakingNode(st, operator, m.moniker, m.supportedChains, ctx.height, GetStakedAmount(operator))
        case Err(e) => Err(KeeperFailed(e))
        case Ok(st') => Ok((st', CreateStakingNodeEvent(m.creator, m.moniker, m.supportedChains)))
  }

  /** Every message `ValidateBasic` accepts is accepted by the handler, given
      only that the empty string is not an address. */
  lemma ValidatedStakingNodeCreated(st: State, m: MiningMsgs.MsgCreateStakingNode, ctx: BlockCtx,
                                    parseAddress: string -> Option<Address>, formatAddress: Address -> string)
    requires parseAddress("").None?
    requires MiningMsgs.ValidateCreateStakingNode(m, parseAddress).Pass?
    ensures CreateStakingNodeHandler(st, m, ctx, parseAddress, formatAddress).Ok?
  {
  }

  /** The relayed message `ProcessCrossChainMessage` hands to the keeper:
      the submitter is the sender and the block time the timestamp. */
  function CrossChainMessageOf(m: MiningMsgs.MsgProcessCrossChainMessage, ctx: BlockCtx): (c: CrossChainMessage)
    ensures c.sourceChain == m.sourceChain && c.messageType == m.messageType && c.payload == m.payload
    ensures c.sender == m.creator && c.nonce == m.nonce && c.timestamp == ctx.timeUnix
  {
    CrossChainMessage(m.sourceChain, m.messageType, m.payload, m.creator, m.nonce, ctx.timeUnix)
  }

  /** `ProcessCrossChainMessage`. */
  function ProcessCrossChainMessageHandler(codec: Codec, onReward: RewardDistributionHandler, st: State,
                                           m: MiningMsgs.MsgProcessCrossChainMessage, ctx: BlockCtx)
    : (r: Result<(State, Event), ServerError>)
    ensures m.creator == "" ==> r == Err(InvalidAddress("creator cannot be empty"))
    ensures m.creator != "" && m.sourceChain == "" ==> r == Err(InvalidRequest("source chain cannot be empty"))
    ensures m.creator != "" && m.sourceChain != "" && m.messageType == "" ==>
      r == Err(InvalidRequest("message type cannot be empty"))
    ensures var k := ProcessCrossChainMessage(codec, onReward, st, CrossChainMessageOf(m, ctx));
      (r.Ok? <==> m.creator != "" && m.sourceChain != "" && m.messageType != "" && k.Ok?)
      && (r.Ok? ==> r.value.0 == k.value)
      && (r.Err? && r.error.KeeperFailed? ==> k == Err(r.error.cause))
    ensures r.Ok? ==> r.value.1 == ProcessCrossChainMessageEvent(m.sourceChain, m.messageType, m.nonce)
  {
    if m.creator == "" then Err(InvalidAddress("creator cannot be empty"))
    else if m.sourceChain == "" then Err(InvalidRequest("source chain cannot be empty"))
    else if m.messageType == "" then Err(InvalidRequest("message type cannot be empty"))
    else match ProcessCrossChainMessage(codec, onReward, st, CrossChainMessageOf(m, ctx))
      case Err(e) => Err(KeeperFailed(e))
      case Ok(st') => Ok((st', ProcessCrossChainMessageEvent(m.sourceChain, m.messageType, m.nonce)))
  }

  /** Any account may relay a message: a registration submitted by one
      creator has the same effect as one submitted by another. */
  lemma AnyCreatorMayRelay(codec: Codec, onReward: RewardDistributionHandler, st: State,
                           m: MiningMsgs.MsgProcessCrossChainMessage, ctx: BlockCtx, other: string)
    requires m.messageType != "reward_distribution"
    requires m.creator != "" && other != ""
    ensures var r1 := ProcessCrossChainMessageHandler(codec, onReward, st, m, ctx);
      var r2 := ProcessCrossChainMessageHandler(codec, onReward, st, m.(creator := other), ctx);
      r1.Ok? == r2.Ok? && (r1.Ok? ==> r1.value.0 == r2.value.0)
  {
    SenderIgnored(codec, onReward, st, CrossChainMessageOf(m, ctx), other, m.nonce, ctx.timeUnix);
    assert CrossChainMessageOf(m.(creator := other), ctx)
        == CrossChainMessageOf(m, ctx).(sender := other, nonce := m.nonce, timestamp := ctx.timeUnix);
  }

  /** The rig `UpdateMiningRig` builds: the creator is the owner and the
      block time the update time; the other fields are the message's. */
  function RigOf(m: MiningMsgs.MsgUpdateMiningRig, ctx: BlockCtx): (rig: MiningRigNFT)
    ensures rig.owner == m.creator && rig.lastUpdated == ctx.timeUnix
    ensures rig.tokenId == m.tokenId && rig.chainId == m.chainId && rig.contractAddress == m.contractAddress
    ensures rig.hashPower == m.hashPower && rig.wattConsumption == m.wattConsumption && rig.isActive == m.isActive
  {
    MiningRigNFT(m.tokenId, m.creator, m.chainId, m.contractAddress, m.hashPower, m.wattConsumption,
                 m.isActive, ctx.timeUnix)
  }

  /** The relayed message wrapping that rig. The payload is the codec's
      binary encoding, `protoEncode`, of the rig. */
  function RigUpdateMessage(m: MiningMsgs.MsgUpdateMiningRig, ctx: BlockCtx, protoEncode: MiningRigNFT -> seq<Byte>)
    : (c: CrossChainMessage)
    ensures c.sourceChain == m.chainId && c.messageType == "mining_rig_update"
    ensures c.payload == protoEncode(RigOf(m, ctx))
    ensures c.sender == m.creator && c.nonce == 0 && c.timestamp == ctx.timeUnix
  {
    CrossChainMessage(m.chainId, "mining_rig_update", protoEncode(RigOf(m, ctx)), m.creator, 0, ctx.timeUnix)
  }

  /** `UpdateMiningRig`. */
  function UpdateMiningRigHandler(codec: Codec, protoEncode: MiningRigNFT -> seq<Byte>,
                                  onReward: RewardDistributionHandler, st: State, m: MiningMsgs.MsgUpdateMiningRig,
                                  ctx: BlockCtx)
    : (r: Result<(State, Event), ServerError>)
    ensures m.creator == "" ==> r == Err(InvalidAddress("creator cannot be empty"))
    ensures m.creator != "" && m.tokenId == 0 ==> r == Err(InvalidRequest("token ID cannot be zero"))
    ensures m.creator != "" && m.tokenId != 0 && m.chainId == "" ==>
      r == Err(InvalidRequest("chain ID cannot be empty"))
    ensures var k := ProcessMiningRigUpdate(codec, st, RigUpdateMessage(m, ctx, protoEncode));
      (r.Ok? <==> m.creator != "" && m.tokenId != 0 && m.chainId != "" && k.Ok?)
      && (r.Ok? ==> r.value.0 == k.value)
      && (r.Err? && r.error.KeeperFailed? ==> k == Err(r.error.cause))
    ensures r.Ok? ==> r.value.1 == UpdateMiningRigEvent(m.tokenId, m.chainId, m.hashPower, m.wattConsumption)
  {
    if m.creator == "" then Err(InvalidAddress("creator cannot be empty"))
    else if m.tokenId == 0 then Err(InvalidRequest("token ID cannot be zero"))
    else if m.chainId == "" then Err(InvalidRequest("chain ID cannot be empty"))
    else match ProcessCrossChainMessage(codec, onReward, st, RigUpdateMessage(m, ctx, protoEncode))
      case Err(e) => Err(KeeperFailed(e))
      case Ok(st') => Ok((st', UpdateMiningRigEvent(m.tokenId, m.chainId, m.hashPower, m.wattConsumption)))
  }

  /** The handler encodes the rig in binary but the keeper decodes JSON:
      the update stores the rig, owned by the creator, under its token and
      chain only if the JSON decoder reads the binary encoding back as that
      rig. If it cannot read it at all, every well-formed update fails. */
  lemma UpdateMiningRigNeedsCodecAgreement(codec: Codec, protoEncode: MiningRigNFT -> seq<Byte>,
                                           onReward: RewardDistributionHandler, st: State,
                                           m: MiningMsgs.MsgUpdateMiningRig, ctx: BlockCtx)
    requires m.creator != "" && m.tokenId != 0 && m.chainId != ""
    ensures var rig := RigOf(m, ctx);
      var r := UpdateMiningRigHandler(codec, protoEncode, onReward, st, m, ctx);
      (codec.decodeRig(protoEncode(rig)) == Some(rig) && m.hashPower != 0 ==>
         r.Ok? && Overwrites(st.rigs, r.value.0.rigs, RigKey(m.tokenId, m.chainId), rig))
      && (codec.decodeRig(protoEncode(rig)).None? ==> r == Err(KeeperFailed(RigUnmarshalFailed)))
  {
  }
}
