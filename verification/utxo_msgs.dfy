/** The three messages of the Z-chain UTXO module and their stateless checks
    (`ValidateBasic`), routing and signers. Address decoding (bech32) is the
    `parseAddress` parameter; sign bytes are JSON and are left out. */
module UtxoMsgs {
  import opened Wrappers
  import opened Bytes
  import opened Chain
  import opened UtxoTypes

  const RouterKey: string := "utxo"
  const TypeMsgSendUtxo: string := "send_utxo"
  const TypeMsgSendShielded: string := "send_shielded"
  const TypeMsgSubmitMiningProof: string := "submit_mining_proof"

  datatype MsgSendUtxo = MsgSendUtxo(
    creator: string,
    inputs: seq<TxInput>,
    outputs: seq<TxOutput>,
    fee: string,
    lockTime: nat,
    zkProof: seq<Byte>)

  datatype MsgSendShielded = MsgSendShielded(
    creator: string,
    nullifiers: seq<seq<Byte>>,
    commitments: seq<seq<Byte>>,
    zkProof: seq<Byte>,
    encryptedMemo: seq<Byte>,
    fee: string)

  datatype MsgSubmitMiningProof = MsgSubmitMiningProof(
    creator: string,
    zkProof: seq<Byte>,
    publicInputs: seq<Byte>,
    nonce: nat,
    difficulty: nat,
    hardwareId: string)

  datatype Msg =
    | SendUtxo(sendUtxo: MsgSendUtxo)
    | SendShielded(sendShielded: MsgSendShielded)
    | SubmitMiningProof(submitMiningProof: MsgSubmitMiningProof)

  /** Why `ValidateBasic` refused a message. `InvalidCreatorAddress` is
      reported as `ErrInvalidAddress`, every other reason as `ErrInvalidRequest`. */
  datatype ValidationError =
    | InvalidCreatorAddress
    | MissingInputs
    | MissingOutputs
    | EmptyFee
    | EmptyZkProof
    | MissingNullifiers
    | EmptyHardwareId
    | ZeroDifficulty

  function Creator(msg: Msg): string {
    match msg
    case SendUtxo(m) => m.creator
    case SendShielded(m) => m.creator
    case SubmitMiningProof(m) => m.creator
  }

  /** `Route` is the module's router key for every message. */
  function Route(msg: Msg): (route: string)
    ensures route == RouterKey
  {
    RouterKey
  }

  /** `Type`: each kind of message has its own type string. */
  function Type(msg: Msg): (t: string)
    ensures msg.SendUtxo? <==> t == TypeMsgSendUtxo
    ensures msg.SendShielded? <==> t == TypeMsgSendShielded
    ensures msg.SubmitMiningProof? <==> t == TypeMsgSubmitMiningProof
  {
    match msg
    case SendUtxo(_) => TypeMsgSendUtxo
    case SendShielded(_) => TypeMsgSendShielded
    case SubmitMiningProof(_) => TypeMsgSubmitMiningProof
  }

  /** The type string tells the three kinds of message apart. */
  lemma TypeDistinguishesKinds(a: Msg, b: Msg)
    requires Type(a) == Type(b)
    ensures a.SendUtxo? <==> b.SendUtxo?
    ensures a.SendShielded? <==> b.SendShielded?
    ensures a.SubmitMiningProof? <==> b.SubmitMiningProof?
  {
  }

  function SendUtxoViolations(m: MsgSendUtxo, parseAddress: string -> Option<Address>): seq<ValidationError> {
    Check(parseAddress(m.creator).Some?, InvalidCreatorAddress)
    + Check(|m.inputs| > 0, MissingInputs)
    + Check(|m.outputs| > 0, MissingOutputs)
    + Check(m.fee != "", EmptyFee)
  }

  function SendShieldedViolations(m: MsgSendShielded, parseAddress: string -> Option<Address>): seq<ValidationError> {
    Check(parseAddress(m.creator).Some?, InvalidCreatorAddress)
    + Check(|m.zkProof| > 0, EmptyZkProof)
    + Check(|m.nullifiers| > 0, MissingNullifiers)
    + Check(m.fee != "", EmptyFee)
  }

  function SubmitMiningProofViolations(m: MsgSubmitMiningProof, parseAddress: string -> Option<Address>)
    : seq<ValidationError>
  {
    Check(parseAddress(m.creator).Some?, InvalidCreatorAddress)
    + Check(|m.zkProof| > 0, EmptyZkProof)
    + Check(m.hardwareId != "", EmptyHardwareId)
    + Check(m.difficulty != 0, ZeroDifficulty)
  }

  /** `MsgSendUTXO.ValidateBasic`. */
  function ValidateSendUtxo(m: MsgSendUtxo, parseAddress: string -> Option<Address>): (r: Outcome<ValidationError>)
    ensures r == FirstFailure(SendUtxoViolations(m, parseAddress))
    ensures r.Pass? <==> parseAddress(m.creator).Some? && |m.inputs| > 0 && |m.outputs| > 0 && m.fee != ""
  {
    if parseAddress(m.creator).None? then Fail(InvalidCreatorAddress)
    else if |m.inputs| == 0 then Fail(MissingInputs)
    else if |m.outputs| == 0 then Fail(MissingOutputs)
    else if m.fee == "" then Fail(EmptyFee)
    else Pass
  }

  /** `MsgSendShielded.ValidateBasic`; commitments may be empty. */
  function ValidateSendShielded(m: MsgSendShielded, parseAddress: string -> Option<Address>)
    : (r: Outcome<ValidationError>)
    ensures r == FirstFailure(SendShieldedViolations(m, parseAddress))
    ensures r.Pass? <==> parseAddress(m.creator).Some? && |m.zkProof| > 0 && |m.nullifiers| > 0 && m.fee != ""
  {
    if parseAddress(m.creator).None? then Fail(InvalidCreatorAddress)
    else if |m.zkProof| == 0 then Fail(EmptyZkProof)
    else if |m.nullifiers| == 0 then Fail(MissingNullifiers)
    else if m.fee == "" then Fail(EmptyFee)
    else Pass
  }

  /** `MsgSubmitMiningProof.ValidateBasic`. */
  function ValidateSubmitMiningProof(m: MsgSubmitMiningProof, parseAddress: string -> Option<Address>)
    : (r: Outcome<ValidationError>)
    ensures r == FirstFailure(SubmitMiningProofViolations(m, parseAddress))
    ensures r.Pass? <==> parseAddress(m.creator).Some? && |m.zkProof| > 0 && m.hardwareId != "" && m.difficulty > 0
  {
    if parseAddress(m.creator).None? then Fail(InvalidCreatorAddress)
    else if |m.zkProof| == 0 then Fail(EmptyZkProof)
    else if m.hardwareId == "" then Fail(EmptyHardwareId)
    else if m.difficulty == 0 then Fail(ZeroDifficulty)
    else Pass
  }

  function ValidateBasic(msg: Msg, parseAddress: string -> Option<Address>): (r: Outcome<ValidationError>)
    ensures parseAddress(Creator(msg)).None? ==> r == Fail(InvalidCreatorAddress)
  {
    match msg
    case SendUtxo(m) => ValidateSendUtxo(m, parseAddress)
    case SendShielded(m) => ValidateSendShielded(m, parseAddress)
    case SubmitMiningProof(m) => ValidateSubmitMiningProof(m, parseAddress)
  }

  /** `GetSigners`: the creator's decoded address; None is the panic on an
      undecodable creator. */
  function GetSigners(msg: Msg, parseAddress: string -> Option<Address>): (r: Option<seq<Address>>)
    ensures r.None? <==> parseAddress(Creator(msg)).None?
    ensures r.Some? ==> r.value == [parseAddress(Creator(msg)).value]
  {
    match parseAddress(Creator(msg))
    case None => None
    case Some(a) => Some([a])
  }

  /** A message that passed `ValidateBasic` never makes `GetSigners` panic. */
  lemma ValidatedMsgHasSigner(msg: Msg, parseAddress: string -> Option<Address>)
    requires ValidateBasic(msg, parseAddress).Pass?
    ensures GetSigners(msg, parseAddress).Some? && |GetSigners(msg, parseAddress).value| == 1
  {
  }
}
