/** The Z-chain UTXO message server: the handlers' own pre-checks, the
    transaction hashes they derive, the keeper call, and the event emitted
    on success. Keeper errors are wrapped in `ErrInvalidRequest`. */
module UtxoMsgServer {
  import opened Wrappers
  import opened Bytes
  import opened Decimal
  import opened Chain
  import opened UtxoTypes
  import opened UtxoKeeper
  import opened UtxoMsgs
  import opened UtxoEvents
  import DifficultyStore

  datatype ServerError =
    | InvalidAddress(reason: string)
    | InvalidRequest(reason: string)
    /** `sdkerrors.Wrap(sdkerrors.ErrInvalidRequest, err.Error())`. */
    | KeeperFailed(cause: KeeperError)

  // ------------------------------------------------------------ hashes

  function InputsText(inputs: seq<TxInput>): string {
    if |inputs| == 0 then ""
    else inputs[0].prevTxHash + NatToDecimal(inputs[0].prevOutputIndex) + InputsText(inputs[1..])
  }

  function OutputsText(outputs: seq<TxOutput>): string {
    if |outputs| == 0 then "" else outputs[0].address + outputs[0].amount + OutputsText(outputs[1..])
  }

  /** The text `generateTxHash` hashes: creator, each input's hash and index,
      each output's address and amount, the fee and the lock time, with no
      separators. */
  function TxHashPreimage(m: MsgSendUtxo): (p: string)
    ensures |p| == |m.creator| + |InputsText(m.inputs)| + |OutputsText(m.outputs)| + |m.fee| + |NatToDecimal(m.lockTime)|
    ensures p[..|m.creator|] == m.creator
    ensures p[|p| - |NatToDecimal(m.lockTime)|..] == NatToDecimal(m.lockTime)
  {
    m.creator + InputsText(m.inputs) + OutputsText(m.outputs) + m.fee + NatToDecimal(m.lockTime)
  }

  /** `generateTxHash`: lower-case hex of the SHA-256 of the preimage. */
  function GenerateTxHash(c: Crypto, m: MsgSendUtxo): (h: string)
    ensures |h| == 64
    ensures HexDecode(h) == Some(c.sha256Text(TxHashPreimage(m)))
  {
    HexRoundTrip(c.sha256Text(TxHashPreimage(m)));
    HexEncode(c.sha256Text(TxHashPreimage(m)))
  }

  function HexConcat(parts: seq<seq<Byte>>): string {
    if |parts| == 0 then "" else HexEncode(parts[0]) + HexConcat(parts[1..])
  }

  /** The text `generateShieldedTxHash` hashes: creator, fee, then the hex of
      every nullifier and every commitment. */
  function ShieldedTxHashPreimage(m: MsgSendShielded): string {
    m.creator + m.fee + HexConcat(m.nullifiers) + HexConcat(m.commitments)
  }

  function GenerateShieldedTxHash(c: Crypto, m: MsgSendShielded): (h: string)
    ensures |h| == 64
    ensures HexDecode(h) == Some(c.sha256Text(ShieldedTxHashPreimage(m)))
  {
    HexRoundTrip(c.sha256Text(ShieldedTxHashPreimage(m)));
    HexEncode(c.sha256Text(ShieldedTxHashPreimage(m)))
  }

  /** Without separators the preimage does not determine the message: moving
      a character from the creator into the first input's hash, or a digit
      from the output amount into the fee, gives different messages with the
      same transaction hash, whatever the hash function. */
  lemma TxHashCollision(c: Crypto)
    ensures var m1 := MsgSendUtxo("ab", [TxInput("cd", 1, [])], [TxOutput("z", "10", [])], "5", 0, []);
      var m2 := MsgSendUtxo("abc", [TxInput("d", 1, [])], [TxOutput("z", "1", [])], "05", 0, []);
      m1 != m2 && GenerateTxHash(c, m1) == GenerateTxHash(c, m2)
  {
    var m1 := MsgSendUtxo("ab", [TxInput("cd", 1, [])], [TxOutput("z", "10", [])], "5", 0, []);
    var m2 := MsgSendUtxo("abc", [TxInput("d", 1, [])], [TxOutput("z", "1", [])], "05", 0, []);
    assert NatToDecimal(1) == "1" && NatToDecimal(0) == "0";
    assert TxHashPreimage(m1) == "abcd1z1050" == TxHashPreimage(m2);
  }

  /** Splitting one nullifier into two, or moving text between creator and
      fee, leaves the shielded transaction hash unchanged. */
  lemma ShieldedTxHashCollision(c: Crypto)
    ensures var m1 := MsgSendShielded("ab", [[1, 2]], [], [7], [], "c");
      var m2 := MsgSendShielded("a", [[1], [2]], [], [7], [], "bc");
      m1 != m2 && GenerateShieldedTxHash(c, m1) == GenerateShieldedTxHash(c, m2)
  {
    var m1 := MsgSendShielded("ab", [[1, 2]], [], [7], [], "c");
    var m2 := MsgSendShielded("a", [[1], [2]], [], [7], [], "bc");
    assert HexEncode([1, 2]) == "0102" && HexEncode([1]) == "01" && HexEncode([2]) == "02";
    assert ShieldedTxHashPreimage(m1) == "abc0102" == ShieldedTxHashPreimage(m2);
  }

  // ------------------------------------------------------------ handlers

  /** The transaction `SendUTXO` hands to the keeper. */
  function TransactionOf(m: MsgSendUtxo, ctx: BlockCtx, txHash: string): (tx: UtxoTransaction)
    ensures tx.txHash == txHash && tx.inputs == m.inputs && tx.outputs == m.outputs && tx.fee == m.fee
  {
    UtxoTransaction(txHash, m.inputs, m.outputs, m.lockTime, ctx.timeUnix, m.fee, m.zkProof)
  }


  /** `SendUTXO`: the new state, the `send_utxo` event and the response's
      transaction hash. */
  function SendUtxoHandler(c: Crypto, st: State, m: MsgSendUtxo, ctx: BlockCtx)
    : (r: Result<(State, Event, string), ServerError>)
    ensures m.creator == "" ==> r == Err(InvalidAddress("creator cannot be empty"))
    ensures m.creator != "" && |m.inputs| == 0 ==> r == Err(InvalidRequest("transaction must have inputs"))
    ensures var tx := TransactionOf(m, ctx, GenerateTxHash(c, m));
      (r.Ok? <==> m.creator != "" && |m.inputs| > 0 && |m.outputs| > 0
                  && ProcessUtxoTransaction(c, st, tx, ctx).Ok?)
      && (r.Ok? ==> r.value.0 == ProcessUtxoTransaction(c, st, tx, ctx).value && r.value.2 == tx.txHash)
      && (r.Err? && r.error.KeeperFailed? ==>
            ProcessUtxoTransaction(c, st, tx, ctx) == Err(r.error.cause))
    ensures r.Ok? ==> r.value.1 == SendUtxoEvent(m.creator, r.value.2, |m.inputs|, |m.outputs|, m.fee)
  {
    if m.creator == "" then Err(InvalidAddress("creator cannot be empty"))
    else if |m.inputs| == 0 then Err(InvalidRequest("transaction must have inputs"))
    else if |m.outputs| == 0 then Err(InvalidRequest("transaction must have outputs"))
    else
      var txHash := GenerateTxHash(c, m);
      match ProcessUtxoTransaction(c, st, TransactionOf(m, ctx, txHash), ctx)
      case Err(e) => Err(KeeperFailed(e))
      case Ok(st') =>
        Ok((st', SendUtxoEvent(m.creator, txHash, |m.inputs|, |m.outputs|, m.fee), txHash))
  }

  /** After a successful `SendUTXO` the message's outputs can be looked up
      under the returned hash and their positions, unspent. */
  lemma SendUtxoCreatesOutputs(c: Crypto, st: State, m: MsgSendUtxo, ctx: BlockCtx, i: nat)
    requires WellKeyed(st.utxos) && |m.outputs| <= U32
    requires i < |m.outputs|
    ensures SendUtxoHandler(c, st, m, ctx).Ok? ==>
      var (st', _, txHash) := SendUtxoHandler(c, st, m, ctx).value;
      GetUtxo(st'.utxos, txHash, i).Some?
      && var u := GetUtxo(st'.utxos, txHash, i).value;
         !u.isSpent && u.address == m.outputs[i].address && u.amount == m.outputs[i].amount
  {
    if SendUtxoHandler(c, st, m, ctx).Ok? {
      var txHash := GenerateTxHash(c, m);
      var tx := TransactionOf(m, ctx, txHash);
      assert ProcessUtxoTransaction(c, st, tx, ctx).Ok?;
      var st' := ProcessUtxoTransaction(c, st, tx, ctx).value;
      assert SendUtxoHandler(c, st, m, ctx).value.0 == st';
      ProcessUtxoTransactionEffect(c, st, tx, ctx);
      assert st'.utxos[UtxoKey(txHash, i)] == NewUtxo(tx, i, ctx);
    }
  }

  /** Every message `ValidateBasic` accepts gets past the handler's own
      checks, given only that the empty string is not an address; the
      handler's checks are weaker (a creator that does not decode, or an
      empty fee, reaches the keeper). */
  lemma SendUtxoPrechecksWeaker(c: Crypto, st: State, m: MsgSendUtxo, ctx: BlockCtx,
                                parseAddress: string -> Option<Address>)
    requires parseAddress("").None?
    requires ValidateSendUtxo(m, parseAddress).Pass?
    ensures SendUtxoHandler(c, st, m, ctx).Err? ==> SendUtxoHandler(c, st, m, ctx).error.KeeperFailed?
  {
  }


  /** `SendShielded`. */
  function SendShieldedHandler(c: Crypto, st: State, m: MsgSendShielded, ctx: BlockCtx)
    : (r: Result<(State, Event, string), ServerError>)
    ensures m.creator == "" ==> r == Err(InvalidAddress("creator cannot be empty"))
    ensures var tx := ShieldedTransaction(GenerateShieldedTxHash(c, m), m.nullifiers, m.commitments, m.zkProof,
                                          m.encryptedMemo, m.fee, ctx.timeUnix);
      (r.Ok? <==> m.creator != "" && |m.zkProof| > 0 && |m.nullifiers| > 0
                  && ProcessShieldedTransaction(c, st, tx, ctx).Ok?)
      && (r.Ok? ==> r.value.0 == ProcessShieldedTransaction(c, st, tx, ctx).value && r.value.2 == tx.txHash)
    ensures r.Ok? ==> r.value.1 == SendShieldedEvent(m.creator, r.value.2, |m.nullifiers|, |m.commitments|, m.fee)
  {
    if m.creator == "" then Err(InvalidAddress("creator cannot be empty"))
    else if |m.zkProof| == 0 then Err(InvalidRequest("zk proof cannot be empty"))
    else if |m.nullifiers| == 0 then Err(InvalidRequest("nullifiers cannot be empty"))
    else
      var txHash := GenerateShieldedTxHash(c, m);
      var tx := ShieldedTransaction(txHash, m.nullifiers, m.commitments, m.zkProof, m.encryptedMemo, m.fee, ctx.timeUnix);
      match ProcessShieldedTransaction(c, st, tx, ctx)
      case Err(e) => Err(KeeperFailed(e))
      case Ok(st') =>
        Ok((st', SendShieldedEvent(m.creator, txHash, |m.nullifiers|, |m.commitments|, m.fee), txHash))
  }

  /** The mining proof `SubmitMiningProof` hands to the keeper: the creator
      is the miner and the block time the timestamp. */
  function MiningProofOf(m: MsgSubmitMiningProof, ctx: BlockCtx): (p: MiningProof)
    ensures p.minerAddress == m.creator && p.difficulty == m.difficulty && p.hardwareId == m.hardwareId
  {
    MiningProof(m.creator, m.zkProof, m.publicInputs, m.nonce, m.difficulty, ctx.timeUnix, m.hardwareId)
  }


  /** `SubmitMiningProof`: the bank calls made, the event, and `Success: true`. */
  function SubmitMiningProofHandler(c: Crypto, cfg: Config, st: State, m: MsgSubmitMiningProof, ctx: BlockCtx,
                                    parseAddress: string -> Option<Address>, fails: BankCall -> bool)
    : (r: Result<(seq<BankCall>, Event, bool), ServerError>)
    requires DifficultyStore.Readable(st.difficulty)
    ensures m.creator == "" ==> r == Err(InvalidAddress("creator cannot be empty"))
    ensures var p := MiningProofOf(m, ctx);
      (r.Ok? <==> m.creator != "" && |m.zkProof| > 0 && m.hardwareId != ""
                  && MineBlock(c, cfg, st, p, ctx, parseAddress, fails).Ok?)
      && (r.Ok? ==> r.value.0 == MineBlock(c, cfg, st, p, ctx, parseAddress, fails).value && r.value.2)
    ensures r.Ok? ==> r.value.1 == SubmitMiningProofEvent(m.creator, m.hardwareId, m.difficulty, m.nonce)
  {
    if m.creator == "" then Err(InvalidAddress("creator cannot be empty"))
    else if |m.zkProof| == 0 then Err(InvalidRequest("zk proof cannot be empty"))
    else if m.hardwareId == "" then Err(InvalidRequest("hardware ID cannot be empty"))
    else
      match MineBlock(c, cfg, st, MiningProofOf(m, ctx), ctx, parseAddress, fails)
      case Err(e) => Err(KeeperFailed(e))
      case Ok(calls) =>
        Ok((calls, SubmitMiningProofEvent(m.creator, m.hardwareId, m.difficulty, m.nonce), true))
  }

  /** A successful submission pays the miner named by the message's creator. */
  lemma SubmitMiningProofPaysCreator(c: Crypto, cfg: Config, st: State, m: MsgSubmitMiningProof, ctx: BlockCtx,
                                     parseAddress: string -> Option<Address>, fails: BankCall -> bool)
    requires DifficultyStore.Readable(st.difficulty)
    requires SubmitMiningProofHandler(c, cfg, st, m, ctx, parseAddress, fails).Ok?
    ensures parseAddress(m.creator).Some?
    ensures var calls := SubmitMiningProofHandler(c, cfg, st, m, ctx, parseAddress, fails).value.0;
      |calls| == 2 && calls[1].SendFromModule? && calls[1].to == parseAddress(m.creator).value
      && calls[0].amount == calls[1].amount
  {
  }
}
