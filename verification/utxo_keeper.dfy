/** The Z-chain UTXO keeper: transparent and shielded transactions, hardware
    mining, the block reward and the difficulty entry.

    The KV store is one map per key prefix. Cryptography (SHA-256, ECDSA
    signature checks, the Cysic proof verifiers) is passed in as `Crypto`,
    bech32 address parsing as `parseAddress`, and bank failures as `fails`.
    A keeper error leaves no trace in the model: the SDK runs each message on
    a cached store and drops the cache when the handler returns an error, so
    the writes the keeper makes before failing are never committed. */
module UtxoKeeper {
  import opened Wrappers
  import opened Bytes
  import opened Decimal
  import opened Chain
  import opened UtxoTypes
  import DifficultyStore
  import Rewards

  const ModuleName: string := "utxo"

  datatype State = State(
    utxos: map<string, Utxo>,
    transactions: map<string, UtxoTransaction>,
    nullifiers: set<seq<Byte>>,
    commitments: set<seq<Byte>>,
    shieldedTransactions: map<string, ShieldedTransaction>,
    difficulty: DifficultyStore.Cell)

  /** The primitives the keeper calls into. */
  datatype Crypto = Crypto(
    /** `sha256.Sum256([]byte(s))`. */
    sha256Text: string -> Digest,
    /** `crypto.VerifySignature(pubkey, hash, signature)`. */
    verifySignature: (seq<Byte>, seq<Byte>, seq<Byte>) -> bool,
    /** `cysic.VerifyShieldedProof(proof, publicInputs)`. */
    verifyShieldedProof: (seq<Byte>, seq<Byte>) -> bool,
    /** `cysic.VerifyMiningProof` applied to the proof's fields. */
    verifyMiningProof: MiningProof -> bool)

  /** The two settings `NewKeeper` fixes. */
  datatype Config = Config(hardwareAcceleration: bool, supportedDevices: set<string>)

  function NewKeeperConfig(): (cfg: Config)
    ensures cfg.hardwareAcceleration
    ensures forall d :: d in cfg.supportedDevices <==> HardwareBonus(d) > 0
  {
    Config(true, {"nvidia-a100", "nvidia-h100", "xilinx-fpga"})
  }

  datatype KeeperError =
    | UtxoNotFound(txHash: string, index: nat)
    | UtxoAlreadySpent(txHash: string, index: nat)
    | InvalidScriptSignature
    | InvalidUtxoAmount(amount: string)
    | InvalidOutputAmount(amount: string)
    | InvalidFee(feeText: string)
    | InputOutputMismatch(input: int, output: int, fee: int)
      /** A running total's `sdk.Int.Add` panicked; the SDK recovers the
          panic and fails the transaction. */
    | IntOverflow
    | InvalidShieldedProof
    | NullifierAlreadyUsed(nullifier: seq<Byte>)
    | HardwareAccelerationUnavailable
    | UnsupportedDevice(hardwareId: string)
    | InvalidMiningProof
    | InsufficientDifficulty(got: nat, required: nat)
    | InvalidMinerAddress(address: string)
    | BankFailure(call: BankCall)

  // ------------------------------------------------------------ UTXO store

  /** Every stored output sits under its own `(TxHash, OutputIndex)` key.
      `ProcessUTXOTransaction` reads an input under the input's outpoint but
      writes the spent output back under the output's own fields, so the two
      agree only while this holds. */
  ghost predicate WellKeyed(utxos: map<string, Utxo>) {
    forall k {:trigger KeyOf(utxos[k])} :: k in utxos ==> KeyOf(utxos[k]) == k
  }

  /** `GetUTXO`. */
  function GetUtxo(utxos: map<string, Utxo>, txHash: string, index: nat): (r: Option<Utxo>)
    ensures r.Some? <==> UtxoKey(txHash, index) in utxos
    ensures WellKeyed(utxos) && r.Some? ==> r.value.txHash == txHash && r.value.outputIndex == index
  {
    var key := UtxoKey(txHash, index);
    if key in utxos then
      WellKeyedLookup(utxos, txHash, index);
      Some(utxos[key])
    else None
  }

  /** In a well-keyed store the output found under an outpoint is that outpoint's. */
  lemma WellKeyedLookup(utxos: map<string, Utxo>, txHash: string, index: nat)
    ensures WellKeyed(utxos) && UtxoKey(txHash, index) in utxos ==>
      utxos[UtxoKey(txHash, index)].txHash == txHash && utxos[UtxoKey(txHash, index)].outputIndex == index
  {
    var key := UtxoKey(txHash, index);
    if WellKeyed(utxos) && key in utxos {
      assert KeyOf(utxos[key]) == key;
      UtxoKeyInjective(utxos[key].txHash, utxos[key].outputIndex, txHash, index);
    }
  }

  /** `SetUTXO`. */
  function SetUtxo(utxos: map<string, Utxo>, u: Utxo): (r: map<string, Utxo>)
    ensures WellKeyed(utxos) ==> WellKeyed(r)
  {
    utxos[KeyOf(u) := u]
  }

  /** A stored output is found under its outpoint, and every other outpoint
      reads as before. */
  lemma SetThenGetUtxo(utxos: map<string, Utxo>, u: Utxo, txHash: string, index: nat)
    ensures GetUtxo(SetUtxo(utxos, u), u.txHash, u.outputIndex) == Some(u)
    ensures (txHash, index) != (u.txHash, u.outputIndex) ==>
      GetUtxo(SetUtxo(utxos, u), txHash, index) == GetUtxo(utxos, txHash, index)
  {
    if (txHash, index) != (u.txHash, u.outputIndex) && UtxoKey(txHash, index) == KeyOf(u) {
      UtxoKeyInjective(txHash, index, u.txHash, u.outputIndex);
    }
  }

  // ------------------------------------------------------------ script check

  /** `VerifyScriptSig`: the first 64 bytes of the script are the signature
      and the rest the public key; the output's script only has to be non-empty. */
  function VerifyScriptSig(c: Crypto, scriptSig: seq<Byte>, scriptPubkey: seq<Byte>, txHash: string): (ok: bool)
    ensures ok ==> |scriptSig| >= 64 && |scriptPubkey| > 0
    ensures |scriptSig| >= 64 && |scriptPubkey| > 0 ==>
      (ok <==> c.verifySignature(scriptSig[64..], c.sha256Text(txHash), scriptSig[..64]))
  {
    if |scriptSig| == 0 || |scriptPubkey| == 0 then false
    else if |scriptSig| >= 64 then
      c.verifySignature(scriptSig[64..], c.sha256Text(txHash), scriptSig[..64])
    else false
  }

  /** The locking script is never interpreted: any two non-empty scripts give the same verdict. */
  lemma ScriptPubkeyIgnored(c: Crypto, scriptSig: seq<Byte>, pk1: seq<Byte>, pk2: seq<Byte>, txHash: string)
    requires |pk1| > 0 && |pk2| > 0
    ensures VerifyScriptSig(c, scriptSig, pk1, txHash) == VerifyScriptSig(c, scriptSig, pk2, txHash)
  {
  }

  // ------------------------------------------------------------ amounts

  /** The value of an amount string, 0 when it does not parse. */
  function AmountOf(s: string): int {
    ParseInt(s).GetOr(0)
  }

  function InputKey(input: TxInput): string {
    UtxoKey(input.prevTxHash, input.prevOutputIndex)
  }

  /** The amount strings of the outputs from `from` on all parse. */
  predicate OutputAmountsParse(outputs: seq<TxOutput>, from: nat) {
    forall j :: from <= j < |outputs| ==> ParseInt(outputs[j].amount).Some?
  }

  function SumOutputs(outputs: seq<TxOutput>, from: nat): int
    requires from <= |outputs|
    decreases |outputs| - from
  {
    if from == |outputs| then 0 else AmountOf(outputs[from].amount) + SumOutputs(outputs, from + 1)
  }

  /** The amounts of the outputs from `from` on, in loop order. */
  function OutputAmounts(outputs: seq<TxOutput>, from: nat): seq<int>
    requires from <= |outputs|
    decreases |outputs| - from
  {
    if from == |outputs| then [] else [AmountOf(outputs[from].amount)] + OutputAmounts(outputs, from + 1)
  }

  /** Every input names a stored, unspent output, and no output twice. */
  ghost predicate InputsSpendable(utxos: map<string, Utxo>, inputs: seq<TxInput>) {
    (forall j :: 0 <= j < |inputs| ==> InputKey(inputs[j]) in utxos && !utxos[InputKey(inputs[j])].isSpent)
    && (forall a, b :: 0 <= a < b < |inputs| ==> InputKey(inputs[a]) != InputKey(inputs[b]))
  }

  /** Every input names a stored output whose unlocking script verifies
      against it. */
  ghost predicate InputsSigned(c: Crypto, utxos: map<string, Utxo>, inputs: seq<TxInput>, txHash: string) {
    forall j :: 0 <= j < |inputs| ==>
      InputKey(inputs[j]) in utxos
      && VerifyScriptSig(c, inputs[j].scriptSig, utxos[InputKey(inputs[j])].scriptPubkey, txHash)
  }

  /** The amount of the output stored under `key`. A missing output counts
      as nothing: the loop refuses it before it would add anything. */
  function StoredAmount(utxos: map<string, Utxo>, key: string): int {
    if key in utxos then AmountOf(utxos[key].amount) else 0
  }

  ghost function SumInputs(utxos: map<string, Utxo>, inputs: seq<TxInput>): int {
    if |inputs| == 0 then 0
    else StoredAmount(utxos, InputKey(inputs[0])) + SumInputs(utxos, inputs[1..])
  }

  /** The amounts of the outputs the inputs name, in loop order. */
  ghost function InputAmounts(utxos: map<string, Utxo>, inputs: seq<TxInput>): seq<int> {
    if |inputs| == 0 then []
    else [StoredAmount(utxos, InputKey(inputs[0]))] + InputAmounts(utxos, inputs[1..])
  }

  ghost function InputKeys(inputs: seq<TxInput>): set<string> {
    if |inputs| == 0 then {} else {InputKey(inputs[0])} + InputKeys(inputs[1..])
  }

  lemma {:induction false} InputKeysHas(inputs: seq<TxInput>, j: nat)
    requires j < |inputs|
    ensures InputKey(inputs[j]) in InputKeys(inputs)
  {
    if j > 0 {
      InputKeysHas(inputs[1..], j - 1);
    }
  }

  // ------------------------------------------------------------ ProcessUTXOTransaction

  /** One turn of the input loop: look the output up and refuse it when
      missing, spent, wrongly signed or of unparseable amount; otherwise give
      it back marked spent, with its amount. */
  function SpendInput(c: Crypto, utxos: map<string, Utxo>, input: TxInput, txHash: string)
    : (r: Result<(Utxo, int), KeeperError>)
    ensures InputKey(input) !in utxos ==> r == Err(UtxoNotFound(input.prevTxHash, input.prevOutputIndex))
    ensures InputKey(input) in utxos && utxos[InputKey(input)].isSpent ==>
      r == Err(UtxoAlreadySpent(input.prevTxHash, input.prevOutputIndex))
    ensures r.Ok? ==>
      InputKey(input) in utxos && !utxos[InputKey(input)].isSpent
      && VerifyScriptSig(c, input.scriptSig, utxos[InputKey(input)].scriptPubkey, txHash)
      && ParseInt(utxos[InputKey(input)].amount) == Some(r.value.1)
      && r.value.0 == utxos[InputKey(input)].(isSpent := true)
    ensures WellKeyed(utxos) && r.Ok? ==> KeyOf(r.value.0) == InputKey(input)
  {
    match GetUtxo(utxos, input.prevTxHash, input.prevOutputIndex)
    case None => Err(UtxoNotFound(input.prevTxHash, input.prevOutputIndex))
    case Some(u) =>
      if u.isSpent then Err(UtxoAlreadySpent(input.prevTxHash, input.prevOutputIndex))
      else if !VerifyScriptSig(c, input.scriptSig, u.scriptPubkey, txHash) then Err(InvalidScriptSignature)
      else match ParseInt(u.amount)
        case None => Err(InvalidUtxoAmount(u.amount))
        case Some(amount) => Ok((u.(isSpent := true), amount))
  }

  /** The input loop: spend each input in order, adding its amount to the
      running total `total` (`sdk.Int.Add`, which can overflow) and writing
      it back marked spent before the next is read. */
  function SpendInputs(c: Crypto, utxos: map<string, Utxo>, inputs: seq<TxInput>, txHash: string, total: int)
    : (r: Result<(map<string, Utxo>, int), KeeperError>)
    ensures |inputs| > 0 && InputKey(inputs[0]) !in utxos ==>
      r == Err(UtxoNotFound(inputs[0].prevTxHash, inputs[0].prevOutputIndex))
    decreases |inputs|
  {
    if |inputs| == 0 then Ok((utxos, total))
    else
      match SpendTurn(c, utxos, inputs[0], txHash, total)
      case Err(e) => Err(e)
      case Ok((u1, sum)) => SpendInputs(c, u1, inputs[1..], txHash, sum)
  }

  /** One turn of the input loop with the running total. */
  function SpendTurn(c: Crypto, utxos: map<string, Utxo>, input: TxInput, txHash: string, total: int)
    : (r: Result<(map<string, Utxo>, int), KeeperError>)
  {
    match SpendInput(c, utxos, input, txHash)
    case Err(e) => Err(e)
    case Ok((u, amount)) =>
      match AddInt(total, amount)
      case None => Err(IntOverflow)
      case Some(sum) => Ok((SetUtxo(utxos, u), sum))
  }

  /** The output created for output `i` of `tx`; `uint32(i)` wraps. */
  function NewUtxo(tx: UtxoTransaction, i: nat, ctx: BlockCtx): (u: Utxo)
    requires i < |tx.outputs|
    ensures i < U32 ==> KeyOf(u) == UtxoKey(tx.txHash, i)
    ensures !u.isSpent && u.address == tx.outputs[i].address && u.amount == tx.outputs[i].amount
  {
    Utxo(tx.txHash, Uint32(i), tx.outputs[i].address, tx.outputs[i].amount, ctx.height, false,
         tx.outputs[i].scriptPubkey, ctx.timeUnix)
  }

  /** The arithmetic of the output loop from index `i` on, with running
      total `total`: parse each amount and add it (`sdk.Int.Add`, which can
      overflow). The first unparseable amount or overflow ends it. */
  function OutputTotal(outputs: seq<TxOutput>, i: nat, total: int): (r: Result<int, KeeperError>)
    requires i <= |outputs|
    ensures r.Err? ==> r.error.InvalidOutputAmount? || r.error == IntOverflow
    decreases |outputs| - i
  {
    if i == |outputs| then Ok(total)
    else match ParseInt(outputs[i].amount)
      case None => Err(InvalidOutputAmount(outputs[i].amount))
      case Some(amount) =>
        match AddInt(total, amount)
        case None => Err(IntOverflow)
        case Some(sum) => OutputTotal(outputs, i + 1, sum)
  }

  /** The writes of the output loop from index `i` on: output `j` stored as
      `NewUtxo(tx, j, ctx)`, in order. */
  function StoreOutputs(utxos: map<string, Utxo>, tx: UtxoTransaction, ctx: BlockCtx, i: nat): map<string, Utxo>
    requires i <= |tx.outputs|
    decreases |tx.outputs| - i
  {
    if i == |tx.outputs| then utxos else StoreOutputs(SetUtxo(utxos, NewUtxo(tx, i, ctx)), tx, ctx, i + 1)
  }

  /** The output loop. Go parses, adds and stores output by output; since a
      failed transaction's writes are dropped, the loop's outcome is that of
      `OutputTotal`, and on success the store is the one `StoreOutputs`
      leaves. It fails exactly when some amount does not parse or a running
      total overflows, and otherwise totals the amounts. */
  function CreateOutputs(utxos: map<string, Utxo>, tx: UtxoTransaction, ctx: BlockCtx)
    : (r: Result<(map<string, Utxo>, int), KeeperError>)
    ensures r.Err? ==> r.error.InvalidOutputAmount? || r.error == IntOverflow
    ensures r.Ok? <==> OutputAmountsParse(tx.outputs, 0) && SumsFit(0, OutputAmounts(tx.outputs, 0))
    ensures r.Ok? ==> r.value.1 == SumOutputs(tx.outputs, 0) && FitsInt(r.value.1)
  {
    OutputTotalOk(tx.outputs, 0, 0);
    match OutputTotal(tx.outputs, 0, 0)
    case Err(e) => Err(e)
    case Ok(total) =>
      OutputTotalSum(tx.outputs, 0, 0);
      Ok((StoreOutputs(utxos, tx, ctx, 0), total))
  }

  /** `ProcessUTXOTransaction`. */
  function ProcessUtxoTransaction(c: Crypto, st: State, tx: UtxoTransaction, ctx: BlockCtx)
    : (r: Result<State, KeeperError>)
    ensures |tx.inputs| > 0 && InputKey(tx.inputs[0]) !in st.utxos ==>
      r == Err(UtxoNotFound(tx.inputs[0].prevTxHash, tx.inputs[0].prevOutputIndex))
    ensures r.Ok? ==> r.value.transactions == st.transactions[tx.txHash := tx]
    ensures r.Ok? ==> r.value.nullifiers == st.nullifiers && r.value.commitments == st.commitments
    ensures r.Ok? ==> ParseInt(tx.fee).Some?
  {
    match SpendInputs(c, st.utxos, tx.inputs, tx.txHash, 0)
    case Err(e) => Err(e)
    case Ok((afterInputs, totalInput)) =>
      match CreateOutputs(afterInputs, tx, ctx)
      case Err(e) => Err(e)
      case Ok((afterOutputs, totalOutput)) =>
        match ParseInt(tx.fee)
        case None => Err(InvalidFee(tx.fee))
        case Some(fee) =>
          match AddInt(totalOutput, fee)
          case None => Err(IntOverflow)
          case Some(owed) =>
            if totalInput != owed then Err(InputOutputMismatch(totalInput, totalOutput, fee))
            else Ok(st.(utxos := afterOutputs, transactions := st.transactions[tx.txHash := tx]))
  }

  /** One successful turn of the input loop. */
  lemma SpendInputsStep(c: Crypto, utxos: map<string, Utxo>, inputs: seq<TxInput>, txHash: string, total: int)
    returns (u1: map<string, Utxo>, amount: int)
    requires WellKeyed(utxos) && |inputs| > 0
    requires SpendInputs(c, utxos, inputs, txHash, total).Ok?
    ensures InputKey(inputs[0]) in utxos && !utxos[InputKey(inputs[0])].isSpent
    ensures VerifyScriptSig(c, inputs[0].scriptSig, utxos[InputKey(inputs[0])].scriptPubkey, txHash)
    ensures ParseInt(utxos[InputKey(inputs[0])].amount) == Some(amount)
    ensures FitsInt(total + amount)
    ensures u1 == utxos[InputKey(inputs[0]) := utxos[InputKey(inputs[0])].(isSpent := true)]
    ensures WellKeyed(u1)
    ensures SpendInputs(c, utxos, inputs, txHash, total) == SpendInputs(c, u1, inputs[1..], txHash, total + amount)
    ensures SpendInputs(c, u1, inputs[1..], txHash, total + amount).Ok?
  {
    var one := SpendInput(c, utxos, inputs[0], txHash);
    amount := one.value.1;
    u1 := SetUtxo(utxos, one.value.0);
    assert SpendTurn(c, utxos, inputs[0], txHash, total) == Ok((u1, total + amount));
  }

  /** A successful input loop saw each input stored, unspent, correctly
      signed, parseable and named once. */
  lemma SpendInputsChecked(c: Crypto, utxos: map<string, Utxo>, inputs: seq<TxInput>, txHash: string, total: int)
    requires WellKeyed(utxos)
    requires SpendInputs(c, utxos, inputs, txHash, total).Ok?
    ensures InputsSpendable(utxos, inputs)
    ensures InputsSigned(c, utxos, inputs, txHash)
    ensures forall j :: 0 <= j < |inputs| ==> ParseInt(utxos[InputKey(inputs[j])].amount).Some?
  {
    forall j | 0 <= j < |inputs|
      ensures InputKey(inputs[j]) in utxos && !utxos[InputKey(inputs[j])].isSpent
      ensures VerifyScriptSig(c, inputs[j].scriptSig, utxos[InputKey(inputs[j])].scriptPubkey, txHash)
      ensures ParseInt(utxos[InputKey(inputs[j])].amount).Some?
    {
      SpendInputsAt(c, utxos, inputs, txHash, total, j);
    }
    forall a, b | 0 <= a < b < |inputs| ensures InputKey(inputs[a]) != InputKey(inputs[b]) {
      SpendInputsAt(c, utxos, inputs, txHash, total, b);
    }
  }

  /** Input `j` of a successful input loop was stored, unspent, correctly
      signed and parseable before the loop, and no earlier input named it. */
  lemma {:induction false} SpendInputsAt(c: Crypto, utxos: map<string, Utxo>, inputs: seq<TxInput>, txHash: string,
                                         total: int, j: nat)
    requires WellKeyed(utxos)
    requires SpendInputs(c, utxos, inputs, txHash, total).Ok?
    requires j < |inputs|
    ensures InputKey(inputs[j]) in utxos && !utxos[InputKey(inputs[j])].isSpent
    ensures VerifyScriptSig(c, inputs[j].scriptSig, utxos[InputKey(inputs[j])].scriptPubkey, txHash)
    ensures ParseInt(utxos[InputKey(inputs[j])].amount).Some?
    ensures forall a :: 0 <= a < j ==> InputKey(inputs[a]) != InputKey(inputs[j])
    decreases j
  {
    var u1, amount := SpendInputsStep(c, utxos, inputs, txHash, total);
    if j > 0 {
      var rest := inputs[1..];
      SpendInputsAt(c, u1, rest, txHash, total + amount, j - 1);
      assert rest[j - 1] == inputs[j];
      var kj := InputKey(inputs[j]);
      assert kj != InputKey(inputs[0]) && u1[kj] == utxos[kj];
      forall a | 0 < a < j ensures InputKey(inputs[a]) != kj {
        assert rest[a - 1] == inputs[a];
      }
    }
  }

  /** Marking an output spent leaves the input amounts alone. */
  lemma {:induction false} MarkSpentFrame(utxos: map<string, Utxo>, k: string, inputs: seq<TxInput>)
    requires k in utxos
    ensures InputAmounts(utxos[k := utxos[k].(isSpent := true)], inputs) == InputAmounts(utxos, inputs)
    ensures SumInputs(utxos[k := utxos[k].(isSpent := true)], inputs) == SumInputs(utxos, inputs)
  {
    if |inputs| > 0 {
      assert forall j :: 0 <= j < |inputs| - 1 ==> inputs[1..][j] == inputs[j + 1];
      MarkSpentFrame(utxos, k, inputs[1..]);
    }
  }

  /** The converse: inputs that are stored, unspent, named once, correctly
      signed and of parseable amount, and whose running totals all fit in an
      `sdk.Int`, all get spent. */
  lemma {:induction false} SpendInputsComplete(c: Crypto, utxos: map<string, Utxo>, inputs: seq<TxInput>, txHash: string,
                                               total: int)
    requires WellKeyed(utxos)
    requires InputsSpendable(utxos, inputs) && InputsSigned(c, utxos, inputs, txHash)
    requires forall j :: 0 <= j < |inputs| ==> ParseInt(utxos[InputKey(inputs[j])].amount).Some?
    requires SumsFit(total, InputAmounts(utxos, inputs))
    ensures SpendInputs(c, utxos, inputs, txHash, total).Ok?
    decreases |inputs|
  {
    if |inputs| > 0 {
      var k0 := InputKey(inputs[0]);
      var amount := AmountOf(utxos[k0].amount);
      var rest := inputs[1..];
      assert InputAmounts(utxos, inputs) == [amount] + InputAmounts(utxos, rest);
      SumsFitCons(total, amount, InputAmounts(utxos, rest));
      var u1 := SpendTurnOk(c, utxos, inputs[0], txHash, total);
      SpendableRest(c, utxos, inputs, txHash);
      MarkSpentFrame(utxos, k0, rest);
      SpendInputsComplete(c, u1, rest, txHash, total + amount);
    }
  }

  /** A successful input loop adds exactly the spent outputs' amounts to
      the running total, no running total overflowed, and it ends on a total
      that fits. */
  lemma SpendInputsTotal(c: Crypto, utxos: map<string, Utxo>, inputs: seq<TxInput>, txHash: string, total: int)
    requires WellKeyed(utxos)
    requires SpendInputs(c, utxos, inputs, txHash, total).Ok?
    ensures InputsSpendable(utxos, inputs)
    ensures SpendInputs(c, utxos, inputs, txHash, total).value.1 == total + SumInputs(utxos, inputs)
    ensures FitsInt(total) ==> FitsInt(SpendInputs(c, utxos, inputs, txHash, total).value.1)
    ensures SumsFit(total, InputAmounts(utxos, inputs))
  {
    SpendInputsChecked(c, utxos, inputs, txHash, total);
    SpendInputsSums(c, utxos, inputs, txHash, total);
    SpendInputsFit(c, utxos, inputs, txHash, total);
  }

  /** A turn of the input loop on a stored, unspent, correctly signed output
      of parseable amount that does not overflow the total marks it spent. */
  lemma SpendTurnOk(c: Crypto, utxos: map<string, Utxo>, input: TxInput, txHash: string, total: int)
    returns (u1: map<string, Utxo>)
    requires WellKeyed(utxos)
    requires InputKey(input) in utxos && !utxos[InputKey(input)].isSpent
    requires VerifyScriptSig(c, input.scriptSig, utxos[InputKey(input)].scriptPubkey, txHash)
    requires ParseInt(utxos[InputKey(input)].amount).Some?
    requires FitsInt(total + AmountOf(utxos[InputKey(input)].amount))
    ensures u1 == utxos[InputKey(input) := utxos[InputKey(input)].(isSpent := true)] && WellKeyed(u1)
    ensures SpendTurn(c, utxos, input, txHash, total) == Ok((u1, total + AmountOf(utxos[InputKey(input)].amount)))
  {
    var k := InputKey(input);
    var u := utxos[k].(isSpent := true);
    assert SpendInput(c, utxos, input, txHash) == Ok((u, AmountOf(utxos[k].amount)));
    u1 := SetUtxo(utxos, u);
  }

  /** Spending the first of spendable, signed, parseable inputs leaves the
      rest so, each reading the entry it read before. */
  lemma SpendableRest(c: Crypto, utxos: map<string, Utxo>, inputs: seq<TxInput>, txHash: string)
    requires |inputs| > 0
    requires InputsSpendable(utxos, inputs) && InputsSigned(c, utxos, inputs, txHash)
    requires forall j :: 0 <= j < |inputs| ==> ParseInt(utxos[InputKey(inputs[j])].amount).Some?
    ensures var k0 := InputKey(inputs[0]);
      var u1 := utxos[k0 := utxos[k0].(isSpent := true)];
      InputsSpendable(u1, inputs[1..]) && InputsSigned(c, u1, inputs[1..], txHash)
      && forall j :: 0 <= j < |inputs| - 1 ==> ParseInt(u1[InputKey(inputs[1..][j])].amount).Some?
  {
    var k0 := InputKey(inputs[0]);
    var rest := inputs[1..];
    forall j | 0 <= j < |rest| ensures InputKey(rest[j]) != k0 {
      assert rest[j] == inputs[j + 1];
    }
    forall a, b | 0 <= a < b < |rest| ensures InputKey(rest[a]) != InputKey(rest[b]) {
      assert rest[a] == inputs[a + 1] && rest[b] == inputs[b + 1];
    }
    forall j | 0 <= j < |rest|
      ensures InputKey(rest[j]) in utxos && !utxos[InputKey(rest[j])].isSpent
      ensures ParseInt(utxos[InputKey(rest[j])].amount).Some?
      ensures VerifyScriptSig(c, rest[j].scriptSig, utxos[InputKey(rest[j])].scriptPubkey, txHash)
    {
      assert rest[j] == inputs[j + 1];
    }
  }

  /** The arithmetic half of `SpendInputsTotal`, by induction on the inputs. */
  lemma {:induction false} SpendInputsSums(c: Crypto, utxos: map<string, Utxo>, inputs: seq<TxInput>, txHash: string,
                                           total: int)
    requires WellKeyed(utxos)
    requires SpendInputs(c, utxos, inputs, txHash, total).Ok?
    ensures SpendInputs(c, utxos, inputs, txHash, total).value.1 == total + SumInputs(utxos, inputs)
    ensures FitsInt(total) ==> FitsInt(SpendInputs(c, utxos, inputs, txHash, total).value.1)
    decreases |inputs|
  {
    if |inputs| > 0 {
      var u1, amount := SpendInputsStep(c, utxos, inputs, txHash, total);
      var rest := inputs[1..];
      SpendInputsSums(c, u1, rest, txHash, total + amount);
      MarkSpentFrame(utxos, InputKey(inputs[0]), rest);
      assert StoredAmount(utxos, InputKey(inputs[0])) == amount;
    } else {
      assert SpendInputs(c, utxos, inputs, txHash, total) == Ok((utxos, total));
    }
  }

  /** No running total of a successful input loop overflowed. */
  lemma {:induction false} SpendInputsFit(c: Crypto, utxos: map<string, Utxo>, inputs: seq<TxInput>, txHash: string,
                                          total: int)
    requires WellKeyed(utxos)
    requires SpendInputs(c, utxos, inputs, txHash, total).Ok?
    ensures SumsFit(total, InputAmounts(utxos, inputs))
    decreases |inputs|
  {
    if |inputs| > 0 {
      var u1, amount := SpendInputsStep(c, utxos, inputs, txHash, total);
      var rest := inputs[1..];
      SpendInputsFit(c, u1, rest, txHash, total + amount);
      MarkSpentFrame(utxos, InputKey(inputs[0]), rest);
      var tail := InputAmounts(utxos, rest);
      assert SumsFit(total + amount, tail);
      assert InputAmounts(utxos, inputs) == [amount] + tail;
      SumsFitCons(total, amount, tail);
    } else {
      assert InputAmounts(utxos, inputs) == [];
    }
  }

  /** After a successful input loop, exactly the inputs' outputs are marked
      spent and nothing else changed. */
  lemma {:induction false} SpendInputsEffect(c: Crypto, utxos: map<string, Utxo>, inputs: seq<TxInput>, txHash: string,
                                             total: int)
    requires WellKeyed(utxos)
    requires SpendInputs(c, utxos, inputs, txHash, total).Ok?
    ensures var after := SpendInputs(c, utxos, inputs, txHash, total).value.0;
      WellKeyed(after) && after.Keys == utxos.Keys
      && forall k :: k in utxos ==>
           after[k] == (if k in InputKeys(inputs) then utxos[k].(isSpent := true) else utxos[k])
    decreases |inputs|
  {
    if |inputs| == 0 {
      assert SpendInputs(c, utxos, inputs, txHash, total) == Ok((utxos, total));
    } else {
      var k0 := InputKey(inputs[0]);
      var u1, amount := SpendInputsStep(c, utxos, inputs, txHash, total);
      var rest := inputs[1..];
      SpendInputsEffect(c, u1, rest, txHash, total + amount);
      SpendInputsChecked(c, u1, rest, txHash, total + amount);
      assert k0 !in InputKeys(rest) by {
        if k0 in InputKeys(rest) {
          var j := InputKeysFind(rest, k0);
          assert false;
        }
      }
      var after := SpendInputs(c, u1, rest, txHash, total + amount).value.0;
      assert InputKeys(inputs) == {k0} + InputKeys(rest);
      forall k | k in utxos
        ensures after[k] == (if k in InputKeys(inputs) then utxos[k].(isSpent := true) else utxos[k])
      {
        if k != k0 {
          assert u1[k] == utxos[k];
        }
      }
    }
  }

  /** A position of each key among the inputs. */
  lemma {:induction false} InputKeysFind(inputs: seq<TxInput>, k: string) returns (j: nat)
    requires k in InputKeys(inputs)
    ensures j < |inputs| && InputKey(inputs[j]) == k
  {
    if InputKey(inputs[0]) == k {
      j := 0;
    } else {
      var j' := InputKeysFind(inputs[1..], k);
      j := j' + 1;
    }
  }

  /** Keys of outputs `i..` of `tx`. */
  ghost function OutputKeys(tx: UtxoTransaction, i: nat): set<string>
    requires i <= |tx.outputs|
    decreases |tx.outputs| - i
  {
    if i == |tx.outputs| then {} else {UtxoKey(tx.txHash, Uint32(i))} + OutputKeys(tx, i + 1)
  }

  /** Below 2^32 outputs, output `i`'s key is not among the later outputs' keys. */
  lemma {:induction false} OutputKeyFresh(tx: UtxoTransaction, i: nat, j: nat)
    requires i < j <= |tx.outputs| <= U32
    ensures UtxoKey(tx.txHash, i) !in OutputKeys(tx, j)
    decreases |tx.outputs| - j
  {
    if j < |tx.outputs| {
      if UtxoKey(tx.txHash, i) == UtxoKey(tx.txHash, Uint32(j)) {
        UtxoKeyInjective(tx.txHash, i, tx.txHash, Uint32(j));
      }
      OutputKeyFresh(tx, i, j + 1);
    }
  }

  lemma {:induction false} OutputKeysHas(tx: UtxoTransaction, i: nat, j: nat)
    requires i <= j < |tx.outputs| <= U32
    ensures UtxoKey(tx.txHash, j) in OutputKeys(tx, i)
    decreases j - i
  {
    if i < j {
      OutputKeysHas(tx, i + 1, j);
    }
  }

  /** A successful output total adds exactly the remaining amounts to the
      running total, and ends on a total that fits. */
  lemma {:induction false} OutputTotalSum(outputs: seq<TxOutput>, i: nat, total: int)
    requires i <= |outputs|
    requires OutputTotal(outputs, i, total).Ok?
    ensures OutputTotal(outputs, i, total).value == total + SumOutputs(outputs, i)
    ensures FitsInt(total) ==> FitsInt(OutputTotal(outputs, i, total).value)
    decreases |outputs| - i
  {
    if i < |outputs| {
      var amount := AmountOf(outputs[i].amount);
      assert ParseInt(outputs[i].amount).Some? && FitsInt(total + amount);
      OutputTotalStep(outputs, i, total);
      OutputTotalSum(outputs, i + 1, total + amount);
    }
  }

  lemma OutputAmountsParseStep(outputs: seq<TxOutput>, i: nat)
    requires i < |outputs|
    ensures OutputAmountsParse(outputs, i) <==>
      ParseInt(outputs[i].amount).Some? && OutputAmountsParse(outputs, i + 1)
  {
    if ParseInt(outputs[i].amount).Some? && OutputAmountsParse(outputs, i + 1) {
      forall j | i <= j < |outputs| ensures ParseInt(outputs[j].amount).Some? {
        if j > i { assert i + 1 <= j; }
      }
    }
  }

  /** One turn of the output loop that neither fails to parse nor overflows. */
  lemma OutputTotalStep(outputs: seq<TxOutput>, i: nat, total: int)
    requires i < |outputs| && ParseInt(outputs[i].amount).Some?
    requires FitsInt(total + AmountOf(outputs[i].amount))
    ensures OutputTotal(outputs, i, total) == OutputTotal(outputs, i + 1, total + AmountOf(outputs[i].amount))
  {
  }

  /** The output total succeeds exactly when every remaining amount parses
      and no running total overflows. */
  lemma {:induction false} OutputTotalOk(outputs: seq<TxOutput>, i: nat, total: int)
    requires i <= |outputs|
    ensures OutputTotal(outputs, i, total).Ok? <==>
      OutputAmountsParse(outputs, i) && SumsFit(total, OutputAmounts(outputs, i))
    decreases |outputs| - i
  {
    if i < |outputs| {
      var amount := AmountOf(outputs[i].amount);
      OutputAmountsParseStep(outputs, i);
      if ParseInt(outputs[i].amount).Some? {
        assert OutputAmounts(outputs, i) == [amount] + OutputAmounts(outputs, i + 1);
        SumsFitCons(total, amount, OutputAmounts(outputs, i + 1));
        if FitsInt(total + amount) {
          OutputTotalStep(outputs, i, total);
          OutputTotalOk(outputs, i + 1, total + amount);
        } else {
          assert OutputTotal(outputs, i, total) == Err(IntOverflow);
        }
      } else {
        assert OutputTotal(outputs, i, total).Err?;
      }
    }
  }

  /** Below 2^32 outputs, the output writes add exactly the outputs' keys
      and every other key reads as before. */
  lemma {:induction false} StoreOutputsEffect(utxos: map<string, Utxo>, tx: UtxoTransaction, ctx: BlockCtx, i: nat)
    requires i <= |tx.outputs| <= U32
    ensures var after := StoreOutputs(utxos, tx, ctx, i);
      (WellKeyed(utxos) ==> WellKeyed(after))
      && after.Keys == utxos.Keys + OutputKeys(tx, i)
      && (forall k :: k in utxos && k !in OutputKeys(tx, i) ==> after[k] == utxos[k])
    decreases |tx.outputs| - i
  {
    if i < |tx.outputs| {
      StoreOutputsEffect(SetUtxo(utxos, NewUtxo(tx, i, ctx)), tx, ctx, i + 1);
    }
  }

  /** The output writes from `i` leave an entry none of them targets alone. */
  lemma {:induction false} StoreOutputsKeeps(utxos: map<string, Utxo>, tx: UtxoTransaction, ctx: BlockCtx, i: nat,
                                             k: string)
    requires i <= |tx.outputs|
    requires k in utxos && k !in OutputKeys(tx, i)
    ensures k in StoreOutputs(utxos, tx, ctx, i) && StoreOutputs(utxos, tx, ctx, i)[k] == utxos[k]
    decreases |tx.outputs| - i
  {
    if i < |tx.outputs| {
      StoreOutputsKeeps(SetUtxo(utxos, NewUtxo(tx, i, ctx)), tx, ctx, i + 1, k);
    }
  }

  /** After the output writes from `i`, each output `j >= i` is stored under its outpoint. */
  lemma {:induction false} StoreOutputsStored(utxos: map<string, Utxo>, tx: UtxoTransaction, ctx: BlockCtx, i: nat)
    requires i <= |tx.outputs| <= U32
    ensures var after := StoreOutputs(utxos, tx, ctx, i);
      forall j :: i <= j < |tx.outputs| ==>
        UtxoKey(tx.txHash, j) in after && after[UtxoKey(tx.txHash, j)] == NewUtxo(tx, j, ctx)
    decreases |tx.outputs| - i
  {
    if i < |tx.outputs| {
      var u1 := SetUtxo(utxos, NewUtxo(tx, i, ctx));
      StoreOutputsStored(u1, tx, ctx, i + 1);
      OutputKeyFresh(tx, i, i + 1);
      StoreOutputsKeeps(u1, tx, ctx, i + 1, UtxoKey(tx.txHash, i));
      var after1 := StoreOutputs(u1, tx, ctx, i + 1);
      assert StoreOutputs(utxos, tx, ctx, i) == after1;
      var key := UtxoKey(tx.txHash, i);
      assert KeyOf(NewUtxo(tx, i, ctx)) == key;
      assert key in u1 && u1[key] == NewUtxo(tx, i, ctx);
      assert key in after1 && after1[key] == u1[key];
      forall j | i <= j < |tx.outputs|
        ensures UtxoKey(tx.txHash, j) in after1 && after1[UtxoKey(tx.txHash, j)] == NewUtxo(tx, j, ctx)
      {
      }
    }
  }

  /** A successful `ProcessUTXOTransaction` ran both loops to the end, parsed
      the fee, added it to the output total without overflow, balanced, and
      stored what the output loop left. */
  lemma ProcessUtxoTransactionOk(c: Crypto, st: State, tx: UtxoTransaction, ctx: BlockCtx)
    returns (afterInputs: map<string, Utxo>)
    requires ProcessUtxoTransaction(c, st, tx, ctx).Ok?
    ensures SpendInputs(c, st.utxos, tx.inputs, tx.txHash, 0).Ok?
    ensures afterInputs == SpendInputs(c, st.utxos, tx.inputs, tx.txHash, 0).value.0
    ensures CreateOutputs(afterInputs, tx, ctx).Ok?
    ensures ParseInt(tx.fee).Some?
    ensures FitsInt(CreateOutputs(afterInputs, tx, ctx).value.1 + ParseInt(tx.fee).value)
    ensures SpendInputs(c, st.utxos, tx.inputs, tx.txHash, 0).value.1
      == CreateOutputs(afterInputs, tx, ctx).value.1 + ParseInt(tx.fee).value
    ensures ProcessUtxoTransaction(c, st, tx, ctx).value.utxos == CreateOutputs(afterInputs, tx, ctx).value.0
  {
    afterInputs := SpendInputs(c, st.utxos, tx.inputs, tx.txHash, 0).value.0;
  }

  /** What a successful `ProcessUTXOTransaction` checked: the inputs named
      stored, unspent outputs, each at most once, and were correctly signed;
      all amounts and the fee parse, no running total overflows, and they
      balance. */
  lemma ProcessUtxoTransactionSound(c: Crypto, st: State, tx: UtxoTransaction, ctx: BlockCtx)
    requires WellKeyed(st.utxos)
    requires ProcessUtxoTransaction(c, st, tx, ctx).Ok?
    ensures InputsSpendable(st.utxos, tx.inputs) && InputsSigned(c, st.utxos, tx.inputs, tx.txHash)
    ensures forall j :: 0 <= j < |tx.inputs| ==> ParseInt(st.utxos[InputKey(tx.inputs[j])].amount).Some?
    ensures OutputAmountsParse(tx.outputs, 0) && ParseInt(tx.fee).Some?
    ensures SumsFit(0, InputAmounts(st.utxos, tx.inputs)) && SumsFit(0, OutputAmounts(tx.outputs, 0))
    ensures FitsInt(SumInputs(st.utxos, tx.inputs))
    ensures SumInputs(st.utxos, tx.inputs) == SumOutputs(tx.outputs, 0) + AmountOf(tx.fee)
  {
    var afterInputs := ProcessUtxoTransactionOk(c, st, tx, ctx);
    SpendInputsChecked(c, st.utxos, tx.inputs, tx.txHash, 0);
    SpendInputsTotal(c, st.utxos, tx.inputs, tx.txHash, 0);
  }

  /** The converse: a transaction whose inputs name stored, unspent outputs,
      each once and correctly signed, whose amounts and fee parse, whose
      running input and output totals never leave the `sdk.Int` range, and
      whose input sum is the output sum plus the fee, is accepted. */
  lemma ProcessUtxoTransactionComplete(c: Crypto, st: State, tx: UtxoTransaction, ctx: BlockCtx)
    requires WellKeyed(st.utxos)
    requires InputsSpendable(st.utxos, tx.inputs) && InputsSigned(c, st.utxos, tx.inputs, tx.txHash)
    requires forall j :: 0 <= j < |tx.inputs| ==> ParseInt(st.utxos[InputKey(tx.inputs[j])].amount).Some?
    requires OutputAmountsParse(tx.outputs, 0) && ParseInt(tx.fee).Some?
    requires SumsFit(0, InputAmounts(st.utxos, tx.inputs)) && SumsFit(0, OutputAmounts(tx.outputs, 0))
    requires SumInputs(st.utxos, tx.inputs) == SumOutputs(tx.outputs, 0) + AmountOf(tx.fee)
    ensures ProcessUtxoTransaction(c, st, tx, ctx).Ok?
  {
    SpendInputsComplete(c, st.utxos, tx.inputs, tx.txHash, 0);
    SpendInputsTotal(c, st.utxos, tx.inputs, tx.txHash, 0);
    var afterInputs := SpendInputs(c, st.utxos, tx.inputs, tx.txHash, 0).value.0;
  }

  /** Balance alone is not enough: two outputs of 2^256 - 1 overflow the
      running output total, so a transaction with no inputs whose first two
      outputs carry that amount is refused, even when later outputs of
      -(2^256 - 1) make it balance. */
  lemma OutputTotalOverflows(c: Crypto, st: State, tx: UtxoTransaction, ctx: BlockCtx)
    requires |tx.inputs| == 0 && |tx.outputs| >= 2
    requires ParseInt(tx.outputs[0].amount) == Some(IntBound - 1)
    requires ParseInt(tx.outputs[1].amount) == Some(IntBound - 1)
    ensures ProcessUtxoTransaction(c, st, tx, ctx) == Err(IntOverflow)
  {
    assert OutputTotal(tx.outputs, 0, 0) == OutputTotal(tx.outputs, 1, IntBound - 1);
    assert OutputTotal(tx.outputs, 1, IntBound - 1) == Err(IntOverflow);
  }

  /** What a successful `ProcessUTXOTransaction` wrote: every input is spent
      afterwards unless an output of the same transaction took its key;
      output `i` is stored unspent under `(TxHash, i)` with its address,
      amount and script; nothing else moved. */
  lemma ProcessUtxoTransactionEffect(c: Crypto, st: State, tx: UtxoTransaction, ctx: BlockCtx)
    requires WellKeyed(st.utxos) && |tx.outputs| <= U32
    requires ProcessUtxoTransaction(c, st, tx, ctx).Ok?
    ensures forall j :: 0 <= j < |tx.inputs| ==> InputKey(tx.inputs[j]) in st.utxos
    ensures var st' := ProcessUtxoTransaction(c, st, tx, ctx).value;
      WellKeyed(st'.utxos)
      && st'.utxos.Keys == st.utxos.Keys + OutputKeys(tx, 0)
      && (forall j :: 0 <= j < |tx.inputs| && InputKey(tx.inputs[j]) !in OutputKeys(tx, 0) ==>
            st'.utxos[InputKey(tx.inputs[j])] == st.utxos[InputKey(tx.inputs[j])].(isSpent := true))
      && (forall k :: k in st.utxos && k !in InputKeys(tx.inputs) && k !in OutputKeys(tx, 0) ==>
            st'.utxos[k] == st.utxos[k])
    ensures var st' := ProcessUtxoTransaction(c, st, tx, ctx).value;
      forall i :: 0 <= i < |tx.outputs| ==>
        UtxoKey(tx.txHash, i) in st'.utxos && st'.utxos[UtxoKey(tx.txHash, i)] == NewUtxo(tx, i, ctx)
  {
    var afterInputs := ProcessUtxoTransactionOk(c, st, tx, ctx);
    SpendInputsChecked(c, st.utxos, tx.inputs, tx.txHash, 0);
    SpendInputsEffect(c, st.utxos, tx.inputs, tx.txHash, 0);
    StoreOutputsEffect(afterInputs, tx, ctx, 0);
    StoreOutputsStored(afterInputs, tx, ctx, 0);
    forall j | 0 <= j < |tx.inputs| ensures InputKey(tx.inputs[j]) in InputKeys(tx.inputs) {
      InputKeysHas(tx.inputs, j);
    }
  }

  /** An outpoint named twice in one transaction is refused: the first use
      marks it spent before the second reads it. */
  lemma DoubleSpendRejected(c: Crypto, st: State, tx: UtxoTransaction, ctx: BlockCtx, a: nat, b: nat)
    requires WellKeyed(st.utxos)
    requires a < b < |tx.inputs| && InputKey(tx.inputs[a]) == InputKey(tx.inputs[b])
    ensures ProcessUtxoTransaction(c, st, tx, ctx).Err?
  {
    if SpendInputs(c, st.utxos, tx.inputs, tx.txHash, 0).Ok? {
      SpendInputsChecked(c, st.utxos, tx.inputs, tx.txHash, 0);
      assert false;
    }
  }

  /** An input whose outpoint is absent, or already spent, makes the
      transaction fail, wherever it stands among the inputs. */
  lemma UnspendableInputRejected(c: Crypto, st: State, tx: UtxoTransaction, ctx: BlockCtx, j: nat)
    requires WellKeyed(st.utxos)
    requires j < |tx.inputs|
    requires InputKey(tx.inputs[j]) !in st.utxos || st.utxos[InputKey(tx.inputs[j])].isSpent
    ensures ProcessUtxoTransaction(c, st, tx, ctx).Err?
  {
    if SpendInputs(c, st.utxos, tx.inputs, tx.txHash, 0).Ok? {
      SpendInputsChecked(c, st.utxos, tx.inputs, tx.txHash, 0);
      assert false;
    }
  }

  // ------------------------------------------------------------ shielded

  /** `append(commitment, Uint64ToBigEndian(uint64(height))...)`. */
  function CommitmentKey(commitment: seq<Byte>, height: nat): (key: seq<Byte>)
    ensures |key| == |commitment| + 8 && key[..|commitment|] == commitment
  {
    commitment + BE(height % U64, 8)
  }

  /** The key determines both the commitment and the (wrapped) height. */
  lemma CommitmentKeyInjective(c1: seq<Byte>, h1: nat, c2: seq<Byte>, h2: nat)
    requires CommitmentKey(c1, h1) == CommitmentKey(c2, h2)
    ensures c1 == c2 && h1 % U64 == h2 % U64
  {
    var k := CommitmentKey(c1, h1);
    assert |c1| == |c2|;
    assert c1 == k[..|c1|] && c2 == k[..|c2|];
    assert BE(h1 % U64, 8) == k[|c1|..] == BE(h2 % U64, 8);
    Pow256Widths();
    FromBEOfBE(h1 % U64, 8);
    FromBEOfBE(h2 % U64, 8);
  }

  function Concat(parts: seq<seq<Byte>>): (r: seq<Byte>)
    ensures |parts| > 0 ==> r == parts[0] + Concat(parts[1..])
  {
    if |parts| == 0 then [] else parts[0] + Concat(parts[1..])
  }

  /** `VerifyShieldedProof`: the public inputs are the nullifiers, then the
      commitments, then the block hash, concatenated. */
  function VerifyShieldedProof(c: Crypto, ctx: BlockCtx, tx: ShieldedTransaction): bool {
    c.verifyShieldedProof(tx.zkProof, Concat(tx.nullifiers) + Concat(tx.commitments) + ctx.blockHash)
  }

  /** The nullifier loop: refuse a nullifier already recorded, otherwise record it. */
  function RecordNullifiers(used: set<seq<Byte>>, nullifiers: seq<seq<Byte>>)
    : (r: Result<set<seq<Byte>>, KeeperError>)
    decreases |nullifiers|
    ensures r.Ok? ==> r.value == used + set n | n in nullifiers
    ensures r.Ok? <==>
      (forall j :: 0 <= j < |nullifiers| ==> nullifiers[j] !in used)
      && (forall a, b :: 0 <= a < b < |nullifiers| ==> nullifiers[a] != nullifiers[b])
  {
    if |nullifiers| == 0 then Ok(used)
    else if nullifiers[0] in used then Err(NullifierAlreadyUsed(nullifiers[0]))
    else
      var rest := RecordNullifiers(used + {nullifiers[0]}, nullifiers[1..]);
      assert forall j :: 0 < j < |nullifiers| ==> nullifiers[j] == nullifiers[1..][j - 1];
      rest
  }

  function AddCommitments(keys: set<seq<Byte>>, commitments: seq<seq<Byte>>, height: nat): (r: set<seq<Byte>>)
    ensures r == keys + set cm | cm in commitments :: CommitmentKey(cm, height)
    decreases |commitments|
  {
    if |commitments| == 0 then keys
    else AddCommitments(keys + {CommitmentKey(commitments[0], height)}, commitments[1..], height)
  }

  /** `ProcessShieldedTransaction`. */
  function ProcessShieldedTransaction(c: Crypto, st: State, tx: ShieldedTransaction, ctx: BlockCtx)
    : (r: Result<State, KeeperError>)
    ensures !VerifyShieldedProof(c, ctx, tx) ==> r == Err(InvalidShieldedProof)
    ensures r.Ok? <==>
      (VerifyShieldedProof(c, ctx, tx)
       && (forall j :: 0 <= j < |tx.nullifiers| ==> tx.nullifiers[j] !in st.nullifiers)
       && (forall a, b :: 0 <= a < b < |tx.nullifiers| ==> tx.nullifiers[a] != tx.nullifiers[b]))
    ensures r.Ok? ==>
      r.value.nullifiers == st.nullifiers + (set n | n in tx.nullifiers)
      && r.value.commitments == st.commitments + (set cm | cm in tx.commitments :: CommitmentKey(cm, ctx.height))
      && r.value.shieldedTransactions == st.shieldedTransactions[tx.txHash := tx]
      && r.value.utxos == st.utxos
  {
    if !VerifyShieldedProof(c, ctx, tx) then Err(InvalidShieldedProof)
    else match RecordNullifiers(st.nullifiers, tx.nullifiers)
      case Err(e) => Err(e)
      case Ok(used) =>
        Ok(st.(nullifiers := used,
               commitments := AddCommitments(st.commitments, tx.commitments, ctx.height),
               shieldedTransactions := st.shieldedTransactions[tx.txHash := tx]))
  }

  /** A nullifier cannot be spent twice: once a shielded transaction
      succeeds, any later one reusing one of its nullifiers fails. */
  lemma NullifierReplayRejected(c: Crypto, st: State, tx1: ShieldedTransaction, tx2: ShieldedTransaction,
                                ctx1: BlockCtx, ctx2: BlockCtx, j: nat)
    requires j < |tx2.nullifiers| && tx2.nullifiers[j] in tx1.nullifiers
    ensures ProcessShieldedTransaction(c, st, tx1, ctx1).Ok? ==>
      ProcessShieldedTransaction(c, ProcessShieldedTransaction(c, st, tx1, ctx1).value, tx2, ctx2).Err?
  {
  }

  // ------------------------------------------------------------ mining

  /** `GetHardwareBonus`. */
  function HardwareBonus(hardwareId: string): (bonus: nat)
    ensures bonus > 0 <==> hardwareId in {"nvidia-a100", "nvidia-h100", "xilinx-fpga"}
    ensures bonus <= 15_000_000_000_000_000
  {
    match hardwareId
    case "nvidia-a100" => 5_000_000_000_000_000
    case "nvidia-h100" => 10_000_000_000_000_000
    case "xilinx-fpga" => 15_000_000_000_000_000
    case _ => 0
  }

  /** `DistributeMiningReward`: mint base reward plus bonus of "z" to the
      module, then send it to the miner. The result is the bank calls made. */
  function DistributeMiningReward(fails: BankCall -> bool, ctx: BlockCtx, miner: Address, hardwareId: string)
    : (r: Result<seq<BankCall>, KeeperError>)
    ensures var amount := Rewards.RewardAt(ctx.height) + HardwareBonus(hardwareId);
      r.Ok? ==> r.value == [Mint(ModuleName, "z", amount), SendFromModule(ModuleName, miner, "z", amount)]
    ensures r.Err? ==> r.error.BankFailure?
  {
    var amount := Rewards.CappedReward(ctx.height) + HardwareBonus(hardwareId);
    var mint := Mint(ModuleName, "z", amount);
    var send := SendFromModule(ModuleName, miner, "z", amount);
    if fails(mint) then Err(BankFailure(mint))
    else if fails(send) then Err(BankFailure(send))
    else Ok([mint, send])
  }

  /** `MineBlock`. */
  function MineBlock(c: Crypto, cfg: Config, st: State, proof: MiningProof, ctx: BlockCtx,
                     parseAddress: string -> Option<Address>, fails: BankCall -> bool)
    : (r: Result<seq<BankCall>, KeeperError>)
    requires DifficultyStore.Readable(st.difficulty)
    ensures !cfg.hardwareAcceleration ==> r == Err(HardwareAccelerationUnavailable)
    ensures cfg.hardwareAcceleration && proof.hardwareId !in cfg.supportedDevices ==>
      r == Err(UnsupportedDevice(proof.hardwareId))
    ensures r.Ok? ==>
      (c.verifyMiningProof(proof)
       && proof.difficulty >= DifficultyStore.GetDifficulty(st.difficulty)
       && parseAddress(proof.minerAddress).Some?
       && var amount := Rewards.RewardAt(ctx.height) + HardwareBonus(proof.hardwareId);
          r.value == [Mint(ModuleName, "z", amount),
                      SendFromModule(ModuleName, parseAddress(proof.minerAddress).value, "z", amount)])
  {
    if !cfg.hardwareAcceleration then Err(HardwareAccelerationUnavailable)
    else if proof.hardwareId !in cfg.supportedDevices then Err(UnsupportedDevice(proof.hardwareId))
    else if !c.verifyMiningProof(proof) then Err(InvalidMiningProof)
    else
      var current := DifficultyStore.GetDifficulty(st.difficulty);
      if proof.difficulty < current then Err(InsufficientDifficulty(proof.difficulty, current))
      else match parseAddress(proof.minerAddress)
        case None => Err(InvalidMinerAddress(proof.minerAddress))
        case Some(miner) => DistributeMiningReward(fails, ctx, miner, proof.hardwareId)
  }

  /** With the configuration `NewKeeper` installs, a successful block pays a
      supported device, whose bonus is therefore positive, and an unset
      difficulty entry demands at least 1 000 000. */
  lemma MineBlockWithDefaults(c: Crypto, st: State, proof: MiningProof, ctx: BlockCtx,
                              parseAddress: string -> Option<Address>, fails: BankCall -> bool)
    requires st.difficulty.None?
    requires MineBlock(c, NewKeeperConfig(), st, proof, ctx, parseAddress, fails).Ok?
    ensures HardwareBonus(proof.hardwareId) > 0
    ensures proof.difficulty >= DifficultyStore.DefaultDifficulty
  {
  }

  /** `GetDifficulty` / `SetDifficulty` on the keeper's state. */
  function GetDifficulty(st: State): (d: nat)
    requires DifficultyStore.Readable(st.difficulty)
    ensures st.difficulty.None? ==> d == DifficultyStore.DefaultDifficulty
  {
    DifficultyStore.GetDifficulty(st.difficulty)
  }

  function SetDifficulty(st: State, d: nat): (st': State)
    requires d < U64
    ensures DifficultyStore.Readable(st'.difficulty) && GetDifficulty(st') == d
    ensures st'.utxos == st.utxos && st'.nullifiers == st.nullifiers
  {
    DifficultyStore.SetThenGet(d);
    st.(difficulty := DifficultyStore.SetDifficulty(d))
  }
}
