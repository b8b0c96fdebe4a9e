/** The oracle bridge's own in-memory UTXO set (`UTXOSidechainBridge.utxoSet`
    and `ProcessUTXOTransaction`). Unlike the Z-chain keeper, the bridge keeps
    its outputs in a Go map of pointers and changes them in place: an input is
    marked spent the moment it is checked, outputs are inserted before the
    balance is checked, and an error returns without undoing either. Amounts
    are `sdk.Int` values, so they are plain integers here; adding them is
    `sdk.Int.Add`, whose overflow panic unwinds out of the call and leaves
    the map as far as it was written. */
module BridgeUtxo {
  import opened Wrappers
  import opened Bytes
  import opened Chain
  import opened Decimal
  import UtxoTypes
  import UtxoKeeper

  /** An output in the bridge's map. */
  datatype Utxo = Utxo(
    txHash: string,
    outputIndex: nat,
    address: string,
    amount: int,
    blockHeight: int,
    isSpent: bool,
    scriptPubkey: seq<Byte>,
    createdAt: int)

  datatype Input = Input(prevTxHash: string, prevOutputIndex: nat, scriptSig: seq<Byte>, witnessData: seq<Byte>)

  datatype Output = Output(amount: int, scriptPubkey: seq<Byte>, address: string)

  datatype Transaction = Transaction(
    txHash: string,
    inputs: seq<Input>,
    outputs: seq<Output>,
    fee: int,
    lockTime: nat,
    zkProof: seq<Byte>,
    timestamp: int)

  datatype UtxoError =
    | UtxoNotFound(key: string)
    | UtxoAlreadySpent(key: string)
    | InvalidScriptSignature
    | InputOutputMismatch(input: int, output: int, fee: int)
      /** `sdk.Int.Add` panicked on a running total. */
    | IntOverflow

  type UtxoSet = map<string, Utxo>

  /** `fmt.Sprintf("%s:%d", input.PrevTxHash, input.PrevOutputIndex)`. */
  function InputKey(input: Input): string {
    UtxoTypes.UtxoKey(input.prevTxHash, input.prevOutputIndex)
  }

  // ------------------------------------------------------------ signatures

  /** `verifyScriptSig`: a script shorter than 64 bytes is refused; otherwise
      its first 64 bytes are the signature and the rest the public key, and
      the signature must be valid over the SHA-256 of the transaction hash. */
  function VerifyScriptSig(c: UtxoKeeper.Crypto, scriptSig: seq<Byte>, scriptPubkey: seq<Byte>, txHash: string)
    : (ok: bool)
    ensures ok ==> |scriptSig| >= 64
  {
    if |scriptSig| < 64 then false
    else c.verifySignature(scriptSig[64..], c.sha256Text(txHash), scriptSig[..64])
  }

  /** The locking script is never read: a signature made with any key at all,
      followed by that key, unlocks every output, whatever its script. */
  lemma AnyKeyUnlocks(c: UtxoKeeper.Crypto, signature: seq<Byte>, pubkey: seq<Byte>,
                      scriptPubkey: seq<Byte>, txHash: string)
    requires |signature| == 64
    requires c.verifySignature(pubkey, c.sha256Text(txHash), signature)
    ensures VerifyScriptSig(c, signature + pubkey, scriptPubkey, txHash)
  {
    assert (signature + pubkey)[..64] == signature;
    assert (signature + pubkey)[64..] == pubkey;
  }

  /** Against the Z-chain keeper's check: the two agree whenever the output's
      script is non-empty; for an empty script the keeper refuses and the
      bridge still decides by the signature alone. */
  lemma ScriptSigAgreesWithKeeper(c: UtxoKeeper.Crypto, scriptSig: seq<Byte>, scriptPubkey: seq<Byte>, txHash: string)
    ensures |scriptPubkey| > 0 ==>
      VerifyScriptSig(c, scriptSig, scriptPubkey, txHash) == UtxoKeeper.VerifyScriptSig(c, scriptSig, scriptPubkey, txHash)
    ensures UtxoKeeper.VerifyScriptSig(c, scriptSig, scriptPubkey, txHash) ==>
      VerifyScriptSig(c, scriptSig, scriptPubkey, txHash)
    ensures |scriptPubkey| == 0 ==> !UtxoKeeper.VerifyScriptSig(c, scriptSig, scriptPubkey, txHash)
  {
  }

  // ------------------------------------------------------------ the input loop

  /** Every input names a stored, unspent output whose signature checks, and
      no output is named twice. */
  ghost predicate Spendable(c: UtxoKeeper.Crypto, utxos: UtxoSet, inputs: seq<Input>, txHash: string) {
    (forall j :: 0 <= j < |inputs| ==>
       InputKey(inputs[j]) in utxos && !utxos[InputKey(inputs[j])].isSpent
       && VerifyScriptSig(c, inputs[j].scriptSig, utxos[InputKey(inputs[j])].scriptPubkey, txHash))
    && (forall a, b :: 0 <= a < b < |inputs| ==> InputKey(inputs[a]) != InputKey(inputs[b]))
  }

  /** The amount of the output stored under `key`. A missing output counts
      as nothing: the loop refuses it before it would add anything. */
  function StoredAmount(utxos: UtxoSet, key: string): int {
    if key in utxos then utxos[key].amount else 0
  }

  /** The amounts of the outputs the inputs name, as stored before the loop. */
  ghost function SumInputs(utxos: UtxoSet, inputs: seq<Input>): int {
    if |inputs| == 0 then 0
    else StoredAmount(utxos, InputKey(inputs[0])) + SumInputs(utxos, inputs[1..])
  }

  /** The same amounts, in loop order. */
  ghost function InputAmounts(utxos: UtxoSet, inputs: seq<Input>): seq<int> {
    if |inputs| == 0 then []
    else [StoredAmount(utxos, InputKey(inputs[0]))] + InputAmounts(utxos, inputs[1..])
  }

  /** What the input loop leaves: the set as changed so far, the amount
      totalled, and how it ended. */
  datatype Spent = Spent(utxos: UtxoSet, total: int, outcome: Outcome<UtxoError>)

  /** One turn of the input loop, up to the write: why `input` is refused
      with running total `total`, or `None` when its output is stored,
      unspent and correctly signed and adding its amount does not panic. */
  function Refusal(c: UtxoKeeper.Crypto, utxos: UtxoSet, input: Input, txHash: string, total: int)
    : (r: Option<UtxoError>)
    ensures r.None? <==>
      InputKey(input) in utxos && !utxos[InputKey(input)].isSpent
      && VerifyScriptSig(c, input.scriptSig, utxos[InputKey(input)].scriptPubkey, txHash)
      && FitsInt(total + utxos[InputKey(input)].amount)
    ensures InputKey(input) !in utxos ==> r == Some(UtxoNotFound(InputKey(input)))
    ensures r.Some? ==> !r.value.InputOutputMismatch?
  {
    var key := InputKey(input);
    if key !in utxos then Some(UtxoNotFound(key))
    else
      var u := utxos[key];
      if u.isSpent then Some(UtxoAlreadySpent(key))
      else if !VerifyScriptSig(c, input.scriptSig, u.scriptPubkey, txHash) then Some(InvalidScriptSignature)
      else if AddInt(total, u.amount).None? then Some(IntOverflow)
      else None
  }

  /** The input loop: look each input's output up, refuse it when missing,
      spent or wrongly signed, and otherwise add its amount to the running
      total `total` and mark it spent in place before the next input is
      read. A refusal, or the panic of an overflowing addition, ends the loop
      at once; the inputs marked before it stay marked. */
  function SpendInputs(c: UtxoKeeper.Crypto, utxos: UtxoSet, inputs: seq<Input>, txHash: string, total: int): (r: Spent)
    ensures r.utxos.Keys == utxos.Keys
    ensures r.outcome.Fail? ==> !r.outcome.error.InputOutputMismatch?
    ensures |inputs| > 0 && InputKey(inputs[0]) !in utxos ==>
      r == Spent(utxos, total, Fail(UtxoNotFound(InputKey(inputs[0]))))
    ensures r.outcome.Pass? ==>
      forall j :: 0 <= j < |inputs| ==>
        InputKey(inputs[j]) in utxos && !utxos[InputKey(inputs[j])].isSpent
        && VerifyScriptSig(c, inputs[j].scriptSig, utxos[InputKey(inputs[j])].scriptPubkey, txHash)
    decreases |inputs|
  {
    if |inputs| == 0 then Spent(utxos, total, Pass)
    else match Refusal(c, utxos, inputs[0], txHash, total)
      case Some(e) => Spent(utxos, total, Fail(e))
      case None =>
        var key := InputKey(inputs[0]);
        var rest := SpendInputs(c, utxos[key := utxos[key].(isSpent := true)], inputs[1..], txHash,
                                total + utxos[key].amount);
        assert forall j :: 1 <= j < |inputs| ==> inputs[j] == inputs[1..][j - 1];
        rest
  }

  /** One turn of the loop that got past the first input. */
  lemma SpendInputsStep(c: UtxoKeeper.Crypto, utxos: UtxoSet, inputs: seq<Input>, txHash: string, total: int)
    returns (u1: UtxoSet)
    requires |inputs| > 0
    requires InputKey(inputs[0]) in utxos && !utxos[InputKey(inputs[0])].isSpent
    requires VerifyScriptSig(c, inputs[0].scriptSig, utxos[InputKey(inputs[0])].scriptPubkey, txHash)
    requires FitsInt(total + utxos[InputKey(inputs[0])].amount)
    ensures u1 == utxos[InputKey(inputs[0]) := utxos[InputKey(inputs[0])].(isSpent := true)]
    ensures SpendInputs(c, utxos, inputs, txHash, total)
      == SpendInputs(c, u1, inputs[1..], txHash, total + utxos[InputKey(inputs[0])].amount)
  {
    u1 := utxos[InputKey(inputs[0]) := utxos[InputKey(inputs[0])].(isSpent := true)];
  }

  /** The loop changes no entry but its spent flag. */
  lemma {:induction false} SpendInputsFlags(c: UtxoKeeper.Crypto, utxos: UtxoSet, inputs: seq<Input>, txHash: string,
                                            total: int, k: string)
    requires k in utxos
    ensures var after := SpendInputs(c, utxos, inputs, txHash, total).utxos;
      after[k] == utxos[k] || after[k] == utxos[k].(isSpent := true)
    decreases |inputs|
  {
    if |inputs| > 0 {
      if Refusal(c, utxos, inputs[0], txHash, total).None? {
        var u1 := SpendInputsStep(c, utxos, inputs, txHash, total);
        SpendInputsFlags(c, u1, inputs[1..], txHash, total + utxos[InputKey(inputs[0])].amount, k);
      } else {
        SpendInputsRefused(c, utxos, inputs, txHash, total);
      }
    }
  }

  /** A loop that succeeds leaves the output each input names marked spent
      and otherwise as it was. */
  lemma {:induction false} SpendInputsMarks(c: UtxoKeeper.Crypto, utxos: UtxoSet, inputs: seq<Input>, txHash: string,
                                            total: int, j: nat)
    requires SpendInputs(c, utxos, inputs, txHash, total).outcome.Pass?
    requires j < |inputs|
    ensures InputKey(inputs[j]) in utxos
    ensures SpendInputs(c, utxos, inputs, txHash, total).utxos[InputKey(inputs[j])]
      == utxos[InputKey(inputs[j])].(isSpent := true)
    decreases |inputs|
  {
    var k0 := InputKey(inputs[0]);
    var rest := inputs[1..];
    assert Refusal(c, utxos, inputs[0], txHash, total).None?;
    var u1 := SpendInputsStep(c, utxos, inputs, txHash, total);
    if j == 0 {
      SpendInputsFlags(c, u1, rest, txHash, total + utxos[k0].amount, k0);
    } else {
      assert rest[j - 1] == inputs[j];
      SpendInputsMarks(c, u1, rest, txHash, total + utxos[k0].amount, j - 1);
      assert !u1[InputKey(inputs[j])].isSpent;
    }
  }

  /** The input sum reads only the amounts. */
  lemma {:induction false} SumInputsFrame(m1: UtxoSet, m2: UtxoSet, inputs: seq<Input>)
    requires forall j :: 0 <= j < |inputs| ==> StoredAmount(m1, InputKey(inputs[j])) == StoredAmount(m2, InputKey(inputs[j]))
    ensures SumInputs(m1, inputs) == SumInputs(m2, inputs)
    ensures InputAmounts(m1, inputs) == InputAmounts(m2, inputs)
  {
    if |inputs| > 0 {
      assert forall j :: 0 <= j < |inputs| - 1 ==> inputs[1..][j] == inputs[j + 1];
      SumInputsFrame(m1, m2, inputs[1..]);
    }
  }

  /** The loop succeeds exactly on spendable inputs whose running totals
      all fit in an `sdk.Int`, and then adds the amounts of the outputs they
      name to the total. */
  lemma SpendInputsExact(c: UtxoKeeper.Crypto, utxos: UtxoSet, inputs: seq<Input>, txHash: string, total: int)
    ensures SpendInputs(c, utxos, inputs, txHash, total).outcome.Pass? <==>
      Spendable(c, utxos, inputs, txHash) && SumsFit(total, InputAmounts(utxos, inputs))
    ensures SpendInputs(c, utxos, inputs, txHash, total).outcome.Pass? ==>
      SpendInputs(c, utxos, inputs, txHash, total).total == total + SumInputs(utxos, inputs)
      && (FitsInt(total) ==> FitsInt(SpendInputs(c, utxos, inputs, txHash, total).total))
  {
    if SpendInputs(c, utxos, inputs, txHash, total).outcome.Pass? {
      SpendInputsSound(c, utxos, inputs, txHash, total);
      SpendInputsSums(c, utxos, inputs, txHash, total);
    }
    if Spendable(c, utxos, inputs, txHash) && SumsFit(total, InputAmounts(utxos, inputs)) {
      SpendInputsComplete(c, utxos, inputs, txHash, total);
    }
  }

  /** A loop that succeeds saw spendable inputs. */
  lemma {:induction false} SpendInputsSound(c: UtxoKeeper.Crypto, utxos: UtxoSet, inputs: seq<Input>, txHash: string,
                                            total: int)
    requires SpendInputs(c, utxos, inputs, txHash, total).outcome.Pass?
    ensures Spendable(c, utxos, inputs, txHash)
    decreases |inputs|
  {
    if |inputs| > 0 {
      var k0 := InputKey(inputs[0]);
      var rest := inputs[1..];
      assert Refusal(c, utxos, inputs[0], txHash, total).None?;
      var u1 := SpendInputsStep(c, utxos, inputs, txHash, total);
      SpendInputsSound(c, u1, rest, txHash, total + utxos[k0].amount);
      forall j | 0 <= j < |rest| ensures InputKey(rest[j]) != k0 {
        assert !u1[InputKey(rest[j])].isSpent;
      }
      forall a, b | 0 <= a < b < |inputs| ensures InputKey(inputs[a]) != InputKey(inputs[b]) {
        assert inputs[b] == rest[b - 1];
        if a > 0 {
          assert inputs[a] == rest[a - 1];
        }
      }
    }
  }

  /** A loop that succeeds never overflowed, and adds the amounts of the
      outputs its inputs name to the total. */
  lemma {:induction false} SpendInputsSums(c: UtxoKeeper.Crypto, utxos: UtxoSet, inputs: seq<Input>, txHash: string,
                                           total: int)
    requires SpendInputs(c, utxos, inputs, txHash, total).outcome.Pass?
    ensures SumsFit(total, InputAmounts(utxos, inputs))
    ensures SpendInputs(c, utxos, inputs, txHash, total).total == total + SumInputs(utxos, inputs)
    ensures FitsInt(total) ==> FitsInt(SpendInputs(c, utxos, inputs, txHash, total).total)
    decreases |inputs|
  {
    if |inputs| > 0 {
      var k0 := InputKey(inputs[0]);
      var rest := inputs[1..];
      assert Refusal(c, utxos, inputs[0], txHash, total).None?;
      var amount := utxos[k0].amount;
      var u1 := SpendInputsStep(c, utxos, inputs, txHash, total);
      SpendInputsSums(c, u1, rest, txHash, total + amount);
      SumInputsFrame(u1, utxos, rest);
      assert InputAmounts(u1, rest) == InputAmounts(utxos, rest);
      assert SumsFit(total + amount, InputAmounts(u1, rest));
      assert SumsFit(total + amount, InputAmounts(utxos, rest));
      assert FitsInt(total + amount);
      assert InputAmounts(utxos, inputs) == [amount] + InputAmounts(utxos, rest);
      SumsFitCons(total, amount, InputAmounts(utxos, rest));
    }
  }

  /** A loop over spendable inputs whose running totals fit succeeds. */
  lemma {:induction false} SpendInputsComplete(c: UtxoKeeper.Crypto, utxos: UtxoSet, inputs: seq<Input>, txHash: string,
                                               total: int)
    requires Spendable(c, utxos, inputs, txHash) && SumsFit(total, InputAmounts(utxos, inputs))
    ensures SpendInputs(c, utxos, inputs, txHash, total).outcome.Pass?
    decreases |inputs|
  {
    if |inputs| > 0 {
      var k0 := InputKey(inputs[0]);
      var rest := inputs[1..];
      var amount := utxos[k0].amount;
      assert InputAmounts(utxos, inputs) == [amount] + InputAmounts(utxos, rest);
      SumsFitCons(total, amount, InputAmounts(utxos, rest));
      var u1 := SpendInputsStep(c, utxos, inputs, txHash, total);
      SpendableRest(c, utxos, inputs, txHash);
      SumInputsFrame(u1, utxos, rest);
      assert SumsFit(total + amount, InputAmounts(u1, rest));
      SpendInputsComplete(c, u1, rest, txHash, total + amount);
    }
  }

  /** Spending the first of spendable inputs leaves the rest spendable,
      each reading the entry it read before. */
  lemma SpendableRest(c: UtxoKeeper.Crypto, utxos: UtxoSet, inputs: seq<Input>, txHash: string)
    requires |inputs| > 0 && Spendable(c, utxos, inputs, txHash)
    ensures var k0 := InputKey(inputs[0]);
      var u1 := utxos[k0 := utxos[k0].(isSpent := true)];
      Spendable(c, u1, inputs[1..], txHash)
      && forall j :: 0 <= j < |inputs| - 1 ==> u1[InputKey(inputs[1..][j])] == utxos[InputKey(inputs[1..][j])]
  {
  }

  // ------------------------------------------------------------ the output loop

  /** The output stored for output `i` of `tx`; `uint32(i)` wraps. */
  function NewUtxo(tx: Transaction, i: nat, ctx: BlockCtx): (u: Utxo)
    requires i < |tx.outputs|
    ensures !u.isSpent && u.txHash == tx.txHash && u.outputIndex < U32
    ensures u.address == tx.outputs[i].address && u.amount == tx.outputs[i].amount
    ensures u.scriptPubkey == tx.outputs[i].scriptPubkey
    ensures i < U32 ==> u.outputIndex == i
  {
    Utxo(tx.txHash, i % U32, tx.outputs[i].address, tx.outputs[i].amount, ctx.height, false,
         tx.outputs[i].scriptPubkey, ctx.timeUnix)
  }

  /** The key output `i` is stored under: `fmt.Sprintf("%s:%d", tx.TxHash, i)`
      with the unwrapped index. */
  function OutputKey(tx: Transaction, i: nat): string {
    UtxoTypes.UtxoKey(tx.txHash, i)
  }

  /** The keys of the outputs from `i` on. */
  ghost function OutputKeys(tx: Transaction, i: nat): set<string>
    decreases |tx.outputs| - i
  {
    if i >= |tx.outputs| then {} else {OutputKey(tx, i)} + OutputKeys(tx, i + 1)
  }

  /** The amounts of the outputs from `i` on. */
  function SumOutputs(outputs: seq<Output>, i: nat): int
    decreases |outputs| - i
  {
    if i >= |outputs| then 0 else outputs[i].amount + SumOutputs(outputs, i + 1)
  }

  /** The output amounts, in loop order. */
  function OutputAmounts(outputs: seq<Output>, i: nat): seq<int>
    decreases |outputs| - i
  {
    if i >= |outputs| then [] else [outputs[i].amount] + OutputAmounts(outputs, i + 1)
  }

  /** What the output loop leaves: the set as changed so far, the amount
      totalled, and whether an addition panicked. */
  datatype Created = Created(utxos: UtxoSet, total: int, overflow: bool)

  /** The output loop from index `i` on, with running total `total`: add
      each amount and store the new output. Only the addition can fail: its
      panic stops the loop before output `i` is stored, and the outputs
      stored before it stay stored. */
  function CreateOutputs(utxos: UtxoSet, tx: Transaction, ctx: BlockCtx, i: nat, total: int): (r: Created)
    requires i <= |tx.outputs|
    ensures utxos.Keys <= r.utxos.Keys <= utxos.Keys + OutputKeys(tx, i)
    decreases |tx.outputs| - i
  {
    if i == |tx.outputs| then Created(utxos, total, false)
    else
      OutputKeysStep(tx, i);
      match AddInt(total, tx.outputs[i].amount)
      case None => Created(utxos, total, true)
      case Some(sum) => CreateOutputs(utxos[OutputKey(tx, i) := NewUtxo(tx, i, ctx)], tx, ctx, i + 1, sum)
  }

  /** The output loop panics exactly when a running total leaves the
      `sdk.Int` range; otherwise it stores every output from `i` on and adds
      their amounts to the total. */
  lemma CreateOutputsSums(utxos: UtxoSet, tx: Transaction, ctx: BlockCtx, i: nat, total: int)
    requires i <= |tx.outputs|
    ensures var r := CreateOutputs(utxos, tx, ctx, i, total);
      !r.overflow <==> SumsFit(total, OutputAmounts(tx.outputs, i))
    ensures var r := CreateOutputs(utxos, tx, ctx, i, total);
      !r.overflow ==>
        r.utxos.Keys == utxos.Keys + OutputKeys(tx, i)
        && r.total == total + SumOutputs(tx.outputs, i)
        && (FitsInt(total) ==> FitsInt(r.total))
  {
    CreateOutputsFits(utxos, tx, ctx, i, total);
    CreateOutputsTotals(utxos, tx, ctx, i, total);
  }

  /** The panic half of `CreateOutputsSums`, by induction on the outputs. */
  lemma {:induction false} CreateOutputsFits(utxos: UtxoSet, tx: Transaction, ctx: BlockCtx, i: nat, total: int)
    requires i <= |tx.outputs|
    ensures !CreateOutputs(utxos, tx, ctx, i, total).overflow <==> SumsFit(total, OutputAmounts(tx.outputs, i))
    decreases |tx.outputs| - i
  {
    if i < |tx.outputs| {
      var amount := tx.outputs[i].amount;
      var tail := OutputAmounts(tx.outputs, i + 1);
      assert OutputAmounts(tx.outputs, i) == [amount] + tail;
      SumsFitCons(total, amount, tail);
      if FitsInt(total + amount) {
        var u1 := CreateOutputsStep(utxos, tx, ctx, i, total);
        CreateOutputsFits(u1, tx, ctx, i + 1, total + amount);
      } else {
        assert CreateOutputs(utxos, tx, ctx, i, total).overflow;
      }
    } else {
      assert OutputAmounts(tx.outputs, i) == [];
      assert !CreateOutputs(utxos, tx, ctx, i, total).overflow;
    }
  }

  /** The store-and-total half of `CreateOutputsSums`. */
  lemma {:induction false} CreateOutputsTotals(utxos: UtxoSet, tx: Transaction, ctx: BlockCtx, i: nat, total: int)
    requires i <= |tx.outputs|
    ensures var r := CreateOutputs(utxos, tx, ctx, i, total);
      !r.overflow ==>
        r.utxos.Keys == utxos.Keys + OutputKeys(tx, i)
        && r.total == total + SumOutputs(tx.outputs, i)
        && (FitsInt(total) ==> FitsInt(r.total))
    decreases |tx.outputs| - i
  {
    if i == |tx.outputs| {
      assert OutputKeys(tx, i) == {};
    } else if FitsInt(total + tx.outputs[i].amount) {
      OutputKeysStep(tx, i);
      var u1 := CreateOutputsStep(utxos, tx, ctx, i, total);
      CreateOutputsTotals(u1, tx, ctx, i + 1, total + tx.outputs[i].amount);
      assert u1.Keys + OutputKeys(tx, i + 1) == utxos.Keys + OutputKeys(tx, i);
    } else {
      assert CreateOutputs(utxos, tx, ctx, i, total).overflow;
    }
  }

  /** One turn of the output loop whose addition does not panic. */
  lemma CreateOutputsStep(utxos: UtxoSet, tx: Transaction, ctx: BlockCtx, i: nat, total: int)
    returns (u1: UtxoSet)
    requires i < |tx.outputs| && FitsInt(total + tx.outputs[i].amount)
    ensures u1 == utxos[OutputKey(tx, i) := NewUtxo(tx, i, ctx)]
    ensures CreateOutputs(utxos, tx, ctx, i, total) == CreateOutputs(u1, tx, ctx, i + 1, total + tx.outputs[i].amount)
  {
    u1 := utxos[OutputKey(tx, i) := NewUtxo(tx, i, ctx)];
  }

  /** The output loop leaves an entry it does not write as before. */
  lemma {:induction false} CreateOutputsFrame(utxos: UtxoSet, tx: Transaction, ctx: BlockCtx, i: nat, total: int,
                                              k: string)
    requires i <= |tx.outputs|
    requires k in utxos && k !in OutputKeys(tx, i)
    ensures CreateOutputs(utxos, tx, ctx, i, total).utxos[k] == utxos[k]
    decreases |tx.outputs| - i
  {
    if i < |tx.outputs| && FitsInt(total + tx.outputs[i].amount) {
      var u1 := CreateOutputsStep(utxos, tx, ctx, i, total);
      OutputKeysStep(tx, i);
      CreateOutputsFrame(u1, tx, ctx, i + 1, total + tx.outputs[i].amount, k);
      assert u1[k] == utxos[k];
    } else {
      assert CreateOutputs(utxos, tx, ctx, i, total).utxos == utxos;
    }
  }

  /** A loop that does not overflow stores output `j`, from `i` on, under
      its key. */
  lemma {:induction false} CreateOutputsStored(utxos: UtxoSet, tx: Transaction, ctx: BlockCtx, i: nat, total: int,
                                               j: nat)
    requires i <= j < |tx.outputs|
    ensures !CreateOutputs(utxos, tx, ctx, i, total).overflow ==>
      OutputKey(tx, j) in CreateOutputs(utxos, tx, ctx, i, total).utxos
      && CreateOutputs(utxos, tx, ctx, i, total).utxos[OutputKey(tx, j)] == NewUtxo(tx, j, ctx)
    decreases |tx.outputs| - i
  {
    if FitsInt(total + tx.outputs[i].amount) {
      var sum := total + tx.outputs[i].amount;
      var u1 := CreateOutputsStep(utxos, tx, ctx, i, total);
      if j == i {
        OutputKeysStep(tx, i);
        CreateOutputsFrame(u1, tx, ctx, i + 1, sum, OutputKey(tx, i));
      } else {
        CreateOutputsStored(u1, tx, ctx, i + 1, sum, j);
      }
    }
  }

  /** The keys from `i` on are output `i`'s key, which no later output has,
      and the keys from `i + 1` on. */
  lemma OutputKeysStep(tx: Transaction, i: nat)
    requires i < |tx.outputs|
    ensures OutputKeys(tx, i) == {OutputKey(tx, i)} + OutputKeys(tx, i + 1)
    ensures OutputKey(tx, i) !in OutputKeys(tx, i + 1)
  {
    OutputKeysAfter(tx, i + 1, i);
  }

  /** An output's key is not among the keys of the outputs after it. */
  lemma {:induction false} OutputKeysAfter(tx: Transaction, i: nat, m: nat)
    requires m < i
    ensures OutputKey(tx, m) !in OutputKeys(tx, i)
    decreases |tx.outputs| - i
  {
    if i < |tx.outputs| {
      if OutputKey(tx, i) == OutputKey(tx, m) {
        UtxoTypes.UtxoKeyInjective(tx.txHash, i, tx.txHash, m);
      }
      OutputKeysAfter(tx, i + 1, m);
    }
  }

  /** The key of every output from `i` on is among the keys from `i` on. */
  lemma {:induction false} OutputKeysHas(tx: Transaction, i: nat, j: nat)
    requires i <= j < |tx.outputs|
    ensures OutputKey(tx, j) in OutputKeys(tx, i)
    decreases j - i
  {
    if i < j {
      OutputKeysHas(tx, i + 1, j);
    }
  }

  // ------------------------------------------------------------ ProcessUTXOTransaction

  /** The set after the call, and how the call ended. */
  datatype Processed = Processed(utxos: UtxoSet, outcome: Outcome<UtxoError>)

  /** No running total of the call leaves the `sdk.Int` range: neither the
      inputs' nor the outputs' additions panic. */
  ghost predicate TotalsFit(utxos: UtxoSet, tx: Transaction) {
    SumsFit(0, InputAmounts(utxos, tx.inputs)) && SumsFit(0, OutputAmounts(tx.outputs, 0))
  }

  /** `ProcessUTXOTransaction` on the bridge's map. Whatever the loops wrote
      before an error or a panic is part of the result. */
  function ProcessUtxoTransaction(c: UtxoKeeper.Crypto, utxos: UtxoSet, tx: Transaction, ctx: BlockCtx)
    : (r: Processed)
    ensures |tx.inputs| > 0 && InputKey(tx.inputs[0]) !in utxos ==>
      r == Processed(utxos, Fail(UtxoNotFound(InputKey(tx.inputs[0]))))
    ensures r.outcome.Pass? <==>
      Spendable(c, utxos, tx.inputs, tx.txHash) && TotalsFit(utxos, tx)
      && SumInputs(utxos, tx.inputs) == SumOutputs(tx.outputs, 0) + tx.fee
    ensures r.outcome.Fail? && r.outcome.error.InputOutputMismatch? ==>
      Spendable(c, utxos, tx.inputs, tx.txHash) && TotalsFit(utxos, tx)
      && r.outcome.error == InputOutputMismatch(SumInputs(utxos, tx.inputs), SumOutputs(tx.outputs, 0), tx.fee)
    ensures utxos.Keys <= r.utxos.Keys <= utxos.Keys + OutputKeys(tx, 0)
  {
    SpendInputsExact(c, utxos, tx.inputs, tx.txHash, 0);
    var spent := SpendInputs(c, utxos, tx.inputs, tx.txHash, 0);
    if spent.outcome.Fail? then Processed(spent.utxos, spent.outcome)
    else
      var created := CreateOutputs(spent.utxos, tx, ctx, 0, 0);
      CreateOutputsSums(spent.utxos, tx, ctx, 0, 0);
      if created.overflow then Processed(created.utxos, Fail(IntOverflow))
      else match AddInt(created.total, tx.fee)
        case None => Processed(created.utxos, Fail(IntOverflow))
        case Some(owed) =>
          if spent.total != owed then
            Processed(created.utxos, Fail(InputOutputMismatch(spent.total, created.total, tx.fee)))
          else Processed(created.utxos, Pass)
  }

  /** The keys of the outputs the inputs name. */
  ghost function InputKeys(inputs: seq<Input>): set<string> {
    set j | 0 <= j < |inputs| :: InputKey(inputs[j])
  }

  /** A call whose inputs all check and whose totals fit runs both loops to
      the end. */
  lemma ProcessSpendable(c: UtxoKeeper.Crypto, utxos: UtxoSet, tx: Transaction, ctx: BlockCtx)
    requires Spendable(c, utxos, tx.inputs, tx.txHash) && TotalsFit(utxos, tx)
    ensures SpendInputs(c, utxos, tx.inputs, tx.txHash, 0).outcome.Pass?
    ensures !CreateOutputs(SpendInputs(c, utxos, tx.inputs, tx.txHash, 0).utxos, tx, ctx, 0, 0).overflow
    ensures ProcessUtxoTransaction(c, utxos, tx, ctx).utxos
      == CreateOutputs(SpendInputs(c, utxos, tx.inputs, tx.txHash, 0).utxos, tx, ctx, 0, 0).utxos
  {
    SpendInputsExact(c, utxos, tx.inputs, tx.txHash, 0);
    CreateOutputsSums(SpendInputs(c, utxos, tx.inputs, tx.txHash, 0).utxos, tx, ctx, 0, 0);
  }

  /** Once every input checks and no running total overflows, the call
      writes the same set whether or not the amounts balance: each output is
      stored unspent under its key, each input's output is marked spent
      unless an output of the same transaction took its key, and every other
      entry is as before. A failed balance check undoes none of it. */
  lemma SpendableWrites(c: UtxoKeeper.Crypto, utxos: UtxoSet, tx: Transaction, ctx: BlockCtx)
    requires Spendable(c, utxos, tx.inputs, tx.txHash) && TotalsFit(utxos, tx)
    ensures var r := ProcessUtxoTransaction(c, utxos, tx, ctx);
      r.utxos.Keys == utxos.Keys + OutputKeys(tx, 0)
      && (forall i :: 0 <= i < |tx.outputs| ==>
            OutputKey(tx, i) in r.utxos && r.utxos[OutputKey(tx, i)] == NewUtxo(tx, i, ctx))
      && (forall j :: 0 <= j < |tx.inputs| && InputKey(tx.inputs[j]) !in OutputKeys(tx, 0) ==>
            r.utxos[InputKey(tx.inputs[j])] == utxos[InputKey(tx.inputs[j])].(isSpent := true))
      && (forall k :: k in utxos && k !in OutputKeys(tx, 0) && k !in InputKeys(tx.inputs) ==> r.utxos[k] == utxos[k])
  {
    ProcessSpendable(c, utxos, tx, ctx);
    var spent := SpendInputs(c, utxos, tx.inputs, tx.txHash, 0).utxos;
    var created := CreateOutputs(spent, tx, ctx, 0, 0).utxos;
    CreateOutputsSums(spent, tx, ctx, 0, 0);
    forall k | k in spent && k !in OutputKeys(tx, 0) ensures created[k] == spent[k] {
      CreateOutputsFrame(spent, tx, ctx, 0, 0, k);
    }
    forall i | 0 <= i < |tx.outputs|
      ensures OutputKey(tx, i) in created && created[OutputKey(tx, i)] == NewUtxo(tx, i, ctx)
    {
      CreateOutputsStored(spent, tx, ctx, 0, 0, i);
    }
    forall k | k in utxos && k !in InputKeys(tx.inputs) ensures spent[k] == utxos[k] {
      SpendInputsKeeps(c, utxos, tx.inputs, tx.txHash, 0, k);
    }
    forall j | 0 <= j < |tx.inputs|
      ensures spent[InputKey(tx.inputs[j])] == utxos[InputKey(tx.inputs[j])].(isSpent := true)
    {
      SpendInputsMarks(c, utxos, tx.inputs, tx.txHash, 0, j);
    }
  }

  /** The loop leaves every output no input names as it was. */
  lemma {:induction false} SpendInputsKeeps(c: UtxoKeeper.Crypto, utxos: UtxoSet, inputs: seq<Input>, txHash: string,
                                            total: int, k: string)
    requires k in utxos && forall j :: 0 <= j < |inputs| ==> InputKey(inputs[j]) != k
    ensures SpendInputs(c, utxos, inputs, txHash, total).utxos[k] == utxos[k]
    decreases |inputs|
  {
    if |inputs| > 0 {
      var k0 := InputKey(inputs[0]);
      if Refusal(c, utxos, inputs[0], txHash, total).None? {
        var u1 := SpendInputsStep(c, utxos, inputs, txHash, total);
        assert forall j :: 0 <= j < |inputs| - 1 ==> inputs[1..][j] == inputs[j + 1];
        SpendInputsKeeps(c, u1, inputs[1..], txHash, total + utxos[k0].amount, k);
      } else {
        SpendInputsRefused(c, utxos, inputs, txHash, total);
      }
    }
  }

  /** A loop that does not get past its first input writes nothing. */
  lemma SpendInputsRefused(c: UtxoKeeper.Crypto, utxos: UtxoSet, inputs: seq<Input>, txHash: string, total: int)
    requires |inputs| > 0
    requires Refusal(c, utxos, inputs[0], txHash, total).Some?
    ensures SpendInputs(c, utxos, inputs, txHash, total) == Spent(utxos, total, SpendInputs(c, utxos, inputs, txHash, total).outcome)
    ensures SpendInputs(c, utxos, inputs, txHash, total).outcome.Fail?
  {
  }

  /** No rollback, for the balance check: a transaction whose inputs all
      check and whose totals fit but whose amounts do not balance is
      refused, yet its inputs stay spent and its outputs stay stored. */
  lemma MismatchKeepsWrites(c: UtxoKeeper.Crypto, utxos: UtxoSet, tx: Transaction, ctx: BlockCtx)
    requires Spendable(c, utxos, tx.inputs, tx.txHash) && TotalsFit(utxos, tx)
    requires FitsInt(SumOutputs(tx.outputs, 0) + tx.fee)
    requires SumInputs(utxos, tx.inputs) != SumOutputs(tx.outputs, 0) + tx.fee
    ensures var r := ProcessUtxoTransaction(c, utxos, tx, ctx);
      r.outcome == Fail(InputOutputMismatch(SumInputs(utxos, tx.inputs), SumOutputs(tx.outputs, 0), tx.fee))
      && (forall i :: 0 <= i < |tx.outputs| ==> OutputKey(tx, i) in r.utxos && !r.utxos[OutputKey(tx, i)].isSpent)
      && (forall j :: 0 <= j < |tx.inputs| && InputKey(tx.inputs[j]) !in OutputKeys(tx, 0) ==>
            r.utxos[InputKey(tx.inputs[j])].isSpent)
  {
    ProcessSpendableOutcome(c, utxos, tx, ctx);
    SpendableWrites(c, utxos, tx, ctx);
    var r := ProcessUtxoTransaction(c, utxos, tx, ctx);
    forall i | 0 <= i < |tx.outputs|
      ensures OutputKey(tx, i) in r.utxos && !r.utxos[OutputKey(tx, i)].isSpent
    {
      OutputKeysHas(tx, 0, i);
    }
  }

  /** With every input checking and every total fitting, fee included, the
      call passes exactly when the amounts balance, and otherwise reports
      the mismatch. */
  lemma ProcessSpendableOutcome(c: UtxoKeeper.Crypto, utxos: UtxoSet, tx: Transaction, ctx: BlockCtx)
    requires Spendable(c, utxos, tx.inputs, tx.txHash) && TotalsFit(utxos, tx)
    requires FitsInt(SumOutputs(tx.outputs, 0) + tx.fee)
    ensures ProcessUtxoTransaction(c, utxos, tx, ctx).outcome
      == if SumInputs(utxos, tx.inputs) == SumOutputs(tx.outputs, 0) + tx.fee then Pass
         else Fail(InputOutputMismatch(SumInputs(utxos, tx.inputs), SumOutputs(tx.outputs, 0), tx.fee))
  {
    ProcessSpendable(c, utxos, tx, ctx);
    SpendInputsExact(c, utxos, tx.inputs, tx.txHash, 0);
    CreateOutputsSums(SpendInputs(c, utxos, tx.inputs, tx.txHash, 0).utxos, tx, ctx, 0, 0);
  }

  /** No rollback, for the overflow panic: when every input checks but the
      output total overflows, the call panics, and every input whose key no
      output of the transaction has stays spent. */
  lemma OverflowKeepsSpent(c: UtxoKeeper.Crypto, utxos: UtxoSet, tx: Transaction, ctx: BlockCtx)
    requires Spendable(c, utxos, tx.inputs, tx.txHash) && SumsFit(0, InputAmounts(utxos, tx.inputs))
    requires !SumsFit(0, OutputAmounts(tx.outputs, 0))
    ensures var r := ProcessUtxoTransaction(c, utxos, tx, ctx);
      r.outcome == Fail(IntOverflow)
      && (forall j :: 0 <= j < |tx.inputs| && InputKey(tx.inputs[j]) !in OutputKeys(tx, 0) ==>
            r.utxos[InputKey(tx.inputs[j])] == utxos[InputKey(tx.inputs[j])].(isSpent := true))
  {
    SpendInputsExact(c, utxos, tx.inputs, tx.txHash, 0);
    var spent := SpendInputs(c, utxos, tx.inputs, tx.txHash, 0).utxos;
    CreateOutputsSums(spent, tx, ctx, 0, 0);
    forall j | 0 <= j < |tx.inputs| && InputKey(tx.inputs[j]) !in OutputKeys(tx, 0)
      ensures CreateOutputs(spent, tx, ctx, 0, 0).utxos[InputKey(tx.inputs[j])]
        == utxos[InputKey(tx.inputs[j])].(isSpent := true)
    {
      SpendInputsMarks(c, utxos, tx.inputs, tx.txHash, 0, j);
      CreateOutputsFrame(spent, tx, ctx, 0, 0, InputKey(tx.inputs[j]));
    }
  }

  /** No rollback, for the input loop: when the first input checks and the
      second names no stored output, the call is refused and the first input
      stays spent. */
  lemma PartialSpendPersists(c: UtxoKeeper.Crypto, utxos: UtxoSet, tx: Transaction, ctx: BlockCtx)
    requires |tx.inputs| == 2
    requires InputKey(tx.inputs[0]) in utxos && !utxos[InputKey(tx.inputs[0])].isSpent
    requires VerifyScriptSig(c, tx.inputs[0].scriptSig, utxos[InputKey(tx.inputs[0])].scriptPubkey, tx.txHash)
    requires FitsInt(utxos[InputKey(tx.inputs[0])].amount)
    requires InputKey(tx.inputs[1]) !in utxos
    ensures var r := ProcessUtxoTransaction(c, utxos, tx, ctx);
      r.outcome == Fail(UtxoNotFound(InputKey(tx.inputs[1])))
      && r.utxos == utxos[InputKey(tx.inputs[0]) := utxos[InputKey(tx.inputs[0])].(isSpent := true)]
  {
    var u1 := SpendInputsStep(c, utxos, tx.inputs, tx.txHash, 0);
    assert tx.inputs[1..][0] == tx.inputs[1];
  }

  /** An outpoint named twice in one transaction is refused: the first use
      marks it spent before the second reads it. */
  lemma DoubleSpendRejected(c: UtxoKeeper.Crypto, utxos: UtxoSet, tx: Transaction, ctx: BlockCtx, a: nat, b: nat)
    requires a < b < |tx.inputs| && InputKey(tx.inputs[a]) == InputKey(tx.inputs[b])
    ensures ProcessUtxoTransaction(c, utxos, tx, ctx).outcome.Fail?
  {
  }
}
