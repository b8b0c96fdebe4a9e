/** The records of the Z-chain UTXO module (generated from its protobuf
    definitions in the source, which are not part of this model) and the
    store key under which an unspent output lives. */
module UtxoTypes {
  import opened Bytes
  import opened Decimal

  /** A transaction output as stored: `(TxHash, OutputIndex)` names it. */
  datatype Utxo = Utxo(
    txHash: string,
    outputIndex: nat,
    address: string,
    /** Decimal text, parsed when the output is spent. */
    amount: string,
    blockHeight: nat,
    isSpent: bool,
    scriptPubkey: seq<Byte>,
    createdAt: int)

  datatype TxInput = TxInput(prevTxHash: string, prevOutputIndex: nat, scriptSig: seq<Byte>)

  datatype TxOutput = TxOutput(address: string, amount: string, scriptPubkey: seq<Byte>)

  datatype UtxoTransaction = UtxoTransaction(
    txHash: string,
    inputs: seq<TxInput>,
    outputs: seq<TxOutput>,
    lockTime: nat,
    timestamp: int,
    fee: string,
    zkProof: seq<Byte>)

  datatype ShieldedTransaction = ShieldedTransaction(
    txHash: string,
    nullifiers: seq<seq<Byte>>,
    commitments: seq<seq<Byte>>,
    zkProof: seq<Byte>,
    encryptedMemo: seq<Byte>,
    fee: string,
    timestamp: int)

  datatype MiningProof = MiningProof(
    minerAddress: string,
    zkProof: seq<Byte>,
    publicInputs: seq<Byte>,
    nonce: nat,
    difficulty: nat,
    timestamp: int,
    hardwareId: string)

  /** `fmt.Sprintf("%s:%d", txHash, outputIndex)`. */
  function UtxoKey(txHash: string, index: nat): (key: string)
    ensures |key| > |txHash|
  {
    txHash + ":" + NatToDecimal(index)
  }

  /** Distinct outpoints have distinct keys, even when a hash contains ':'
      (the index text never does, so the last ':' separates the two). */
  lemma UtxoKeyInjective(h1: string, i1: nat, h2: string, i2: nat)
    requires UtxoKey(h1, i1) == UtxoKey(h2, i2)
    ensures h1 == h2 && i1 == i2
  {
    DecimalHasNo(i1, ':');
    DecimalHasNo(i2, ':');
    SplitAtLast(h1, NatToDecimal(i1), h2, NatToDecimal(i2), ':');
    NatToDecimalInjective(i1, i2);
  }

  /** The key a stored output is written back under (`SetUTXO`). */
  function KeyOf(u: Utxo): string {
    UtxoKey(u.txHash, u.outputIndex)
  }
}
