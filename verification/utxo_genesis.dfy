/** Genesis state of the Z-chain UTXO module and its `Validate`. */
module UtxoGenesis {
  import opened Wrappers
  import opened UtxoTypes
  import opened UtxoParams

  datatype GenesisState = GenesisState(
    params: Params,
    utxos: seq<Utxo>,
    transactions: seq<UtxoTransaction>,
    shieldedTransactions: seq<ShieldedTransaction>,
    difficulty: nat,
    blockReward: string,
    halvingInterval: int,
    lastBlockHeight: int,
    hardwareAcceleration: bool)

  datatype GenesisError =
    | ZeroHalvingInterval
    | ZeroDifficulty
    | EmptyUtxoTxHash
    | EmptyUtxoAddress
    | EmptyUtxoAmount
    | EmptyTransactionHash
    | EmptyTransaction
    | InvalidParams(e: ParamError)

  function DefaultGenesis(): (gs: GenesisState)
    ensures gs.params == DefaultParams()
    ensures gs.utxos == [] && gs.transactions == [] && gs.shieldedTransactions == []
  {
    GenesisState(DefaultParams(), [], [], [], 1_000_000, "50000000000000000", 210_000_000, 0, true)
  }

  function UtxoViolations(u: Utxo): seq<GenesisError> {
    Check(u.txHash != "", EmptyUtxoTxHash)
    + Check(u.address != "", EmptyUtxoAddress)
    + Check(u.amount != "", EmptyUtxoAmount)
  }

  function TxViolations(tx: UtxoTransaction): seq<GenesisError> {
    Check(tx.txHash != "", EmptyTransactionHash)
    + Check(|tx.inputs| > 0 || |tx.outputs| > 0, EmptyTransaction)
  }

  function AllUtxoViolations(us: seq<Utxo>): seq<GenesisError> {
    if |us| == 0 then [] else UtxoViolations(us[0]) + AllUtxoViolations(us[1..])
  }

  function AllTxViolations(txs: seq<UtxoTransaction>): seq<GenesisError> {
    if |txs| == 0 then [] else TxViolations(txs[0]) + AllTxViolations(txs[1..])
  }

  /** Every check `Validate` makes, in the order it makes them; the params
      are consulted last. */
  function Violations(gs: GenesisState): seq<GenesisError> {
    Check(gs.halvingInterval != 0, ZeroHalvingInterval)
    + Check(gs.difficulty != 0, ZeroDifficulty)
    + AllUtxoViolations(gs.utxos)
    + AllTxViolations(gs.transactions)
    + (match UtxoParams.Validate(gs.params)
       case Pass => []
       case Fail(e) => [InvalidParams(e)])
  }

  /** The loop over UTXOs: the first missing field of the first bad UTXO. */
  function ValidateUtxos(us: seq<Utxo>): (r: Outcome<GenesisError>)
    ensures r == FirstFailure(AllUtxoViolations(us))
  {
    if |us| == 0 then Pass
    else if us[0].txHash == "" then Fail(EmptyUtxoTxHash)
    else if us[0].address == "" then Fail(EmptyUtxoAddress)
    else if us[0].amount == "" then Fail(EmptyUtxoAmount)
    else ValidateUtxos(us[1..])
  }

  function ValidateTransactions(txs: seq<UtxoTransaction>): (r: Outcome<GenesisError>)
    ensures r == FirstFailure(AllTxViolations(txs))
  {
    if |txs| == 0 then Pass
    else if txs[0].txHash == "" then Fail(EmptyTransactionHash)
    else if |txs[0].inputs| == 0 && |txs[0].outputs| == 0 then Fail(EmptyTransaction)
    else ValidateTransactions(txs[1..])
  }

  /** `GenesisState.Validate`. */
  function Validate(gs: GenesisState): (r: Outcome<GenesisError>)
    ensures r == FirstFailure(Violations(gs))
    ensures gs.halvingInterval == 0 ==> r == Fail(ZeroHalvingInterval)
    ensures r.Pass? ==> UtxoParams.Validate(gs.params).Pass?
    ensures r.Pass? ==> forall u :: u in gs.utxos ==> u.txHash != "" && u.address != "" && u.amount != ""
  {
    AllUtxoPass(gs.utxos);
    if gs.halvingInterval == 0 then Fail(ZeroHalvingInterval)
    else if gs.difficulty == 0 then Fail(ZeroDifficulty)
    else match ValidateUtxos(gs.utxos)
      case Fail(e) => Fail(e)
      case Pass =>
        match ValidateTransactions(gs.transactions)
        case Fail(e) => Fail(e)
        case Pass =>
          match UtxoParams.Validate(gs.params)
          case Fail(e) => Fail(InvalidParams(e))
          case Pass => Pass
  }

  lemma {:induction false} AllUtxoPass(us: seq<Utxo>)
    ensures AllUtxoViolations(us) == [] ==>
      forall u :: u in us ==> u.txHash != "" && u.address != "" && u.amount != ""
  {
    if |us| > 0 {
      AllUtxoPass(us[1..]);
      assert forall u :: u in us ==> u == us[0] || u in us[1..];
    }
  }

  lemma DefaultGenesisValid()
    ensures Validate(DefaultGenesis()).Pass?
  {
    DefaultParamsValid();
  }
}
