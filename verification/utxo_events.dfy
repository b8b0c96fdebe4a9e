/** The events the Z-chain UTXO message server emits, and what a reader of
    their attributes gets back: counts and numbers are decimal text. */
module UtxoEvents {
  import opened Wrappers
  import opened Decimal
  import opened Chain

  const EventTypeSendUtxo: string := "send_utxo"
  const EventTypeSendShielded: string := "send_shielded"
  const EventTypeSubmitMiningProof: string := "submit_mining_proof"
  const EventTypeDifficultyAdjust: string := "difficulty_adjustment"
  /** Written as a literal in the end-of-block hook, not among the module's constants. */
  const EventTypeBlockProcessed: string := "block_processed"

  /** The `send_utxo` event: its counts read back as the message's. */
  function SendUtxoEvent(creator: string, txHash: string, inputCount: nat, outputCount: nat, fee: string)
    : (e: Event)
    ensures e.kind == EventTypeSendUtxo
    ensures AttributeValue(e, "creator") == Some(creator)
    ensures AttributeValue(e, "tx_hash") == Some(txHash)
    ensures AttributeValue(e, "input_count").Some? && AllDigits(AttributeValue(e, "input_count").value)
      && DecimalValue(AttributeValue(e, "input_count").value) == inputCount
    ensures AttributeValue(e, "output_count").Some? && AllDigits(AttributeValue(e, "output_count").value)
      && DecimalValue(AttributeValue(e, "output_count").value) == outputCount
    ensures AttributeValue(e, "fee") == Some(fee)
  {
    var attrs := [Attribute("creator", creator), Attribute("tx_hash", txHash),
                  Attribute("input_count", NatToDecimal(inputCount)),
                  Attribute("output_count", NatToDecimal(outputCount)),
                  Attribute("fee", fee)];
    LookupFive(attrs, "creator", "tx_hash", "input_count", "output_count", "fee");
    DecimalRoundTrip(inputCount);
    DecimalRoundTrip(outputCount);
    Event(EventTypeSendUtxo, attrs)
  }

  /** The `send_shielded` event: its counts read back as the message's. */
  function SendShieldedEvent(creator: string, txHash: string, nullifierCount: nat, commitmentCount: nat, fee: string)
    : (e: Event)
    ensures e.kind == EventTypeSendShielded
    ensures AttributeValue(e, "tx_hash") == Some(txHash)
    ensures AttributeValue(e, "nullifier_count").Some? && AllDigits(AttributeValue(e, "nullifier_count").value)
      && DecimalValue(AttributeValue(e, "nullifier_count").value) == nullifierCount
    ensures AttributeValue(e, "commitment_count").Some? && AllDigits(AttributeValue(e, "commitment_count").value)
      && DecimalValue(AttributeValue(e, "commitment_count").value) == commitmentCount
  {
    var attrs := [Attribute("creator", creator), Attribute("tx_hash", txHash),
                  Attribute("nullifier_count", NatToDecimal(nullifierCount)),
                  Attribute("commitment_count", NatToDecimal(commitmentCount)),
                  Attribute("fee", fee)];
    LookupFive(attrs, "creator", "tx_hash", "nullifier_count", "commitment_count", "fee");
    DecimalRoundTrip(nullifierCount);
    DecimalRoundTrip(commitmentCount);
    Event(EventTypeSendShielded, attrs)
  }

  /** The `submit_mining_proof` event: difficulty and nonce read back as the message's. */
  function SubmitMiningProofEvent(creator: string, hardwareId: string, difficulty: nat, nonce: nat): (e: Event)
    ensures e.kind == EventTypeSubmitMiningProof
    ensures AttributeValue(e, "hardware_id") == Some(hardwareId)
    ensures AttributeValue(e, "difficulty").Some? && AllDigits(AttributeValue(e, "difficulty").value)
      && DecimalValue(AttributeValue(e, "difficulty").value) == difficulty
    ensures AttributeValue(e, "nonce").Some? && AllDigits(AttributeValue(e, "nonce").value)
      && DecimalValue(AttributeValue(e, "nonce").value) == nonce
  {
    var attrs := [Attribute("creator", creator), Attribute("hardware_id", hardwareId),
                  Attribute("difficulty", NatToDecimal(difficulty)),
                  Attribute("nonce", NatToDecimal(nonce))];
    LookupFour(attrs, "creator", "hardware_id", "difficulty", "nonce");
    DecimalRoundTrip(difficulty);
    DecimalRoundTrip(nonce);
    Event(EventTypeSubmitMiningProof, attrs)
  }

  /** The `difficulty_adjustment` event: old and new difficulty and the height, as decimal text. */
  function DifficultyAdjustEvent(oldDifficulty: nat, newDifficulty: nat, height: int): (e: Event)
    ensures e.kind == EventTypeDifficultyAdjust
    ensures AttributeValue(e, "old_difficulty") == Some(NatToDecimal(oldDifficulty))
    ensures AttributeValue(e, "new_difficulty") == Some(NatToDecimal(newDifficulty))
    ensures AttributeValue(e, "block_height") == Some(IntToDecimal(height))
  {
    var attrs := [Attribute("old_difficulty", NatToDecimal(oldDifficulty)),
                  Attribute("new_difficulty", NatToDecimal(newDifficulty)),
                  Attribute("block_height", IntToDecimal(height))];
    FirstValueAt(attrs, 0);
    FirstValueAt(attrs, 1);
    FirstValueAt(attrs, 2);
    Event(EventTypeDifficultyAdjust, attrs)
  }

  /** The `block_processed` event: height and block time in seconds, as decimal text. */
  function BlockProcessedEvent(height: int, timeUnix: int): (e: Event)
    ensures e.kind == EventTypeBlockProcessed
    ensures AttributeValue(e, "height") == Some(IntToDecimal(height))
    ensures AttributeValue(e, "timestamp") == Some(IntToDecimal(timeUnix))
  {
    var attrs := [Attribute("height", IntToDecimal(height)), Attribute("timestamp", IntToDecimal(timeUnix))];
    FirstValueAt(attrs, 0);
    FirstValueAt(attrs, 1);
    Event(EventTypeBlockProcessed, attrs)
  }

  /** In a five-attribute list with distinct keys each key finds its own value. */
  lemma LookupFive(attrs: seq<Attribute>, k0: string, k1: string, k2: string, k3: string, k4: string)
    requires |attrs| == 5
    requires attrs[0].key == k0 && attrs[1].key == k1 && attrs[2].key == k2
    requires attrs[3].key == k3 && attrs[4].key == k4
    requires k0 != k1 && k0 != k2 && k0 != k3 && k0 != k4 && k1 != k2 && k1 != k3 && k1 != k4
    requires k2 != k3 && k2 != k4 && k3 != k4
    ensures FirstValue(attrs, k0) == Some(attrs[0].value) && FirstValue(attrs, k1) == Some(attrs[1].value)
    ensures FirstValue(attrs, k2) == Some(attrs[2].value) && FirstValue(attrs, k3) == Some(attrs[3].value)
    ensures FirstValue(attrs, k4) == Some(attrs[4].value)
  {
    FirstValueAt(attrs, 0);
    FirstValueAt(attrs, 1);
    FirstValueAt(attrs, 2);
    FirstValueAt(attrs, 3);
    FirstValueAt(attrs, 4);
  }

  lemma LookupFour(attrs: seq<Attribute>, k0: string, k1: string, k2: string, k3: string)
    requires |attrs| == 4
    requires attrs[0].key == k0 && attrs[1].key == k1 && attrs[2].key == k2 && attrs[3].key == k3
    requires k0 != k1 && k0 != k2 && k0 != k3 && k1 != k2 && k1 != k3 && k2 != k3
    ensures FirstValue(attrs, k0) == Some(attrs[0].value) && FirstValue(attrs, k1) == Some(attrs[1].value)
    ensures FirstValue(attrs, k2) == Some(attrs[2].value) && FirstValue(attrs, k3) == Some(attrs[3].value)
  {
    FirstValueAt(attrs, 0);
    FirstValueAt(attrs, 1);
    FirstValueAt(attrs, 2);
    FirstValueAt(attrs, 3);
  }
}
