/** The events nuChain's mining message server emits. Numbers are decimal
    text; the supported chains are joined with ','. */
module MiningEvents {
  import opened Wrappers
  import opened Decimal
  import opened Chain

  const EventTypeCreateStakingNode: string := "create_staking_node"
  const EventTypeProcessCrossChainMessage: string := "process_cross_chain_message"
  const EventTypeUpdateMiningRig: string := "update_mining_rig"

  /** `strings.Join(parts, ",")`. */
  function JoinComma(parts: seq<string>): (s: string)
    ensures |parts| == 1 ==> s == parts[0]
  {
    if |parts| == 0 then ""
    else if |parts| == 1 then parts[0]
    else parts[0] + "," + JoinComma(parts[1..])
  }

  predicate NoComma(parts: seq<string>) {
    forall i :: 0 <= i < |parts| ==> ',' !in parts[i]
  }

  /** A non-empty list of chain ids none of which holds ',' is determined by
      its joined text. */
  lemma {:induction false} JoinCommaInjective(a: seq<string>, b: seq<string>)
    requires |a| > 0 && |b| > 0 && NoComma(a) && NoComma(b)
    requires JoinComma(a) == JoinComma(b)
    ensures a == b
    decreases |a|
  {
    if |a| > 1 && |b| > 1 {
      assert NoComma(a[1..]) && NoComma(b[1..]);
      SplitAtFirst(a[0], JoinComma(a[1..]), b[0], JoinComma(b[1..]), ',');
      JoinCommaInjective(a[1..], b[1..]);
      assert a == [a[0]] + a[1..] && b == [b[0]] + b[1..];
    }
  }

  /** A chain id holding ',' reads as two. */
  lemma JoinCommaAmbiguous()
    ensures JoinComma(["a,b"]) == JoinComma(["a", "b"])
  {
  }

  /** The `create_staking_node` event. */
  function CreateStakingNodeEvent(creator: string, moniker: string, supportedChains: seq<string>): (e: Event)
    ensures e.kind == EventTypeCreateStakingNode
    ensures AttributeValue(e, "creator") == Some(creator)
    ensures AttributeValue(e, "moniker") == Some(moniker)
    ensures AttributeValue(e, "supported_chains") == Some(JoinComma(supportedChains))
  {
    var attrs := [Attribute("creator", creator), Attribute("moniker", moniker),
                  Attribute("supported_chains", JoinComma(supportedChains))];
    FirstValueAt(attrs, 0);
    FirstValueAt(attrs, 1);
    FirstValueAt(attrs, 2);
    Event(EventTypeCreateStakingNode, attrs)
  }

  /** The `process_cross_chain_message` event: the nonce reads back as the message's. */
  function ProcessCrossChainMessageEvent(sourceChain: string, messageType: string, nonce: nat): (e: Event)
    ensures e.kind == EventTypeProcessCrossChainMessage
    ensures AttributeValue(e, "source_chain") == Some(sourceChain)
    ensures AttributeValue(e, "message_type") == Some(messageType)
    ensures AttributeValue(e, "nonce").Some? && AllDigits(AttributeValue(e, "nonce").value)
      && DecimalValue(AttributeValue(e, "nonce").value) == nonce
  {
    var attrs := [Attribute("source_chain", sourceChain), Attribute("message_type", messageType),
                  Attribute("nonce", NatToDecimal(nonce))];
    FirstValueAt(attrs, 0);
    FirstValueAt(attrs, 1);
    FirstValueAt(attrs, 2);
    DecimalRoundTrip(nonce);
    Event(EventTypeProcessCrossChainMessage, attrs)
  }

  /** The `update_mining_rig` event: token id, hash power and watt
      consumption read back as the message's. */
  function UpdateMiningRigEvent(tokenId: nat, chainId: string, hashPower: nat, wattConsumption: nat): (e: Event)
    ensures e.kind == EventTypeUpdateMiningRig
    ensures AttributeValue(e, "chain_id") == Some(chainId)
    ensures AttributeValue(e, "token_id").Some? && AllDigits(AttributeValue(e, "token_id").value)
      && DecimalValue(AttributeValue(e, "token_id").value) == tokenId
    ensures AttributeValue(e, "hash_power").Some? && AllDigits(AttributeValue(e, "hash_power").value)
      && DecimalValue(AttributeValue(e, "hash_power").value) == hashPower
    ensures AttributeValue(e, "watt_consumption").Some? && AllDigits(AttributeValue(e, "watt_consumption").value)
      && DecimalValue(AttributeValue(e, "watt_consumption").value) == wattConsumption
  {
    var attrs := [Attribute("token_id", NatToDecimal(tokenId)), Attribute("chain_id", chainId),
                  Attribute("hash_power", NatToDecimal(hashPower)),
                  Attribute("watt_consumption", NatToDecimal(wattConsumption))];
    FirstValueAt(attrs, 0);
    FirstValueAt(attrs, 1);
    FirstValueAt(attrs, 2);
    FirstValueAt(attrs, 3);
    DecimalRoundTrip(tokenId);
    DecimalRoundTrip(hashPower);
    DecimalRoundTrip(wattConsumption);
    Event(EventTypeUpdateMiningRig, attrs)
  }
}
