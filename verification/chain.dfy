/** What a keeper sees of the chain it runs on: the block context, bank calls,
    and events. Bank calls are recorded as an effect log; whether a call fails
    is decided by the bank, which is outside the model, so every operation that
    calls it takes a `fails` predicate. */
module Chain {
  import opened Wrappers
  import opened Bytes

  /** An account address as raw bytes (`sdk.AccAddress`). */
  type Address = seq<Byte>

  /** The parts of `sdk.Context` the keepers read. */
  datatype BlockCtx = BlockCtx(
    height: nat,
    /** `ctx.BlockTime().Unix()`, in seconds. */
    timeUnix: int,
    /** `ctx.BlockHeader().Hash()`. */
    blockHash: seq<Byte>,
    /** `LastBlockId.Hash`. */
    lastBlockHash: seq<Byte>,
    /** `DataHash`, used as the Merkle root. */
    dataHash: seq<Byte>)

  /** One call into the bank keeper. */
  datatype BankCall =
    | Mint(moduleName: string, denom: string, amount: int)
    | SendFromModule(moduleName: string, to: Address, denom: string, amount: int)

  datatype Attribute = Attribute(key: string, value: string)

  datatype Event = Event(kind: string, attributes: seq<Attribute>)

  /** The value of the first attribute named `key`, if any. */
  function AttributeValue(e: Event, key: string): (r: Option<string>)
    ensures r.Some? ==> Attribute(key, r.value) in e.attributes
    ensures r.None? ==> forall a :: a in e.attributes ==> a.key != key
  {
    FirstValue(e.attributes, key)
  }

  function FirstValue(attrs: seq<Attribute>, key: string): (r: Option<string>)
    ensures r.Some? ==> Attribute(key, r.value) in attrs
    ensures r.None? ==> forall a :: a in attrs ==> a.key != key
  {
    if |attrs| == 0 then None
    else if attrs[0].key == key then Some(attrs[0].value)
    else FirstValue(attrs[1..], key)
  }

  /** An attribute whose key no earlier attribute has is the one found. */
  lemma {:induction false} FirstValueAt(attrs: seq<Attribute>, i: nat)
    requires i < |attrs|
    requires forall j :: 0 <= j < i ==> attrs[j].key != attrs[i].key
    ensures FirstValue(attrs, attrs[i].key) == Some(attrs[i].value)
  {
    if i > 0 {
      assert forall j :: 0 <= j < i - 1 ==> attrs[1..][j] == attrs[j + 1];
      FirstValueAt(attrs[1..], i - 1);
    }
  }
}
