/** The Cysic hardware miner (`oracle/cysic-hardware-miner.py`): an off-chain
    process that loads mining rigs from the oracle contracts, asks the Cysic
    prover for one proof per active rig at every new nuChain block, counts
    the proofs and rewards it gets back, and can submit a proof to nuChain.

    HTTP calls, the websocket, the clock and SHA-256 are parameters; Python's
    integers are unbounded, as Dafny's are. */
module RigMiner {
  import opened Wrappers
  import opened Bytes
  import Decimal
  import MiningTypes
  import MiningKeeper

  datatype MiningRig = MiningRig(
    rigId: int,
    owner: string,
    /** Mining Game NFT token ids. */
    components: seq<int>,
    hashPower: int,
    wattConsumption: int,
    nuchainAddress: string,
    isActive: bool)

  datatype CysicProof = CysicProof(
    proofBytes: seq<Byte>,
    publicInputs: seq<Byte>,
    verificationKey: seq<Byte>,
    hardwareId: string,
    generationTimeMs: int)

  // ------------------------------------------------------------ the registry

  /** One entry of `mining_rigs`. */
  datatype Entry = Entry(key: string, rig: MiningRig)

  /** `mining_rigs`, a Python dict: its entries in insertion order, where
      storing under a present key replaces the value in place. */
  type Registry = seq<Entry>

  /** The value stored under `key`. */
  function Lookup(reg: Registry, key: string): (r: Option<MiningRig>)
    ensures r.None? <==> forall i :: 0 <= i < |reg| ==> reg[i].key != key
    ensures r.Some? ==> exists i :: 0 <= i < |reg| && reg[i] == Entry(key, r.value)
  {
    if |reg| == 0 then None
    else if reg[0].key == key then Some(reg[0].rig)
    else
      var r := Lookup(reg[1..], key);
      assert forall i :: 0 < i < |reg| ==> reg[i] == reg[1..][i - 1];
      r
  }

  /** `mining_rigs[key] = rig`. */
  function Put(reg: Registry, key: string, rig: MiningRig): (r: Registry)
    ensures Lookup(r, key) == Some(rig)
    ensures forall k :: k != key ==> Lookup(r, k) == Lookup(reg, k)
    ensures Lookup(reg, key).None? ==> r == reg + [Entry(key, rig)]
    ensures Lookup(reg, key).Some? ==> |r| == |reg| && forall i :: 0 <= i < |reg| ==> r[i].key == reg[i].key
  {
    if |reg| == 0 then [Entry(key, rig)]
    else
      LookupCons(reg[0], reg[1..]);
      assert reg == [reg[0]] + reg[1..];
      if reg[0].key == key then
        LookupCons(Entry(key, rig), reg[1..]);
        [Entry(key, rig)] + reg[1..]
      else
        var rest := Put(reg[1..], key, rig);
        LookupCons(reg[0], rest);
        [reg[0]] + rest
  }

  lemma LookupCons(e: Entry, rest: Registry)
    ensures forall k :: Lookup([e] + rest, k) == if e.key == k then Some(e.rig) else Lookup(rest, k)
  {
    assert ([e] + rest)[1..] == rest;
  }

  /** Storing the value a key already holds changes nothing. */
  lemma {:induction false} PutExisting(reg: Registry, key: string, rig: MiningRig)
    requires Lookup(reg, key) == Some(rig)
    ensures Put(reg, key, rig) == reg
  {
    if reg[0].key != key {
      PutExisting(reg[1..], key, rig);
    }
  }

  // ------------------------------------------------------------ the miner

  /** The parts of the `config` dict the miner reads; a missing key is None. */
  datatype Config = Config(
    hardwareId: Option<string>,
    asicResistant: Option<bool>,
    oracleContracts: Option<map<string, map<string, string>>>,
    relayerAddress: Option<string>)

  datatype Miner = Miner(
    rigs: Registry,
    hardwareId: string,
    asicResistant: bool,
    oracleContracts: map<string, map<string, string>>,
    relayerAddress: Option<string>,
    proofsGenerated: nat,
    totalRewards: nat)

  /** `CysicHardwareMiner.__init__`: defaults for the missing keys, no rigs and
      zero counters. */
  function NewMiner(config: Config): (m: Miner)
    ensures m.rigs == [] && m.proofsGenerated == 0 && m.totalRewards == 0
    ensures m.hardwareId == config.hardwareId.GetOr("nvidia-a100")
    ensures m.asicResistant == config.asicResistant.GetOr(true)
    ensures m.oracleContracts == config.oracleContracts.GetOr(map[])
  {
    Miner([], config.hardwareId.GetOr("nvidia-a100"), config.asicResistant.GetOr(true),
          config.oracleContracts.GetOr(map[]), config.relayerAddress, 0, 0)
  }

  /** `oracle_contracts.get(chain, {}).get('address')`, when it is a
      non-empty string. */
  function OracleAddress(m: Miner, chain: string): (r: Option<string>)
    ensures r.Some? <==> chain in m.oracleContracts && "address" in m.oracleContracts[chain]
                         && m.oracleContracts[chain]["address"] != ""
  {
    if chain in m.oracleContracts && "address" in m.oracleContracts[chain]
       && m.oracleContracts[chain]["address"] != ""
    then Some(m.oracleContracts[chain]["address"])
    else None
  }

  /** The two rigs every configured chain returns. */
  const MockRigs: seq<MiningRig> := [
    MiningRig(1, "0x742d35Cc6634C0532925a3b8D0C9e3e0C8b4c8e8", [1, 3, 4], 2000000, 445,
              "nu1miner000000000000000000000000000000000", true),
    MiningRig(2, "0x123d35Cc6634C0532925a3b8D0C9e3e0C8b4c8e8", [1, 3, 5, 5], 4500000, 1025,
              "nu1miner111111111111111111111111111111111", true)]

  /** `f"{chain}:{rig.owner}:{rig.rig_id}"`. */
  function RigKey(chain: string, rig: MiningRig): (k: string)
    ensures |k| == |chain| + 1 + |rig.owner| + 1 + |Decimal.IntToDecimal(rig.rigId)|
    ensures k[..|chain|] == chain && k[|chain|] == ':'
    ensures k[|k| - |Decimal.IntToDecimal(rig.rigId)|..] == Decimal.IntToDecimal(rig.rigId)
  {
    chain + ":" + rig.owner + ":" + Decimal.IntToDecimal(rig.rigId)
  }

  /** The owner stands right after the chain and its ':'. */
  lemma RigKeyOwnerAt(chain: string, rig: MiningRig, k: nat)
    requires k < |rig.owner|
    ensures RigKey(chain, rig)[|chain| + 1 + k] == rig.owner[k]
  {
    var pre := chain + ":" + rig.owner;
    assert RigKey(chain, rig) == pre + (":" + Decimal.IntToDecimal(rig.rigId));
    assert pre[|chain| + 1 + k] == rig.owner[k];
  }

  lemma MockKeysDiffer(chain: string)
    ensures RigKey(chain, MockRigs[0]) != RigKey(chain, MockRigs[1])
  {
    RigKeyOwnerAt(chain, MockRigs[0], 2);
    RigKeyOwnerAt(chain, MockRigs[1], 2);
    assert MockRigs[0].owner[2] == '7' && MockRigs[1].owner[2] == '1';
  }

  /** Store every rig under its key, in order. */
  function StoreRigs(reg: Registry, chain: string, rigs: seq<MiningRig>): Registry
    decreases |rigs|
  {
    if |rigs| == 0 then reg
    else StoreRigs(Put(reg, RigKey(chain, rigs[0]), rigs[0]), chain, rigs[1..])
  }

  /** Storing only adds or overwrites entries, at most one new one per rig. */
  lemma {:induction false} StoreRigsSize(reg: Registry, chain: string, rigs: seq<MiningRig>)
    ensures |reg| <= |StoreRigs(reg, chain, rigs)| <= |reg| + |rigs|
    decreases |rigs|
  {
    if |rigs| > 0 {
      StoreRigsSize(Put(reg, RigKey(chain, rigs[0]), rigs[0]), chain, rigs[1..]);
    }
  }

  /** After storing, a key no rig has reads as before. */
  lemma {:induction false} StoreRigsOthers(reg: Registry, chain: string, rigs: seq<MiningRig>, k: string)
    requires forall j :: 0 <= j < |rigs| ==> RigKey(chain, rigs[j]) != k
    ensures Lookup(StoreRigs(reg, chain, rigs), k) == Lookup(reg, k)
    decreases |rigs|
  {
    if |rigs| > 0 {
      assert forall j :: 0 <= j < |rigs| - 1 ==> rigs[1..][j] == rigs[j + 1];
      StoreRigsOthers(Put(reg, RigKey(chain, rigs[0]), rigs[0]), chain, rigs[1..], k);
    }
  }

  /** After storing, each rig's key holds that rig unless a later rig took
      the same key: the last rig stored under a key wins. */
  lemma {:induction false} StoreRigsLast(reg: Registry, chain: string, rigs: seq<MiningRig>, j: nat)
    requires j < |rigs|
    requires forall l :: j < l < |rigs| ==> RigKey(chain, rigs[l]) != RigKey(chain, rigs[j])
    ensures Lookup(StoreRigs(reg, chain, rigs), RigKey(chain, rigs[j])) == Some(rigs[j])
    decreases |rigs|
  {
    var rest := rigs[1..];
    var reg1 := Put(reg, RigKey(chain, rigs[0]), rigs[0]);
    assert StoreRigs(reg, chain, rigs) == StoreRigs(reg1, chain, rest);
    if j == 0 {
      var key := RigKey(chain, rigs[0]);
      forall l | 0 <= l < |rest| ensures RigKey(chain, rest[l]) != key {
        assert rest[l] == rigs[l + 1];
      }
      StoreRigsOthers(reg1, chain, rest, key);
      assert Lookup(reg1, key) == Some(rigs[0]);
    } else {
      assert rest[j - 1] == rigs[j];
      forall l | j - 1 < l < |rest| ensures RigKey(chain, rest[l]) != RigKey(chain, rest[j - 1]) {
        assert rest[l] == rigs[l + 1];
      }
      StoreRigsLast(reg1, chain, rest, j - 1);
    }
  }

  /** `load_rigs_from_chain`: without an oracle address nothing is loaded;
      otherwise both rigs are stored under "chain:owner:rig_id" and returned. */
  function LoadRigsFromChain(m: Miner, chain: string): (r: (Miner, seq<MiningRig>))
    ensures OracleAddress(m, chain).None? ==> r == (m, [])
    ensures OracleAddress(m, chain).Some? ==>
      r.1 == MockRigs && r.0 == m.(rigs := r.0.rigs)
      && Lookup(r.0.rigs, RigKey(chain, MockRigs[0])) == Some(MockRigs[0])
      && Lookup(r.0.rigs, RigKey(chain, MockRigs[1])) == Some(MockRigs[1])
      && (forall k :: k != RigKey(chain, MockRigs[0]) && k != RigKey(chain, MockRigs[1]) ==>
            Lookup(r.0.rigs, k) == Lookup(m.rigs, k))
      && |m.rigs| <= |r.0.rigs| <= |m.rigs| + 2
  {
    if OracleAddress(m, chain).None? then (m, [])
    else
      MockKeysDiffer(chain);
      assert MockRigs[1..][1..] == [];
      (m.(rigs := StoreRigs(m.rigs, chain, MockRigs)), MockRigs)
  }

  /** Loading a chain again overwrites its rigs rather than adding new ones. */
  lemma ReloadOverwrites(m: Miner, chain: string)
    ensures var once := LoadRigsFromChain(m, chain).0;
      LoadRigsFromChain(once, chain).0 == once
  {
    var once := LoadRigsFromChain(m, chain).0;
    if OracleAddress(m, chain).Some? {
      MockKeysDiffer(chain);
      assert MockRigs[1..][1..] == [];
      var k0 := RigKey(chain, MockRigs[0]);
      PutExisting(once.rigs, k0, MockRigs[0]);
      PutExisting(once.rigs, RigKey(chain, MockRigs[1]), MockRigs[1]);
    }
  }

  /** `load_mining_rigs`: Altcoinchain, then Polygon; the count it reports
      is two for each chain with an oracle address. */
  function LoadMiningRigs(m: Miner): (r: (Miner, nat))
    ensures r.1 == (if OracleAddress(m, "altcoinchain").Some? then 2 else 0)
                 + (if OracleAddress(m, "polygon").Some? then 2 else 0)
    ensures r.0 == m.(rigs := r.0.rigs) && |m.rigs| <= |r.0.rigs| <= |m.rigs| + 4
  {
    var alt := LoadRigsFromChain(m, "altcoinchain");
    var pol := LoadRigsFromChain(alt.0, "polygon");
    (pol.0, |alt.1| + |pol.1|)
  }

  // ------------------------------------------------------------ proof rounds

  /** The `params` of a `generate_mining_proof` request. */
  datatype ProofRequest = ProofRequest(
    rigId: int,
    hashPower: int,
    wattConsumption: int,
    blockHeight: int,
    publicInputsHex: string,
    hardwareId: string,
    asicResistant: bool)

  /** `response.json()` of the prover, when it parses and has both keys. */
  datatype ProofData = ProofData(proof: string, verificationKey: string)

  datatype ProverResponse = ProverResponse(statusCode: int, body: Option<ProofData>, elapsedMs: int)

  /** The payload `submit_to_nuchain` sends, before JSON encoding. */
  datatype MiningPayload = MiningPayload(
    minerAddress: string,
    nuchainAddress: string,
    rigIds: seq<int>,
    totalHashPower: int,
    totalWattCost: int,
    cysicProof: string,
    publicInputs: string,
    hardwareId: string,
    blockHeight: int,
    timestamp: int)

  /** The transaction `submit_to_nuchain` broadcasts. */
  datatype TxData = TxData(
    kind: string,
    creator: string,
    sourceChain: string,
    messageType: string,
    payload: MiningPayload,
    nonce: int)

  /** `broadcast_tx_commit`'s parsed reply: `result.code` and whether
      `result.hash` is present. */
  datatype BroadcastBody = BroadcastBody(code: Option<int>, hasHash: bool)

  datatype BroadcastResponse = BroadcastResponse(statusCode: int, body: Option<BroadcastBody>)

  datatype Env = Env(
    /** `prepare_public_inputs`: SHA-256 of the rig, height, hardware id
        and the Unix time read while preparing them, as sorted JSON. */
    publicInputs: (MiningRig, int, string, int) -> seq<Byte>,
    /** POST to `/prove`; None when the call raises. */
    prove: ProofRequest -> Option<ProverResponse>,
    /** POST to `/broadcast_tx_commit`; None when the call raises. */
    broadcast: TxData -> Option<BroadcastResponse>)

  /** The request for `rig` at `blockHeight`, its public inputs prepared
      at Unix time `nowUnix`. */
  function RequestFor(env: Env, m: Miner, rig: MiningRig, blockHeight: int, nowUnix: int): (q: ProofRequest)
    ensures q.blockHeight == blockHeight && q.rigId == rig.rigId
    ensures q.hashPower == rig.hashPower && q.wattConsumption == rig.wattConsumption
    ensures q.hardwareId == m.hardwareId && q.asicResistant == m.asicResistant
    ensures q.publicInputsHex == HexEncode(env.publicInputs(rig, blockHeight, m.hardwareId, nowUnix))
  {
    ProofRequest(rig.rigId, rig.hashPower, rig.wattConsumption, blockHeight,
                 HexEncode(env.publicInputs(rig, blockHeight, m.hardwareId, nowUnix)), m.hardwareId, m.asicResistant)
  }

  /** The prover can read the public inputs back from the request: the hex
      field decodes to the bytes prepared at the rig's clock reading. */
  lemma RequestInputsDecode(env: Env, m: Miner, rig: MiningRig, blockHeight: int, nowUnix: int)
    ensures HexDecode(RequestFor(env, m, rig, blockHeight, nowUnix).publicInputsHex)
      == Some(env.publicInputs(rig, blockHeight, m.hardwareId, nowUnix))
  {
    HexRoundTrip(env.publicInputs(rig, blockHeight, m.hardwareId, nowUnix));
  }

  /** `generate_cysic_proof_for_rig`: a proof exactly when the prover answers
      200 with a body whose two hex strings decode. */
  function ProofForRig(env: Env, m: Miner, rig: MiningRig, blockHeight: int, nowUnix: int): (r: Option<CysicProof>)
    ensures var resp := env.prove(RequestFor(env, m, rig, blockHeight, nowUnix));
      r.Some? <==> resp.Some? && resp.value.statusCode == 200 && resp.value.body.Some?
                   && HexDecode(resp.value.body.value.proof).Some?
                   && HexDecode(resp.value.body.value.verificationKey).Some?
    ensures r.Some? ==>
      var resp := env.prove(RequestFor(env, m, rig, blockHeight, nowUnix)).value;
      r.value.publicInputs == env.publicInputs(rig, blockHeight, m.hardwareId, nowUnix)
      && r.value.hardwareId == m.hardwareId && r.value.generationTimeMs == resp.elapsedMs
      && HexDecode(resp.body.value.proof) == Some(r.value.proofBytes)
      && HexDecode(resp.body.value.verificationKey) == Some(r.value.verificationKey)
  {
    match env.prove(RequestFor(env, m, rig, blockHeight, nowUnix))
    case None => None
    case Some(resp) =>
      if resp.statusCode != 200 || resp.body.None? then None
      else
        match (HexDecode(resp.body.value.proof), HexDecode(resp.body.value.verificationKey))
        case (Some(proof), Some(key)) =>
          Some(CysicProof(proof, env.publicInputs(rig, blockHeight, m.hardwareId, nowUnix), key, m.hardwareId,
                          resp.elapsedMs))
        case _ => None
  }

  /** The active rigs, in registry order. */
  function Active(reg: Registry): (r: seq<MiningRig>)
    ensures |r| <= |reg|
    ensures forall rig :: rig in r <==> exists i :: 0 <= i < |reg| && reg[i].rig == rig && rig.isActive
  {
    if |reg| == 0 then []
    else
      var rest := Active(reg[1..]);
      assert forall i :: 0 < i < |reg| ==> reg[i] == reg[1..][i - 1];
      if reg[0].rig.isActive then [reg[0].rig] + rest else rest
  }

  function CountSome<T>(xs: seq<Option<T>>): (n: nat)
    ensures n <= |xs|
  {
    if |xs| == 0 then 0 else (if xs[0].Some? then 1 else 0) + CountSome(xs[1..])
  }

  /** One proof round over the active rigs: what was asked and what came back. */
  datatype Round = Round(miner: Miner, requests: seq<ProofRequest>, proofs: seq<Option<CysicProof>>)

  /** `trigger_proof_generation`: one request per active rig, all at
      `blockHeight`; `proofs_generated` grows by the proofs obtained. Each
      rig reads the clock for its own public inputs: the `i`-th active rig
      at Unix time `clock(i)`. */
  function TriggerProofGeneration(env: Env, m: Miner, blockHeight: int, clock: nat -> int): (r: Round)
    ensures |Active(m.rigs)| == 0 ==> r == Round(m, [], [])
    ensures |r.requests| == |r.proofs| == |Active(m.rigs)|
    ensures forall i :: 0 <= i < |r.requests| ==>
      r.requests[i] == RequestFor(env, m, Active(m.rigs)[i], blockHeight, clock(i))
      && r.requests[i].blockHeight == blockHeight
      && r.proofs[i] == ProofForRig(env, m, Active(m.rigs)[i], blockHeight, clock(i))
    ensures r.miner == m.(proofsGenerated := m.proofsGenerated + CountSome(r.proofs))
  {
    var active := Active(m.rigs);
    var requests := seq(|active|, i requires 0 <= i < |active| => RequestFor(env, m, active[i], blockHeight, clock(i)));
    var proofs := seq(|active|, i requires 0 <= i < |active| => ProofForRig(env, m, active[i], blockHeight, clock(i)));
    Round(m.(proofsGenerated := m.proofsGenerated + CountSome(proofs)), requests, proofs)
  }

  /** A round never counts more proofs than it sent requests, and counts one
      only for a 200 answer. */
  lemma ProofsNeedSuccess(env: Env, m: Miner, blockHeight: int, clock: nat -> int)
    ensures var r := TriggerProofGeneration(env, m, blockHeight, clock);
      m.proofsGenerated <= r.miner.proofsGenerated <= m.proofsGenerated + |r.requests|
      && (r.miner.proofsGenerated > m.proofsGenerated ==>
            exists i :: 0 <= i < |r.requests| && env.prove(r.requests[i]).Some?
                        && env.prove(r.requests[i]).value.statusCode == 200)
  {
    var r := TriggerProofGeneration(env, m, blockHeight, clock);
    if r.miner.proofsGenerated > m.proofsGenerated {
      var i := SomeIndex(r.proofs);
      assert ProofForRig(env, m, Active(m.rigs)[i], blockHeight, clock(i)).Some?;
    }
  }

  /** The index of a present element, when any is counted. */
  lemma {:induction false} SomeIndex<T>(xs: seq<Option<T>>) returns (i: nat)
    requires CountSome(xs) > 0
    ensures i < |xs| && xs[i].Some?
  {
    if xs[0].Some? {
      i := 0;
    } else {
      var j := SomeIndex(xs[1..]);
      i := j + 1;
    }
  }

  /** A registry with no active rig makes no request. */
  lemma NoActiveRigNoRequest(env: Env, m: Miner, blockHeight: int, clock: nat -> int)
    requires forall i :: 0 <= i < |m.rigs| ==> !m.rigs[i].rig.isActive
    ensures TriggerProofGeneration(env, m, blockHeight, clock) == Round(m, [], [])
  {
  }

  /** `generate_cysic_proofs`' loop body: while any rig is loaded, a round
      tagged with the Unix time `nowUnix` rather than a block height; the
      rigs' public inputs then read the clock again, as `clock`. */
  function ProofLoopTick(env: Env, m: Miner, nowUnix: int, clock: nat -> int): (r: Round)
    ensures |m.rigs| == 0 ==> r == Round(m, [], [])
    ensures |m.rigs| > 0 ==> r == TriggerProofGeneration(env, m, nowUnix, clock)
  {
    if |m.rigs| == 0 then Round(m, [], []) else TriggerProofGeneration(env, m, nowUnix, clock)
  }

  // ------------------------------------------------------------ block monitor

  /** A websocket message as the monitor reads it: not JSON, or JSON with or
      without `result` and `result.data`, and the header height if the path
      to it exists and `int()` accepts it. */
  datatype Notice =
    | Unparsable
    | Parsed(hasResult: bool, hasData: bool, height: Option<int>)

  /** The heights `monitor_nuchain_blocks` starts a round at, and whether the
      connection was dropped by an exception (after which the rest of its
      messages are never read). */
  function BlockRounds(notices: seq<Notice>): (r: (seq<int>, bool))
    ensures |r.0| <= |notices|
    ensures r.1 <==> exists i :: 0 <= i < |notices| && (notices[i].Unparsable? || (notices[i].hasResult && notices[i].hasData && notices[i].height.None?))
    decreases |notices|
  {
    if |notices| == 0 then ([], false)
    else
      assert forall i :: 0 < i < |notices| ==> notices[1..][i - 1] == notices[i];
      match notices[0]
      case Unparsable => ([], true)
      case Parsed(hasResult, hasData, height) =>
        if !(hasResult && hasData) then BlockRounds(notices[1..])
        else if height.None? then ([], true)
        else
          var rest := BlockRounds(notices[1..]);
          ([height.value] + rest.0, rest.1)
  }

  /** A block notice is a round at its height. */
  predicate IsBlock(n: Notice) {
    n.Parsed? && n.hasResult && n.hasData && n.height.Some?
  }

  /** Without a malformed message, the rounds are exactly the block notices'
      heights, in order, duplicates included. */
  lemma {:induction false} RoundsAreBlockHeights(notices: seq<Notice>)
    requires forall i :: 0 <= i < |notices| ==> notices[i].Parsed?
    requires forall i :: 0 <= i < |notices| && notices[i].hasResult && notices[i].hasData ==> notices[i].height.Some?
    ensures BlockRounds(notices) == (BlockHeights(notices), false)
    decreases |notices|
  {
    if |notices| > 0 {
      assert forall i :: 0 < i < |notices| ==> notices[1..][i - 1] == notices[i];
      RoundsAreBlockHeights(notices[1..]);
    }
  }

  /** The heights of the block notices, in order. */
  function BlockHeights(notices: seq<Notice>): (hs: seq<int>)
    ensures |hs| <= |notices|
  {
    if |notices| == 0 then []
    else if IsBlock(notices[0]) then [notices[0].height.value] + BlockHeights(notices[1..])
    else BlockHeights(notices[1..])
  }

  /** Nothing suppresses a repeated block: the same notice twice is two rounds. */
  lemma RepeatedBlockTwoRounds(n: Notice)
    requires IsBlock(n)
    ensures BlockRounds([n, n]) == ([n.height.value, n.height.value], false)
  {
    var empty: seq<Notice> := [];
    assert [n][1..] == empty;
    assert BlockRounds([n]) == ([n.height.value] + BlockRounds(empty).0, BlockRounds(empty).1);
    assert [n, n][1..] == [n];
    assert BlockRounds([n, n]) == ([n.height.value] + BlockRounds([n]).0, BlockRounds([n]).1);
    assert BlockRounds([n]).0 == [n.height.value] && !BlockRounds([n]).1;
    assert [n.height.value] + [n.height.value] == [n.height.value, n.height.value];
  }

  /** The rounds of a connection, one after the other; in round `k` the
      `i`-th active rig reads the clock as `clock(k, i)`. */
  function RunRounds(env: Env, m: Miner, heights: seq<int>, clock: (nat, nat) -> int): (r: Miner)
    ensures r.rigs == m.rigs && r.totalRewards == m.totalRewards && r.proofsGenerated >= m.proofsGenerated
    decreases |heights|
  {
    if |heights| == 0 then m
    else RunRounds(env, TriggerProofGeneration(env, m, heights[0], (i: nat) => clock(0, i)).miner, heights[1..],
                   (k: nat, i: nat) => clock(k + 1, i))
  }

  // ------------------------------------------------------------ submission

  const SubmissionMessageType: string := "cysic_proof_submission"

  /** `encode_mining_payload`, before JSON encoding. */
  function EncodeMiningPayload(rig: MiningRig, proof: CysicProof, blockHeight: int, nowUnix: int)
    : (p: MiningPayload)
    ensures p.minerAddress == rig.owner && p.nuchainAddress == rig.nuchainAddress
    ensures p.rigIds == [rig.rigId] && p.totalHashPower == rig.hashPower
    ensures p.totalWattCost == rig.wattConsumption && p.hardwareId == proof.hardwareId
    ensures p.blockHeight == blockHeight && p.timestamp == nowUnix
    ensures HexDecode(p.cysicProof) == Some(proof.proofBytes)
    ensures HexDecode(p.publicInputs) == Some(proof.publicInputs)
  {
    HexRoundTrip(proof.proofBytes);
    HexRoundTrip(proof.publicInputs);
    MiningPayload(rig.owner, rig.nuchainAddress, [rig.rigId], rig.hashPower, rig.wattConsumption,
                  HexEncode(proof.proofBytes), HexEncode(proof.publicInputs), proof.hardwareId,
                  blockHeight, nowUnix)
  }

  /** Whether a broadcast reply counts as a reward: 200, code 0, and a hash
      to print. */
  predicate Rewarded(resp: Option<BroadcastResponse>) {
    resp.Some? && resp.value.statusCode == 200 && resp.value.body.Some?
    && resp.value.body.value.code == Some(0) && resp.value.body.value.hasHash
  }

  /** `submit_to_nuchain`: broadcast the proof as a `ProcessCrossChainMessage`
      and count a reward when the reply's code is 0. Without a relayer
      address nothing is sent. The clock is read twice: first for the
      payload's timestamp (`payloadUnix`), then for the nonce (`nonceUnix`). */
  function SubmitToNuchain(env: Env, m: Miner, rig: MiningRig, proof: CysicProof, blockHeight: int,
                           payloadUnix: int, nonceUnix: int)
    : (r: (Miner, Option<TxData>))
    ensures m.relayerAddress.None? ==> r == (m, None)
    ensures m.relayerAddress.Some? ==>
      r.1.Some? && r.1.value.creator == m.relayerAddress.value
      && r.1.value.messageType == SubmissionMessageType
      && r.1.value.payload == EncodeMiningPayload(rig, proof, blockHeight, payloadUnix)
      && r.1.value.payload.timestamp == payloadUnix && r.1.value.nonce == nonceUnix
    ensures r.0 == m.(totalRewards := r.0.totalRewards)
    ensures r.0.totalRewards == m.totalRewards + (if r.1.Some? && Rewarded(env.broadcast(r.1.value)) then 1 else 0)
  {
    match m.relayerAddress
    case None => (m, None)
    case Some(relayer) =>
      var tx := TxData("mining/ProcessCrossChainMessage", relayer, "cysic-hardware-mining",
                       SubmissionMessageType, EncodeMiningPayload(rig, proof, blockHeight, payloadUnix), nonceUnix);
      var resp := env.broadcast(tx);
      (if Rewarded(resp) then m.(totalRewards := m.totalRewards + 1) else m, Some(tx))
  }

  /** A reward is counted only for a reply whose result code is 0. */
  lemma RewardNeedsCodeZero(env: Env, m: Miner, rig: MiningRig, proof: CysicProof, blockHeight: int,
                            payloadUnix: int, nonceUnix: int)
    ensures var r := SubmitToNuchain(env, m, rig, proof, blockHeight, payloadUnix, nonceUnix);
      r.0.totalRewards > m.totalRewards ==>
        r.1.Some? && env.broadcast(r.1.value).Some? && env.broadcast(r.1.value).value.body.Some?
        && env.broadcast(r.1.value).value.body.value.code == Some(0)
  {
  }

  /** nuChain's mining module knows no "cysic_proof_submission" messages: the
      submission is refused as an unknown type, whatever its payload. */
  lemma SubmissionUnknownToMiningModule(codec: MiningKeeper.Codec, onReward: MiningKeeper.RewardDistributionHandler,
                                        st: MiningKeeper.State, tx: TxData, payload: seq<Byte>)
    requires tx.messageType == SubmissionMessageType
    ensures var msg := MiningTypes.CrossChainMessage(tx.sourceChain, tx.messageType, payload, tx.creator,
                                                      0, tx.nonce);
      MiningKeeper.ProcessCrossChainMessage(codec, onReward, st, msg)
        == Err(MiningKeeper.UnknownMessageType(SubmissionMessageType))
  {
  }

  // ------------------------------------------------------------ statistics

  /** The integer part of `monitor_mining_stats`' dict. */
  datatype MiningStats = MiningStats(
    proofsGenerated: nat,
    totalHashPower: int,
    totalWattConsumption: int,
    hardwareId: string,
    activeRigs: nat,
    totalRewards: nat)

  function SumHashPower(reg: Registry): int {
    if |reg| == 0 then 0 else reg[0].rig.hashPower + SumHashPower(reg[1..])
  }

  function SumWatts(reg: Registry): int {
    if |reg| == 0 then 0 else reg[0].rig.wattConsumption + SumWatts(reg[1..])
  }

  function Stats(m: Miner): (s: MiningStats)
    ensures s.activeRigs == |Active(m.rigs)|
    ensures s.totalHashPower == SumHashPower(m.rigs) && s.totalWattConsumption == SumWatts(m.rigs)
    ensures s.proofsGenerated == m.proofsGenerated && s.totalRewards == m.totalRewards
  {
    MiningStats(m.proofsGenerated, SumHashPower(m.rigs), SumWatts(m.rigs), m.hardwareId,
                |Active(m.rigs)|, m.totalRewards)
  }

  /** Deactivating a rig lowers the active count by one and leaves both sums
      as they were: the sums cover every rig. */
  lemma {:induction false} DeactivationKeepsSums(reg: Registry, i: nat)
    requires i < |reg| && reg[i].rig.isActive
    ensures var reg2 := reg[i := Entry(reg[i].key, reg[i].rig.(isActive := false))];
      SumHashPower(reg2) == SumHashPower(reg) && SumWatts(reg2) == SumWatts(reg)
      && |Active(reg2)| + 1 == |Active(reg)|
  {
    var reg2 := reg[i := Entry(reg[i].key, reg[i].rig.(isActive := false))];
    if i > 0 {
      assert reg2[1..] == reg[1..][i - 1 := Entry(reg[i].key, reg[i].rig.(isActive := false))];
      DeactivationKeepsSums(reg[1..], i - 1);
    } else {
      assert reg2[1..] == reg[1..];
    }
  }

  /** The stats of a registry: the active count is the number of requests a
      round makes. */
  lemma ActiveRigsAreRequests(env: Env, m: Miner, blockHeight: int, clock: nat -> int)
    ensures Stats(m).activeRigs == |TriggerProofGeneration(env, m, blockHeight, clock).requests|
  {
  }
}
