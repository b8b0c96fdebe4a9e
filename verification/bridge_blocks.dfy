/** The oracle bridge's bookkeeping over its miner registry: crediting the
    miner of each Z-chain block (`processHardwareMiningRewards`), spreading
    each nuChain block's reward by hash power (`distributeNuRewards`), and
    the statistics `GetMiningStats` reports. The Go map of miners is visited
    in an order Go does not fix; each loop over it takes that order as a
    sequence listing every key once. */
module BridgeBlocks {
  import opened Wrappers
  import opened Bytes
  import opened Chain
  import opened MapSums
  import opened Bridge
  import Arith

  // ------------------------------------------------------------ processHardwareMiningRewards

  /** The first miner, in iteration order, whose hardware id is `hardwareId`. */
  function SolverOf(miners: map<string, HardwareMiner>, order: seq<string>, hardwareId: string)
    : (r: Option<string>)
    requires forall i :: 0 <= i < |order| ==> order[i] in miners
    ensures r.None? <==> forall i :: 0 <= i < |order| ==> miners[order[i]].hardwareId != hardwareId
    ensures r.Some? ==>
      exists i :: (0 <= i < |order| && order[i] == r.value && miners[r.value].hardwareId == hardwareId
                   && forall j :: 0 <= j < i ==> miners[order[j]].hardwareId != hardwareId)
    decreases |order|
  {
    if |order| == 0 then None
    else if miners[order[0]].hardwareId == hardwareId then
      assert order[0] == order[0];
      Some(order[0])
    else
      var r := SolverOf(miners, order[1..], hardwareId);
      assert forall i :: 1 <= i < |order| ==> order[1..][i - 1] == order[i];
      if r.Some? then
        var i :| 0 <= i < |order[1..]| && order[1..][i] == r.value
          && miners[r.value].hardwareId == hardwareId
          && forall j :: 0 <= j < i ==> miners[order[1..][j]].hardwareId != hardwareId;
        assert order[i + 1] == r.value;
        assert forall j :: 0 <= j < i + 1 ==> miners[order[j]].hardwareId != hardwareId by {
          forall j | 0 <= j < i + 1 ensures miners[order[j]].hardwareId != hardwareId {
            if j > 0 {
              assert order[j] == order[1..][j - 1];
            }
          }
        }
        r
      else r
  }

  /** The miner after the block's reward and its device bonus are added. */
  function Credited(m: HardwareMiner, block: ZChainBlock): (m': HardwareMiner)
    ensures m'.totalRewards == m.totalRewards + block.minerReward + GetHardwareBonus(m.hardwareId)
    ensures m' == m.(totalRewards := m'.totalRewards)
  {
    m.(totalRewards := m.totalRewards + block.minerReward + GetHardwareBonus(m.hardwareId))
  }

  /** `processHardwareMiningRewards`: credit the block's miner reward plus the
      hardware bonus to the first miner, in iteration order, whose hardware
      id is the block's; nobody else. Whether that miner is active is not
      looked at. */
  function ProcessHardwareMiningRewards(st: State, block: ZChainBlock, order: seq<string>): (st': State)
    requires Enumerates(order, st.hardwareMiners.Keys)
    ensures st'.hardwareMiners.Keys == st.hardwareMiners.Keys
    ensures st'.utxoSet == st.utxoSet && st'.pendingTxs == st.pendingTxs && st'.miningPools == st.miningPools
    ensures (forall k :: k in st.hardwareMiners ==> st.hardwareMiners[k].hardwareId != block.hardwareId) ==> st' == st
    ensures forall k :: k in st.hardwareMiners ==>
      var m := st.hardwareMiners[k];
      st'.hardwareMiners[k] == m
      || (m.hardwareId == block.hardwareId && st'.hardwareMiners[k] == Credited(m, block))
  {
    match SolverOf(st.hardwareMiners, order, block.hardwareId)
    case None => st
    case Some(k) => st.(hardwareMiners := st.hardwareMiners[k := Credited(st.hardwareMiners[k], block)])
  }

  /** At most one miner is credited per block. */
  lemma AtMostOneCredited(st: State, block: ZChainBlock, order: seq<string>)
    requires Enumerates(order, st.hardwareMiners.Keys)
    ensures var st' := ProcessHardwareMiningRewards(st, block, order);
      forall k1, k2 :: k1 in st.hardwareMiners && k2 in st.hardwareMiners
        && st'.hardwareMiners[k1] != st.hardwareMiners[k1] && st'.hardwareMiners[k2] != st.hardwareMiners[k2]
        ==> k1 == k2
  {
    var miners := st.hardwareMiners;
    match SolverOf(miners, order, block.hardwareId)
    case None =>
    case Some(s) =>
      var st' := ProcessHardwareMiningRewards(st, block, order);
      assert forall k :: k in miners && k != s ==> st'.hardwareMiners[k] == miners[k];
  }

  /** When some miner has the block's hardware id, the block credits one:
      the first such miner in iteration order. */
  lemma SolverCredited(st: State, block: ZChainBlock, order: seq<string>, k: string)
    requires Enumerates(order, st.hardwareMiners.Keys)
    requires k in st.hardwareMiners && st.hardwareMiners[k].hardwareId == block.hardwareId
    ensures var s := SolverOf(st.hardwareMiners, order, block.hardwareId);
      s.Some? && ProcessHardwareMiningRewards(st, block, order).hardwareMiners
                   == st.hardwareMiners[s.value := Credited(st.hardwareMiners[s.value], block)]
  {
    var i :| 0 <= i < |order| && order[i] == k;
  }

  /** With two miners on the same device, which one a block credits is
      decided by the map's iteration order alone. */
  lemma IterationOrderPicksSolver(st: State, block: ZChainBlock, k1: string, k2: string)
    requires st.hardwareMiners.Keys == {k1, k2} && k1 != k2
    requires st.hardwareMiners[k1].hardwareId == block.hardwareId
    requires st.hardwareMiners[k2].hardwareId == block.hardwareId
    ensures var m1 := st.hardwareMiners[k1];
      var m2 := st.hardwareMiners[k2];
      ProcessHardwareMiningRewards(st, block, [k1, k2]).hardwareMiners[k1].totalRewards
        == m1.totalRewards + block.minerReward + GetHardwareBonus(m1.hardwareId)
      && ProcessHardwareMiningRewards(st, block, [k1, k2]).hardwareMiners[k2] == m2
      && ProcessHardwareMiningRewards(st, block, [k2, k1]).hardwareMiners[k1] == m1
      && ProcessHardwareMiningRewards(st, block, [k2, k1]).hardwareMiners[k2].totalRewards
        == m2.totalRewards + block.minerReward + GetHardwareBonus(m2.hardwareId)
  {
    assert Enumerates([k1, k2], st.hardwareMiners.Keys);
    assert Enumerates([k2, k1], st.hardwareMiners.Keys);
  }

  // ------------------------------------------------------------ iteration sums

  function ActiveCount(miners: map<string, HardwareMiner>): string -> int {
    k => if k in miners && miners[k].isActive then 1 else 0
  }

  function ActiveHashPower(miners: map<string, HardwareMiner>): string -> int {
    k => if k in miners && miners[k].isActive then miners[k].hashPower else 0
  }

  function ActiveWatts(miners: map<string, HardwareMiner>): string -> int {
    k => if k in miners && miners[k].isActive then miners[k].wattConsumption else 0
  }

  function ActiveRewards(miners: map<string, HardwareMiner>): string -> int {
    k => if k in miners && miners[k].isActive then miners[k].totalRewards else 0
  }

  ghost function ActiveMiners(miners: map<string, HardwareMiner>): set<string> {
    set k | k in miners && miners[k].isActive
  }

  /** Counting active miners one by one gives the number of active miners. */
  lemma ActiveCountIsSize(miners: map<string, HardwareMiner>, keys: set<string>)
    requires keys <= miners.Keys
    ensures SumOver(keys, ActiveCount(miners)) == |set k | k in keys && miners[k].isActive|
  {
    SumOverCounts(keys, ActiveCount(miners), set k | k in keys && miners[k].isActive);
  }

  /** The `uint64` sum, in iteration order, of the active miners' hash power. */
  function TotalActiveHashPower(miners: map<string, HardwareMiner>, order: seq<string>): (total: nat)
    ensures total < U64
    ensures total == SumInOrder(order, ActiveHashPower(miners)) % U64
    decreases |order|
  {
    if |order| == 0 then 0
    else
      var init := order[..|order| - 1];
      var last := ActiveHashPower(miners)(order[|order| - 1]);
      Arith.ModAddLeft(SumInOrder(init, ActiveHashPower(miners)), last, U64);
      (TotalActiveHashPower(miners, init) + last) % U64
  }

  // ------------------------------------------------------------ GetMiningStats

  /** The loop's four sums over the whole order are the order-free sums. */
  lemma StatsAreSums(miners: map<string, HardwareMiner>, order: seq<string>)
    requires Enumerates(order, miners.Keys)
    ensures SumInOrder(order, ActiveCount(miners)) == |ActiveMiners(miners)|
    ensures SumInOrder(order, ActiveHashPower(miners)) == SumOver(miners.Keys, ActiveHashPower(miners))
    ensures SumInOrder(order, ActiveWatts(miners)) == SumOver(miners.Keys, ActiveWatts(miners))
    ensures SumInOrder(order, ActiveRewards(miners)) == SumOver(miners.Keys, ActiveRewards(miners))
  {
    SumInOrderIsSumOver(order, miners.Keys, ActiveCount(miners));
    SumInOrderIsSumOver(order, miners.Keys, ActiveHashPower(miners));
    SumInOrderIsSumOver(order, miners.Keys, ActiveWatts(miners));
    SumInOrderIsSumOver(order, miners.Keys, ActiveRewards(miners));
    ActiveCountIsSize(miners, miners.Keys);
    assert (set k | k in miners.Keys && miners[k].isActive) == ActiveMiners(miners);
  }

  datatype MiningStats = MiningStats(
    activeMiners: nat,
    totalHashPower: nat,
    totalWattConsumption: nat,
    totalRewards: int,
    utxoCount: nat,
    pendingTransactions: nat,
    miningPools: nat)

  /** `GetMiningStats`: over the active miners, their number, the `uint64`
      sums of hash power and watt consumption, and the sum of their rewards;
      and the sizes of the UTXO set, the pending transactions and the pools.
      Whatever order the loop visits the miners in, the figures are the same. */
  method GetMiningStats(st: State, order: seq<string>) returns (stats: MiningStats)
    requires Enumerates(order, st.hardwareMiners.Keys)
    ensures stats.activeMiners == |ActiveMiners(st.hardwareMiners)|
    ensures stats.totalHashPower == SumOver(st.hardwareMiners.Keys, ActiveHashPower(st.hardwareMiners)) % U64
    ensures stats.totalWattConsumption == SumOver(st.hardwareMiners.Keys, ActiveWatts(st.hardwareMiners)) % U64
    ensures stats.totalRewards == SumOver(st.hardwareMiners.Keys, ActiveRewards(st.hardwareMiners))
    ensures stats.utxoCount == |st.utxoSet| && stats.pendingTransactions == |st.pendingTxs|
    ensures stats.miningPools == |st.miningPools|
  {
    var t := SumActiveMiners(st.hardwareMiners, order);
    TotalsAreSums(st.hardwareMiners, order);
    StatsAreSums(st.hardwareMiners, order);
    stats := MiningStats(t.active, t.hashPower, t.watts, t.rewards,
                         |st.utxoSet|, |st.pendingTxs|, |st.miningPools|);
  }

  /** The four running figures of the stats loop. */
  datatype Totals = Totals(active: nat, hashPower: nat, watts: nat, rewards: int)

  /** One turn of the stats loop: an active miner adds to every figure, the
      two `uint64` sums wrapping. */
  function AddMiner(t: Totals, m: HardwareMiner): Totals {
    if m.isActive then
      Totals(t.active + 1, (t.hashPower + m.hashPower) % U64, (t.watts + m.wattConsumption) % U64,
             t.rewards + m.totalRewards)
    else t
  }

  /** The figures after visiting `order`. */
  function TotalsOf(miners: map<string, HardwareMiner>, order: seq<string>): Totals
    requires forall j :: 0 <= j < |order| ==> order[j] in miners
  {
    if |order| == 0 then Totals(0, 0, 0, 0)
    else AddMiner(TotalsOf(miners, order[..|order| - 1]), miners[order[|order| - 1]])
  }

  /** Each figure is the corresponding sum in iteration order. */
  lemma TotalsAreSums(miners: map<string, HardwareMiner>, order: seq<string>)
    requires forall j :: 0 <= j < |order| ==> order[j] in miners
    ensures var t := TotalsOf(miners, order);
      t.active == SumInOrder(order, ActiveCount(miners))
      && t.hashPower == SumInOrder(order, ActiveHashPower(miners)) % U64
      && t.watts == SumInOrder(order, ActiveWatts(miners)) % U64
      && t.rewards == SumInOrder(order, ActiveRewards(miners))
  {
    CountsAreSums(miners, order);
    WrappedAreSums(miners, order);
  }

  lemma {:induction false} CountsAreSums(miners: map<string, HardwareMiner>, order: seq<string>)
    requires forall j :: 0 <= j < |order| ==> order[j] in miners
    ensures TotalsOf(miners, order).active == SumInOrder(order, ActiveCount(miners))
    ensures TotalsOf(miners, order).rewards == SumInOrder(order, ActiveRewards(miners))
    decreases |order|
  {
    if |order| > 0 {
      CountsAreSums(miners, order[..|order| - 1]);
    }
  }

  lemma {:induction false} WrappedAreSums(miners: map<string, HardwareMiner>, order: seq<string>)
    requires forall j :: 0 <= j < |order| ==> order[j] in miners
    ensures TotalsOf(miners, order).hashPower == SumInOrder(order, ActiveHashPower(miners)) % U64
    ensures TotalsOf(miners, order).watts == SumInOrder(order, ActiveWatts(miners)) % U64
    decreases |order|
  {
    if |order| > 0 {
      var init := order[..|order| - 1];
      WrappedAreSums(miners, init);
      var m := miners[order[|order| - 1]];
      var t0 := TotalsOf(miners, init);
      var h := if m.isActive then m.hashPower else 0;
      var w := if m.isActive then m.wattConsumption else 0;
      assert SumInOrder(order, ActiveHashPower(miners)) == SumInOrder(init, ActiveHashPower(miners)) + h;
      assert SumInOrder(order, ActiveWatts(miners)) == SumInOrder(init, ActiveWatts(miners)) + w;
      WrappedStep(t0.hashPower, SumInOrder(init, ActiveHashPower(miners)), h);
      WrappedStep(t0.watts, SumInOrder(init, ActiveWatts(miners)), w);
    }
  }

  /** Adding to a sum kept modulo 2^64 keeps it the true sum modulo 2^64. */
  lemma WrappedStep(acc: int, sum: int, x: int)
    requires acc == sum % U64
    ensures (acc + x) % U64 == (sum + x) % U64
    ensures x == 0 ==> acc == (sum + x) % U64
  {
    Arith.ModAddLeft(sum, x, U64);
    Arith.ModAddLeft(sum, 0, U64);
  }

  /** The loop of `GetMiningStats`, over the keys in the order visited. */
  method SumActiveMiners(miners: map<string, HardwareMiner>, order: seq<string>) returns (t: Totals)
    requires forall j :: 0 <= j < |order| ==> order[j] in miners
    ensures t == TotalsOf(miners, order)
  {
    t := Totals(0, 0, 0, 0);
    var i := 0;
    while i < |order|
      invariant 0 <= i <= |order|
      invariant t == TotalsOf(miners, order[..i])
    {
      assert order[..i + 1][..i] == order[..i];
      t := AddMiner(t, miners[order[i]]);
      i := i + 1;
    }
    assert order[..|order|] == order;
  }

  // ------------------------------------------------------------ distributeNuRewards

  /** `distributeNuRewards`. With no active hash power nothing changes;
      otherwise every active miner's rewards grow by its share of the fixed
      0.05 NU base. The share (`sdk.Dec` division, multiplication and
      truncation of the `int64` conversions) is the parameter
      `share(hashPower, totalHashPower, base)`. */
  function DistributeNuRewards(st: State, order: seq<string>, share: (nat, nat, nat) -> int): (st': State)
    requires Enumerates(order, st.hardwareMiners.Keys)
    ensures var total := SumOver(st.hardwareMiners.Keys, ActiveHashPower(st.hardwareMiners)) % U64;
      (total == 0 ==> st' == st)
      && (total != 0 ==> st'.hardwareMiners == NuShares(st.hardwareMiners, total, share))
    ensures st'.utxoSet == st.utxoSet && st'.pendingTxs == st.pendingTxs && st'.miningPools == st.miningPools
  {
    var total := TotalActiveHashPower(st.hardwareMiners, order);
    SumInOrderIsSumOver(order, st.hardwareMiners.Keys, ActiveHashPower(st.hardwareMiners));
    if total == 0 then st
    else st.(hardwareMiners := NuShares(st.hardwareMiners, total, share))
  }

  /** The second loop of `distributeNuRewards`: every active miner's rewards
      grow by its share, every inactive miner stays as it was. */
  function NuShares(miners: map<string, HardwareMiner>, total: nat, share: (nat, nat, nat) -> int)
    : (m': map<string, HardwareMiner>)
    ensures m'.Keys == miners.Keys
    ensures forall k :: k in miners ==>
      m'[k] == if miners[k].isActive
               then miners[k].(totalRewards := miners[k].totalRewards + share(miners[k].hashPower, total, NuBlockReward))
               else miners[k]
  {
    map k | k in miners ::
      if miners[k].isActive
      then miners[k].(totalRewards := miners[k].totalRewards + share(miners[k].hashPower, total, NuBlockReward))
      else miners[k]
  }

  /** Two different iteration orders distribute the same rewards. */
  lemma NuRewardsOrderFree(st: State, o1: seq<string>, o2: seq<string>, share: (nat, nat, nat) -> int)
    requires Enumerates(o1, st.hardwareMiners.Keys) && Enumerates(o2, st.hardwareMiners.Keys)
    ensures DistributeNuRewards(st, o1, share) == DistributeNuRewards(st, o2, share)
  {
    var a := DistributeNuRewards(st, o1, share);
    var b := DistributeNuRewards(st, o2, share);
    assert a.hardwareMiners == b.hardwareMiners;
  }
}
