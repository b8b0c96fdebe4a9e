/** The records of nuChain's mining module. Their protobuf definitions are not
    part of this model; the fields are those the keeper, message server and
    genesis validation read and write. */
module MiningTypes {
  import opened Bytes

  /** A mining-rig NFT minted on an external chain. */
  datatype MiningRigNFT = MiningRigNFT(
    tokenId: nat,
    owner: string,
    chainId: string,
    contractAddress: string,
    hashPower: nat,
    wattConsumption: nat,
    isActive: bool,
    lastUpdated: int)

  /** A mining-pool operator staking WATT on an external chain. */
  datatype PoolOperator = PoolOperator(
    address: string,
    chainId: string,
    hasStakedWatt: bool,
    totalHashPower: nat)

  /** A nuChain staking node. */
  datatype StakingNode = StakingNode(
    operator: string,
    moniker: string,
    stakedNu: nat,
    isOnline: bool,
    lastBlockSigned: int,
    votingPower: nat,
    supportedChains: seq<string>)

  /** A message relayed from Altcoinchain or Polygon. */
  datatype CrossChainMessage = CrossChainMessage(
    sourceChain: string,
    messageType: string,
    payload: seq<Byte>,
    sender: string,
    nonce: nat,
    timestamp: int)
}
