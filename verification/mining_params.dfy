/** Parameters of nuChain's mining module: their defaults and `Validate`.
    The keeper does not read them; it uses its own constants. */
module MiningParams {
  import opened Wrappers

  datatype Params = Params(
    minStakeAmount: string,
    blockReward: string,
    halvingInterval: int,
    supportedChains: seq<string>,
    layerZeroEndpoint: string)

  datatype ParamError =
    | EmptyMinStakeAmount
    | EmptyBlockReward
    | NonPositiveHalvingInterval(v: int)
    | EmptySupportedChains

  /** `NewParams`. */
  function NewParams(minStakeAmount: string, blockReward: string, halvingInterval: int,
                     supportedChains: seq<string>, layerZeroEndpoint: string)
    : (p: Params)
    ensures p.minStakeAmount == minStakeAmount && p.blockReward == blockReward
    ensures p.halvingInterval == halvingInterval && p.supportedChains == supportedChains
    ensures p.layerZeroEndpoint == layerZeroEndpoint
  {
    Params(minStakeAmount, blockReward, halvingInterval, supportedChains, layerZeroEndpoint)
  }

  /** `DefaultParams`: 21 NU minimum stake, 0.05 NU per block, halving every
      210M blocks, Altcoinchain and Polygon, no LayerZero endpoint yet. */
  function DefaultParams(): (p: Params)
    ensures p.supportedChains == ["altcoinchain-2330", "polygon-137"]
    ensures p.layerZeroEndpoint == ""
  {
    NewParams("21000000000000000000", "50000000000000000", 210_000_000,
              ["altcoinchain-2330", "polygon-137"], "")
  }

  /** The five validators in the order `Validate` runs them. The LayerZero
      endpoint validator accepts every string, so it adds no check. */
  function Violations(p: Params): seq<ParamError> {
    Check(p.minStakeAmount != "", EmptyMinStakeAmount)
    + Check(p.blockReward != "", EmptyBlockReward)
    + Check(p.halvingInterval > 0, NonPositiveHalvingInterval(p.halvingInterval))
    + Check(|p.supportedChains| > 0, EmptySupportedChains)
  }

  /** `Params.Validate`: the first failing validator's error, if any. The
      amounts are only required to be non-empty, not to be numbers. */
  function Validate(p: Params): (r: Outcome<ParamError>)
    ensures r == FirstFailure(Violations(p))
    ensures r.Pass? <==>
      p.minStakeAmount != "" && p.blockReward != "" && p.halvingInterval > 0 && |p.supportedChains| > 0
  {
    if p.minStakeAmount == "" then Fail(EmptyMinStakeAmount)
    else if p.blockReward == "" then Fail(EmptyBlockReward)
    else if p.halvingInterval <= 0 then Fail(NonPositiveHalvingInterval(p.halvingInterval))
    else if |p.supportedChains| == 0 then Fail(EmptySupportedChains)
    else Pass
  }

  lemma DefaultParamsValid()
    ensures Validate(DefaultParams()).Pass?
  {
  }

  /** The endpoint plays no part in validation. */
  lemma EndpointUnchecked(p: Params, endpoint: string)
    ensures Validate(p.(layerZeroEndpoint := endpoint)) == Validate(p)
  {
  }
}
