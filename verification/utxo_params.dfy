/** Parameters of the Z-chain UTXO module: their defaults and `Validate`. */
module UtxoParams {
  import opened Wrappers

  datatype Params = Params(
    blockReward: string,
    halvingInterval: int,
    minDifficulty: nat,
    maxDifficulty: nat,
    hardwareAcceleration: bool,
    supportedDevices: seq<string>)

  datatype ParamError =
    | EmptyBlockReward
    | NonPositiveHalvingInterval(v: int)
    | ZeroMinDifficulty
    | ZeroMaxDifficulty
    | EmptySupportedDevices

  function DefaultParams(): (p: Params)
    ensures p.minDifficulty <= p.maxDifficulty
    ensures "nvidia-h100" in p.supportedDevices
  {
    Params("50000000000000000", 210_000_000, 1_000_000, 1_000_000_000_000, true,
           ["nvidia-a100", "nvidia-h100", "xilinx-fpga"])
  }

  /** The six checks in the order `Validate` runs them; the hardware flag
      check never fails, since any `bool` is accepted. `MinDifficulty <=
      MaxDifficulty` is not among them. */
  function Violations(p: Params): seq<ParamError> {
    Check(p.blockReward != "", EmptyBlockReward)
    + Check(p.halvingInterval > 0, NonPositiveHalvingInterval(p.halvingInterval))
    + Check(p.minDifficulty != 0, ZeroMinDifficulty)
    + Check(p.maxDifficulty != 0, ZeroMaxDifficulty)
    + Check(|p.supportedDevices| > 0, EmptySupportedDevices)
  }

  /** `Params.Validate`: the first failing validator's error, if any. */
  function Validate(p: Params): (r: Outcome<ParamError>)
    ensures r == FirstFailure(Violations(p))
    ensures r.Pass? <==>
      p.blockReward != "" && p.halvingInterval > 0 && p.minDifficulty > 0
      && p.maxDifficulty > 0 && |p.supportedDevices| > 0
  {
    if p.blockReward == "" then Fail(EmptyBlockReward)
    else if p.halvingInterval <= 0 then Fail(NonPositiveHalvingInterval(p.halvingInterval))
    else if p.minDifficulty == 0 then Fail(ZeroMinDifficulty)
    else if p.maxDifficulty == 0 then Fail(ZeroMaxDifficulty)
    else if |p.supportedDevices| == 0 then Fail(EmptySupportedDevices)
    else Pass
  }

  lemma DefaultParamsValid()
    ensures Validate(DefaultParams()).Pass?
  {
  }

  /** Inverted difficulty bounds pass validation. */
  lemma InvertedBoundsAccepted()
    ensures Validate(DefaultParams().(minDifficulty := 10, maxDifficulty := 3)).Pass?
  {
  }
}
