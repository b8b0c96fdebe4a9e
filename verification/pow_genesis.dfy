/** Genesis state of the Z-chain proof-of-work module and its `Validate`.
    The module's `Params` type and its validator are not part of this model,
    so they are type and function parameters here. */
module PowGenesis {
  import opened Wrappers

  datatype GenesisState<P> = GenesisState(
    params: P,
    difficulty: nat,
    blockReward: string,
    halvingInterval: int,
    lastBlockHeight: int)

  datatype GenesisError<E> = ZeroHalvingInterval | ZeroDifficulty | InvalidParams(e: E)

  function DefaultGenesis<P>(defaultParams: P): (gs: GenesisState<P>)
    ensures gs.difficulty == 1_000_000 && gs.halvingInterval == 210_000_000
    ensures gs.params == defaultParams
  {
    GenesisState(defaultParams, 1_000_000, "50000000000000000", 210_000_000, 0)
  }

  /** `GenesisState.Validate`: only a halving interval of exactly zero is
      refused (a negative one passes), then a zero difficulty, then whatever
      the params validator says. */
  function Validate<P, E>(gs: GenesisState<P>, validateParams: P -> Outcome<E>): (r: Outcome<GenesisError<E>>)
    ensures r.Pass? <==> gs.halvingInterval != 0 && gs.difficulty != 0 && validateParams(gs.params).Pass?
    ensures gs.halvingInterval == 0 ==> r == Fail(ZeroHalvingInterval)
    ensures gs.halvingInterval != 0 && gs.difficulty == 0 ==> r == Fail(ZeroDifficulty)
    ensures gs.halvingInterval != 0 && gs.difficulty != 0 && validateParams(gs.params).Fail? ==>
      r == Fail(InvalidParams(validateParams(gs.params).error))
  {
    if gs.halvingInterval == 0 then Fail(ZeroHalvingInterval)
    else if gs.difficulty == 0 then Fail(ZeroDifficulty)
    else match validateParams(gs.params)
      case Fail(e) => Fail(InvalidParams(e))
      case Pass => Pass
  }

  /** The defaults pass the genesis checks; the outcome is the params' own. */
  lemma DefaultGenesisChecks<P, E>(defaultParams: P, validateParams: P -> Outcome<E>)
    ensures Validate(DefaultGenesis(defaultParams), validateParams).Pass? <==> validateParams(defaultParams).Pass?
  {
  }

  lemma NegativeHalvingAccepted<P, E>(p: P, validateParams: P -> Outcome<E>)
    requires validateParams(p).Pass?
    ensures Validate(GenesisState(p, 1, "", -1, 0), validateParams).Pass?
  {
  }
}
