/** Optional values, results of operations that can raise, and the investment policy
    statement (src/risk/ips.py). */
module Options {
  datatype Option<+T> = None | Some(value: T)

  datatype Result<+T, +E> = Success(value: T) | Failure(error: E)
}

module Policies {

  datatype SafetyFirstPolicy = SafetyFirstPolicy(thresholdReturn: real, minimumRatio: real)

  /** The part of a policy that limits what may be held. */
  datatype InvestmentPolicy = InvestmentPolicy(
    maxPortfolioBeta: real,
    maxAnnualizedVolatility: real,
    safetyFirst: SafetyFirstPolicy,
    minCashBuffer: real,
    longOnly: bool,
    maxGrossExposure: real,
    maxPositionWeight: real,
    maxSectorWeight: real,
    corridorAbsolute: real,
    maxTurnover: real,
    minTradeNotional: real,
    maxDrawdown: real)
  {
    /** What construction accepts; anything else raises PolicyError. */
    predicate Constructible() {
      && 0.0 <= minCashBuffer < 1.0
      && 0.0 < maxPositionWeight <= maxSectorWeight
      && 0.0 < maxGrossExposure
    }

    /** Construction does not look at the sign of these three ceilings. */
    predicate NonNegativeCeilings() {
      0.0 <= maxPortfolioBeta && 0.0 <= maxAnnualizedVolatility && 0.0 <= maxTurnover
    }

    /** What may be invested once leverage and the cash kept back are both respected. */
    function EffectiveExposureCeiling(): real {
      if maxGrossExposure <= 1.0 - minCashBuffer then maxGrossExposure else 1.0 - minCashBuffer
    }
  }
}
