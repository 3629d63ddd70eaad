/** The risk engine (src/risk/engine.py): what it measures, the final gate, and the repairs
    in their order, as functions. The loops that compute them in place are in RiskRepairs. */
module RiskEngine {
  import opened Arithmetic
  import opened Options
  import opened Ordering
  import opened Sums
  import opened Policies

  type Weights = map<string, real>

  datatype ReasonCode =
    | MaxPositionWeight | MaxSectorWeight | MinCashBuffer | MaxPortfolioBeta | MaxVolatility
    | SafetyFirstThreshold | NoLeverage | NoShorting | RebalanceCorridor | MaxTurnover
    | UniverseWhitelist | DrawdownCircuitBreaker | WashSaleWindow

  datatype Violation = Violation(code: ReasonCode, symbol: Option<string>, observed: Option<real>, limit: Option<real>)
  datatype Repair = Repair(code: ReasonCode, symbol: Option<string>)
  datatype Decision = Approved | Modified | Rejected

  datatype RiskContext = RiskContext(
    asOf: int,
    currentWeights: Weights,
    sectors: map<string, string>,
    betas: map<string, real>,
    covariance: Covariance,
    expectedReturns: map<string, real>,
    universe: set<string>,
    drawdown: real,
    riskFreeRate: real,
    blockedUntil: map<string, int>)

  /** The two numerical routines the engine calls: the decimal square root and the
      closed-form minimum-variance solve, which fails on a singular matrix. */
  datatype Numerics = Numerics(
    root: real -> real,
    minimumVariance: seq<seq<real>> -> Option<seq<real>>)
  {
    /** `root` takes exact roots of positive numbers. */
    ghost predicate ExactRoot() {
      forall v {:trigger root(v)} :: 0.0 < v ==> 0.0 <= root(v) && root(v) * root(v) == v
    }
  }

  datatype RiskMetrics = RiskMetrics(
    grossExposure: real,
    cashWeight: real,
    portfolioBeta: real,
    annualizedVolatility: real,
    safetyFirstRatio: Option<real>,
    turnover: real,
    maxDrift: real)

  datatype RiskAssessment = RiskAssessment(
    decision: Decision,
    weights: Weights,
    cashWeight: real,
    violations: seq<Violation>,
    repairs: seq<Repair>,
    metrics: RiskMetrics,
    minTradeNotional: real)

  const TOLERANCE: real := 0.000000000001

  // ----- measurement

  function PortfolioBeta(w: Weights, betas: map<string, real>): real {
    Dot(w, betas)
  }

  function PortfolioVolatility(w: Weights, c: Covariance, num: Numerics): real {
    var variance := Variance(w, c);
    if variance <= 0.0 then 0.0 else num.root(variance)
  }

  function SectorOf(s: string, sectors: map<string, string>): string {
    if s in sectors then sectors[s] else "UNKNOWN"
  }

  function InSector(keys: set<string>, sectors: map<string, string>, sector: string): set<string> {
    set s | s in keys && SectorOf(s, sectors) == sector
  }

  function SectorMembers(w: Weights, sectors: map<string, string>, sector: string): set<string> {
    InSector(w.Keys, sectors, sector)
  }

  function SectorExposure(w: Weights, sectors: map<string, string>, sector: string): real {
    Sum(SectorMembers(w, sectors, sector), Entry(w))
  }

  function SectorExposures(w: Weights, sectors: map<string, string>): map<string, real> {
    map sector | sector in (set s | s in w :: SectorOf(s, sectors)) :: SectorExposure(w, sectors, sector)
  }

  function Change(x: Weights, y: Weights): Vector {
    s => Abs(Get(y, s) - Get(x, s))
  }

  /** What changes hands, counting a sale and the purchase it pays for once. */
  function Turnover(current: Weights, target: Weights): real {
    Sum(current.Keys + target.Keys, Change(current, target)) / 2.0
  }

  function Largest(keys: set<string>, f: Vector): real
    requires keys != {}
  {
    var k := Least(keys);
    if keys == {k} then f(k)
    else
      var rest := Largest(keys - {k}, f);
      if rest < f(k) then f(k) else rest
  }

  function MaxDrift(current: Weights, target: Weights): real {
    var names := current.Keys + target.Keys;
    if names == {} then 0.0 else Largest(names, Change(current, target))
  }

  function ExpectedReturn(w: Weights, ctx: RiskContext): real {
    Dot(w, ctx.expectedReturns) + (1.0 - Total(w)) * ctx.riskFreeRate
  }

  /** Roy's ratio, None for a riskless book. */
  function SafetyFirstRatio(w: Weights, ctx: RiskContext, policy: InvestmentPolicy, num: Numerics): Option<real> {
    var volatility := PortfolioVolatility(w, ctx.covariance, num);
    if volatility <= 0.0 then None
    else Some((ExpectedReturn(w, ctx) - policy.safetyFirst.thresholdReturn) / volatility)
  }

  function Metrics(w: Weights, ctx: RiskContext, policy: InvestmentPolicy, num: Numerics): RiskMetrics {
    RiskMetrics(Total(w), 1.0 - Total(w), PortfolioBeta(w, ctx.betas),
                PortfolioVolatility(w, ctx.covariance, num), SafetyFirstRatio(w, ctx, policy, num),
                Turnover(ctx.currentWeights, w), MaxDrift(ctx.currentWeights, w))
  }

  // ----- verification

  predicate IsBlocked(s: string, ctx: RiskContext) {
    s in ctx.blockedUntil && ctx.asOf < ctx.blockedUntil[s]
  }

  function When(condition: bool, v: Violation): seq<Violation> {
    if condition then [v] else []
  }

  function NameViolations(s: string, weight: real, ctx: RiskContext, policy: InvestmentPolicy): seq<Violation> {
    When(policy.longOnly && weight < -TOLERANCE, Violation(NoShorting, Some(s), Some(weight), Some(0.0)))
    + When(weight > policy.maxPositionWeight + TOLERANCE,
           Violation(MaxPositionWeight, Some(s), Some(weight), Some(policy.maxPositionWeight)))
    + When(s !in ctx.universe, Violation(UniverseWhitelist, Some(s), None, None))
    + When(weight > TOLERANCE && IsBlocked(s, ctx), Violation(WashSaleWindow, Some(s), Some(weight), None))
  }

  function AllNameViolations(ks: seq<string>, w: Weights, ctx: RiskContext, policy: InvestmentPolicy): seq<Violation> {
    if ks == [] then []
    else AllNameViolations(ks[..|ks| - 1], w, ctx, policy)
         + NameViolations(ks[|ks| - 1], Get(w, ks[|ks| - 1]), ctx, policy)
  }

  function SectorViolation(exposure: real, policy: InvestmentPolicy): seq<Violation> {
    When(exposure > policy.maxSectorWeight + TOLERANCE,
         Violation(MaxSectorWeight, None, Some(exposure), Some(policy.maxSectorWeight)))
  }

  function AllSectorViolations(sectors: seq<string>, exposures: map<string, real>, policy: InvestmentPolicy): seq<Violation> {
    if sectors == [] then []
    else AllSectorViolations(sectors[..|sectors| - 1], exposures, policy)
         + SectorViolation(Get(exposures, sectors[|sectors| - 1]), policy)
  }

  function BookViolations(w: Weights, ctx: RiskContext, policy: InvestmentPolicy, num: Numerics): seq<Violation> {
    var gross := Total(w);
    var beta := PortfolioBeta(w, ctx.betas);
    var volatility := PortfolioVolatility(w, ctx.covariance, num);
    When(gross > policy.maxGrossExposure + TOLERANCE,
         Violation(NoLeverage, None, Some(gross), Some(policy.maxGrossExposure)))
    + When(1.0 - gross < policy.minCashBuffer - TOLERANCE,
           Violation(MinCashBuffer, None, Some(1.0 - gross), Some(policy.minCashBuffer)))
    + When(beta > policy.maxPortfolioBeta + TOLERANCE,
           Violation(MaxPortfolioBeta, None, Some(beta), Some(policy.maxPortfolioBeta)))
    + When(volatility > policy.maxAnnualizedVolatility + TOLERANCE,
           Violation(MaxVolatility, None, Some(volatility), Some(policy.maxAnnualizedVolatility)))
  }

  function SafetyFirstViolation(ratio: Option<real>, policy: InvestmentPolicy): seq<Violation> {
    if ratio.Some? && ratio.value < policy.safetyFirst.minimumRatio
    then [Violation(SafetyFirstThreshold, None, Some(ratio.value), Some(policy.safetyFirst.minimumRatio))]
    else []
  }

  /** Every constraint checked against a finished book, however it was produced. */
  function Verify(w: Weights, ctx: RiskContext, policy: InvestmentPolicy, num: Numerics): seq<Violation> {
    var exposures := SectorExposures(w, ctx.sectors);
    AllNameViolations(SortedKeys(w.Keys), w, ctx, policy)
    + AllSectorViolations(SortedKeys(exposures.Keys), exposures, policy)
    + BookViolations(w, ctx, policy, num)
    + SafetyFirstViolation(SafetyFirstRatio(w, ctx, policy, num), policy)
  }

  // ----- repairs

  function Keeping(w: Weights, drop: string -> bool): Weights {
    map s | s in w && !drop(s) :: w[s]
  }

  function Logged(ks: seq<string>, touched: string -> bool, code: ReasonCode): seq<Repair> {
    if ks == [] then []
    else Logged(ks[..|ks| - 1], touched, code)
         + (if touched(ks[|ks| - 1]) then [Repair(code, Some(ks[|ks| - 1]))] else [])
  }

  /** The per-name log of one repair over a book. */
  function LoggedOver(w: Weights, touched: string -> bool, code: ReasonCode): seq<Repair> {
    Logged(SortedKeys(w.Keys), touched, code)
  }

  function IsZero(w: Weights): string -> bool {
    s => Get(w, s) == 0.0
  }

  function NonZero(w: Weights): Weights {
    Keeping(w, IsZero(w))
  }

  function Matrix(symbols: seq<string>, c: Covariance): seq<seq<real>> {
    seq(|symbols|, i requires 0 <= i < |symbols| =>
      seq(|symbols|, j requires 0 <= j < |symbols| => Cell(c, symbols[i], symbols[j])))
  }

  /** The symbols paired with the weights solved for, where these are positive. */
  function PositiveWeights(symbols: seq<string>, raw: seq<real>): Weights {
    if symbols == [] || raw == [] then map[]
    else
      var rest := PositiveWeights(symbols[1..], raw[1..]);
      if raw[0] > 0.0 then rest[symbols[0] := raw[0]] else rest
  }

  /** Positive minimum-variance weights, or all cash when there is nothing to solve. */
  function MinimumVariance(ctx: RiskContext, num: Numerics): Weights {
    var symbols := SortedKeys(ctx.universe * ctx.covariance.Keys);
    if symbols == [] then map[]
    else
      match num.minimumVariance(Matrix(symbols, ctx.covariance))
      case None => map[]
      case Some(raw) => PositiveWeights(symbols, raw)
  }

  predicate BreakerTripped(ctx: RiskContext, policy: InvestmentPolicy) {
    ctx.drawdown > policy.maxDrawdown
  }

  /** The book the repairs start from: the proposal, or past the breaker the
      minimum-variance book instead. */
  function Start(proposed: Weights, ctx: RiskContext, policy: InvestmentPolicy, num: Numerics): Weights {
    if BreakerTripped(ctx, policy) then MinimumVariance(ctx, num) else NonZero(proposed)
  }

  function Uninvestable(ctx: RiskContext): string -> bool {
    s => s !in ctx.universe
  }

  function Blocked(ctx: RiskContext): string -> bool {
    s => IsBlocked(s, ctx)
  }

  function Short(w: Weights): string -> bool {
    s => Get(w, s) < 0.0
  }

  function Above(w: Weights, cap: real): string -> bool {
    s => Get(w, s) > cap
  }

  function Capped(w: Weights, cap: real): Weights {
    map s | s in w :: if w[s] > cap then cap else w[s]
  }

  /** What the per-name repairs leave, and what they log. */
  function NameRepairs(w: Weights, ctx: RiskContext, policy: InvestmentPolicy): (Weights, seq<Repair>) {
    var listed := Keeping(w, Uninvestable(ctx));
    var free := Keeping(listed, Blocked(ctx));
    var long := if policy.longOnly then Keeping(free, Short(free)) else free;
    (Capped(long, policy.maxPositionWeight),
     LoggedOver(w, Uninvestable(ctx), UniverseWhitelist)
     + LoggedOver(listed, Blocked(ctx), WashSaleWindow)
     + (if policy.longOnly then LoggedOver(free, Short(free), NoShorting) else [])
     + LoggedOver(long, Above(long, policy.maxPositionWeight), MaxPositionWeight))
  }

  /** The factor that brings what is measured down to its limit, 1 when it is within. */
  function Ratio(limit: real, measured: real): real {
    if measured > limit && measured > 0.0 then limit / measured else 1.0
  }

  predicate SectorOver(exposure: real, policy: InvestmentPolicy) {
    exposure > policy.maxSectorWeight && exposure > 0.0
  }

  function SectorFactor(exposure: real, policy: InvestmentPolicy): real {
    Ratio(policy.maxSectorWeight, exposure)
  }

  /** Each name multiplied by the factor of its own sector, all exposures measured
      before any scaling. */
  function SectorScaled(w: Weights, ctx: RiskContext, policy: InvestmentPolicy): Weights {
    map s | s in w :: Times(w[s], SectorFactor(SectorExposure(w, ctx.sectors, SectorOf(s, ctx.sectors)), policy))
  }

  function SectorLog(sectors: seq<string>, exposures: map<string, real>, policy: InvestmentPolicy): seq<Repair> {
    if sectors == [] then []
    else SectorLog(sectors[..|sectors| - 1], exposures, policy)
         + (if SectorOver(Get(exposures, sectors[|sectors| - 1]), policy) then [Repair(MaxSectorWeight, None)] else [])
  }

  /** Past the breaker the ceiling is also the volatility the book already has. */
  function VolatilityCeiling(ctx: RiskContext, policy: InvestmentPolicy, num: Numerics): real {
    var held := PortfolioVolatility(ctx.currentWeights, ctx.covariance, num);
    if BreakerTripped(ctx, policy) && ctx.currentWeights != map[] && held > 0.0 && held < policy.maxAnnualizedVolatility
    then held
    else policy.maxAnnualizedVolatility
  }

  /** The tightest of the three factors that bring exposure, beta and volatility down to
      their ceilings; 1 when there is no exposure to scale. */
  function UniformFactor(w: Weights, ctx: RiskContext, policy: InvestmentPolicy, num: Numerics): real {
    if Total(w) <= 0.0 then 1.0
    else Min(Min(Ratio(policy.EffectiveExposureCeiling(), Total(w)),
                         Ratio(policy.maxPortfolioBeta, PortfolioBeta(w, ctx.betas))),
                 Ratio(VolatilityCeiling(ctx, policy, num), PortfolioVolatility(w, ctx.covariance, num)))
  }

  /** The ceilings a book is above, as the engine logs them. */
  function UniformReasons(w: Weights, ctx: RiskContext, policy: InvestmentPolicy, num: Numerics): seq<Repair> {
    var volatility := PortfolioVolatility(w, ctx.covariance, num);
    (if Total(w) > policy.EffectiveExposureCeiling()
     then [Repair(if policy.maxGrossExposure <= 1.0 - policy.minCashBuffer then NoLeverage else MinCashBuffer, None)]
     else [])
    + (if PortfolioBeta(w, ctx.betas) > policy.maxPortfolioBeta && PortfolioBeta(w, ctx.betas) > 0.0
       then [Repair(MaxPortfolioBeta, None)] else [])
    + (if volatility > VolatilityCeiling(ctx, policy, num) && volatility > 0.0
       then [Repair(MaxVolatility, None)] else [])
  }

  function UniformLog(w: Weights, ctx: RiskContext, policy: InvestmentPolicy, num: Numerics): seq<Repair> {
    if Total(w) <= 0.0 || UniformFactor(w, ctx, policy, num) >= 1.0 then []
    else UniformReasons(w, ctx, policy, num)
  }

  function UniformlyScaled(w: Weights, ctx: RiskContext, policy: InvestmentPolicy, num: Numerics): Weights {
    var factor := UniformFactor(w, ctx, policy, num);
    if factor < 1.0 then Scale(factor, w) else w
  }

  /** The repaired target, before the corridor and the turnover blend. */
  function Target(proposed: Weights, ctx: RiskContext, policy: InvestmentPolicy, num: Numerics): (Weights, seq<Repair>) {
    var start := Start(proposed, ctx, policy, num);
    var (named, nameLog) := NameRepairs(start, ctx, policy);
    var exposures := SectorExposures(named, ctx.sectors);
    var balanced := SectorScaled(named, ctx, policy);
    (UniformlyScaled(balanced, ctx, policy, num),
     (if BreakerTripped(ctx, policy) then [Repair(DrawdownCircuitBreaker, None)] else [])
     + nameLog
     + SectorLog(SortedKeys(exposures.Keys), exposures, policy)
     + UniformLog(balanced, ctx, policy, num))
  }

  predicate InsideCorridor(w: Weights, ctx: RiskContext, policy: InvestmentPolicy) {
    ctx.currentWeights != map[] && MaxDrift(ctx.currentWeights, w) <= policy.corridorAbsolute
  }

  predicate TradesTooMuch(w: Weights, ctx: RiskContext, policy: InvestmentPolicy) {
    Turnover(ctx.currentWeights, w) > policy.maxTurnover && Turnover(ctx.currentWeights, w) > 0.0
  }

  /** Moves only as far toward the target as the turnover cap allows. */
  function TurnoverCapped(w: Weights, ctx: RiskContext, policy: InvestmentPolicy): Weights {
    if TradesTooMuch(w, ctx, policy)
    then NonZero(Blend(ctx.currentWeights, w, policy.maxTurnover / Turnover(ctx.currentWeights, w)))
    else w
  }

  function Refusal(violations: seq<Violation>, repairs: seq<Repair>, metrics: RiskMetrics,
                   ctx: RiskContext, policy: InvestmentPolicy): RiskAssessment {
    RiskAssessment(Rejected, ctx.currentWeights, 1.0 - Total(ctx.currentWeights), violations, repairs,
                   metrics, policy.minTradeNotional)
  }

  /** The whole engine. */
  function Evaluate(proposed: Weights, ctx: RiskContext, policy: InvestmentPolicy, num: Numerics): RiskAssessment {
    var (target, log) := Target(proposed, ctx, policy, num);
    if InsideCorridor(target, ctx, policy) then
      Refusal([Violation(RebalanceCorridor, None, Some(MaxDrift(ctx.currentWeights, target)), Some(policy.corridorAbsolute))],
              log, Metrics(target, ctx, policy, num), ctx, policy)
    else
      var final := TurnoverCapped(target, ctx, policy);
      var repairs := log + (if TradesTooMuch(target, ctx, policy) then [Repair(MaxTurnover, None)] else []);
      var violations := Verify(final, ctx, policy, num);
      if violations != [] then Refusal(violations, repairs, Metrics(final, ctx, policy, num), ctx, policy)
      else RiskAssessment(if repairs == [] then Approved else Modified, final, 1.0 - Total(final), [], repairs,
                          Metrics(final, ctx, policy, num), policy.minTradeNotional)
  }
}
