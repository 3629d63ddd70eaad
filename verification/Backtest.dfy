/** The event-driven backtest (src/backtest/engine.py): the state a run carries, one
    flush of a timestamp's events, one decision cycle, and the event loop. */
module Backtest {
  import opened Options
  import opened Sums
  import opened Policies
  import opened RiskEngine
  import opened Mandates
  import opened Reconciliations
  import opened Execution
  import opened ExecutionTheorems
  import opened MarketData

  datatype BacktestConfig = BacktestConfig(
    start: int,
    end: int,
    initialCash: real,
    symbols: seq<string>,
    benchmarkSymbol: string,
    rebalanceEvery: int,
    estimationWindow: nat,
    riskFreeRate: real)

  /** What the views, the estimator and the optimizer hand to the risk engine. */
  datatype Plan = Plan(weights: Weights, expectedReturns: map<string, real>, covariance: Covariance)

  /** Everything a run is given besides events. `tilts` stands for the views, `plan` for
      estimation and optimization; it returns None where they raise OptimizerError or
      KeyError. */
  datatype Environment = Environment(
    policy: InvestmentPolicy,
    sectors: map<string, string>,
    betas: map<string, real>,
    num: Numerics,
    digest: Digest,
    tilts: (seq<string>, int) -> map<string, real>,
    plan: (seq<string>, seq<seq<real>>, map<string, real>) -> Option<Plan>,
    execute: (RebalanceMandate, Account, MarketSnapshot) -> Result<ExecutionReport, ExecutionError>)

  datatype Note = NoNote | TooFewSymbols | NoPortfolio | Vetoed

  datatype CycleRecord = CycleRecord(
    timestamp: int,
    assessment: RiskAssessment,
    target: Option<Weights>,
    mandate: Option<RebalanceMandate>,
    report: Option<ExecutionReport>,
    reconciliation: Option<Reconciliation>,
    note: Note,
    tilts: map<string, real>)

  datatype BacktestError =
    | ClockMovedBackwards | ZeroBenchmarkPrice | NoSymbols | BadMandate | ExecutionFailed
    | EndBeforeStart | TooFewMarks

  datatype State = State(
    now: int,
    account: Account,
    prices: Prices,
    history: map<string, seq<real>>,
    timestamps: seq<int>,
    equity: seq<real>,
    benchmark: seq<real>,
    cycles: seq<CycleRecord>,
    peakEquity: real,
    drawdown: real,
    barsSeen: int,
    lastRebalanceIndex: int,
    benchmarkUnits: Option<real>)

  function Initial(config: BacktestConfig): State {
    State(config.start, Account(config.initialCash, map[]), map[],
          map s | s in config.symbols :: [], [], [], [], [],
          config.initialCash, 0.0, 0, -1000000000, None)
  }

  // ----- one timestamp's events

  /** The adjusted close, or the raw one when there is none or it is zero. */
  function Adjusted(bar: Payload): real
    requires bar.Bar?
  {
    if bar.adjClose.Some? && bar.adjClose.value != 0.0 then bar.adjClose.value else bar.close
  }

  function ApplyEvent(st: State, e: MarketEvent): State {
    if e.payload.NotABar? then st
    else
      var priced := st.(prices := st.prices[e.symbol := e.payload.close]);
      if e.symbol in st.history
      then priced.(history := st.history[e.symbol := st.history[e.symbol] + [Adjusted(e.payload)]])
      else priced
  }

  function ApplyAll(st: State, events: seq<MarketEvent>): State {
    if events == [] then st else ApplyEvent(ApplyAll(st, events[..|events| - 1]), events[|events| - 1])
  }

  function Depth(st: State, s: string): nat {
    if s in st.history then |st.history[s]| else 0
  }

  // ----- one decision cycle

  /** The return over one period, `back` observations before the end. */
  function ReturnAt(series: seq<real>, back: nat): real
    requires 0 < back < |series|
  {
    var previous, current := series[|series| - back - 1], series[|series| - back];
    if previous > 0.0 then current / previous - 1.0 else 0.0
  }

  function Observation(st: State, symbols: seq<string>, back: nat): seq<real>
    requires 0 < back && forall s :: s in symbols ==> back < Depth(st, s)
  {
    if symbols == [] then []
    else
      assert symbols[0] in symbols && back < Depth(st, symbols[0]);
      [ReturnAt(st.history[symbols[0]], back)] + Observation(st, symbols[1..], back)
  }

  function Observations(st: State, symbols: seq<string>, window: nat): seq<seq<real>>
    requires forall s :: s in symbols ==> window < Depth(st, s)
  {
    seq(window, k requires 0 <= k < window => Observation(st, symbols, window - k))
  }

  function Usable(symbols: seq<string>, st: State, window: nat): (usable: seq<string>)
    ensures forall s :: s in usable ==> window < Depth(st, s)
  {
    if symbols == [] then []
    else (if Depth(st, symbols[0]) > window && symbols[0] in st.prices then [symbols[0]] else [])
         + Usable(symbols[1..], st, window)
  }

  function CurrentWeights(account: Account, prices: Prices): Weights {
    var value := TotalValue(account, prices);
    map s | s in account.positions && s in prices && value > 0.0 :: account.positions[s] as real * prices[s] / value
  }

  function ContextOf(st: State, stamp: int, current: Weights, plan: Plan, symbols: seq<string>,
                     config: BacktestConfig, env: Environment): RiskContext {
    RiskContext(stamp, current, env.sectors, env.betas, plan.covariance, plan.expectedReturns,
                (set s | s in symbols), st.drawdown, config.riskFreeRate, map[])
  }

  /** When there is nothing to propose the cycle is still kept, and says why. */
  function NoTradeRecord(st: State, stamp: int, env: Environment, note: Note): CycleRecord {
    var ctx := RiskContext(stamp, map[], env.sectors, env.betas, map[], map[], {}, st.drawdown, 0.0, map[]);
    CycleRecord(stamp, Evaluate(map[], ctx, env.policy, env.num), None, None, None, None, note, map[])
  }

  function Trade(st: State, stamp: int, plan: Plan, assessment: RiskAssessment, current: Weights, tilts: map<string, real>, env: Environment)
    : Result<CycleRecord, BacktestError>
  {
    match BuildMandate(stamp, TotalValue(st.account, st.prices), assessment.weights, current,
                       assessment.minTradeNotional, env.policy.maxTurnover, env.digest)
    case Failure(e) => Failure(BadMandate)
    case Success(mandate) =>
      match env.execute(mandate, st.account, MarketSnapshot(stamp, st.prices, st.prices))
      case Failure(e) => Failure(ExecutionFailed)
      case Success(report) =>
        Success(CycleRecord(stamp, assessment, Some(plan.weights), Some(mandate), Some(report),
                            Some(Reconcile(mandate, RealizedWeights(report.finalPositions), SnapshotSymbols(report.finalPositions))), NoNote, tilts))
  }

  /** Views and estimate, risk check, mandate, execution. */
  function Rebalance(st: State, stamp: int, config: BacktestConfig, env: Environment): Result<CycleRecord, BacktestError> {
    var symbols := Usable(config.symbols, st, config.estimationWindow);
    if |symbols| < 2 then Success(NoTradeRecord(st, stamp, env, TooFewSymbols))
    else
      var tilts := env.tilts(symbols, stamp);
      match env.plan(symbols, Observations(st, symbols, config.estimationWindow), tilts)
      case None => Success(NoTradeRecord(st, stamp, env, NoPortfolio))
      case Some(plan) =>
        var current := CurrentWeights(st.account, st.prices);
        var assessment := Evaluate(plan.weights, ContextOf(st, stamp, current, plan, symbols, config, env), env.policy, env.num);
        if assessment.decision == Rejected
        then Success(CycleRecord(stamp, assessment, Some(plan.weights), None, None, None, Vetoed, tilts))
        else Trade(st, stamp, plan, assessment, current, tilts, env)
  }

  // ----- flush

  predicate AllPrinted(st: State, config: BacktestConfig) {
    forall s :: s in config.symbols ==> Depth(st, s) > 0
  }

  function BenchmarkPoint(units: Option<real>, prices: Prices, config: BacktestConfig): real {
    if units.Some? && config.benchmarkSymbol in prices then units.value * prices[config.benchmarkSymbol] else config.initialCash
  }

  function Fall(peak: real, value: real): real {
    if peak > 0.0 then (peak - value) / peak else 0.0
  }

  /** The benchmark is bought with the initial cash at its first price. */
  predicate FundsNow(units: Option<real>, prices: Prices, config: BacktestConfig) {
    units.None? && config.benchmarkSymbol in prices
  }

  function UnitsAfter(units: Option<real>, prices: Prices, config: BacktestConfig): Option<real>
    requires FundsNow(units, prices, config) ==> prices[config.benchmarkSymbol] != 0.0
  {
    if FundsNow(units, prices, config) then Some(config.initialCash / prices[config.benchmarkSymbol]) else units
  }

  /** Marks the book: the equity and benchmark points, the peak and the drawdown. */
  function Mark(st: State, stamp: int, config: BacktestConfig): Result<State, BacktestError> {
    var value := TotalValue(st.account, st.prices);
    if FundsNow(st.benchmarkUnits, st.prices, config) && st.prices[config.benchmarkSymbol] == 0.0 then Failure(ZeroBenchmarkPrice)
    else
      var units := UnitsAfter(st.benchmarkUnits, st.prices, config);
      var peak := if value > st.peakEquity then value else st.peakEquity;
      Success(st.(barsSeen := st.barsSeen + 1,
                  timestamps := st.timestamps + [stamp],
                  equity := st.equity + [value],
                  benchmarkUnits := units,
                  benchmark := st.benchmark + [BenchmarkPoint(units, st.prices, config)],
                  peakEquity := peak,
                  drawdown := Fall(peak, value)))
  }

  predicate Ready(st: State, config: BacktestConfig) {
    forall s :: s in config.symbols ==> Depth(st, s) > config.estimationWindow
  }

  predicate Due(st: State, config: BacktestConfig) {
    st.barsSeen - st.lastRebalanceIndex >= config.rebalanceEvery
  }

  function Adopt(st: State, record: CycleRecord): State {
    st.(cycles := st.cycles + [record],
        account := if record.report.Some? then Rebuilt(record.report.value) else st.account)
  }

  function Decide(st: State, stamp: int, config: BacktestConfig, env: Environment): Result<State, BacktestError> {
    if config.symbols == [] then Failure(NoSymbols)
    else if !(Ready(st, config) && Due(st, config)) then Success(st)
    else
      var due := st.(lastRebalanceIndex := st.barsSeen);
      match Rebalance(due, stamp, config, env)
      case Failure(e) => Failure(e)
      case Success(record) => Success(Adopt(due, record))
  }

  /** Everything a timestamp does: its events, its mark, its decision. */
  function Flush(st: State, stamp: int, pending: seq<MarketEvent>, config: BacktestConfig, env: Environment): Result<State, BacktestError> {
    if stamp < st.now then Failure(ClockMovedBackwards)
    else
      var told := ApplyAll(st.(now := stamp), pending);
      if !AllPrinted(told, config) then Success(told)
      else
        match Mark(told, stamp, config)
        case Failure(e) => Failure(e)
        case Success(marked) => Decide(marked, stamp, config, env)
  }

  // ----- the event loop

  datatype Loop = Loop(state: State, pending: seq<MarketEvent>, stamp: Option<int>)

  function Feed(loop: Loop, e: MarketEvent, config: BacktestConfig, env: Environment): Result<Loop, BacktestError> {
    if loop.stamp.Some? && e.timestamp != loop.stamp.value then
      match Flush(loop.state, loop.stamp.value, loop.pending, config, env)
      case Failure(err) => Failure(err)
      case Success(st) => Success(Loop(st, [e], Some(e.timestamp)))
    else Success(Loop(loop.state, loop.pending + [e], Some(e.timestamp)))
  }

  function Replay(events: seq<MarketEvent>, config: BacktestConfig, env: Environment): Result<Loop, BacktestError> {
    if events == [] then Success(Loop(Initial(config), [], None))
    else
      match Replay(events[..|events| - 1], config, env)
      case Failure(e) => Failure(e)
      case Success(loop) => Feed(loop, events[|events| - 1], config, env)
  }

  function Finish(loop: Loop, config: BacktestConfig, env: Environment): Result<State, BacktestError> {
    if loop.stamp.Some? && loop.pending != [] then Flush(loop.state, loop.stamp.value, loop.pending, config, env)
    else Success(loop.state)
  }

  /** The state after a whole stream of events. */
  function Played(events: seq<MarketEvent>, config: BacktestConfig, env: Environment): Result<State, BacktestError> {
    match Replay(events, config, env)
    case Failure(e) => Failure(e)
    case Success(loop) => Finish(loop, config, env)
  }

  datatype BacktestResult = BacktestResult(
    timestamps: seq<int>, equityCurve: seq<real>, benchmarkCurve: seq<real>, cycles: seq<CycleRecord>,
    cashFlows: seq<(int, real)>)

  /** Every reachable state has as many timestamps as marks. */
  function ResultOf(st: State, config: BacktestConfig): Result<BacktestResult, BacktestError> {
    if |st.equity| < 2 || |st.timestamps| < 2 then Failure(TooFewMarks)
    else Success(BacktestResult(st.timestamps, st.equity, st.benchmark, st.cycles,
                                [(st.timestamps[0], -config.initialCash),
                                 (st.timestamps[|st.timestamps| - 1], st.equity[|st.equity| - 1])]))
  }

  /** A whole run over an event source. */
  function Backtested(config: BacktestConfig, env: Environment, source: seq<MarketEvent>): Result<BacktestResult, BacktestError> {
    if config.end <= config.start then Failure(EndBeforeStart)
    else
      match Played(Stream(source, config.start, config.end).value, config, env)
      case Failure(e) => Failure(e)
      case Success(st) => ResultOf(st, config)
  }
}
