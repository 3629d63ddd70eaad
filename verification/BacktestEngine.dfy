/** The engine as an object: the fields a run updates, one flush at a time, and the event
    loop, proved to compute the functions of Backtest. */
module BacktestEngine {
  import opened Options
  import opened RiskEngine
  import RiskRepairs
  import opened Mandates
  import opened Execution
  import opened ExecutionTheorems
  import opened Clocks
  import opened MarketData
  import opened Backtest
  import opened BacktestCausality

  class Engine {
    const config: BacktestConfig
    const env: Environment
    const clock: SimulationClock
    var account: Account
    var prices: Prices
    var history: map<string, seq<real>>
    var timestamps: seq<int>
    var equity: seq<real>
    var benchmark: seq<real>
    var cycles: seq<CycleRecord>
    var peakEquity: real
    var drawdown: real
    var barsSeen: int
    var lastRebalanceIndex: int
    var benchmarkUnits: Option<real>

    ghost function View(): State
      reads this, clock
    {
      State(clock.now, account, prices, history, timestamps, equity, benchmark, cycles,
            peakEquity, drawdown, barsSeen, lastRebalanceIndex, benchmarkUnits)
    }

    constructor (config: BacktestConfig, env: Environment)
      ensures View() == Initial(config) && this.config == config && this.env == env
      ensures fresh(clock)
    {
      this.config, this.env := config, env;
      clock := new SimulationClock(config.start);
      account := Account(config.initialCash, map[]);
      prices := map[];
      history := map s | s in config.symbols :: [];
      timestamps, equity, benchmark, cycles := [], [], [], [];
      peakEquity, drawdown, barsSeen, lastRebalanceIndex := config.initialCash, 0.0, 0, -1000000000;
      benchmarkUnits := None;
    }

    /** The raw closes go to the prices, the adjusted ones to the histories. */
    method Absorb(pending: seq<MarketEvent>)
      modifies this`prices, this`history
      ensures View() == ApplyAll(old(View()), pending)
    {
      ghost var start := View();
      assert pending[..0] == [];
      for i := 0 to |pending|
        invariant View() == ApplyAll(start, pending[..i])
      {
        assert pending[..i + 1][..i] == pending[..i];
        var e := pending[i];
        if e.payload.Bar? {
          prices := prices[e.symbol := e.payload.close];
          if e.symbol in history {
            history := history[e.symbol := history[e.symbol] + [Adjusted(e.payload)]];
          }
        }
      }
      assert pending[..|pending|] == pending;
    }

    /** Buys the benchmark once it has a price. */
    method FundBenchmark()
      requires FundsNow(benchmarkUnits, prices, config) ==> prices[config.benchmarkSymbol] != 0.0
      modifies this`benchmarkUnits
      ensures benchmarkUnits == UnitsAfter(old(benchmarkUnits), prices, config)
    {
      if benchmarkUnits.None? && config.benchmarkSymbol in prices {
        benchmarkUnits := Some(config.initialCash / prices[config.benchmarkSymbol]);
      }
    }

    /** The running peak, and how far the value is below it. */
    method TrackPeak(value: real)
      modifies this`peakEquity, this`drawdown
      ensures peakEquity == (if value > old(peakEquity) then value else old(peakEquity)) && drawdown == Fall(peakEquity, value)
    {
      if value > peakEquity {
        peakEquity := value;
      }
      drawdown := Fall(peakEquity, value);
    }

    method RecordMark(stamp: int)
      requires Mark(View(), stamp, config).Success?
      modifies this`barsSeen, this`timestamps, this`equity, this`benchmark, this`benchmarkUnits, this`peakEquity, this`drawdown
      ensures View() == Mark(old(View()), stamp, config).value
    {
      hide TotalValue, Fall, BenchmarkPoint, UnitsAfter;
      barsSeen := barsSeen + 1;
      var value := TotalValue(account, prices);
      timestamps := timestamps + [stamp];
      equity := equity + [value];
      FundBenchmark();
      benchmark := benchmark + [BenchmarkPoint(benchmarkUnits, prices, config)];
      TrackPeak(value);
    }

    /** None when the mark was made; otherwise the error raised. */
    method MarkBook(stamp: int) returns (error: Option<BacktestError>)
      modifies this`barsSeen, this`timestamps, this`equity, this`benchmark, this`benchmarkUnits, this`peakEquity, this`drawdown
      ensures error.None? ==> Mark(old(View()), stamp, config) == Success(View())
      ensures error.Some? ==> Mark(old(View()), stamp, config) == Failure(error.value)
    {
      hide TotalValue, Fall, BenchmarkPoint, UnitsAfter;
      if benchmarkUnits.None? && config.benchmarkSymbol in prices && prices[config.benchmarkSymbol] == 0.0 {
        return Some(ZeroBenchmarkPrice);
      }
      RecordMark(stamp);
      error := None;
    }

    /** One row of returns, a column a symbol, for the period `back` from the end. */
    method GatherRow(symbols: seq<string>, back: nat) returns (row: seq<real>)
      requires 0 < back && forall s :: s in symbols ==> back < Depth(View(), s)
      ensures row == Observation(View(), symbols, back)
    {
      hide ReturnAt;
      row := [];
      ghost var st := View();
      assert symbols[0..] == symbols;
      for i := 0 to |symbols|
        invariant row + Observation(st, symbols[i..], back) == Observation(st, symbols, back)
      {
        hide Observation;
        ObservationHead(st, symbols, i, back);
        ghost var rest := Observation(st, symbols[i + 1..], back);
        var change := ReturnAt(history[symbols[i]], back);
        assert Observation(st, symbols[i..], back) == [change] + rest;
        assert row + ([change] + rest) == (row + [change]) + rest;
        row := row + [change];
      }
      assert row + [] == row;
    }

    /** The return observations the estimator is given, oldest period first. */
    method GatherReturns(symbols: seq<string>) returns (rows: seq<seq<real>>)
      requires forall s :: s in symbols ==> config.estimationWindow < Depth(View(), s)
      ensures rows == Observations(View(), symbols, config.estimationWindow)
    {
      hide Observation;
      var window := config.estimationWindow;
      rows := [];
      for k := 0 to window
        invariant |rows| == k
        invariant forall j :: 0 <= j < k ==> rows[j] == Observation(View(), symbols, window - j)
      {
        var row := GatherRow(symbols, window - k);
        rows := rows + [row];
      }
    }

    /** One decision cycle, run on the object's fields. */
    method RunCycle(stamp: int) returns (r: Result<CycleRecord, BacktestError>)
      ensures r == Rebalance(View(), stamp, config, env)
    {
      hide Evaluate, TotalValue, BuildMandate, Observations, Usable, CurrentWeights;
      var now := State(clock.now, account, prices, history, timestamps, equity, benchmark, cycles,
                       peakEquity, drawdown, barsSeen, lastRebalanceIndex, benchmarkUnits);
      var symbols := Usable(config.symbols, now, config.estimationWindow);
      if |symbols| < 2 {
        return Success(NoTradeRecord(now, stamp, env, TooFewSymbols));
      }
      var observations := GatherReturns(symbols);
      var tilts := env.tilts(symbols, stamp);
      var plan := env.plan(symbols, observations, tilts);
      if plan.None? {
        return Success(NoTradeRecord(now, stamp, env, NoPortfolio));
      }
      var current := CurrentWeights(account, prices);
      var ctx := ContextOf(now, stamp, current, plan.value, symbols, config, env);
      var assessment := RiskRepairs.EvaluateProposal(plan.value.weights, ctx, env.policy, env.num);
      if assessment.decision == Rejected {
        return Success(CycleRecord(stamp, assessment, Some(plan.value.weights), None, None, None, Vetoed, tilts));
      }
      r := Trade(now, stamp, plan.value, assessment, current, tilts, env);
    }

    /** Rebalances when every symbol has history enough and the schedule is due. */
    method DecideCycle(stamp: int) returns (error: Option<BacktestError>)
      modifies this`lastRebalanceIndex, this`cycles, this`account
      ensures error.None? ==> Decide(old(View()), stamp, config, env) == Success(View())
      ensures error.Some? ==> Decide(old(View()), stamp, config, env) == Failure(error.value)
    {
      hide Rebalance, Rebuilt;
      if config.symbols == [] {
        return Some(NoSymbols);
      }
      var ready := forall s :: s in config.symbols ==> s in history && |history[s]| > config.estimationWindow;
      assert ready <==> Ready(View(), config);
      var due := barsSeen - lastRebalanceIndex >= config.rebalanceEvery;
      if !(ready && due) {
        return None;
      }
      lastRebalanceIndex := barsSeen;
      var r := RunCycle(stamp);
      if r.Failure? {
        return Some(r.error);
      }
      cycles := cycles + [r.value];
      if r.value.report.Some? {
        account := Rebuilt(r.value.report.value);
      }
      error := None;
    }

    /** One flush of the events gathered so far. */
    method FlushEvents(stamp: int, pending: seq<MarketEvent>) returns (error: Option<BacktestError>)
      modifies this, clock
      ensures error.None? ==> Flush(old(View()), stamp, pending, config, env) == Success(View())
      ensures error.Some? ==> Flush(old(View()), stamp, pending, config, env) == Failure(error.value)
    {
      hide ApplyAll, Mark, Decide;
      var moved := clock.AdvanceTo(stamp);
      if !moved {
        return Some(ClockMovedBackwards);
      }
      Absorb(pending);
      if exists s :: s in config.symbols && (s !in history || |history[s]| == 0) {
        assert !AllPrinted(View(), config);
        return None;
      }
      assert AllPrinted(View(), config);
      error := MarkBook(stamp);
      if error.Some? {
        return error;
      }
      error := DecideCycle(stamp);
    }

    /** The event loop: a new timestamp flushes the one before it. */
    method Play(events: seq<MarketEvent>) returns (error: Option<BacktestError>)
      requires View() == Initial(config)
      modifies this, clock
      ensures error.None? ==> Played(events, config, env) == Success(View())
      ensures error.Some? ==> Played(events, config, env) == Failure(error.value)
    {
      hide Flush;
      var pending: seq<MarketEvent> := [];
      var stamp: Option<int> := None;
      assert events[..0] == [];
      for i := 0 to |events|
        invariant Replay(events[..i], config, env) == Success(Loop(View(), pending, stamp))
      {
        assert events[..i + 1][..i] == events[..i];
        var e := events[i];
        if stamp.Some? && e.timestamp != stamp.value {
          error := FlushEvents(stamp.value, pending);
          if error.Some? {
            FailureStays(events, i + 1, config, env);
            return error;
          }
          pending := [];
        }
        stamp := Some(e.timestamp);
        pending := pending + [e];
        assert [] + [e] == [e];
      }
      assert events[..|events|] == events;
      if stamp.Some? && pending != [] {
        error := FlushEvents(stamp.value, pending);
        return error;
      }
      error := None;
    }
  }

  lemma ObservationHead(st: State, symbols: seq<string>, i: nat, back: nat)
    requires i < |symbols| && 0 < back && forall s :: s in symbols ==> back < Depth(st, s)
    ensures symbols[i] in st.history && back < |st.history[symbols[i]]|
    ensures Observation(st, symbols[i..], back)
         == [ReturnAt(st.history[symbols[i]], back)] + Observation(st, symbols[i + 1..], back)
  {
    assert symbols[i] in symbols && symbols[i..][0] == symbols[i] && symbols[i..][1..] == symbols[i + 1..];
  }

  lemma FailureStays(events: seq<MarketEvent>, n: nat, config: BacktestConfig, env: Environment)
    requires n <= |events| && Replay(events[..n], config, env).Failure?
    ensures Played(events, config, env) == Failure(Replay(events[..n], config, env).error)
  {
    hide Feed;
    assert events == events[..n] + events[n..];
    ReplayMore(events[..n], events[n..], config, env);
  }

  /** `run_backtest`: refuse an empty window, play the stream, and report its marks. */
  method RunBacktest(config: BacktestConfig, env: Environment, source: seq<MarketEvent>) returns (r: Result<BacktestResult, BacktestError>)
    ensures r == Backtested(config, env, source)
  {
    hide Played, Stream;
    if config.end <= config.start {
      return Failure(EndBeforeStart);
    }
    var engine := new Engine(config, env);
    var stream := Stream(source, config.start, config.end);
    assert stream.Success? by { WindowOpens(source, config.start, config.end); }
    var error := engine.Play(stream.value);
    if error.Some? {
      return Failure(error.value);
    }
    if |engine.equity| < 2 || |engine.timestamps| < 2 {
      return Failure(TooFewMarks);
    }
    r := Success(BacktestResult(engine.timestamps, engine.equity, engine.benchmark, engine.cycles,
                                [(engine.timestamps[0], -config.initialCash),
                                 (engine.timestamps[|engine.timestamps| - 1], engine.equity[|engine.equity| - 1])]));
  }

  lemma WindowOpens(source: seq<MarketEvent>, start: int, end: int)
    requires start <= end
    ensures Stream(source, start, end).Success?
  {
  }
}
