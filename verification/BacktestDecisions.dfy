/** What every cycle of a run asks and does with the answer, and the benchmark and the result
    beside it: read off the events and the environment. */
module BacktestDecisions {
  import opened Arithmetic
  import opened Options
  import opened Policies
  import opened RiskEngine
  import opened Mandates
  import opened Reconciliations
  import opened Execution
  import opened ExecutionTheorems
  import opened MarketData
  import opened Backtest
  import opened BacktestCausality
  import opened BacktestMarks
  import opened BacktestSchedule

  // ----- what is observed

  /** The return from one close to the next, 0 where the earlier is not positive. */
  function ReturnBetween(previous: real, current: real): real {
    if 0.0 < previous then current / previous - 1.0 else 0.0
  }

  /** One row a period, oldest first, and in it one return a name: those of the last `window`
      periods. */
  ghost predicate ObservedAs(rows: seq<seq<real>>, events: seq<MarketEvent>, config: BacktestConfig)
    requires Enough(events, config)
  {
    |rows| == config.estimationWindow && forall k :: 0 <= k < |rows| ==> RowAs(rows[k], events, config, k)
  }

  ghost predicate RowAs(row: seq<real>, events: seq<MarketEvent>, config: BacktestConfig, k: int)
    requires Enough(events, config) && 0 <= k < config.estimationWindow
  {
    && |row| == |config.symbols|
    && forall j :: 0 <= j < |row| ==>
         var closes := Closes(events, config.symbols[j]);
         var at := |closes| - config.estimationWindow + k;
         row[j] == ReturnBetween(closes[at - 1], closes[at])
  }

  lemma {:induction false} ObservationIs(st: State, symbols: seq<string>, back: nat)
    requires 0 < back && forall s :: s in symbols ==> back < Depth(st, s)
    ensures var row := Observation(st, symbols, back);
      && |row| == |symbols|
      && forall j :: 0 <= j < |row| ==>
           var s := symbols[j];
           s in st.history && back < |st.history[s]|
           && row[j] == ReturnBetween(st.history[s][|st.history[s]| - back - 1], st.history[s][|st.history[s]| - back])
  {
    if symbols != [] {
      assert symbols[0] in symbols && forall s :: s in symbols[1..] ==> s in symbols;
      ObservationIs(st, symbols[1..], back);
      forall j | 0 < j < |symbols| ensures symbols[j] == symbols[1..][j - 1] {}
    }
  }

  lemma ObservationsAre(m: State, events: seq<MarketEvent>, config: BacktestConfig)
    requires Knows(m, events, config) && Enough(events, config)
    ensures forall s :: s in config.symbols ==> config.estimationWindow < Depth(m, s)
    ensures ObservedAs(Observations(m, config.symbols, config.estimationWindow), events, config)
  {
    hide Closes, LastClose, Observation, ReturnBetween;
    forall s | s in config.symbols ensures config.estimationWindow < Depth(m, s) {}
    var rows := Observations(m, config.symbols, config.estimationWindow);
    forall k | 0 <= k < |rows| ensures RowAs(rows[k], events, config, k) {
      ObservationIs(m, config.symbols, config.estimationWindow - k);
      forall j | 0 <= j < |config.symbols| ensures config.symbols[j] in config.symbols {}
    }
  }

  lemma {:induction false} ClosedIsPriced(events: seq<MarketEvent>, s: string)
    ensures Closes(events, s) != [] <==> LastClose(events, s).Some?
  {
    if events != [] { ClosedIsPriced(events[..|events| - 1], s); }
  }

  lemma {:induction false} AllUsable(symbols: seq<string>, st: State, window: nat)
    requires forall s :: s in symbols ==> window < Depth(st, s) && s in st.prices
    ensures Usable(symbols, st, window) == symbols
  {
    if symbols != [] {
      assert symbols[0] in symbols && forall s :: s in symbols[1..] ==> s in symbols;
      AllUsable(symbols[1..], st, window);
      assert symbols == [symbols[0]] + symbols[1..];
    }
  }

  lemma EveryNameUsable(m: State, events: seq<MarketEvent>, config: BacktestConfig)
    requires Knows(m, events, config) && Enough(events, config)
    ensures Usable(config.symbols, m, config.estimationWindow) == config.symbols
  {
    hide Closes, LastClose;
    forall s | s in config.symbols ensures config.estimationWindow < Depth(m, s) && s in m.prices { ClosedIsPriced(events, s); }
    AllUsable(config.symbols, m, config.estimationWindow);
  }

  // ----- what is decided

  /** The weights of an account at these prices: shares times price, as a fraction of what it
      is worth, for the names held and priced; none if it is worth nothing. */
  ghost predicate WeightsOf(w: Weights, account: Account, prices: Prices) {
    var value := TotalValue(account, prices);
    && (forall s :: s in w <==> s in account.positions && s in prices && 0.0 < value)
    && forall s :: s in w ==> Times(w[s], value) == Times(account.positions[s] as real, prices[s])
  }

  lemma CurrentWeightsAre(account: Account, prices: Prices)
    ensures WeightsOf(CurrentWeights(account, prices), account, prices)
  {
    hide TotalValue;
    var value := TotalValue(account, prices);
    forall s | s in CurrentWeights(account, prices)
      ensures Times(CurrentWeights(account, prices)[s], value) == Times(account.positions[s] as real, prices[s])
    {
      var worth := account.positions[s] as real * prices[s];
      assert worth / value * value == worth;
    }
  }

  /** A cycle that had nothing to propose: it says why, and neither sends nor trades. */
  ghost predicate NothingProposed(record: CycleRecord, note: Note) {
    && record.note == note && record.target == None && record.mandate == None && record.report == None
    && record.reconciliation == None && record.tilts == map[]
  }

  /** A cycle with a plan: the risk engine's answer to it, at the weights held, with every
      name of the run listed and none blocked; what was refused was vetoed and goes no
      further; what was not was mandated, at the current value and the engine's weights,
      and executed at the current prices, and the outcome reconciled. */
  ghost predicate Proposed(record: CycleRecord, m: State, plan: Plan, held: Weights, tilts: map<string, real>, stamp: int, config: BacktestConfig, env: Environment) {
    var ctx := RiskContext(stamp, held, env.sectors, env.betas, plan.covariance, plan.expectedReturns, (set s | s in config.symbols),
                           m.drawdown, config.riskFreeRate, map[]);
    && record.assessment == Evaluate(plan.weights, ctx, env.policy, env.num)
    && record.target == Some(plan.weights) && record.tilts == tilts
    && if record.assessment.decision == Rejected
       then record.note == Vetoed && record.mandate == None && record.report == None && record.reconciliation == None
       else
         && record.note == NoNote && record.mandate.Some? && record.report.Some?
         && Mandated(record.mandate.value, record.assessment, held, TotalValue(m.account, m.prices), stamp, env)
         && env.execute(record.mandate.value, m.account, MarketSnapshot(stamp, m.prices, m.prices)) == Success(record.report.value)
         && record.reconciliation
            == Some(Reconcile(record.mandate.value, RealizedWeights(record.report.value.finalPositions), SnapshotSymbols(record.report.value.finalPositions)))
  }

  ghost predicate Mandated(mandate: RebalanceMandate, a: RiskAssessment, held: Weights, value: real, stamp: int, env: Environment) {
    && mandate.targets == MandateTargets(a.weights, held) && mandate.portfolioValue == value && 0.0 < value
    && mandate.decisionTime == stamp && mandate.minTradeNotional == env.policy.minTradeNotional
    && mandate.maxTurnover == env.policy.maxTurnover
    && mandate.mandateId == MandateId(stamp, value, mandate.targets, env.digest)
  }

  /** One cycle, at a mark that knows these events. */
  ghost predicate CycleIs(record: CycleRecord, m: State, events: seq<MarketEvent>, config: BacktestConfig, env: Environment)
    requires Enough(events, config)
  {
    exists stamp, held, rows ::
      && record.timestamp == stamp && WeightsOf(held, m.account, m.prices) && ObservedAs(rows, events, config)
      && AskedWith(record, m, stamp, held, rows, config, env)
  }

  ghost predicate AskedWith(record: CycleRecord, m: State, stamp: int, held: Weights, rows: seq<seq<real>>, config: BacktestConfig, env: Environment) {
    if |config.symbols| < 2 then NothingProposed(record, TooFewSymbols)
    else
      var tilts := env.tilts(config.symbols, stamp);
      match env.plan(config.symbols, rows, tilts)
      case None => NothingProposed(record, NoPortfolio)
      case Some(plan) => Proposed(record, m, plan, held, tilts, stamp, config, env)
  }

  lemma TradeIs(st: State, stamp: int, plan: Plan, ctx: RiskContext, tilts: map<string, real>, config: BacktestConfig, env: Environment)
    requires ctx == RiskContext(stamp, CurrentWeights(st.account, st.prices), env.sectors, env.betas, plan.covariance, plan.expectedReturns,
                                (set s | s in config.symbols), st.drawdown, config.riskFreeRate, map[])
    requires Evaluate(plan.weights, ctx, env.policy, env.num).decision != Rejected
    ensures var r := Trade(st, stamp, plan, Evaluate(plan.weights, ctx, env.policy, env.num), ctx.currentWeights, tilts, env);
      r.Success? ==> r.value.timestamp == stamp && Proposed(r.value, st, plan, ctx.currentWeights, tilts, stamp, config, env)
  {
    hide TotalValue, MandateTargets, MandateId, Reconcile, RealizedWeights, SnapshotSymbols, CurrentWeights;
    MinTradeKept(plan.weights, ctx, env.policy, env.num);
    hide Evaluate;
  }

  lemma MinTradeKept(proposed: Weights, ctx: RiskContext, policy: InvestmentPolicy, num: Numerics)
    ensures Evaluate(proposed, ctx, policy, num).minTradeNotional == policy.minTradeNotional
  {
    hide Target, TurnoverCapped, TradesTooMuch, Verify, Metrics, MaxDrift, InsideCorridor;
  }

  lemma RebalanceIs(m: State, events: seq<MarketEvent>, record: CycleRecord, config: BacktestConfig, env: Environment)
    requires Knows(m, events, config) && Enough(events, config) && DecidedAt(m, record, config, env)
    ensures CycleIs(record, m, events, config, env)
  {
    hide Knows, Enough, Evaluate, Trade, Observations, CurrentWeights, TotalValue, Proposed, WeightsOf, ObservedAs, Usable;
    var due, stamp := m.(lastRebalanceIndex := m.barsSeen), m.timestamps[|m.timestamps| - 1];
    var symbols := config.symbols;
    SameKnowledge(m, due, events, config);
    EveryNameUsable(due, events, config);
    ObservationsAre(due, events, config);
    CurrentWeightsAre(m.account, m.prices);
    var held, rows, tilts := CurrentWeights(m.account, m.prices), Observations(due, symbols, config.estimationWindow), env.tilts(symbols, stamp);
    if |symbols| >= 2 && env.plan(symbols, rows, tilts).Some? {
      var plan := env.plan(symbols, rows, tilts).value;
      var ctx := ContextOf(due, stamp, held, plan, symbols, config, env);
      if Evaluate(plan.weights, ctx, env.policy, env.num).decision != Rejected {
        TradeIs(due, stamp, plan, ctx, tilts, config, env);
        SameProposal(record, due, m, plan, held, tilts, stamp, config, env);
      } else {
        Vetoes(record, m, plan, ctx, tilts, stamp, config, env);
      }
    }
    assert AskedWith(record, m, stamp, held, rows, config, env);
  }

  lemma SameProposal(record: CycleRecord, a: State, b: State, plan: Plan, held: Weights, tilts: map<string, real>, stamp: int, config: BacktestConfig, env: Environment)
    requires Proposed(record, a, plan, held, tilts, stamp, config, env) && b == a.(lastRebalanceIndex := b.lastRebalanceIndex)
    ensures Proposed(record, b, plan, held, tilts, stamp, config, env)
  {
    hide Evaluate, TotalValue, Mandated, Reconcile, RealizedWeights, SnapshotSymbols;
  }

  lemma Vetoes(record: CycleRecord, m: State, plan: Plan, ctx: RiskContext, tilts: map<string, real>, stamp: int, config: BacktestConfig, env: Environment)
    requires ctx == RiskContext(stamp, ctx.currentWeights, env.sectors, env.betas, plan.covariance, plan.expectedReturns,
                                (set s | s in config.symbols), m.drawdown, config.riskFreeRate, map[])
    requires Evaluate(plan.weights, ctx, env.policy, env.num).decision == Rejected
    requires record == CycleRecord(stamp, Evaluate(plan.weights, ctx, env.policy, env.num), Some(plan.weights), None, None, None, Vetoed, tilts)
    ensures Proposed(record, m, plan, ctx.currentWeights, tilts, stamp, config, env)
  {
    hide Evaluate, TotalValue, Mandated;
  }

  /** Every cycle of a run, exactly: at its mark, on the account the cycles before it left and
      the returns of the last window of closes, it asks for a plan, has the risk engine judge
      it, and mandates and executes what is not refused. */
  lemma RunDecidesExactly(events: seq<MarketEvent>, config: BacktestConfig, env: Environment) returns (at: seq<nat>)
    requires Played(events, config, env).Success?
    ensures var st, cuts, marks := Played(events, config, env).value, MarkCuts(events, config), MarksPlayed(events, config, env);
      && |st.cycles| == |at| && |marks| == |cuts| && st.account == AccountAfter(st.cycles, config)
      && forall k :: 0 <= k < |at| ==>
           && at[k] < |cuts| && cuts[at[k]] <= |events| && Enough(events[..cuts[at[k]]], config)
           && marks[at[k]].account == AccountAfter(st.cycles[..k], config)
           && CycleIs(st.cycles[k], marks[at[k]], events[..cuts[at[k]]], config, env)
  {
    hide Played, MarksPlayed, MarkCuts, Ready, Enough, Knows, DecidedAt, AccountAfter, CycleIs, Spaced;
    RunMarksExactly(events, config, env);
    at := PlayedScheduled(events, config, env);
    var st, marks, cuts := Played(events, config, env).value, MarksPlayed(events, config, env), MarkCuts(events, config);
    forall k | 0 <= k < |at|
      ensures at[k] < |cuts| && cuts[at[k]] <= |events| && Enough(events[..cuts[at[k]]], config)
      ensures CycleIs(st.cycles[k], marks[at[k]], events[..cuts[at[k]]], config, env)
    {
      assert MarkMatches(marks[at[k]], cuts[at[k]], events, config);
      PrintedIsKnown(marks[at[k]], events[..cuts[at[k]]], config);
      RebalanceIs(marks[at[k]], events[..cuts[at[k]]], st.cycles[k], config, env);
    }
  }

  // ----- the benchmark

  /** The benchmark is bought with the initial cash at the first mark where it has a price, and
      is worth that cash until then. */
  ghost predicate BenchmarkIs(st: State, marks: seq<State>, config: BacktestConfig) {
    var b := config.benchmarkSymbol;
    && |st.benchmark| == |marks|
    && match st.benchmarkUnits
       case None => forall i :: 0 <= i < |marks| ==> b !in marks[i].prices && st.benchmark[i] == config.initialCash
       case Some(units) =>
         && b in st.prices
         && exists f :: FirstPriced(f, marks, b) && BoughtAt(f, units, st.benchmark, marks, config)
  }

  ghost predicate FirstPriced(f: int, marks: seq<State>, b: string) {
    && 0 <= f < |marks| && b in marks[f].prices && forall i :: 0 <= i < f ==> b !in marks[i].prices
  }

  ghost predicate BoughtAt(f: int, units: real, curve: seq<real>, marks: seq<State>, config: BacktestConfig) {
    var b := config.benchmarkSymbol;
    && 0 <= f < |marks| == |curve| && b in marks[f].prices && Times(units, marks[f].prices[b]) == config.initialCash
    && (forall i :: 0 <= i < f ==> curve[i] == config.initialCash)
    && forall i :: f <= i < |marks| ==> b in marks[i].prices && curve[i] == Times(units, marks[i].prices[b])
  }

  lemma FlushBenchmark(st: State, stamp: int, pending: seq<MarketEvent>, config: BacktestConfig, env: Environment)
    requires Flush(st, stamp, pending, config, env).Success?
    ensures var next, m := Flush(st, stamp, pending, config, env).value, MarkOf(st, stamp, pending, config);
      && st.prices.Keys <= next.prices.Keys
      && (m.None? ==> next.benchmark == st.benchmark && next.benchmarkUnits == st.benchmarkUnits)
      && (m.Some? ==>
            var b := config.benchmarkSymbol;
            && m.value.prices == next.prices
            && (st.benchmarkUnits.None? && b in next.prices ==>
                  next.benchmarkUnits.Some? && Times(next.benchmarkUnits.value, next.prices[b]) == config.initialCash)
            && (st.benchmarkUnits.Some? || b !in next.prices ==> next.benchmarkUnits == st.benchmarkUnits)
            && next.benchmark == st.benchmark + [if next.benchmarkUnits.Some? && b in next.prices
                                                 then Times(next.benchmarkUnits.value, next.prices[b]) else config.initialCash])
  {
    hide AllPrinted, TotalValue, Fall, Rebuilt, Rebalance, ApplyAll, Ready, Times, BenchmarkPoint;
    ApplyAllKeeps(st.(now := stamp), pending);
    PricesKept(st.(now := stamp), pending);
    PointIs(Flush(st, stamp, pending, config, env).value.benchmarkUnits, ApplyAll(st.(now := stamp), pending).prices, config);
    var prices := ApplyAll(st.(now := stamp), pending).prices;
    if config.benchmarkSymbol in prices && prices[config.benchmarkSymbol] != 0.0 {
      SpendsAll(config.initialCash, prices[config.benchmarkSymbol]);
    }
  }

  lemma PointIs(units: Option<real>, prices: Prices, config: BacktestConfig)
    ensures var b := config.benchmarkSymbol;
      BenchmarkPoint(units, prices, config) == if units.Some? && b in prices then Times(units.value, prices[b]) else config.initialCash
  {
  }

  lemma SpendsAll(cash: real, price: real)
    requires price != 0.0
    ensures Times(cash / price, price) == cash
  {
  }

  lemma {:induction false} PricesKept(st: State, events: seq<MarketEvent>)
    ensures st.prices.Keys <= ApplyAll(st, events).prices.Keys
  {
    if events != [] { PricesKept(st, events[..|events| - 1]); }
  }

  lemma BenchmarkStep(st: State, marks: seq<State>, stamp: int, pending: seq<MarketEvent>, config: BacktestConfig, env: Environment)
    requires BenchmarkIs(st, marks, config) && Flush(st, stamp, pending, config, env).Success?
    ensures BenchmarkIs(Flush(st, stamp, pending, config, env).value, AddMark(marks, st, stamp, pending, config), config)
  {
    hide Flush, MarkOf, Times;
    FlushBenchmark(st, stamp, pending, config, env);
    var next, m, b := Flush(st, stamp, pending, config, env).value, MarkOf(st, stamp, pending, config), config.benchmarkSymbol;
    if m.Some? {
      var n, all := |marks|, marks + [m.value];
      if st.benchmarkUnits.Some? {
        var f :| FirstPriced(f, marks, b) && BoughtAt(f, st.benchmarkUnits.value, st.benchmark, marks, config);
        assert FirstPriced(f, all, b) && BoughtAt(f, st.benchmarkUnits.value, next.benchmark, all, config);
      } else if b in next.prices {
        assert FirstPriced(n, all, b) && BoughtAt(n, next.benchmarkUnits.value, next.benchmark, all, config);
      }
    }
  }

  lemma {:induction false} ReplayBenchmark(events: seq<MarketEvent>, config: BacktestConfig, env: Environment)
    requires Replay(events, config, env).Success?
    ensures BenchmarkIs(Replay(events, config, env).value.state, MarksReplay(events, config, env), config)
  {
    hide Flush, AddMark;
    if events != [] {
      hide BenchmarkIs;
      var front := events[..|events| - 1];
      ReplayBenchmark(front, config, env);
      var loop := Replay(front, config, env).value;
      if loop.stamp.Some? && events[|events| - 1].timestamp != loop.stamp.value {
        BenchmarkStep(loop.state, MarksReplay(front, config, env), loop.stamp.value, loop.pending, config, env);
      }
    }
  }

  /** The benchmark curve of a whole run, exactly. */
  lemma RunBenchmarkExactly(events: seq<MarketEvent>, config: BacktestConfig, env: Environment)
    requires Played(events, config, env).Success?
    ensures BenchmarkIs(Played(events, config, env).value, MarksPlayed(events, config, env), config)
  {
    hide Flush, AddMark, BenchmarkIs;
    ReplayBenchmark(events, config, env);
    var loop := Replay(events, config, env).value;
    if loop.stamp.Some? && loop.pending != [] {
      BenchmarkStep(loop.state, MarksReplay(events, config, env), loop.stamp.value, loop.pending, config, env);
    }
  }

  // ----- the result

  /** What comes of a source, exactly: nothing over an empty window; else what playing the
      window's events raises; else nothing if there were fewer than two instants by which
      every name had printed; else the run's own curves and cycles, with the initial cash
      paid in at the first mark and what the account was worth taken out at the last. */
  lemma BacktestExactly(config: BacktestConfig, env: Environment, source: seq<MarketEvent>)
    ensures config.end <= config.start ==> Backtested(config, env, source) == Failure(EndBeforeStart)
    ensures config.start < config.end ==>
              var events, r := Stream(source, config.start, config.end).value, Backtested(config, env, source);
              match Played(events, config, env)
              case Failure(e) => r == Failure(e)
              case Success(st) =>
                if |MarkCuts(events, config)| < 2 then r == Failure(TooFewMarks)
                else
                  && r.Success? && r.value.timestamps == st.timestamps && r.value.equityCurve == st.equity
                  && r.value.benchmarkCurve == st.benchmark && r.value.cycles == st.cycles
                  && |st.timestamps| == |st.equity| == |MarkCuts(events, config)|
                  && r.value.cashFlows == [(st.timestamps[0], -config.initialCash),
                                           (st.timestamps[|st.timestamps| - 1], st.equity[|st.equity| - 1])]
  {
    if config.start < config.end {
      var events := Stream(source, config.start, config.end).value;
      hide Played, Stream, MarkCuts, ResultOf;
      if Played(events, config, env).Success? {
        CountsMarks(events, config, env);
        ResultIs(Played(events, config, env).value, config);
      }
    }
  }

  lemma ResultIs(st: State, config: BacktestConfig)
    requires |st.timestamps| == |st.equity|
    ensures var r := ResultOf(st, config);
      if |st.equity| < 2 then r == Failure(TooFewMarks)
      else
        && r.Success? && r.value.timestamps == st.timestamps && r.value.equityCurve == st.equity
        && r.value.benchmarkCurve == st.benchmark && r.value.cycles == st.cycles
        && r.value.cashFlows == [(st.timestamps[0], -config.initialCash), (st.timestamps[|st.timestamps| - 1], st.equity[|st.equity| - 1])]
  {
  }

  lemma CountsMarks(events: seq<MarketEvent>, config: BacktestConfig, env: Environment)
    requires Played(events, config, env).Success?
    ensures var st := Played(events, config, env).value; |st.timestamps| == |st.equity| == |MarkCuts(events, config)|
  {
    hide Played, MarksPlayed, MarkCuts, Knows, DecidedAt;
    RunMarksExactly(events, config, env);
    PlayedRecorded(events, config, env);
  }
}
