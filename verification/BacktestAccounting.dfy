/** The books of a whole run: it pays for itself, and it never owes. */
module BacktestAccounting {
  import opened Options
  import opened Sums
  import opened RiskEngine
  import opened Mandates
  import opened Execution
  import opened ExecutionTheorems
  import opened ExecutionLedger
  import opened MarketData
  import opened Backtest
  import opened BacktestCausality

  /** The executor of the run is the simulated one, without borrowing. */
  ghost predicate Simulated(env: Environment, model: FillModel) {
    forall m, a, s :: env.execute(m, a, s) == Simulate(model, false, m, a, s)
  }

  // ----- gains and costs of one flush

  /** Shares held times the change in price, name by name. */
  function PriceChanges(positions: Positions, before: Prices, after: Prices): Vector {
    s => Held(positions, s) as real * (Get(after, s) - Get(before, s))
  }

  function PriceGain(positions: Positions, before: Prices, after: Prices): real {
    Sum(positions.Keys, PriceChanges(positions, before, after))
  }

  /** What the holdings carried into a timestamp gain from its prices. */
  function FlushGain(st: State, stamp: int, pending: seq<MarketEvent>): real {
    PriceGain(st.account.positions, st.prices, ApplyAll(st.(now := stamp), pending).prices)
  }

  /** The report of the trade made at the last mark, if there was one. */
  function LastReport(st: State): Option<ExecutionReport> {
    if st.lastRebalanceIndex == st.barsSeen && st.cycles != [] then st.cycles[|st.cycles| - 1].report else None
  }

  /** The commission it reports, and what was paid beside the mark. */
  function LastCommission(st: State): real {
    match LastReport(st) case None => 0.0 case Some(report) => report.totalCommission
  }

  function LastSpread(st: State): real {
    match LastReport(st) case None => 0.0 case Some(report) => SpreadPaid(report.fills, st.prices)
  }

  function LastCost(st: State): real {
    LastCommission(st) + LastSpread(st)
  }

  /** The shares it traded, and what they were worth at the mark. */
  function LastShares(st: State): int {
    match LastReport(st) case None => 0 case Some(report) => SharesTraded(report.fills)
  }

  function LastTraded(st: State): real {
    match LastReport(st) case None => 0.0 case Some(report) => TradedAtMark(report.fills, st.prices)
  }

  /** What holdings priced on both sides are worth changes by shares times the change in
      price, and nothing else. */
  lemma GainIsPriceChange(positions: Positions, before: Prices, after: Prices)
    requires positions.Keys <= before.Keys <= after.Keys
    ensures MarketValue(positions, after) - MarketValue(positions, before) == PriceGain(positions, before, after)
  {
    hide Sum;
    var f, g, change := ValueOf(positions, before), ValueOf(positions, after), PriceChanges(positions, before, after);
    forall s | s in positions.Keys ensures change(s) == 1.0 * g(s) + (-1.0) * f(s) {
      assert s in before && s in after;
      PriceChange(positions[s] as real, before[s], after[s], change(s));
    }
    SumLinear(positions.Keys, 1.0, g, -1.0, f, change);
  }

  lemma PriceChange(q: real, b: real, a: real, d: real)
    requires d == q * (a - b)
    ensures d == q * a - q * b
  {
  }

  // ----- what every reachable state keeps

  /** Marks, cycles and account in step, and every name held priced: the last mark, less what trading then cost, is
      what the account is worth at the same prices. */
  ghost predicate Marked(st: State, config: BacktestConfig) {
    && st.lastRebalanceIndex <= st.barsSeen
    && 0 <= st.barsSeen
    && |st.timestamps| == |st.equity| == |st.benchmark|
    && st.account.positions.Keys <= st.prices.Keys
    && (st.equity == [] ==> st.account == Account(config.initialCash, map[]) && st.cycles == [] && LastCost(st) == 0.0)
    && (st.equity != [] ==>
          && AllPrinted(st, config)
          && TotalValue(st.account, st.prices) == st.equity[|st.equity| - 1] - LastCost(st))
  }

  lemma {:induction false} HistoryGrows(st: State, events: seq<MarketEvent>, config: BacktestConfig)
    requires AllPrinted(st, config)
    ensures AllPrinted(ApplyAll(st, events), config)
  {
    if events != [] {
      HistoryGrows(st, events[..|events| - 1], config);
      forall s | s in config.symbols ensures Depth(ApplyAll(st, events), s) > 0 {
        assert Depth(ApplyAll(st, events[..|events| - 1]), s) > 0;
      }
    }
  }

  lemma {:induction false} PricesGrow(st: State, events: seq<MarketEvent>)
    ensures st.prices.Keys <= ApplyAll(st, events).prices.Keys
  {
    if events != [] { PricesGrow(st, events[..|events| - 1]); }
  }

  lemma RebalanceReport(st: State, stamp: int, config: BacktestConfig, env: Environment, model: FillModel)
    requires Simulated(env, model)
    ensures var r := Rebalance(st, stamp, config, env);
      r.Success? && r.value.report.Some? ==>
        && Rebuilt(r.value.report.value).positions.Keys <= st.prices.Keys
        && TotalValue(Rebuilt(r.value.report.value), st.prices)
           == TotalValue(st.account, st.prices)
              - (r.value.report.value.totalCommission + SpreadPaid(r.value.report.value.fills, st.prices))
  {
    hide Evaluate, BuildMandate, Observations, CurrentWeights, ContextOf, Usable, Simulate, SpreadPaid, Rebuilt, MarketValue;
    var r := Rebalance(st, stamp, config, env);
    if r.Success? && r.value.report.Some? {
      var mandate, market := r.value.mandate.value, MarketSnapshot(stamp, st.prices, st.prices);
      assert env.execute(mandate, st.account, market) == Simulate(model, false, mandate, st.account, market);
      ExecutionConserves(model, false, mandate, st.account, market);
      RebuiltIsPriced(model, mandate, st.account, market);
    }
  }

  lemma RebuiltIsPriced(model: FillModel, mandate: RebalanceMandate, account: Account, market: MarketSnapshot)
    requires Simulate(model, false, mandate, account, market).Success?
    ensures Rebuilt(Simulate(model, false, mandate, account, market).value).positions.Keys <= market.prices.Keys
  {
    hide Simulate, WorkAll, SizeOrders, Rebuilt;
    ReportedBook(model, false, mandate, account, market, "");
  }

  lemma DecideBalance(st: State, stamp: int, config: BacktestConfig, env: Environment, model: FillModel)
    requires Simulated(env, model)
    requires 0 <= st.barsSeen && st.lastRebalanceIndex < st.barsSeen && |st.timestamps| == |st.equity| == |st.benchmark|
    requires st.equity != [] && AllPrinted(st, config) && st.account.positions.Keys <= st.prices.Keys
    requires TotalValue(st.account, st.prices) == st.equity[|st.equity| - 1]
    ensures var r := Decide(st, stamp, config, env);
      r.Success? ==>
        && Marked(r.value, config) && r.value.equity == st.equity
        && TotalValue(r.value.account, r.value.prices) == TotalValue(st.account, st.prices) - LastCost(r.value)
  {
    hide Rebalance, TotalValue, SpreadPaid, Rebuilt, Ready;
    var due := st.(lastRebalanceIndex := st.barsSeen);
    RebalanceReport(due, stamp, config, env, model);
  }

  /** One flush pays for itself: what the account is worth changes by the gain on what was
      held, less what trading cost; and the new mark is the old one, less what trading
      cost then, plus that gain. */
  lemma FlushBalance(st: State, stamp: int, pending: seq<MarketEvent>, config: BacktestConfig, env: Environment, model: FillModel)
    requires Simulated(env, model) && Marked(st, config)
    ensures var r := Flush(st, stamp, pending, config, env);
      r.Success? ==>
        && Marked(r.value, config)
        && (r.value.equity == st.equity ==> st.equity == [] && r.value.account == st.account)
        && (r.value.equity != st.equity ==>
              && TotalValue(r.value.account, r.value.prices)
                 == TotalValue(st.account, st.prices) + FlushGain(st, stamp, pending) - LastCost(r.value)
              && r.value.equity == st.equity + [TotalValue(st.account, st.prices) + FlushGain(st, stamp, pending)])
  {
    hide Decide, ApplyAll, MarketValue, AllPrinted, Simulated, SpreadPaid, PriceGain;
    var told := ApplyAll(st.(now := stamp), pending);
    ApplyAllKeeps(st.(now := stamp), pending);
    PricesGrow(st.(now := stamp), pending);
    GainIsPriceChange(st.account.positions, st.prices, told.prices);
    if st.equity != [] {
      assert AllPrinted(st.(now := stamp), config) by { PrintedAgrees(st, stamp, config); }
      HistoryGrows(st.(now := stamp), pending, config);
    }
    var marked := Mark(told, stamp, config);
    if stamp >= st.now && AllPrinted(told, config) && marked.Success? {
      assert AllPrinted(marked.value, config) by { PrintedAfterMark(told, stamp, config); }
      DecideBalance(marked.value, stamp, config, env, model);
    }
  }

  lemma PrintedAgrees(st: State, stamp: int, config: BacktestConfig)
    requires AllPrinted(st, config)
    ensures AllPrinted(st.(now := stamp), config)
  {
    forall s | s in config.symbols ensures Depth(st.(now := stamp), s) > 0 { assert Depth(st, s) > 0; }
  }

  lemma PrintedAfterMark(st: State, stamp: int, config: BacktestConfig)
    requires AllPrinted(st, config) && Mark(st, stamp, config).Success?
    ensures AllPrinted(Mark(st, stamp, config).value, config)
  {
    hide TotalValue;
    forall s | s in config.symbols ensures Depth(Mark(st, stamp, config).value, s) > 0 { assert Depth(st, s) > 0; }
  }

  /** The equity curve, point by point: each mark after the first is the mark before it,
      less what trading then cost, plus shares held times the change in price. */
  lemma EquityStep(st: State, stamp: int, pending: seq<MarketEvent>, config: BacktestConfig, env: Environment, model: FillModel)
    requires Simulated(env, model) && Marked(st, config) && st.equity != []
    requires Flush(st, stamp, pending, config, env).Success?
    ensures Flush(st, stamp, pending, config, env).value.equity
            == st.equity + [st.equity[|st.equity| - 1] - LastCost(st) + FlushGain(st, stamp, pending)]
  {
    hide Flush, FlushGain, LastCost, TotalValue, AllPrinted, Simulated;
    FlushBalance(st, stamp, pending, config, env, model);
  }

  // ----- a whole run

  datatype Tally = Tally(gains: real, commission: real, spread: real, shares: int, traded: real) {
    function Costs(): real {
      commission + spread
    }
  }

  const NOTHING := Tally(0.0, 0.0, 0.0, 0, 0.0)

  /** Gains, costs and trades of one flush added to those so far; a flush before the first mark
      holds nothing. */
  function AddFlush(t: Tally, st: State, stamp: int, pending: seq<MarketEvent>, config: BacktestConfig, env: Environment): Tally {
    match Flush(st, stamp, pending, config, env)
    case Failure(e) => t
    case Success(next) =>
      if next.equity == st.equity then t
      else Tally(t.gains + FlushGain(st, stamp, pending), t.commission + LastCommission(next), t.spread + LastSpread(next),
                 t.shares + LastShares(next), t.traded + LastTraded(next))
  }

  function TallyReplay(events: seq<MarketEvent>, config: BacktestConfig, env: Environment): Tally {
    if events == [] then NOTHING
    else
      var before, e := TallyReplay(events[..|events| - 1], config, env), events[|events| - 1];
      match Replay(events[..|events| - 1], config, env)
      case Failure(err) => before
      case Success(loop) =>
        if loop.stamp.Some? && e.timestamp != loop.stamp.value
        then AddFlush(before, loop.state, loop.stamp.value, loop.pending, config, env) else before
  }

  function TallyPlayed(events: seq<MarketEvent>, config: BacktestConfig, env: Environment): Tally {
    var t := TallyReplay(events, config, env);
    match Replay(events, config, env)
    case Failure(e) => t
    case Success(loop) =>
      if loop.stamp.Some? && loop.pending != [] then AddFlush(t, loop.state, loop.stamp.value, loop.pending, config, env) else t
  }

  /** What is owned is what was put in, plus gains, less costs. */
  ghost predicate Balanced(st: State, t: Tally, config: BacktestConfig) {
    && Marked(st, config)
    && (st.equity == [] ==> t == NOTHING)
    && (st.equity != [] ==> TotalValue(st.account, st.prices) == config.initialCash + t.gains - t.Costs())
  }

  lemma CashOnly(cash: real, prices: Prices)
    ensures TotalValue(Account(cash, map[]), prices) == cash
  {
  }

  lemma AddFlushBalanced(t: Tally, st: State, stamp: int, pending: seq<MarketEvent>, config: BacktestConfig, env: Environment, model: FillModel)
    requires Simulated(env, model) && Balanced(st, t, config)
    requires Flush(st, stamp, pending, config, env).Success?
    ensures Balanced(Flush(st, stamp, pending, config, env).value, AddFlush(t, st, stamp, pending, config, env), config)
  {
    hide Flush, FlushGain, LastCommission, LastSpread, LastShares, LastTraded, TotalValue, AllPrinted, Simulated;
    FlushBalance(st, stamp, pending, config, env, model);
    if st.equity == [] { CashOnly(config.initialCash, st.prices); }
  }

  lemma InitialBalanced(config: BacktestConfig)
    ensures Balanced(Initial(config), NOTHING, config)
  {
  }

  lemma {:induction false} ReplayBalanced(events: seq<MarketEvent>, config: BacktestConfig, env: Environment, model: FillModel)
    requires Simulated(env, model) && Replay(events, config, env).Success?
    ensures Balanced(Replay(events, config, env).value.state, TallyReplay(events, config, env), config)
  {
    hide Flush, Balanced, Simulated, AddFlush;
    if events == [] {
      InitialBalanced(config);
    } else {
      var front, e := events[..|events| - 1], events[|events| - 1];
      ReplayBalanced(front, config, env, model);
      var loop := Replay(front, config, env).value;
      if loop.stamp.Some? && e.timestamp != loop.stamp.value {
        AddFlushBalanced(TallyReplay(front, config, env), loop.state, loop.stamp.value, loop.pending, config, env, model);
      }
    }
  }

  /** Self-financing over a whole run: at the end the account is worth exactly the initial
      cash, plus what was gained on holdings from price changes, less all commission
      reported and all that was paid beside the mark; and the last mark is that before the
      last trade's cost. */
  lemma RunIsSelfFinancing(events: seq<MarketEvent>, config: BacktestConfig, env: Environment, model: FillModel)
    requires Simulated(env, model) && Played(events, config, env).Success?
    ensures var st, t := Played(events, config, env).value, TallyPlayed(events, config, env);
      && Balanced(st, t, config)
      && (st.equity != [] ==>
            && TotalValue(st.account, st.prices) == config.initialCash + t.gains - t.Costs()
            && st.equity[|st.equity| - 1] == config.initialCash + t.gains - t.Costs() + LastCost(st))
  {
    hide Flush, Simulated, AddFlush, LastCost, TotalValue, AllPrinted;
    ReplayBalanced(events, config, env, model);
    var loop := Replay(events, config, env).value;
    if loop.stamp.Some? && loop.pending != [] {
      AddFlushBalanced(TallyReplay(events, config, env), loop.state, loop.stamp.value, loop.pending, config, env, model);
    }
  }

  // ----- what a run is charged

  /** The model's charges: nothing for instant fills; the commission on every share and half
      the spread on everything traded for the others. */
  ghost predicate Charged(model: FillModel, commission: real, spread: real, shares: int, traded: real) {
    match model
    case Instant => commission == 0.0 && spread == 0.0
    case SpreadCross(width, perShare) =>
      -20000.0 < width < 20000.0 ==> spread == width / BPS / 2.0 * traded && commission == perShare * shares as real
  }

  lemma ChargedNothing(model: FillModel)
    ensures Charged(model, 0.0, 0.0, 0, 0.0)
  {
  }

  lemma ChargedMore(model: FillModel, c: real, p: real, n: int, v: real, c': real, p': real, n': int, v': real)
    requires Charged(model, c, p, n, v) && Charged(model, c', p', n', v')
    ensures Charged(model, c + c', p + p', n + n', v + v')
  {
    if model.SpreadCross? {
      Together(model.spreadBps / BPS / 2.0, v, v');
      Together(model.commissionPerShare, n as real, n' as real);
      assert (n + n') as real == n as real + n' as real;
    }
  }

  ghost predicate ReportCharged(model: FillModel, report: ExecutionReport, prices: Prices) {
    Charged(model, report.totalCommission, SpreadPaid(report.fills, prices), SharesTraded(report.fills), TradedAtMark(report.fills, prices))
  }

  lemma FillsCharged(model: FillModel, fills: seq<Fill>, prices: Prices)
    requires FillsFrom(fills, prices, model)
    ensures Charged(model, TotalCommission(fills), SpreadPaid(fills, prices), SharesTraded(fills), TradedAtMark(fills, prices))
  {
    hide TotalCommission, SpreadPaid, SharesTraded, TradedAtMark, FillsFrom;
    if model.Instant? {
      InstantIsFree(fills, prices);
    } else if -20000.0 < model.spreadBps < 20000.0 {
      CrossingCosts(fills, prices, model.spreadBps, model.commissionPerShare);
    }
  }

  lemma TradeCharged(st: State, stamp: int, plan: Plan, assessment: RiskAssessment, current: Weights, tilts: map<string, real>, env: Environment, model: FillModel)
    requires Simulated(env, model)
    ensures var r := Trade(st, stamp, plan, assessment, current, tilts, env);
      r.Success? ==> r.value.report.Some? && ReportCharged(model, r.value.report.value, st.prices)
  {
    hide Simulate, TotalValue, MandateTargets, SpreadPaid, MandateId, RealizedWeights, FillsFrom, Charged, SharesTraded, TradedAtMark, TotalCommission;
    var r := Trade(st, stamp, plan, assessment, current, tilts, env);
    if r.Success? {
      var mandate, market := r.value.mandate.value, MarketSnapshot(stamp, st.prices, st.prices);
      assert env.execute(mandate, st.account, market) == Simulate(model, false, mandate, st.account, market);
      MandateTargetsExact(assessment.weights, current);
      ReportFills(model, false, mandate, st.account, market);
      CommissionReported(model, false, mandate, st.account, market);
      FillsCharged(model, r.value.report.value.fills, st.prices);
    }
  }

  lemma RebalanceCharged(st: State, stamp: int, config: BacktestConfig, env: Environment, model: FillModel)
    requires Simulated(env, model)
    ensures var r := Rebalance(st, stamp, config, env);
      r.Success? && r.value.report.Some? ==> ReportCharged(model, r.value.report.value, st.prices)
  {
    hide Evaluate, Trade, Observations, Usable, CurrentWeights, ReportCharged, Simulated;
    var symbols := Usable(config.symbols, st, config.estimationWindow);
    var tilts := env.tilts(symbols, stamp);
    var plan := env.plan(symbols, Observations(st, symbols, config.estimationWindow), tilts);
    if |symbols| >= 2 && plan.Some? {
      var current := CurrentWeights(st.account, st.prices);
      var a := Evaluate(plan.value.weights, ContextOf(st, stamp, current, plan.value, symbols, config, env), env.policy, env.num);
      TradeCharged(st, stamp, plan.value, a, current, tilts, env, model);
    }
  }

  ghost predicate TallyCharged(model: FillModel, t: Tally) {
    Charged(model, t.commission, t.spread, t.shares, t.traded)
  }

  lemma LastCharged(st: State, model: FillModel)
    requires LastReport(st).Some? ==> ReportCharged(model, LastReport(st).value, st.prices)
    ensures Charged(model, LastCommission(st), LastSpread(st), LastShares(st), LastTraded(st))
  {
    hide LastReport, Charged, SpreadPaid, SharesTraded, TradedAtMark;
    ChargedNothing(model);
  }

  lemma FlushReport(st: State, stamp: int, pending: seq<MarketEvent>, config: BacktestConfig, env: Environment, model: FillModel)
    requires Simulated(env, model) && st.lastRebalanceIndex <= st.barsSeen
    ensures var r := Flush(st, stamp, pending, config, env);
      r.Success? ==>
        && r.value.lastRebalanceIndex <= r.value.barsSeen
        && (r.value.equity != st.equity && LastReport(r.value).Some? ==>
              ReportCharged(model, LastReport(r.value).value, r.value.prices))
  {
    hide ApplyAll, AllPrinted, Rebalance, Ready, TotalValue, ReportCharged, Simulated, Rebuilt;
    var told := ApplyAll(st.(now := stamp), pending);
    ApplyAllKeeps(st.(now := stamp), pending);
    var marked := Mark(told, stamp, config);
    if marked.Success? { RebalanceCharged(marked.value.(lastRebalanceIndex := marked.value.barsSeen), stamp, config, env, model); }
  }

  lemma FlushCharged(t: Tally, st: State, stamp: int, pending: seq<MarketEvent>, config: BacktestConfig, env: Environment, model: FillModel)
    requires Simulated(env, model) && st.lastRebalanceIndex <= st.barsSeen && TallyCharged(model, t)
    ensures TallyCharged(model, AddFlush(t, st, stamp, pending, config, env))
    ensures var r := Flush(st, stamp, pending, config, env); r.Success? ==> r.value.lastRebalanceIndex <= r.value.barsSeen
  {
    hide Flush, LastReport, Charged, ReportCharged, FlushGain, LastCommission, LastSpread, LastShares, LastTraded, Simulated;
    FlushReport(st, stamp, pending, config, env, model);
    var r := Flush(st, stamp, pending, config, env);
    if r.Success? && r.value.equity != st.equity {
      LastCharged(r.value, model);
      ChargedMore(model, t.commission, t.spread, t.shares, t.traded,
                  LastCommission(r.value), LastSpread(r.value), LastShares(r.value), LastTraded(r.value));
    }
  }

  lemma {:induction false} ReplayCharged(events: seq<MarketEvent>, config: BacktestConfig, env: Environment, model: FillModel)
    requires Simulated(env, model)
    ensures TallyCharged(model, TallyReplay(events, config, env))
    ensures var r := Replay(events, config, env); r.Success? ==> r.value.state.lastRebalanceIndex <= r.value.state.barsSeen
  {
    hide Flush, Simulated, AddFlush, Charged;
    if events == [] {
      ChargedNothing(model);
    } else {
      var front := events[..|events| - 1];
      ReplayCharged(front, config, env, model);
      if Replay(front, config, env).Success? {
        var loop := Replay(front, config, env).value;
        if loop.stamp.Some? {
          FlushCharged(TallyReplay(front, config, env), loop.state, loop.stamp.value, loop.pending, config, env, model);
        }
      }
    }
  }

  /** What a whole run pays: crossing the spread, the commission on every share it traded,
      and half the spread on all it traded at the mark; under instant fills, nothing. */
  lemma RunIsCharged(events: seq<MarketEvent>, config: BacktestConfig, env: Environment, model: FillModel)
    requires Simulated(env, model) && Played(events, config, env).Success?
    ensures TallyCharged(model, TallyPlayed(events, config, env))
  {
    hide Flush, Simulated, AddFlush, Charged;
    ReplayCharged(events, config, env, model);
    var loop := Replay(events, config, env).value;
    if loop.stamp.Some? && loop.pending != [] {
      FlushCharged(TallyReplay(events, config, env), loop.state, loop.stamp.value, loop.pending, config, env, model);
    }
  }

  /** Under instant fills a whole run costs nothing: what the account is worth at the end is
      the initial cash and the gains on what was held. */
  lemma RunIsFree(events: seq<MarketEvent>, config: BacktestConfig, env: Environment)
    requires Simulated(env, Instant) && Played(events, config, env).Success?
    ensures var st, t := Played(events, config, env).value, TallyPlayed(events, config, env);
      && t.Costs() == 0.0
      && (st.equity != [] ==> TotalValue(st.account, st.prices) == config.initialCash + t.gains)
  {
    hide Played, TallyPlayed, Simulated, TotalValue, AllPrinted, LastCost;
    RunIsSelfFinancing(events, config, env, Instant);
    RunIsCharged(events, config, env, Instant);
  }
}
