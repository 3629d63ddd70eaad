/** A run seen mark by mark: the state each session was marked in, what every cycle was
    decided on, and what that means for the whole run. */
module BacktestMarks {
  import opened Options
  import opened RiskEngine
  import opened Mandates
  import opened Reconciliations
  import opened MandateTheorems
  import opened Execution
  import opened ExecutionTheorems
  import opened ExecutionLedger
  import opened MarketData
  import opened Backtest
  import opened BacktestCausality
  import opened BacktestSolvency
  import opened BacktestLimits
  import opened Drawdowns

  /** The state at the mark a flush makes, before it decides anything. */
  function MarkOf(st: State, stamp: int, pending: seq<MarketEvent>, config: BacktestConfig): Option<State> {
    var told := ApplyAll(st.(now := stamp), pending);
    if stamp < st.now || !AllPrinted(told, config) then None
    else
      match Mark(told, stamp, config)
      case Failure(e) => None
      case Success(marked) => Some(marked)
  }

  function AddMark(marks: seq<State>, st: State, stamp: int, pending: seq<MarketEvent>, config: BacktestConfig): seq<State> {
    match MarkOf(st, stamp, pending, config)
    case None => marks
    case Some(marked) => marks + [marked]
  }

  function MarksReplay(events: seq<MarketEvent>, config: BacktestConfig, env: Environment): seq<State> {
    if events == [] then []
    else
      var before, e := MarksReplay(events[..|events| - 1], config, env), events[|events| - 1];
      match Replay(events[..|events| - 1], config, env)
      case Failure(err) => before
      case Success(loop) =>
        if loop.stamp.Some? && e.timestamp != loop.stamp.value
        then AddMark(before, loop.state, loop.stamp.value, loop.pending, config) else before
  }

  function MarksPlayed(events: seq<MarketEvent>, config: BacktestConfig, env: Environment): seq<State> {
    var marks := MarksReplay(events, config, env);
    match Replay(events, config, env)
    case Failure(e) => marks
    case Success(loop) =>
      if loop.stamp.Some? && loop.pending != [] then AddMark(marks, loop.state, loop.stamp.value, loop.pending, config) else marks
  }

  // ----- what a cycle was decided on

  /** The proposal and the context the risk engine was asked with at a mark. */
  function Asked(m: State, stamp: int, config: BacktestConfig, env: Environment): (Weights, RiskContext) {
    var symbols := Usable(config.symbols, m, config.estimationWindow);
    var nothing := (map[], RiskContext(stamp, map[], env.sectors, env.betas, map[], map[], {}, m.drawdown, 0.0, map[]));
    if |symbols| < 2 then nothing
    else
      match env.plan(symbols, Observations(m, symbols, config.estimationWindow), env.tilts(symbols, stamp))
      case None => nothing
      case Some(plan) => (plan.weights, ContextOf(m, stamp, CurrentWeights(m.account, m.prices), plan, symbols, config, env))
  }

  ghost predicate DecidedAt(m: State, record: CycleRecord, config: BacktestConfig, env: Environment) {
    && m.timestamps != []
    && Rebalance(m.(lastRebalanceIndex := m.barsSeen), m.timestamps[|m.timestamps| - 1], config, env) == Success(record)
  }

  /** Every cycle, traded or not, asked the risk engine with the drawdown of its own mark. */
  lemma CycleSeesItsDrawdown(m: State, record: CycleRecord, config: BacktestConfig, env: Environment)
    requires DecidedAt(m, record, config, env)
    ensures var stamp := m.timestamps[|m.timestamps| - 1];
      var (proposed, ctx) := Asked(m, stamp, config, env);
      && record.timestamp == stamp && ctx.drawdown == m.drawdown
      && record.assessment == Evaluate(proposed, ctx, env.policy, env.num)
  {
    hide Evaluate, Trade, TotalValue;
    var due := m.(lastRebalanceIndex := m.barsSeen);
    UsableAgrees(config.symbols, m, due, config.estimationWindow);
    var symbols := Usable(config.symbols, m, config.estimationWindow);
    ObservationsAgree(m, due, symbols, config.estimationWindow);
    hide Usable, Observations, CurrentWeights;
    var stamp := m.timestamps[|m.timestamps| - 1];
    var (proposed, ctx) := Asked(m, stamp, config, env);
    var plan := env.plan(symbols, Observations(m, symbols, config.estimationWindow), env.tilts(symbols, stamp));
    if |symbols| >= 2 && plan.Some? {
      TradeKeeps(due, stamp, plan.value, Evaluate(proposed, ctx, env.policy, env.num), ctx.currentWeights, env.tilts(symbols, stamp), env);
    }
  }

  lemma TradeKeeps(st: State, stamp: int, plan: Plan, assessment: RiskAssessment, current: Weights, tilts: map<string, real>, env: Environment)
    ensures var r := Trade(st, stamp, plan, assessment, current, tilts, env);
      r.Success? ==> r.value.assessment == assessment && r.value.timestamp == stamp && r.value.report.Some?
  {
    hide TotalValue;
  }

  lemma {:induction false} UsableAgrees(symbols: seq<string>, a: State, b: State, window: nat)
    requires a.history == b.history && a.prices == b.prices
    ensures Usable(symbols, a, window) == Usable(symbols, b, window)
  {
    if symbols != [] { UsableAgrees(symbols[1..], a, b, window); }
  }

  lemma {:induction false} ObservationAgrees(a: State, b: State, symbols: seq<string>, back: nat)
    requires a.history == b.history && 0 < back && forall s :: s in symbols ==> back < Depth(a, s)
    ensures Observation(a, symbols, back) == Observation(b, symbols, back)
  {
    if symbols != [] {
      assert forall s :: s in symbols[1..] ==> s in symbols;
      ObservationAgrees(a, b, symbols[1..], back);
    }
  }

  lemma ObservationsAgree(a: State, b: State, symbols: seq<string>, window: nat)
    requires a.history == b.history && forall s :: s in symbols ==> window < Depth(a, s)
    ensures Observations(a, symbols, window) == Observations(b, symbols, window)
  {
    hide Observation;
    var x, y := Observations(a, symbols, window), Observations(b, symbols, window);
    forall k | 0 <= k < window ensures x[k] == y[k] {
      ObservationAgrees(a, b, symbols, window - k);
    }
  }

  // ----- what the marks of a run are

  /** One mark for each point of the curve so far, each with the curve up to it, its worth
      and its drawdown; and every cycle was decided at one of them. */
  ghost predicate MarkAt(m: State, i: nat, st: State) {
    && i < |st.equity| && i < |st.timestamps|
    && m.equity == st.equity[..i + 1] && m.timestamps == st.timestamps[..i + 1]
    && m.drawdown == DrawdownAt(st.equity, i)
    && TotalValue(m.account, m.prices) == st.equity[i]
  }

  ghost predicate DecidedAtOne(marks: seq<State>, record: CycleRecord, config: BacktestConfig, env: Environment) {
    exists i :: 0 <= i < |marks| && DecidedAt(marks[i], record, config, env)
  }

  ghost predicate Recorded(st: State, marks: seq<State>, config: BacktestConfig, env: Environment) {
    && |marks| == |st.equity| == |st.timestamps|
    && (forall i :: 0 <= i < |marks| ==> MarkAt(marks[i], i, st))
    && (forall record :: record in st.cycles ==> DecidedAtOne(marks, record, config, env))
  }

  lemma FlushSplits(st: State, stamp: int, pending: seq<MarketEvent>, config: BacktestConfig, env: Environment)
    requires Flush(st, stamp, pending, config, env).Success?
    ensures var next, m := Flush(st, stamp, pending, config, env).value, MarkOf(st, stamp, pending, config);
      && (m.None? ==> next.equity == st.equity && next.timestamps == st.timestamps && next.cycles == st.cycles)
      && (m.Some? ==>
            && next.equity == m.value.equity == st.equity + [TotalValue(m.value.account, m.value.prices)]
            && next.timestamps == m.value.timestamps == st.timestamps + [stamp]
            && next.drawdown == m.value.drawdown
            && (next.cycles == st.cycles
                || exists record :: next.cycles == st.cycles + [record] && DecidedAt(m.value, record, config, env)))
  {
    hide ApplyAll, AllPrinted, Rebalance, Ready, TotalValue, Fall, BenchmarkPoint, Rebuilt;
    ApplyAllKeeps(st.(now := stamp), pending);
    var m, next := MarkOf(st, stamp, pending, config), Flush(st, stamp, pending, config, env).value;
    if m.Some? && next.cycles != st.cycles {
      var record := next.cycles[|next.cycles| - 1];
      assert DecidedAt(m.value, record, config, env);
      assert next.cycles == st.cycles + [record];
    }
  }

  lemma MarksGrow(st: State, next: State, marks: seq<State>, m: State, config: BacktestConfig, env: Environment)
    requires Recorded(st, marks, config, env)
    requires |next.equity| == |st.equity| + 1 && st.equity <= next.equity && next.equity == m.equity
    requires |next.timestamps| == |st.timestamps| + 1 && st.timestamps <= next.timestamps && next.timestamps == m.timestamps
    requires m.drawdown == DrawdownNow(m.equity) && TotalValue(m.account, m.prices) == m.equity[|m.equity| - 1]
    requires next.cycles == st.cycles || exists record :: next.cycles == st.cycles + [record] && DecidedAt(m, record, config, env)
    ensures Recorded(next, marks + [m], config, env)
  {
    hide DecidedAt, DrawdownNow, TotalValue;
    var all := marks + [m];
    forall i | 0 <= i < |all| ensures MarkAt(all[i], i, next) {
      if i < |marks| {
        assert MarkAt(marks[i], i, st);
        assert next.equity[..i + 1] == st.equity[..i + 1] && next.timestamps[..i + 1] == st.timestamps[..i + 1];
      } else {
        assert next.equity[..i + 1] == next.equity && next.timestamps[..i + 1] == next.timestamps;
      }
    }
    hide MarkAt;
    forall record | record in next.cycles ensures DecidedAtOne(all, record, config, env) {
      if record in st.cycles {
        var i :| 0 <= i < |marks| && DecidedAt(marks[i], record, config, env);
        assert all[i] == marks[i];
      } else {
        assert all[|marks|] == m;
      }
    }
  }

  lemma FlushRecorded(st: State, marks: seq<State>, stamp: int, pending: seq<MarketEvent>, config: BacktestConfig, env: Environment)
    requires Recorded(st, marks, config, env) && Tracked(st, config) && Flush(st, stamp, pending, config, env).Success?
    ensures var next := Flush(st, stamp, pending, config, env).value;
      Recorded(next, AddMark(marks, st, stamp, pending, config), config, env) && Tracked(next, config)
  {
    hide Flush, MarkOf, DecidedAt, Peak, DrawdownNow, TotalValue;
    FlushTracked(st, stamp, pending, config, env);
    FlushSplits(st, stamp, pending, config, env);
    var m, next := MarkOf(st, stamp, pending, config), Flush(st, stamp, pending, config, env).value;
    if m.Some? {
      assert Tracked(next, config);
      MarksGrow(st, next, marks, m.value, config, env);
    } else {
      SameRecord(st, next, marks, config, env);
    }
  }

  lemma SameRecord(st: State, next: State, marks: seq<State>, config: BacktestConfig, env: Environment)
    requires Recorded(st, marks, config, env)
    requires next.equity == st.equity && next.timestamps == st.timestamps && next.cycles == st.cycles
    ensures Recorded(next, marks, config, env)
  {
    hide DecidedAt, DrawdownAt, TotalValue;
    forall i | 0 <= i < |marks| ensures MarkAt(marks[i], i, next) { assert MarkAt(marks[i], i, st); }
  }

  lemma {:induction false} ReplayRecorded(events: seq<MarketEvent>, config: BacktestConfig, env: Environment)
    requires Replay(events, config, env).Success?
    ensures var st := Replay(events, config, env).value.state;
      Recorded(st, MarksReplay(events, config, env), config, env) && Tracked(st, config)
  {
    hide Flush, AddMark, DecidedAt, Peak, DrawdownNow;
    if events != [] {
      var front := events[..|events| - 1];
      ReplayRecorded(front, config, env);
      var loop := Replay(front, config, env).value;
      if loop.stamp.Some? && events[|events| - 1].timestamp != loop.stamp.value {
        FlushRecorded(loop.state, MarksReplay(front, config, env), loop.stamp.value, loop.pending, config, env);
      }
    }
  }

  lemma PlayedRecorded(events: seq<MarketEvent>, config: BacktestConfig, env: Environment)
    requires Played(events, config, env).Success?
    ensures Recorded(Played(events, config, env).value, MarksPlayed(events, config, env), config, env)
  {
    hide Flush, AddMark, DecidedAt, Recorded, Tracked;
    ReplayRecorded(events, config, env);
    var loop := Replay(events, config, env).value;
    if loop.stamp.Some? && loop.pending != [] {
      FlushRecorded(loop.state, MarksReplay(events, config, env), loop.stamp.value, loop.pending, config, env);
    }
  }

  /** The breaker sees the drawdown: over a whole run there is one mark for each point of the
      equity curve; the drawdown in force at a mark is the curve's own, up to that point;
      the largest of them is the maximum drawdown the metrics report; and every cycle was
      decided, and the risk engine asked, with the one of its own mark. */
  lemma BreakerSeesTheDrawdown(events: seq<MarketEvent>, config: BacktestConfig, env: Environment)
    requires Played(events, config, env).Success?
    ensures var st, marks := Played(events, config, env).value, MarksPlayed(events, config, env);
      && |marks| == |st.equity| == |st.timestamps|
      && (forall i :: 0 <= i < |marks| ==> marks[i].drawdown == DrawdownAt(st.equity, i) <= MaxDrawdown(st.equity))
      && (st.equity != [] ==> exists i :: 0 <= i < |marks| && marks[i].drawdown == MaxDrawdown(st.equity))
      && forall record :: record in st.cycles ==> exists i :: 0 <= i < |marks| && AskedAt(st, marks, i, record, config, env)
  {
    hide DecidedAt, Asked, DrawdownAt, MaxDrawdown;
    PlayedRecorded(events, config, env);
    var st, marks := Played(events, config, env).value, MarksPlayed(events, config, env);
    hide Played, MarksPlayed;
    MaxIsLargest(st.equity);
    forall i | 0 <= i < |marks| ensures marks[i].drawdown == DrawdownAt(st.equity, i) { assert MarkAt(marks[i], i, st); }
    forall record | record in st.cycles ensures exists i :: 0 <= i < |marks| && AskedAt(st, marks, i, record, config, env) {
      assert DecidedAtOne(marks, record, config, env);
      var i :| 0 <= i < |marks| && DecidedAt(marks[i], record, config, env);
      assert MarkAt(marks[i], i, st);
      CycleAsked(st, marks, i, record, config, env);
    }
  }

  /** The cycle stands at the time of mark i, and asked with the drawdown of mark i. */
  ghost predicate AskedAt(st: State, marks: seq<State>, i: nat, record: CycleRecord, config: BacktestConfig, env: Environment)
    requires i < |marks|
  {
    && i < |st.timestamps| && record.timestamp == st.timestamps[i]
    && var (proposed, ctx) := Asked(marks[i], st.timestamps[i], config, env);
       ctx.drawdown == marks[i].drawdown && record.assessment == Evaluate(proposed, ctx, env.policy, env.num)
  }

  lemma CycleAsked(st: State, marks: seq<State>, i: nat, record: CycleRecord, config: BacktestConfig, env: Environment)
    requires i < |marks| && MarkAt(marks[i], i, st) && DecidedAt(marks[i], record, config, env)
    ensures AskedAt(st, marks, i, record, config, env)
  {
    hide DecidedAt, Asked, DrawdownAt, TotalValue, Evaluate;
    CycleSeesItsDrawdown(marks[i], record, config, env);
  }

  // ----- every mark is sound, and every trade keeps the caps

  lemma MarkOfSound(st: State, stamp: int, pending: seq<MarketEvent>, config: BacktestConfig, model: FillModel, owning: bool)
    requires Sound(st, model, owning) && UsableEvents(pending, model, owning)
    ensures var m := MarkOf(st, stamp, pending, config); m.Some? ==> Sound(m.value, model, owning)
  {
    hide ApplyAll, AllPrinted, Solvent, AllPriced, UsablePrices, UsableEvents, TotalValue, Fall, BenchmarkPoint;
    ApplyAllSound(st.(now := stamp), pending, model, owning);
  }

  lemma {:induction false} MarksReplaySound(events: seq<MarketEvent>, config: BacktestConfig, env: Environment, model: FillModel, owning: bool)
    requires LongOnlyRun(env, model) && UsableEvents(events, model, owning) && config.symbols != []
    requires 0.0 <= config.initialCash && (owning ==> 0.0 < config.initialCash)
    requires TimeOrdered(events) && forall i :: 0 <= i < |events| ==> config.start <= events[i].timestamp
    requires Replay(events, config, env).Success?
    ensures forall i :: 0 <= i < |MarksReplay(events, config, env)| ==> Sound(MarksReplay(events, config, env)[i], model, owning)
  {
    hide Feed, LongOnlyRun, UsablePrice, Sound, MarkOf;
    if events != [] {
      var front, e := events[..|events| - 1], events[|events| - 1];
      assert e in events && forall k :: k in front ==> k in events;
      MarksReplaySound(front, config, env, model, owning);
      ReplaySound(front, config, env, model, owning);
      var loop := Replay(front, config, env).value;
      if loop.stamp.Some? { MarkOfSound(loop.state, loop.stamp.value, loop.pending, config, model, owning); }
    }
  }

  lemma MarksSound(events: seq<MarketEvent>, config: BacktestConfig, env: Environment, model: FillModel, owning: bool)
    requires LongOnlyRun(env, model) && UsableEvents(events, model, owning) && config.symbols != []
    requires 0.0 <= config.initialCash && (owning ==> 0.0 < config.initialCash)
    requires TimeOrdered(events) && forall i :: 0 <= i < |events| ==> config.start <= events[i].timestamp
    requires Replay(events, config, env).Success?
    ensures forall i :: 0 <= i < |MarksPlayed(events, config, env)| ==> Sound(MarksPlayed(events, config, env)[i], model, owning)
  {
    hide LongOnlyRun, UsableEvents, Sound, MarkOf;
    MarksReplaySound(events, config, env, model, owning);
    ReplaySound(events, config, env, model, owning);
    var loop := Replay(events, config, env).value;
    if loop.stamp.Some? { MarkOfSound(loop.state, loop.stamp.value, loop.pending, config, model, owning); }
  }

  /** Every priced holding an executed cycle leaves is within its cap of the portfolio, plus
      the smallest trade. */
  ghost predicate WithinCaps(m: State, record: CycleRecord, env: Environment)
    requires record.report.Some?
  {
    forall s :: s in m.prices ==>
      WithinCap(Held(Rebuilt(record.report.value).positions, s), m.prices[s], TotalValue(m.account, m.prices), env.policy)
  }

  lemma DecidedKeepsCaps(m: State, record: CycleRecord, config: BacktestConfig, env: Environment, model: FillModel)
    requires LongOnlyRun(env, model) && Sound(m, model, false) && 0.0 <= env.policy.minTradeNotional
    requires DecidedAt(m, record, config, env) && record.report.Some?
    ensures WithinCaps(m, record, env)
  {
    hide Evaluate, Trade, Observations, CurrentWeights, TotalValue, WithinCap, Rebuilt, LongOnlyRun, Solvent, AllPriced, UsablePrices;
    var due, stamp := m.(lastRebalanceIndex := m.barsSeen), m.timestamps[|m.timestamps| - 1];
    var symbols := Usable(config.symbols, due, config.estimationWindow);
    hide Usable;
    var tilts := env.tilts(symbols, stamp);
    var plan := env.plan(symbols, Observations(due, symbols, config.estimationWindow), tilts).value;
    var ctx := ContextOf(due, stamp, CurrentWeights(due.account, due.prices), plan, symbols, config, env);
    forall s | s in m.prices
      ensures WithinCap(Held(Rebuilt(record.report.value).positions, s), m.prices[s], TotalValue(m.account, m.prices), env.policy)
    {
      PositionCapSurvives(due, stamp, plan, ctx, tilts, env, model, s);
    }
  }

  /** The caps survive execution over a whole run: after every cycle that traded, every
      priced holding was worth at most its cap of the portfolio at that mark, plus the
      smallest trade worth making. */
  lemma RunKeepsCaps(events: seq<MarketEvent>, config: BacktestConfig, env: Environment, model: FillModel)
    requires LongOnlyRun(env, model) && UsableEvents(events, model, false) && config.symbols != []
    requires 0.0 <= config.initialCash && 0.0 <= env.policy.minTradeNotional
    requires TimeOrdered(events) && forall i :: 0 <= i < |events| ==> config.start <= events[i].timestamp
    requires Played(events, config, env).Success?
    ensures var st, marks := Played(events, config, env).value, MarksPlayed(events, config, env);
      && |marks| == |st.equity|
      && forall record :: record in st.cycles && record.report.Some? ==>
           exists i :: 0 <= i < |marks| && DecidedAt(marks[i], record, config, env) && WithinCaps(marks[i], record, env)
  {
    hide DecidedAt, WithinCaps, Sound, LongOnlyRun, UsableEvents, Finish;
    PlayedRecorded(events, config, env);
    MarksSound(events, config, env, model, false);
    var st, marks := Played(events, config, env).value, MarksPlayed(events, config, env);
    hide Played, MarksPlayed;
    forall record | record in st.cycles && record.report.Some?
      ensures exists i :: 0 <= i < |marks| && DecidedAt(marks[i], record, config, env) && WithinCaps(marks[i], record, env)
    {
      assert DecidedAtOne(marks, record, config, env);
      var i :| 0 <= i < |marks| && DecidedAt(marks[i], record, config, env);
      DecidedKeepsCaps(marks[i], record, config, env, model);
    }
  }

  // ----- turnover over a whole run

  /** The mandate implies the turnover between the book at the mark and the weights decided,
      within its own limit; and execution exceeds that by at most half the drift recorded. */
  ghost predicate WithinTurnover(m: State, record: CycleRecord, env: Environment)
    requires record.mandate.Some?
  {
    var mandate := record.mandate.value;
    && mandate.Constructible() && mandate.maxTurnover == env.policy.maxTurnover
    && ImpliedTurnover(mandate) == Turnover(CurrentWeights(m.account, m.prices), record.assessment.weights)
    && ImpliedTurnover(mandate) <= mandate.maxTurnover
    && record.reconciliation.Some?
    && record.reconciliation.value.realizedTurnover <= mandate.maxTurnover + record.reconciliation.value.totalAbsoluteDrift / 2.0
  }

  lemma TradeMandated(st: State, stamp: int, plan: Plan, ctx: RiskContext, tilts: map<string, real>, env: Environment)
    requires 0.0 <= env.policy.maxTurnover && ctx.currentWeights == CurrentWeights(st.account, st.prices)
    ensures var r := Trade(st, stamp, plan, Evaluate(plan.weights, ctx, env.policy, env.num), ctx.currentWeights, tilts, env);
      r.Success? ==> r.value.mandate.Some? && WithinTurnover(st, r.value, env)
  {
    hide Evaluate, TotalValue, MandateTargets, MandateId, Turnover, ImpliedTurnover, Reconcile, RealizedWeights, CurrentWeights;
    var a := Evaluate(plan.weights, ctx, env.policy, env.num);
    EveryMandateMeetsItsTurnover(plan.weights, ctx, env.policy, env.num, stamp, TotalValue(st.account, st.prices), env.digest);
    var r := Trade(st, stamp, plan, a, ctx.currentWeights, tilts, env);
    if r.Success? {
      RealizedTurnoverBounded(a.weights, ctx.currentWeights, r.value.mandate.value, RealizedWeights(r.value.report.value.finalPositions),
                             SnapshotSymbols(r.value.report.value.finalPositions));
    }
  }

  lemma DecidedKeepsTurnover(m: State, record: CycleRecord, config: BacktestConfig, env: Environment)
    requires 0.0 <= env.policy.maxTurnover && DecidedAt(m, record, config, env) && record.mandate.Some?
    ensures WithinTurnover(m, record, env)
  {
    hide Evaluate, Trade, Observations, CurrentWeights, TotalValue, Turnover, ImpliedTurnover;
    var due, stamp := m.(lastRebalanceIndex := m.barsSeen), m.timestamps[|m.timestamps| - 1];
    var symbols := Usable(config.symbols, due, config.estimationWindow);
    hide Usable;
    var tilts := env.tilts(symbols, stamp);
    var plan := env.plan(symbols, Observations(due, symbols, config.estimationWindow), tilts).value;
    var ctx := ContextOf(due, stamp, CurrentWeights(due.account, due.prices), plan, symbols, config, env);
    TradeMandated(due, stamp, plan, ctx, tilts, env);
  }

  /** The turnover cap survives a whole run: every mandate recorded meets it, and what was
      executed exceeds it by at most half the drift recorded with it. */
  lemma RunKeepsTurnover(events: seq<MarketEvent>, config: BacktestConfig, env: Environment)
    requires 0.0 <= env.policy.maxTurnover && Played(events, config, env).Success?
    ensures var st, marks := Played(events, config, env).value, MarksPlayed(events, config, env);
      && |marks| == |st.equity|
      && forall record :: record in st.cycles && record.mandate.Some? ==>
           exists i :: 0 <= i < |marks| && DecidedAt(marks[i], record, config, env) && WithinTurnover(marks[i], record, env)
  {
    hide DecidedAt, WithinTurnover;
    PlayedRecorded(events, config, env);
    var st, marks := Played(events, config, env).value, MarksPlayed(events, config, env);
    hide Played, MarksPlayed;
    forall record | record in st.cycles && record.mandate.Some?
      ensures exists i :: 0 <= i < |marks| && DecidedAt(marks[i], record, config, env) && WithinTurnover(marks[i], record, env)
    {
      assert DecidedAtOne(marks, record, config, env);
      var i :| 0 <= i < |marks| && DecidedAt(marks[i], record, config, env);
      DecidedKeepsTurnover(marks[i], record, config, env);
    }
  }

  // ----- from unsorted events to the result

  lemma SoundIsWorth(m: State, model: FillModel, owning: bool)
    requires Sound(m, model, owning)
    ensures 0.0 <= TotalValue(m.account, m.prices) && (owning ==> 0.0 < TotalValue(m.account, m.prices))
  {
    hide UsablePrices, TotalValue;
    if owning { SolventIsPositive(m.account, m.prices); } else { SolventIsNonNegative(m.account, m.prices); }
  }

  /** A whole backtest over any source of usable prices: the clock never raises; every point
      of the equity curve is non-negative; and with money to begin with and something left
      of every sale, the only way to fail is to have too few marks, and the curve is
      positive throughout, as the drawdown metrics ask. */
  lemma BacktestStaysSolvent(xs: seq<MarketEvent>, config: BacktestConfig, env: Environment, model: FillModel, owning: bool)
    requires LongOnlyRun(env, model) && UsableEvents(xs, model, owning) && config.symbols != [] && config.start < config.end
    requires 0.0 <= config.initialCash && (owning ==> 0.0 < config.initialCash)
    ensures var r := Backtested(config, env, FromEvents(xs));
      && r != Failure(ClockMovedBackwards)
      && (owning ==> r.Success? || r == Failure(TooFewMarks))
      && (r.Success? ==>
            && (forall i :: 0 <= i < |r.value.equityCurve| ==> 0.0 <= r.value.equityCurve[i])
            && (owning ==> Positive(r.value.equityCurve)))
  {
    hide LongOnlyRun, Sound, FromEvents, Played, MarksPlayed, UsablePrice;
    StreamOrdered(xs, config.start, config.end);
    var events := Stream(FromEvents(xs), config.start, config.end).value;
    forall i | 0 <= i < |events| ensures config.start <= events[i].timestamp { assert events[i] in events; }
    assert UsableEvents(events, model, owning);
    hide UsableEvents, Stream;
    ClockNeverRaises(events, config, env);
    RunStaysSolvent(events, config, env, model, owning);
    if Played(events, config, env).Success? {
      PlayedReplays(events, config, env);
      PlayedRecorded(events, config, env);
      MarksSound(events, config, env, model, owning);
      var st, marks := Played(events, config, env).value, MarksPlayed(events, config, env);
      forall i | 0 <= i < |st.equity| ensures 0.0 <= st.equity[i] && (owning ==> 0.0 < st.equity[i]) {
        assert MarkAt(marks[i], i, st);
        SoundIsWorth(marks[i], model, owning);
      }
    }
  }

  lemma PlayedReplays(events: seq<MarketEvent>, config: BacktestConfig, env: Environment)
    requires Played(events, config, env).Success?
    ensures Replay(events, config, env).Success?
  {
  }
}
