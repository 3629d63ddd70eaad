/** Two things a run hands between its layers: the drawdown it feeds to the circuit
    breaker, and the position cap as it arrives in shares. */
module BacktestLimits {
  import opened Arithmetic
  import opened Options
  import opened Sums
  import opened Policies
  import opened RiskEngine
  import opened RiskLimits
  import opened RepairedTargets
  import opened RiskTheorems
  import opened Mandates
  import opened Execution
  import opened ExecutionTheorems
  import opened ExecutionLedger
  import opened MarketData
  import opened Backtest
  import opened BacktestCausality
  import opened BacktestAccounting
  import opened BacktestSolvency
  import opened Drawdowns

  // ----- the drawdown

  /** The running peak and drawdown are those of the equity curve so far. */
  ghost predicate Tracked(st: State, config: BacktestConfig) {
    && (st.equity == [] ==> st.peakEquity == config.initialCash && st.account == Account(config.initialCash, map[]))
    && (st.equity != [] ==>
          st.equity[0] == config.initialCash && st.peakEquity == Peak(st.equity) && st.drawdown == DrawdownNow(st.equity))
  }

  lemma PeakStep(curve: seq<real>, v: real)
    ensures Peak(curve + [v]) == if curve != [] && Peak(curve) >= v then Peak(curve) else v
    ensures DrawdownNow(curve + [v]) == (var peak := Peak(curve + [v]); if peak > 0.0 then (peak - v) / peak else 0.0)
  {
    assert (curve + [v])[..|curve|] == curve;
  }

  lemma MarkTracked(st: State, stamp: int, config: BacktestConfig)
    requires Tracked(st, config) && Mark(st, stamp, config).Success?
    ensures Tracked(Mark(st, stamp, config).value, config)
  {
    CashOnly(config.initialCash, st.prices);
    PeakStep(st.equity, TotalValue(st.account, st.prices));
    hide TotalValue, Peak, DrawdownNow;
  }

  lemma FlushTracked(st: State, stamp: int, pending: seq<MarketEvent>, config: BacktestConfig, env: Environment)
    requires Tracked(st, config) && Flush(st, stamp, pending, config, env).Success?
    ensures Tracked(Flush(st, stamp, pending, config, env).value, config)
    ensures var next := Flush(st, stamp, pending, config, env).value;
      |next.equity| <= |st.equity| + 1 && st.equity <= next.equity
  {
    hide ApplyAll, AllPrinted, Rebalance, Ready, TotalValue, Peak, DrawdownNow, Rebuilt;
    var told := ApplyAll(st.(now := stamp), pending);
    ApplyAllKeeps(st.(now := stamp), pending);
    var marked := Mark(told, stamp, config);
    if AllPrinted(told, config) && marked.Success? { MarkTracked(told, stamp, config); }
  }

  // ----- the position cap

  lemma CapArithmetic(weight: real, cap: real, value: real)
    requires weight <= cap && 0.0 <= value
    ensures weight * value <= cap * value
  {
    NonNegative(cap - weight, value);
    assert (cap - weight) * value == cap * value - weight * value;
  }

  /** Worth at most the cap's share of the portfolio, plus one minimum trade. */
  ghost predicate WithinCap(shares: int, price: real, value: real, policy: InvestmentPolicy) {
    shares as real * price <= (policy.maxPositionWeight + TOLERANCE) * value + policy.minTradeNotional
  }

  lemma AcceptedWeightsCapped(w: Weights, ctx: RiskContext, policy: InvestmentPolicy, num: Numerics, s: string)
    requires Verify(w, ctx, policy, num) == [] && policy.Constructible()
    ensures Get(w, s) <= policy.maxPositionWeight + TOLERANCE
  {
    hide Verify, SectorsOk, BookOk, SafetyFirstOk;
    VerifyExact(w, ctx, policy, num);
    if s in w { assert NameOk(s, w[s], ctx, policy, TOLERANCE); }
  }

  lemma NotTraded(account: Account, prices: Prices, mandate: RebalanceMandate, s: string, weights: Weights, current: Weights)
    requires mandate.targets == MandateTargets(weights, current) && current == CurrentWeights(account, prices)
    requires AllPriced(account.positions, prices) && 0.0 < TotalValue(account, prices)
    requires TargetFor(s, weights, current) !in mandate.targets
    ensures Held(account.positions, s) == 0
  {
    hide TotalValue, MandateTargets;
    MandateTargetsExact(weights, current);
    if s in account.positions {
      var value := TotalValue(account, prices);
      assert Get(current, s) == 0.0;
      var worth := account.positions[s] as real * prices[s];
      assert worth / value * value == worth;
      ProductZero(account.positions[s], prices[s], worth);
    }
  }

  lemma ProductZero(q: int, p: real, product: real)
    requires 0.0 < p && product == q as real * p
    ensures product == 0.0 ==> q == 0
  {
    if q > 0 {
      PositiveProduct(q as real, p, product);
    } else if q < 0 {
      PositiveProduct(-q as real, p, -product);
    }
  }

  /** The position cap survives execution: after any cycle that traded, whatever the broker
      turned away, every priced holding is worth at most its cap of the portfolio, plus the
      smallest trade worth making. */
  lemma PositionCapSurvives(st: State, stamp: int, plan: Plan, ctx: RiskContext, tilts: map<string, real>, env: Environment, model: FillModel, s: string)
    requires LongOnlyRun(env, model) && Sound(st, model, false) && 0.0 <= env.policy.minTradeNotional
    requires ctx.currentWeights == CurrentWeights(st.account, st.prices)
    requires s in st.prices
    ensures var a := Evaluate(plan.weights, ctx, env.policy, env.num);
      var r := Trade(st, stamp, plan, a, ctx.currentWeights, tilts, env);
      && (r.Success? <==> 0.0 < TotalValue(st.account, st.prices))
      && (r.Success? ==> r.value.report.Some?)
      && (r.Success? && a.decision != Rejected ==>
            WithinCap(Held(Rebuilt(r.value.report.value).positions, s), st.prices[s], TotalValue(st.account, st.prices), env.policy))
  {
    hide *;
    var a := Evaluate(plan.weights, ctx, env.policy, env.num);
    SoundPrices(st, model, s);
    LongOnlyParts(env, model);
    CurrentNonNegative(st.account, st.prices);
    ReturnedNonNegative(plan.weights, ctx, env.policy, env.num);
    ReturnedWeights(plan.weights, ctx, env.policy, env.num);
    NotionalPassedThrough(plan.weights, ctx, env.policy, env.num);
    TradeSound(st, stamp, plan, a, ctx.currentWeights, tilts, env, model, false);
    if 0.0 < TotalValue(st.account, st.prices) && a.decision != Rejected {
      TradeParts(st, stamp, plan, a, ctx.currentWeights, tilts, env, model);
      var mandate := Trade(st, stamp, plan, a, ctx.currentWeights, tilts, env).value.mandate.value;
      CapAfterExecution(model, mandate, st.account, MarketSnapshot(stamp, st.prices, st.prices), s, a.weights, ctx, env.policy, env.num);
    }
  }

  lemma LongOnlyParts(env: Environment, model: FillModel)
    requires LongOnlyRun(env, model)
    ensures env.policy.Constructible() && env.policy.NonNegativeCeilings() && env.policy.longOnly
  {
  }

  lemma TradeParts(st: State, stamp: int, plan: Plan, a: RiskAssessment, current: Weights, tilts: map<string, real>, env: Environment, model: FillModel)
    requires LongOnlyRun(env, model)
    requires var r := Trade(st, stamp, plan, a, current, tilts, env); r.Success? && r.value.mandate.Some? && r.value.report.Some?
    ensures var record, market := Trade(st, stamp, plan, a, current, tilts, env).value, MarketSnapshot(stamp, st.prices, st.prices);
      && record.mandate.value.targets == MandateTargets(a.weights, current)
      && record.mandate.value.minTradeNotional == a.minTradeNotional
      && Simulate(model, false, record.mandate.value, st.account, market) == Success(record.report.value)
  {
    hide TotalValue, MandateTargets, Simulate, MandateId;
    var mandate, market := Trade(st, stamp, plan, a, current, tilts, env).value.mandate.value, MarketSnapshot(stamp, st.prices, st.prices);
    assert env.execute(mandate, st.account, market) == Simulate(model, false, mandate, st.account, market);
  }

  lemma SoundPrices(st: State, model: FillModel, s: string)
    requires Sound(st, model, false) && s in st.prices
    ensures AllPriced(st.account.positions, st.prices) && 0.0 < st.prices[s] && NonNegativePositions(st.account.positions)
  {
  }

  lemma NotionalPassedThrough(proposed: Weights, ctx: RiskContext, policy: InvestmentPolicy, num: Numerics)
    ensures Evaluate(proposed, ctx, policy, num).minTradeNotional == policy.minTradeNotional
  {
    hide Target, TurnoverCapped, Verify, Metrics, MaxDrift, Total;
  }

  lemma CapAfterExecution(model: FillModel, mandate: RebalanceMandate, account: Account, market: MarketSnapshot, s: string,
                          weights: Weights, ctx: RiskContext, policy: InvestmentPolicy, num: Numerics)
    requires mandate.targets == MandateTargets(weights, ctx.currentWeights) && mandate.minTradeNotional == policy.minTradeNotional
    requires policy.Constructible() && 0.0 <= policy.minTradeNotional
    requires ctx.currentWeights == CurrentWeights(account, market.prices) && AllPriced(account.positions, market.prices)
    requires NonNegativeBook(weights) && Verify(weights, ctx, policy, num) == []
    requires Simulate(model, false, mandate, account, market).Success?
    requires s in market.prices && 0.0 < market.prices[s]
    ensures WithinCap(Held(Rebuilt(Simulate(model, false, mandate, account, market).value).positions, s), market.prices[s],
                      TotalValue(account, market.prices), policy)
  {
    hide CurrentWeights, Rebuilt, Verify, TotalValue, MandateTargets, SizeOrders, WorkAll;
    var t := TargetFor(s, weights, ctx.currentWeights);
    var value := TotalValue(account, market.prices);
    MandateTargetsExact(weights, ctx.currentWeights);
    SizedValue(mandate, account, market);
    ReportedBook(model, false, mandate, account, market, s);
    AcceptedWeightsCapped(weights, ctx, policy, num, s);
    hide Simulate;
    if t in mandate.targets {
      ExecutionKeepsCaps(model, false, mandate, account, market, t);
      CapArithmetic(t.targetWeight, policy.maxPositionWeight + TOLERANCE, value);
    } else {
      NotTraded(account, market.prices, mandate, s, weights, ctx.currentWeights);
      UnlistedUnmoved(model, mandate, account, market, s);
      NonNegative(policy.maxPositionWeight + TOLERANCE, value);
    }
  }

  lemma UnlistedUnmoved(model: FillModel, mandate: RebalanceMandate, account: Account, market: MarketSnapshot, s: string)
    requires DistinctSymbols(mandate.targets) && SizeOrders(mandate, account, market).Success?
    requires forall t :: t in mandate.targets ==> t.symbol != s
    ensures Held(WorkedBook(model, false, mandate, account, market).positions, s) == Held(account.positions, s)
  {
    hide SizeTarget, TotalValue, SizeOrders, WorkAll;
    SizedOrders(mandate, account, market);
    var (orders, rejections) := SizeOrders(mandate, account, market).value;
    forall i | 0 <= i < |orders| ensures orders[i].symbol != s {
      assert orders[i] in orders;
      var t :| t in mandate.targets && SizeTarget(t, account, market.prices, TotalValue(account, market.prices), mandate.minTradeNotional) == Sent(orders[i]);
      SizedSymbol(t, account, market.prices, TotalValue(account, market.prices), mandate.minTradeNotional);
    }
    PositionsAfter(Book(account.positions, account.cash, [], rejections), orders, market.prices, model, false, s);
  }
}
