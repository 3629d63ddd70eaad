/** A backtest on usable prices never owes and is never short. */
module BacktestSolvency {
  import opened Arithmetic
  import opened Sums
  import opened Policies
  import opened RiskEngine
  import opened RiskLimits
  import opened RepairedTargets
  import opened RiskTheorems
  import opened Mandates
  import opened Execution
  import opened ExecutionTheorems
  import opened ExecutionLedger
  import opened MarketData
  import opened Backtest
  import opened BacktestCausality
  import opened BacktestAccounting

  // ----- weights that are never short

  lemma BlendNonNegative(x: Weights, y: Weights, t: real)
    requires NonNegativeBook(x) && NonNegativeBook(y) && 0.0 <= t <= 1.0
    ensures NonNegativeBook(NonZero(Blend(x, y, t)))
  {
    var z := Blend(x, y, t);
    forall s | s in z ensures 0.0 <= z[s] {
      var high := if Get(x, s) < Get(y, s) then Get(y, s) else Get(x, s);
      BetweenBounds(Get(x, s), Get(y, s), t, 0.0, high);
    }
  }

  /** A long-only engine never returns a short weight for a book with none. */
  lemma ReturnedNonNegative(proposed: Weights, ctx: RiskContext, policy: InvestmentPolicy, num: Numerics)
    requires policy.Constructible() && policy.NonNegativeCeilings() && policy.longOnly
    requires NonNegativeBook(ctx.currentWeights)
    ensures NonNegativeBook(Evaluate(proposed, ctx, policy, num).weights)
  {
    hide Evaluate, NameRepairs, SectorScaled, UniformlyScaled, Turnover, Start, NamesOk, SectorsOk, Blend, NonZero;
    ReturnedWeights(proposed, ctx, policy, num);
    SectorCappedOk(proposed, ctx, policy, num);
    UniformNamesOk(SectorCapped(proposed, ctx, policy, num), ctx, policy, num);
    var target := Target(proposed, ctx, policy, num).0;
    assert target == UniformlyScaled(SectorCapped(proposed, ctx, policy, num), ctx, policy, num);
    if TradesTooMuch(target, ctx, policy) {
      BlendFactorBounds(target, ctx, policy);
      BlendNonNegative(ctx.currentWeights, target, BlendFactor(target, ctx, policy));
    }
  }

  lemma CurrentNonNegative(account: Account, prices: Prices)
    requires NonNegativePositions(account.positions) && AllPriced(account.positions, prices)
    ensures NonNegativeBook(CurrentWeights(account, prices))
  {
    hide TotalValue;
    var value := TotalValue(account, prices);
    forall s | s in CurrentWeights(account, prices) ensures 0.0 <= CurrentWeights(account, prices)[s] {
      NonNegative(account.positions[s] as real, prices[s]);
      Quotient(account.positions[s] as real * prices[s], value);
    }
  }

  // ----- usable inputs

  ghost predicate UsablePrice(model: FillModel, price: real, owning: bool) {
    0.0 < price && SalePays(model, price, owning)
  }

  /** Every close is positive and a share sold at it covers its commission; with `owning`,
      it leaves something over. */
  ghost predicate UsableEvents(events: seq<MarketEvent>, model: FillModel, owning: bool) {
    forall e :: e in events && e.payload.Bar? ==> UsablePrice(model, e.payload.close, owning)
  }

  ghost predicate UsablePrices(prices: Prices, model: FillModel, owning: bool) {
    forall s :: s in prices ==> UsablePrice(model, prices[s], owning)
  }

  ghost predicate LongOnlyRun(env: Environment, model: FillModel) {
    Simulated(env, model) && env.policy.Constructible() && env.policy.NonNegativeCeilings() && env.policy.longOnly
  }

  /** Solvent, with every share held priced, at prices that can be traded at. */
  ghost predicate Sound(st: State, model: FillModel, owning: bool) {
    && Solvent(st.account.cash, st.account.positions, owning)
    && AllPriced(st.account.positions, st.prices)
    && UsablePrices(st.prices, model, owning)
  }

  lemma {:induction false} ApplyAllSound(st: State, events: seq<MarketEvent>, model: FillModel, owning: bool)
    requires Sound(st, model, owning) && UsableEvents(events, model, owning)
    ensures Sound(ApplyAll(st, events), model, owning)
  {
    hide Solvent, UsablePrice;
    if events != [] {
      var front, e := events[..|events| - 1], events[|events| - 1];
      assert e in events && forall k :: k in front ==> k in events;
      ApplyAllSound(st, front, model, owning);
      var before := ApplyAll(st, front);
      if e.payload.Bar? {
        assert UsablePrice(model, e.payload.close, owning);
        assert 0.0 < e.payload.close by { PriceIsPositive(model, e.payload.close, owning); }
      }
    }
  }

  lemma PriceIsPositive(model: FillModel, price: real, owning: bool)
    requires UsablePrice(model, price, owning)
    ensures 0.0 < price
  {
  }

  /** From a sound state the account a mandate leaves is sound; with `owning`, every mandate
      can be built and executed. */
  lemma TradeSound(st: State, stamp: int, plan: Plan, assessment: RiskAssessment, current: Weights, tilts: map<string, real>, env: Environment, model: FillModel, owning: bool)
    requires LongOnlyRun(env, model) && Sound(st, model, owning)
    requires NonNegativeBook(assessment.weights)
    ensures var r := Trade(st, stamp, plan, assessment, current, tilts, env);
      && (r.Success? <==> 0.0 < TotalValue(st.account, st.prices))
      && (owning ==> r.Success?)
      && (r.Success? ==>
            && r.value.report.Some? && r.value.mandate.Some?
            && DistinctSymbols(r.value.mandate.value.targets)
            && Solvent(Rebuilt(r.value.report.value).cash, Rebuilt(r.value.report.value).positions, owning)
            && AllPriced(Rebuilt(r.value.report.value).positions, st.prices))
  {
    hide TotalValue, MandateTargets, Simulate, Rebuilt, SizeOrders, MandateId;
    if owning { SolventIsPositive(st.account, st.prices); }
    hide Solvent;
    if 0.0 < TotalValue(st.account, st.prices) {
      var mandate := BuildMandate(stamp, TotalValue(st.account, st.prices), assessment.weights, current,
                                  assessment.minTradeNotional, env.policy.maxTurnover, env.digest).value;
      MandateTargetsExact(assessment.weights, current);
      forall t | t in mandate.targets ensures 0.0 <= t.targetWeight {
        assert t == TargetFor(t.symbol, assessment.weights, current);
      }
      var market := MarketSnapshot(stamp, st.prices, st.prices);
      assert env.execute(mandate, st.account, market) == Simulate(model, false, mandate, st.account, market);
      SizedValue(mandate, st.account, market);
      assert Simulate(model, false, mandate, st.account, market).Success? by { SimulateSucceeds(model, mandate, st.account, market); }
      assert SalesPay(model, st.prices, owning) by { UsableSales(st.prices, model, owning); }
      ExecutionStaysSolvent(model, mandate, st.account, market, owning);
    }
  }

  lemma UsableSales(prices: Prices, model: FillModel, owning: bool)
    requires UsablePrices(prices, model, owning)
    ensures SalesPay(model, prices, owning)
  {
    hide SalePays;
    forall s | s in prices ensures SalePays(model, prices[s], owning) { assert UsablePrice(model, prices[s], owning); }
  }

  lemma SimulateSucceeds(model: FillModel, mandate: RebalanceMandate, account: Account, market: MarketSnapshot)
    requires SizeOrders(mandate, account, market).Success?
    ensures Simulate(model, false, mandate, account, market).Success?
  {
    hide SizeOrders;
  }

  lemma RebalanceSound(st: State, stamp: int, config: BacktestConfig, env: Environment, model: FillModel, owning: bool)
    requires LongOnlyRun(env, model) && Sound(st, model, owning)
    ensures var r := Rebalance(st, stamp, config, env);
      && (owning ==> r.Success?)
      && (r.Success? && r.value.report.Some? ==>
            && Solvent(Rebuilt(r.value.report.value).cash, Rebuilt(r.value.report.value).positions, owning)
            && AllPriced(Rebuilt(r.value.report.value).positions, st.prices))
  {
    hide Evaluate, Trade, Observations, Usable, CurrentWeights, Rebuilt, UsablePrices, Simulated, TotalValue;
    var symbols := Usable(config.symbols, st, config.estimationWindow);
    var plan := env.plan(symbols, Observations(st, symbols, config.estimationWindow), env.tilts(symbols, stamp));
    if |symbols| >= 2 && plan.Some? {
      var current := CurrentWeights(st.account, st.prices);
      CurrentNonNegative(st.account, st.prices);
      var ctx := ContextOf(st, stamp, current, plan.value, symbols, config, env);
      ReturnedNonNegative(plan.value.weights, ctx, env.policy, env.num);
      TradeSound(st, stamp, plan.value, Evaluate(plan.value.weights, ctx, env.policy, env.num), current, env.tilts(symbols, stamp), env, model, owning);
    }
  }

  lemma FlushSound(st: State, stamp: int, pending: seq<MarketEvent>, config: BacktestConfig, env: Environment, model: FillModel, owning: bool)
    requires LongOnlyRun(env, model) && Sound(st, model, owning) && UsableEvents(pending, model, owning) && config.symbols != []
    ensures var r := Flush(st, stamp, pending, config, env);
      (r.Failure? ==> stamp < st.now || !owning) && (r.Success? ==> Sound(r.value, model, owning))
  {
    hide ApplyAll, AllPrinted, Rebalance, LongOnlyRun, UsableEvents, Ready, Rebuilt, TotalValue, Solvent, AllPriced;
    var told := ApplyAll(st.(now := stamp), pending);
    ApplyAllSound(st.(now := stamp), pending, model, owning);
    assert forall s :: s in told.prices ==> told.prices[s] != 0.0;
    var marked := Mark(told, stamp, config);
    assert marked.Success?;
    RebalanceSound(marked.value.(lastRebalanceIndex := marked.value.barsSeen), stamp, config, env, model, owning);
  }

  lemma {:induction false} ReplaySound(events: seq<MarketEvent>, config: BacktestConfig, env: Environment, model: FillModel, owning: bool)
    requires LongOnlyRun(env, model) && UsableEvents(events, model, owning) && config.symbols != []
    requires 0.0 <= config.initialCash && (owning ==> 0.0 < config.initialCash)
    requires TimeOrdered(events) && forall i :: 0 <= i < |events| ==> config.start <= events[i].timestamp
    ensures owning ==> Replay(events, config, env).Success?
    ensures Replay(events, config, env).Success? ==>
              Sound(Replay(events, config, env).value.state, model, owning)
              && UsableEvents(Replay(events, config, env).value.pending, model, owning)
  {
    hide Flush, LongOnlyRun, UsablePrice;
    if events != [] {
      var front, e := events[..|events| - 1], events[|events| - 1];
      assert e in events && forall k :: k in front ==> k in events;
      ReplaySound(front, config, env, model, owning);
      if Replay(front, config, env).Success? {
        ReplayClock(front, config, env);
        var loop := Replay(front, config, env).value;
        if front != [] { ReplayStamp(front, config, env); }
        if loop.stamp.Some? { FlushSound(loop.state, loop.stamp.value, loop.pending, config, env, model, owning); }
      }
    }
  }

  /** Account invariant over a whole run: on a time-ordered stream of prices at which a sale
      covers its commission, with a long-only policy, cash and every share count stay
      non-negative and every symbol held has a price. With `owning`, that is, with money to
      start with and something left over from every sale, no step of the run raises and
      the account is always worth something. */
  lemma RunStaysSolvent(events: seq<MarketEvent>, config: BacktestConfig, env: Environment, model: FillModel, owning: bool)
    requires LongOnlyRun(env, model) && UsableEvents(events, model, owning) && config.symbols != []
    requires 0.0 <= config.initialCash && (owning ==> 0.0 < config.initialCash)
    requires TimeOrdered(events) && forall i :: 0 <= i < |events| ==> config.start <= events[i].timestamp
    ensures owning ==> Played(events, config, env).Success?
    ensures Played(events, config, env).Success? ==>
              var st := Played(events, config, env).value;
              && Sound(st, model, owning)
              && (owning ==> 0.0 < TotalValue(st.account, st.prices))
  {
    hide Flush, LongOnlyRun, UsableEvents, Solvent, AllPriced, UsablePrices, TotalValue;
    ReplaySound(events, config, env, model, owning);
    if Replay(events, config, env).Success? {
      ReplayClock(events, config, env);
      var loop := Replay(events, config, env).value;
      if events != [] {
        ReplayStamp(events, config, env);
        FlushSound(loop.state, loop.stamp.value, loop.pending, config, env, model, owning);
      }
    }
    if owning { SolventIsPositive(Played(events, config, env).value.account, Played(events, config, env).value.prices); }
  }
}
