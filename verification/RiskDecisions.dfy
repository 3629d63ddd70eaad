/** What the risk engine decides, what it measures, and how far it moves, without reference
    to the functions that do so. */
module RiskDecisions {
  import opened Arithmetic
  import opened Options
  import opened Ordering
  import opened Sums
  import opened Policies
  import opened RiskEngine
  import opened RiskLimits
  import opened RiskTheorems

  // ----- sectors

  /** Two names share a sector if they are listed under one, or neither is listed; names
      without a sector count together. */
  lemma SameSectorExactly(s: string, u: string, sectors: map<string, string>)
    ensures SectorOf(s, sectors) == SectorOf(u, sectors)
            <==> || (s in sectors && u in sectors && sectors[s] == sectors[u])
                 || (s !in sectors && u !in sectors)
                 || (s in sectors && u !in sectors && sectors[s] == "UNKNOWN")
                 || (s !in sectors && u in sectors && sectors[u] == "UNKNOWN")
  {
  }

  // ----- the corridor

  lemma {:induction false} LargestIs(keys: set<string>, f: Vector)
    requires keys != {}
    ensures (forall k :: k in keys ==> f(k) <= Largest(keys, f)) && exists k :: k in keys && f(k) == Largest(keys, f)
  {
    var k := Least(keys);
    if keys != {k} {
      LargestIs(keys - {k}, f);
      assert forall j :: j in keys ==> j == k || j in keys - {k};
    }
  }

  /** The farthest any name is from its target. */
  ghost predicate FarthestDrift(d: real, held: Weights, target: Weights) {
    && (forall s :: s in held || s in target ==> Abs(Get(target, s) - Get(held, s)) <= d)
    && exists s :: (s in held || s in target) && Abs(Get(target, s) - Get(held, s)) == d
  }

  lemma DriftIsFarthest(held: Weights, target: Weights)
    requires held != map[] || target != map[]
    ensures FarthestDrift(MaxDrift(held, target), held, target)
  {
    var names := held.Keys + target.Keys;
    var s := if held != map[] then Least(held.Keys) else Least(target.Keys);
    assert s in names;
    LargestIs(names, Change(held, target));
    hide Largest, Abs, Get;
    forall k ensures Change(held, target)(k) == Abs(Get(target, k) - Get(held, k)) { ChangeAt(held, target, k); }
    hide Change;
    assert forall k :: k in names <==> k in held || k in target;
  }

  /** The corridor, exactly: it applies when there is a book and no name of it or of the
      target is farther than the policy allows from where it should be. */
  lemma CorridorExactly(target: Weights, ctx: RiskContext, policy: InvestmentPolicy)
    ensures InsideCorridor(target, ctx, policy)
            <==> && ctx.currentWeights != map[]
                 && forall s :: s in ctx.currentWeights || s in target ==>
                      Abs(Get(target, s) - Get(ctx.currentWeights, s)) <= policy.corridorAbsolute
  {
    hide MaxDrift, Abs;
    if ctx.currentWeights != map[] {
      DriftIsFarthest(ctx.currentWeights, target);
      var s :| (s in ctx.currentWeights || s in target)
               && Abs(Get(target, s) - Get(ctx.currentWeights, s)) == MaxDrift(ctx.currentWeights, target);
    }
  }

  // ----- safety first

  /** Roy's condition, exactly: a book with volatility passes if and only if it is expected to
      earn the threshold and the least ratio times its volatility on top, on what is invested
      and on the cash; a riskless one always passes. */
  lemma SafetyFirstExactly(w: Weights, ctx: RiskContext, policy: InvestmentPolicy, num: Numerics)
    ensures var volatility := PortfolioVolatility(w, ctx.covariance, num);
      SafetyFirstOk(w, ctx, policy, num)
      <==> || volatility <= 0.0
           || policy.safetyFirst.thresholdReturn + Times(policy.safetyFirst.minimumRatio, volatility) <= Earns(w, ctx)
  {
    RatioIs(w, ctx, policy, num);
    var volatility := PortfolioVolatility(w, ctx.covariance, num);
    hide Earns, PortfolioVolatility, SafetyFirstRatio, Times;
    if 0.0 < volatility {
      RatioReaches(SafetyFirstRatio(w, ctx, policy, num).value, Earns(w, ctx) - policy.safetyFirst.thresholdReturn,
                   volatility, policy.safetyFirst.minimumRatio);
    }
  }

  /** What a book is expected to earn, on what is invested and on the cash. */
  function Earns(w: Weights, ctx: RiskContext): real {
    Dot(w, ctx.expectedReturns) + Times(1.0 - Total(w), ctx.riskFreeRate)
  }

  lemma RatioIs(w: Weights, ctx: RiskContext, policy: InvestmentPolicy, num: Numerics)
    ensures var volatility, ratio := PortfolioVolatility(w, ctx.covariance, num), SafetyFirstRatio(w, ctx, policy, num);
      && (volatility <= 0.0 ==> ratio == None)
      && (0.0 < volatility ==> ratio.Some? && Times(ratio.value, volatility) == Earns(w, ctx) - policy.safetyFirst.thresholdReturn)
  {
    hide Dot, Total, PortfolioVolatility;
    var volatility := PortfolioVolatility(w, ctx.covariance, num);
    if 0.0 < volatility { Divides(ExpectedReturn(w, ctx) - policy.safetyFirst.thresholdReturn, volatility); }
  }

  lemma Divides(x: real, d: real)
    requires 0.0 < d
    ensures Times(x / d, d) == x
  {
  }

  lemma RatioReaches(r: real, excess: real, volatility: real, least: real)
    requires 0.0 < volatility && Times(r, volatility) == excess
    ensures least <= r <==> Times(least, volatility) <= excess
  {
    assert (r - least) * volatility == r * volatility - least * volatility;
    if least <= r { NonNegative(r - least, volatility); } else { PositiveProduct(least - r, volatility, (least - r) * volatility); }
  }

  // ----- the move

  /** How far the engine moves: all the way if the turnover cap allows, and otherwise the same
      fraction of the way in every name, so far that the cap is used up. */
  lemma MoveIsExact(w: Weights, ctx: RiskContext, policy: InvestmentPolicy) returns (t: real)
    requires 0.0 <= policy.maxTurnover
    ensures var held, final := ctx.currentWeights, TurnoverCapped(w, ctx, policy);
      && 0.0 <= t <= 1.0 && (forall s :: Get(final, s) == Get(held, s) + Times(t, Get(w, s) - Get(held, s)))
      && (Turnover(held, w) <= policy.maxTurnover ==> t == 1.0 && final == w)
      && (Turnover(held, w) > policy.maxTurnover ==>
            t < 1.0 && Turnover(held, final) == policy.maxTurnover && forall s :: s in final ==> final[s] != 0.0)
  {
    var held := ctx.currentWeights;
    hide Turnover;
    TurnoverNonNegative(held, w);
    if Turnover(held, w) <= policy.maxTurnover {
      t := 1.0;
      hide TurnoverCapped;
      forall s ensures Get(w, s) == Get(held, s) + Times(1.0, Get(w, s) - Get(held, s)) {}
    } else {
      t := policy.maxTurnover / Turnover(held, w);
      assert t * Turnover(held, w) == policy.maxTurnover;
      Fraction(t, Turnover(held, w), policy.maxTurnover);
      var z := Blend(held, w, t);
      assert TurnoverCapped(w, ctx, policy) == NonZero(z);
      TurnoverBlend(held, w, t);
      NonZeroEntries(z);
      TurnoverSame(held, z, NonZero(z));
      hide NonZero, Blend, Times, TurnoverCapped;
      forall s ensures Get(NonZero(z), s) == Get(held, s) + Times(t, Get(w, s) - Get(held, s)) {
        assert Get(z, s) == Get(NonZero(z), s);
        MovedBy(held, w, t, s);
      }
      NoZeros(z);
    }
  }

  lemma NoZeros(w: Weights)
    ensures forall s :: s in NonZero(w) ==> NonZero(w)[s] != 0.0
  {
  }

  lemma Fraction(t: real, whole: real, part: real)
    requires t * whole == part && 0.0 <= part < whole
    ensures 0.0 <= t < 1.0
  {
    if t < 0.0 { PositiveProduct(-t, whole, -t * whole); }
    if 1.0 <= t { NonNegative(t - 1.0, whole); }
  }

  lemma MovedBy(x: Weights, y: Weights, t: real, s: string)
    ensures Get(Blend(x, y, t), s) == Get(x, s) + Times(t, Get(y, s) - Get(x, s))
  {
    if s in x || s in y { BlendAt(x, y, t, s); }
  }

  // ----- the decision

  /** What a book was measured at. */
  ghost predicate MeasuredAs(m: RiskMetrics, w: Weights, ctx: RiskContext, policy: InvestmentPolicy, num: Numerics) {
    var volatility := PortfolioVolatility(w, ctx.covariance, num);
    && m.grossExposure == Total(w) && m.cashWeight == 1.0 - Total(w) && m.portfolioBeta == Dot(w, ctx.betas)
    && m.annualizedVolatility == volatility && m.turnover == Turnover(ctx.currentWeights, w)
    && (if ctx.currentWeights == map[] && w == map[] then m.maxDrift == 0.0 else FarthestDrift(m.maxDrift, ctx.currentWeights, w))
    && (volatility <= 0.0 ==> m.safetyFirstRatio == None)
    && (0.0 < volatility ==>
          && m.safetyFirstRatio.Some?
          && Times(m.safetyFirstRatio.value, volatility) == Earns(w, ctx) - policy.safetyFirst.thresholdReturn)
  }

  lemma MetricsAre(w: Weights, ctx: RiskContext, policy: InvestmentPolicy, num: Numerics)
    ensures MeasuredAs(Metrics(w, ctx, policy, num), w, ctx, policy, num)
  {
    RatioIs(w, ctx, policy, num);
    hide Dot, Total, PortfolioVolatility, Turnover, FarthestDrift, SafetyFirstRatio, Earns, Times;
    if ctx.currentWeights != map[] || w != map[] { DriftIsFarthest(ctx.currentWeights, w); }
    assert ctx.currentWeights == map[] && w == map[] ==> MaxDrift(ctx.currentWeights, w) == 0.0;
    hide MaxDrift;
  }

  /** The decision, exactly. Inside the corridor it is a refusal for that alone, measured on
      the target. Otherwise the move toward the target is measured; it is refused, for the
      breaches the gate reports, if it does not comply or misses Roy's ratio; it is approved
      as it stands if nothing was repaired and the cap did not bind, and else accepted as
      modified, with the repairs and, last, the turnover cap's. A refusal keeps the book. */
  lemma EvaluateExactly(proposed: Weights, ctx: RiskContext, policy: InvestmentPolicy, num: Numerics)
    requires 0.0 <= policy.maxTurnover
    ensures var a, (target, log) := Evaluate(proposed, ctx, policy, num), Target(proposed, ctx, policy, num);
      var final := TurnoverCapped(target, ctx, policy);
      var all := log + if Turnover(ctx.currentWeights, target) > policy.maxTurnover then [Repair(MaxTurnover, None)] else [];
      && a.cashWeight == 1.0 - Total(a.weights) && a.minTradeNotional == policy.minTradeNotional
      && if InsideCorridor(target, ctx, policy)
         then
           && a.decision == Rejected && a.weights == ctx.currentWeights && a.repairs == log
           && |a.violations| == 1 && a.violations[0].code == RebalanceCorridor && a.violations[0].symbol == None
           && a.violations[0].limit == Some(policy.corridorAbsolute) && a.violations[0].observed == Some(a.metrics.maxDrift)
           && MeasuredAs(a.metrics, target, ctx, policy, num)
         else
           && a.repairs == all && MeasuredAs(a.metrics, final, ctx, policy, num)
           && a.violations == Verify(final, ctx, policy, num)
           && (a.decision == Rejected <==> !Complies(final, ctx, policy, num, TOLERANCE) || !SafetyFirstOk(final, ctx, policy, num))
           && (a.decision == Rejected ==> a.weights == ctx.currentWeights)
           && (a.decision != Rejected ==> a.weights == final && (a.decision == Approved <==> all == []))
  {
    hide Target, TurnoverCapped, Turnover, Verify, Metrics, MaxDrift, Total, Complies, SafetyFirstOk, InsideCorridor, MeasuredAs;
    var target := Target(proposed, ctx, policy, num).0;
    var final := TurnoverCapped(target, ctx, policy);
    TurnoverNonNegative(ctx.currentWeights, target);
    VerifyExact(final, ctx, policy, num);
    MetricsAre(target, ctx, policy, num);
    MetricsAre(final, ctx, policy, num);
    CorridorMeasured(target, ctx, policy, num);
  }

  lemma CorridorMeasured(target: Weights, ctx: RiskContext, policy: InvestmentPolicy, num: Numerics)
    ensures Metrics(target, ctx, policy, num).maxDrift == MaxDrift(ctx.currentWeights, target)
  {
    hide MaxDrift, Total, Dot, PortfolioVolatility, Turnover, SafetyFirstRatio;
  }
}
