/** The circuit breaker: past it the book should not get riskier. */
module RiskBreaker {
  import opened Arithmetic
  import opened Sums
  import opened Policies
  import opened RiskEngine
  import opened RiskLimits
  import opened RepairedTargets
  import opened RiskTheorems
  import opened RiskFixedPoints
  import opened RiskRefusals

  // ----- the circuit breaker

  lemma TurnoverCappedVolatility(w: Weights, ctx: RiskContext, policy: InvestmentPolicy, num: Numerics, ceiling: real)
    requires policy.NonNegativeCeilings() && 0.0 <= ceiling
    requires num.ExactRoot() && PositiveSemidefinite(ctx.covariance)
    requires PortfolioVolatility(ctx.currentWeights, ctx.covariance, num) <= ceiling
    requires PortfolioVolatility(w, ctx.covariance, num) <= ceiling
    ensures PortfolioVolatility(TurnoverCapped(w, ctx, policy), ctx.covariance, num) <= ceiling
  {
    hide Turnover, Variance, PositiveSemidefinite;
    if TradesTooMuch(w, ctx, policy) {
      var t := BlendFactor(w, ctx, policy);
      var z := Blend(ctx.currentWeights, w, t);
      BlendFactorBounds(w, ctx, policy);
      VolatilityBlend(ctx.currentWeights, w, t, ctx.covariance, num, ceiling);
      NonZeroEntries(z);
      SameVariance(z, NonZero(z), ctx.covariance);
    }
  }

  lemma BreakerTarget(proposed: Weights, ctx: RiskContext, policy: InvestmentPolicy, num: Numerics)
    requires policy.Constructible() && policy.NonNegativeCeilings() && num.ExactRoot()
    requires BreakerTripped(ctx, policy)
    ensures PortfolioVolatility(Target(proposed, ctx, policy, num).0, ctx.covariance, num)
            <= VolatilityCeiling(ctx, policy, num)
  {
    hide Total, Dot, Variance, NamesOk, SectorsOk, Start, NameRepairs, SectorScaled, PortfolioVolatility, VolatilityCeiling;
    var b := SectorCapped(proposed, ctx, policy, num);
    SectorCappedOk(proposed, ctx, policy, num);
    CeilingBounds(ctx, policy, num);
    if 0.0 < Total(b) { UniformScaleWorks(b, ctx, policy, num); } else { EmptyExposure(b, ctx, num); }
  }

  lemma BreakerCeiling(ctx: RiskContext, policy: InvestmentPolicy, num: Numerics)
    requires BreakerTripped(ctx, policy)
    requires 0.0 < PortfolioVolatility(ctx.currentWeights, ctx.covariance, num)
    ensures VolatilityCeiling(ctx, policy, num) <= PortfolioVolatility(ctx.currentWeights, ctx.covariance, num)
  {
    assert PortfolioVolatility(map[], ctx.covariance, num) == 0.0;
    hide Variance;
  }

  /** Past the breaker the book never gets riskier, on any path through the engine, as
      long as the book held has some volatility to compare with. The final gate does not
      check this. */
  lemma BreakerNeverAddsRisk(proposed: Weights, ctx: RiskContext, policy: InvestmentPolicy, num: Numerics)
    requires policy.Constructible() && policy.NonNegativeCeilings()
    requires num.ExactRoot() && PositiveSemidefinite(ctx.covariance)
    requires BreakerTripped(ctx, policy)
    requires 0.0 < PortfolioVolatility(ctx.currentWeights, ctx.covariance, num)
    ensures PortfolioVolatility(Evaluate(proposed, ctx, policy, num).weights, ctx.covariance, num)
            <= PortfolioVolatility(ctx.currentWeights, ctx.covariance, num)
  {
    hide Evaluate, Target, TurnoverCapped, PositiveSemidefinite, PortfolioVolatility, VolatilityCeiling;
    var held := PortfolioVolatility(ctx.currentWeights, ctx.covariance, num);
    BreakerCeiling(ctx, policy, num);
    ReturnedWeights(proposed, ctx, policy, num);
    BreakerTarget(proposed, ctx, policy, num);
    TurnoverCappedVolatility(Target(proposed, ctx, policy, num).0, ctx, policy, num, held);
  }

  // ----- a riskless book past the breaker

  function Mixed(x: Weights, y: Weights, s: real): Weights {
    map k | k in x.Keys + y.Keys :: s * Get(x, k) + Get(y, k)
  }

  lemma MixedCombines(x: Weights, y: Weights, s: real)
    ensures Combines(x.Keys + y.Keys, s, Entry(x), 1.0, Entry(y), Entry(Mixed(x, y, s)))
    ensures Mixed(x, y, s).Keys == x.Keys + y.Keys
  {
    forall k | k in x.Keys + y.Keys ensures Entry(Mixed(x, y, s))(k) == s * Entry(x)(k) + 1.0 * Entry(y)(k) {}
  }

  lemma VarianceMixed(x: Weights, y: Weights, s: real, c: Covariance)
    ensures Variance(Mixed(x, y, s), c) == ExpandedOver(x.Keys + y.Keys, s, Entry(x), 1.0, Entry(y), c)
  {
    hide Mixed, Bilinear, Combines, ExpandedOver;
    MixedCombines(x, y, s);
    VarianceExpand(x.Keys + y.Keys, s, Entry(x), 1.0, Entry(y), Entry(Mixed(x, y, s)), c);
  }

  lemma LineBelowZero(m: real, q: real) returns (s: real)
    requires m != 0.0
    ensures s * m + q == -1.0
  {
    s := (-1.0 - q) / m;
    assert s * m == -1.0 - q;
  }

  lemma Collect(s: real, xx: real, xy: real, yx: real, yy: real, v: real)
    requires xx == 0.0
    requires v == Expanded(s, 1.0, xx, xy, yx, yy)
    ensures v == s * (xy + yx) + yy
  {
    assert s * (s * xx + 1.0 * xy) == s * xy;
    assert s * (xy + yx) == s * xy + s * yx;
  }

  lemma MixedNonNegative(x: Weights, y: Weights, s: real, c: Covariance)
    requires PositiveSemidefinite(c) && Variance(x, c) == 0.0
    ensures var keys, f, g := x.Keys + y.Keys, Entry(x), Entry(y);
      0.0 <= s * (Bilinear(keys, f, g, c) + Bilinear(keys, g, f, c)) + Bilinear(keys, g, g, c)
  {
    hide Bilinear, Mixed;
    var keys, f, g := x.Keys + y.Keys, Entry(x), Entry(y);
    VarianceOver(x, c, keys);
    VarianceMixed(x, y, s, c);
    assert 0.0 <= Variance(Mixed(x, y, s), c);
    Collect(s, Bilinear(keys, f, f, c), Bilinear(keys, f, g, c), Bilinear(keys, g, f, c), Bilinear(keys, g, g, c), Variance(Mixed(x, y, s), c));
  }

  /** A book without variance is uncorrelated with every other. */
  lemma RisklessIsUncorrelated(x: Weights, y: Weights, c: Covariance)
    requires PositiveSemidefinite(c) && Variance(x, c) == 0.0
    ensures Bilinear(x.Keys + y.Keys, Entry(x), Entry(y), c) + Bilinear(x.Keys + y.Keys, Entry(y), Entry(x), c) == 0.0
  {
    hide Bilinear, Variance, PositiveSemidefinite;
    var keys, f, g := x.Keys + y.Keys, Entry(x), Entry(y);
    var mixed := Bilinear(keys, f, g, c) + Bilinear(keys, g, f, c);
    if mixed != 0.0 {
      var s := LineBelowZero(mixed, Bilinear(keys, g, g, c));
      MixedNonNegative(x, y, s, c);
    }
  }

  /** From a riskless book, a move of a fraction t adds exactly t squared of the target's
      variance. */
  lemma RisklessBlend(x: Weights, y: Weights, t: real, c: Covariance)
    requires PositiveSemidefinite(c) && Variance(x, c) == 0.0
    ensures Variance(Blend(x, y, t), c) == t * t * Variance(y, c)
  {
    hide Bilinear, Blend, PositiveSemidefinite, Variance, Expanded;
    var keys, f, g := x.Keys + y.Keys, Entry(x), Entry(y);
    VarianceOver(x, c, keys);
    VarianceOver(y, c, keys);
    VarianceOfBlend(x, y, t, c);
    RisklessIsUncorrelated(x, y, c);
    Crossless(t, Bilinear(keys, f, f, c), Bilinear(keys, f, g, c), Bilinear(keys, g, f, c), Bilinear(keys, g, g, c));
  }

  lemma Crossless(t: real, xx: real, xy: real, yx: real, yy: real)
    requires xx == 0.0 && xy + yx == 0.0
    ensures Expanded(1.0 - t, t, xx, xy, yx, yy) == t * t * yy
  {
    var u := (1.0 - t) * t;
    assert (1.0 - t) * ((1.0 - t) * xx + t * xy) == (1.0 - t) * (t * xy);
    assert (1.0 - t) * (t * xy) == u * xy && t * ((1.0 - t) * yx) == u * yx;
    assert u * xy + u * yx == u * (xy + yx);
    assert t * (t * yy) == t * t * yy;
  }

  /** The breaker's promise, exactly, before the engine runs: past the breaker what is
      returned is no riskier than the book held if and only if a guard refuses the move
      (the corridor, a broken rule the move cannot repair, or the safety-first ratio), or
      the book held had some volatility, or the turnover cap lets nothing move, or the
      target is itself riskless. The target is the repaired minimum-variance book and
      depends on the context alone. */
  lemma BreakerExactly(proposed: Weights, ctx: RiskContext, policy: InvestmentPolicy, num: Numerics)
    requires policy.Constructible() && policy.NonNegativeCeilings()
    requires num.ExactRoot() && PositiveSemidefinite(ctx.covariance)
    requires BreakerTripped(ctx, policy)
    ensures var held, target := PortfolioVolatility(ctx.currentWeights, ctx.covariance, num), Target(map[], ctx, policy, num).0;
      PortfolioVolatility(Evaluate(proposed, ctx, policy, num).weights, ctx.covariance, num) <= held
      <==> (InsideCorridor(target, ctx, policy)
            || (TradesTooMuch(target, ctx, policy) && !MoveRepairs(target, ctx, policy))
            || !SafetyFirstOk(TurnoverCapped(target, ctx, policy), ctx, policy, num)
            || 0.0 < held
            || (TradesTooMuch(target, ctx, policy) && policy.maxTurnover == 0.0)
            || PortfolioVolatility(target, ctx.covariance, num) == 0.0)
  {
    TrippedTarget(proposed, ctx, policy, num);
    hide Evaluate, Target, Turnover, PortfolioVolatility, PositiveSemidefinite, TurnoverCapped, TradesTooMuch, MoveRepairs, InsideCorridor, SafetyFirstOk;
    ReturnedWeights(proposed, ctx, policy, num);
    TrippedRefusal(proposed, ctx, policy, num);
    VolatilitySquared(ctx.currentWeights, ctx.covariance, num);
    if 0.0 < PortfolioVolatility(ctx.currentWeights, ctx.covariance, num) {
      BreakerNeverAddsRisk(proposed, ctx, policy, num);
    } else {
      RisklessMove(Target(proposed, ctx, policy, num).0, ctx, policy, num);
    }
  }

  lemma TrippedTarget(proposed: Weights, ctx: RiskContext, policy: InvestmentPolicy, num: Numerics)
    requires BreakerTripped(ctx, policy)
    ensures Target(proposed, ctx, policy, num) == Target(map[], ctx, policy, num)
  {
    hide NameRepairs, SectorScaled, UniformlyScaled, UniformLog;
  }

  /** Past the breaker the engine refuses exactly when one of these guards does. */
  lemma TrippedRefusal(proposed: Weights, ctx: RiskContext, policy: InvestmentPolicy, num: Numerics)
    requires policy.Constructible() && policy.NonNegativeCeilings() && num.ExactRoot()
    requires BreakerTripped(ctx, policy)
    ensures var target := Target(proposed, ctx, policy, num).0;
      Evaluate(proposed, ctx, policy, num).decision == Rejected
      <==> InsideCorridor(target, ctx, policy)
           || (TradesTooMuch(target, ctx, policy) && !MoveRepairs(target, ctx, policy))
           || !SafetyFirstOk(TurnoverCapped(target, ctx, policy), ctx, policy, num)
  {
    hide Target, Complies, TradesTooMuch, Verify, Metrics, MaxDrift, Total, MoveRepairs, TurnoverCapped, MoveComplies, SafetyFirstOk, Settled;
    var target := Target(proposed, ctx, policy, num).0;
    TargetIsSettled(proposed, ctx, policy, num);
    LongOnlyComplies(proposed, ctx, policy, num);
    MoveExactly(target, ctx, policy, num);
    VerifyExact(TurnoverCapped(target, ctx, policy), ctx, policy, num);
  }

  lemma RisklessMove(w: Weights, ctx: RiskContext, policy: InvestmentPolicy, num: Numerics)
    requires policy.NonNegativeCeilings() && num.ExactRoot() && PositiveSemidefinite(ctx.covariance)
    requires PortfolioVolatility(ctx.currentWeights, ctx.covariance, num) == 0.0
    ensures PortfolioVolatility(TurnoverCapped(w, ctx, policy), ctx.covariance, num) <= 0.0
            <==> (TradesTooMuch(w, ctx, policy) && policy.maxTurnover == 0.0) || PortfolioVolatility(w, ctx.covariance, num) == 0.0
  {
    hide Turnover, Variance, Blend, NonZero;
    var held := ctx.currentWeights;
    assert 0.0 <= Variance(held, ctx.covariance) && 0.0 <= Variance(w, ctx.covariance);
    ZeroVolatility(held, ctx.covariance, num);
    ZeroVolatility(w, ctx.covariance, num);
    if TradesTooMuch(w, ctx, policy) {
      var t := BlendFactor(w, ctx, policy);
      var z := Blend(held, w, t);
      BlendFactorBounds(w, ctx, policy);
      RisklessBlend(held, w, t, ctx.covariance);
      NonZeroEntries(z);
      SameVariance(z, NonZero(z), ctx.covariance);
      assert 0.0 <= Variance(NonZero(z), ctx.covariance);
      ZeroVolatility(NonZero(z), ctx.covariance, num);
      assert t == 0.0 <==> policy.maxTurnover == 0.0;
      SquareTimes(t, Variance(w, ctx.covariance));
    }
  }

  lemma SquareTimes(t: real, v: real)
    requires 0.0 <= t && 0.0 <= v
    ensures t * t * v == 0.0 <==> t == 0.0 || v == 0.0
  {
    if 0.0 < t && 0.0 < v {
      PositiveProduct(t, t, t * t);
      PositiveProduct(t * t, v, t * t * v);
    }
  }

  lemma ZeroVolatility(w: Weights, c: Covariance, num: Numerics)
    requires num.ExactRoot() && 0.0 <= Variance(w, c)
    ensures 0.0 <= PortfolioVolatility(w, c, num) && (PortfolioVolatility(w, c, num) == 0.0 <==> Variance(w, c) == 0.0)
  {
    hide Variance;
  }
}
