/** How much the repairs scale: no more than they must. */
module RiskScaling {
  import opened Arithmetic
  import opened Options
  import opened Ordering
  import opened Sums
  import opened Policies
  import opened RiskEngine
  import opened RiskLimits
  import opened RepairedTargets
  import opened RiskFixedPoints

  /** Within the exposure, cash, beta and volatility limits, and past the breaker no more
      volatile than the book held, if that has any volatility. */
  ghost predicate WithinCeilings(w: Weights, ctx: RiskContext, policy: InvestmentPolicy, num: Numerics) {
    var volatility, held := PortfolioVolatility(w, ctx.covariance, num), PortfolioVolatility(ctx.currentWeights, ctx.covariance, num);
    && Total(w) <= policy.maxGrossExposure && Total(w) <= 1.0 - policy.minCashBuffer
    && PortfolioBeta(w, ctx.betas) <= policy.maxPortfolioBeta
    && volatility <= policy.maxAnnualizedVolatility
    && (ctx.drawdown > policy.maxDrawdown && 0.0 < held ==> volatility <= held)
  }

  /** A scaled measure is within its limit up to exactly the ratio. */
  lemma RatioExactly(limit: real, measured: real, j: real)
    requires 0.0 <= limit && 0.0 <= j <= 1.0
    ensures j * measured <= limit <==> j <= Ratio(limit, measured)
  {
    if j <= Ratio(limit, measured) {
      RatioWorks(limit, measured, j);
    } else {
      PositiveProduct(j - limit / measured, measured, (j - limit / measured) * measured);
      assert limit / measured * measured == limit;
    }
  }

  lemma VolatilityOfScale(w: Weights, c: Covariance, num: Numerics, j: real)
    requires num.ExactRoot() && 0.0 <= j
    ensures PortfolioVolatility(Scale(j, w), c, num) == j * PortfolioVolatility(w, c, num)
  {
    hide Variance, Scale;
    var v, r, u := Variance(w, c), PortfolioVolatility(w, c, num), PortfolioVolatility(Scale(j, w), c, num);
    VarianceScale(j, w, c);
    VolatilitySquared(w, c, num);
    VolatilitySquared(Scale(j, w), c, num);
    NonNegative(j, j);
    if v <= 0.0 {
      NonNegative(j * j, -v);
    } else {
      NonNegative(j * j, v);
      NonNegative(j, r);
      Regroup(j, r, v);
      SquareOrder(u, j * r);
      SquareOrder(j * r, u);
    }
  }

  lemma CeilingIs(x: real, ctx: RiskContext, policy: InvestmentPolicy, num: Numerics)
    ensures var held := PortfolioVolatility(ctx.currentWeights, ctx.covariance, num);
      x <= VolatilityCeiling(ctx, policy, num)
      <==> x <= policy.maxAnnualizedVolatility && (ctx.drawdown > policy.maxDrawdown && 0.0 < held ==> x <= held)
  {
    assert PortfolioVolatility(map[], ctx.covariance, num) == 0.0;
    hide Variance;
  }

  /** Scaling a book with exposure by `j` brings it within the ceilings exactly up to the
      uniform factor. */
  lemma ScaleWithinExactly(w: Weights, ctx: RiskContext, policy: InvestmentPolicy, num: Numerics, j: real)
    requires policy.Constructible() && policy.NonNegativeCeilings() && num.ExactRoot()
    requires 0.0 < Total(w) && 0.0 <= j <= 1.0
    ensures WithinCeilings(Scale(j, w), ctx, policy, num) <==> j <= UniformFactor(w, ctx, policy, num)
  {
    hide Total, Dot, Variance, VolatilityCeiling, Ratio, PortfolioVolatility, Scale;
    TotalScale(j, w);
    DotScale(j, w, ctx.betas);
    VolatilityOfScale(w, ctx.covariance, num, j);
    CeilingBounds(ctx, policy, num);
    CeilingIs(PortfolioVolatility(Scale(j, w), ctx.covariance, num), ctx, policy, num);
    RatioExactly(policy.EffectiveExposureCeiling(), Total(w), j);
    RatioExactly(policy.maxPortfolioBeta, PortfolioBeta(w, ctx.betas), j);
    RatioExactly(VolatilityCeiling(ctx, policy, num), PortfolioVolatility(w, ctx.covariance, num), j);
  }

  /** No more than it must: what is left of a book with exposure is the largest fraction of it
      that is within the ceilings, and a book without any is left alone. */
  lemma ScaledNoMoreThanNeeded(w: Weights, ctx: RiskContext, policy: InvestmentPolicy, num: Numerics) returns (k: real)
    requires policy.Constructible() && policy.NonNegativeCeilings() && num.ExactRoot()
    ensures 0.0 <= k <= 1.0 && UniformlyScaled(w, ctx, policy, num) == Scale(k, w)
    ensures 0.0 < Total(w) ==> forall j :: 0.0 <= j <= 1.0 ==> (WithinCeilings(Scale(j, w), ctx, policy, num) <==> j <= k)
    ensures Total(w) <= 0.0 ==> k == 1.0
  {
    hide Total, WithinCeilings, Scale, Dot, PortfolioVolatility, VolatilityCeiling, Ratio;
    k := UniformFactor(w, ctx, policy, num);
    UniformFactorBounds(w, ctx, policy, num);
    UniformlyScaledIsScale(w, ctx, policy, num);
    hide UniformFactor, UniformlyScaled;
    if 0.0 < Total(w) {
      forall j | 0.0 <= j <= 1.0 ensures WithinCeilings(Scale(j, w), ctx, policy, num) <==> j <= k {
        ScaleWithinExactly(w, ctx, policy, num, j);
      }
    }
  }

  // ----- sectors

  /** A sector ends at the smaller of its exposure and the cap, and its names keep their
      proportions; a sector within the cap is left alone. */
  lemma SectorScaledExactly(w: Weights, ctx: RiskContext, policy: InvestmentPolicy, s: string)
    requires policy.Constructible()
    ensures var z, sector := SectorScaled(w, ctx, policy), SectorOf(s, ctx.sectors);
      var before := SectorExposure(w, ctx.sectors, sector);
      && z.Keys == w.Keys
      && SectorExposure(z, ctx.sectors, sector) == Min(before, policy.maxSectorWeight)
      && (before <= policy.maxSectorWeight ==> Get(z, s) == Get(w, s))
      && (before > policy.maxSectorWeight ==> Times(Get(z, s), before) == Times(Get(w, s), policy.maxSectorWeight))
  {
    hide SectorExposure, Times, Ratio, Get, Min, SectorScaled;
    SectorExposureAfter(w, ctx, policy, SectorOf(s, ctx.sectors));
    SectorScaledAt(w, ctx, policy, s);
    OverTheCap(SectorExposure(w, ctx.sectors, SectorOf(s, ctx.sectors)), policy.maxSectorWeight, Get(w, s));
  }

  lemma SectorExposureAfter(w: Weights, ctx: RiskContext, policy: InvestmentPolicy, sector: string)
    requires policy.Constructible()
    ensures SectorExposure(SectorScaled(w, ctx, policy), ctx.sectors, sector) == Min(SectorExposure(w, ctx.sectors, sector), policy.maxSectorWeight)
  {
    SectorsDoNotInterfere(w, ctx, policy, sector);
    hide SectorExposure, SectorScaled, Ratio, Min;
    AtTheCap(SectorExposure(w, ctx.sectors, sector), policy.maxSectorWeight);
  }

  lemma AtTheCap(e: real, cap: real)
    requires 0.0 < cap
    ensures e * Ratio(cap, e) == Min(e, cap)
  {
  }

  lemma SectorScaledAt(w: Weights, ctx: RiskContext, policy: InvestmentPolicy, s: string)
    ensures SectorScaled(w, ctx, policy).Keys == w.Keys
    ensures Get(SectorScaled(w, ctx, policy), s)
         == Times(Get(w, s), Ratio(policy.maxSectorWeight, SectorExposure(w, ctx.sectors, SectorOf(s, ctx.sectors))))
  {
    hide SectorExposure, Ratio;
  }

  lemma OverTheCap(e: real, cap: real, x: real)
    requires 0.0 < cap
    ensures e <= cap ==> Times(x, Ratio(cap, e)) == x
    ensures e > cap ==> Times(Times(x, Ratio(cap, e)), e) == Times(x, cap)
  {
    if e > cap {
      assert cap / e * e == cap;
      assert x * (cap / e) * e == x * (cap / e * e);
    }
  }

  /** The whole target: of the book the name and sector repairs leave, the largest fraction
      within the ceilings, or all of it when it has no exposure. */
  lemma TargetIsLargest(proposed: Weights, ctx: RiskContext, policy: InvestmentPolicy, num: Numerics) returns (k: real)
    requires policy.Constructible() && policy.NonNegativeCeilings() && num.ExactRoot()
    ensures var b := SectorCapped(proposed, ctx, policy, num);
      && 0.0 <= k <= 1.0 && Target(proposed, ctx, policy, num).0 == Scale(k, b)
      && (0.0 < Total(b) ==> forall j :: 0.0 <= j <= 1.0 ==> (WithinCeilings(Scale(j, b), ctx, policy, num) <==> j <= k))
      && (Total(b) <= 0.0 ==> k == 1.0)
  {
    hide UniformlyScaled, WithinCeilings, Total, Scale, SectorScaled, NameRepairs, Start;
    k := ScaledNoMoreThanNeeded(SectorCapped(proposed, ctx, policy, num), ctx, policy, num);
  }

  // ----- the log

  /** Some sector of the book is above its cap. */
  ghost predicate SectorBroken(w: Weights, ctx: RiskContext, policy: InvestmentPolicy) {
    exists s :: s in w && SectorExposure(w, ctx.sectors, SectorOf(s, ctx.sectors)) > policy.maxSectorWeight
  }

  /** The ceiling named by `code` is broken by a book with exposure; of the two limits on
      exposure the tighter is named. */
  ghost predicate CeilingBroken(code: ReasonCode, w: Weights, ctx: RiskContext, policy: InvestmentPolicy, num: Numerics) {
    && 0.0 < Total(w)
    && match code
       case NoLeverage => Total(w) > policy.maxGrossExposure && policy.maxGrossExposure <= 1.0 - policy.minCashBuffer
       case MinCashBuffer => Total(w) > 1.0 - policy.minCashBuffer && 1.0 - policy.minCashBuffer < policy.maxGrossExposure
       case MaxPortfolioBeta => PortfolioBeta(w, ctx.betas) > policy.maxPortfolioBeta
       case MaxVolatility =>
         var volatility, held := PortfolioVolatility(w, ctx.covariance, num), PortfolioVolatility(ctx.currentWeights, ctx.covariance, num);
         volatility > policy.maxAnnualizedVolatility || (ctx.drawdown > policy.maxDrawdown && 0.0 < held < volatility)
       case _ => false
  }

  lemma {:induction false} SectorLogExactly(sectors: seq<string>, exposures: map<string, real>, policy: InvestmentPolicy, r: Repair)
    ensures r in SectorLog(sectors, exposures, policy)
            <==> r == Repair(MaxSectorWeight, None) && exists e :: e in sectors && SectorOver(Get(exposures, e), policy)
  {
    hide SectorOver;
    if sectors != [] {
      var front, e := sectors[..|sectors| - 1], sectors[|sectors| - 1];
      SectorLogExactly(front, exposures, policy, r);
      assert forall k :: k in sectors <==> k in front || k == e by { assert sectors == front + [e]; }
    }
  }

  lemma SectorsLogged(w: Weights, ctx: RiskContext, policy: InvestmentPolicy, r: Repair)
    requires policy.Constructible()
    ensures var exposures := SectorExposures(w, ctx.sectors);
      r in SectorLog(SortedKeys(exposures.Keys), exposures, policy) <==> r == Repair(MaxSectorWeight, None) && SectorBroken(w, ctx, policy)
  {
    hide SectorExposure, SectorLog;
    var exposures := SectorExposures(w, ctx.sectors);
    SectorLogExactly(SortedKeys(exposures.Keys), exposures, policy, r);
    hide SortedKeys;
    if SectorBroken(w, ctx, policy) {
      var s :| s in w && SectorExposure(w, ctx.sectors, SectorOf(s, ctx.sectors)) > policy.maxSectorWeight;
      assert SectorOf(s, ctx.sectors) in exposures;
    }
  }

  lemma UniformLogged(w: Weights, ctx: RiskContext, policy: InvestmentPolicy, num: Numerics, r: Repair)
    requires policy.Constructible() && policy.NonNegativeCeilings() && num.ExactRoot()
    ensures r in UniformLog(w, ctx, policy, num) <==> r.symbol == None && CeilingBroken(r.code, w, ctx, policy, num)
  {
    hide Total, PortfolioBeta, PortfolioVolatility, VolatilityCeiling, Ratio;
    if 0.0 < Total(w) {
      ReasonsExactly(w, ctx, policy, num);
      hide UniformFactor;
      CeilingIs(PortfolioVolatility(w, ctx.covariance, num), ctx, policy, num);
      CeilingBounds(ctx, policy, num);
    }
  }

  /** Everything the repairs log and nothing else: past the breaker its code, for each name
      what was decided of it (NameRepairsExactly), and one code for a broken sector cap and
      for each ceiling broken. */
  lemma RepairsExactly(proposed: Weights, ctx: RiskContext, policy: InvestmentPolicy, num: Numerics, r: Repair)
    requires policy.Constructible() && policy.NonNegativeCeilings() && num.ExactRoot()
    ensures var start := Start(proposed, ctx, policy, num);
      var (named, nameLog) := NameRepairs(start, ctx, policy);
      r in Target(proposed, ctx, policy, num).1
      <==> || (r == Repair(DrawdownCircuitBreaker, None) && ctx.drawdown > policy.maxDrawdown)
           || r in nameLog
           || (r == Repair(MaxSectorWeight, None) && SectorBroken(named, ctx, policy))
           || (r.symbol == None && CeilingBroken(r.code, SectorCapped(proposed, ctx, policy, num), ctx, policy, num))
  {
    hide Start, NameRepairs, SectorBroken, CeilingBroken, SectorScaled, SectorLog, SectorExposures, SortedKeys, UniformLog, UniformlyScaled;
    SectorsLogged(NameRepairs(Start(proposed, ctx, policy, num), ctx, policy).0, ctx, policy, r);
    UniformLogged(SectorCapped(proposed, ctx, policy, num), ctx, policy, num, r);
  }
}
