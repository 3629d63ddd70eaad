/** What the repairs achieve: every limit, exactly, with no slack. */
module RepairedTargets {
  import opened Arithmetic
  import opened Options
  import opened Ordering
  import opened Sums
  import opened Policies
  import opened RiskEngine
  import opened RiskLimits

  ghost predicate NonNegativeBook(w: Weights) {
    forall s :: s in w ==> 0.0 <= w[s]
  }

  // ----- the minimum-variance book

  lemma {:induction false} PositiveWeightsPositive(symbols: seq<string>, raw: seq<real>)
    ensures forall s :: s in PositiveWeights(symbols, raw) ==> 0.0 < PositiveWeights(symbols, raw)[s] && s in symbols
  {
    if symbols != [] && raw != [] {
      PositiveWeightsPositive(symbols[1..], raw[1..]);
    }
  }

  lemma MinimumVariancePositive(ctx: RiskContext, num: Numerics)
    ensures NonNegativeBook(MinimumVariance(ctx, num))
  {
    var symbols := SortedKeys(ctx.universe * ctx.covariance.Keys);
    if symbols != [] {
      match num.minimumVariance(Matrix(symbols, ctx.covariance))
      case None =>
      case Some(raw) => PositiveWeightsPositive(symbols, raw);
    }
  }

  // ----- per-name repairs

  lemma NameRepairsOk(w: Weights, ctx: RiskContext, policy: InvestmentPolicy)
    requires policy.Constructible()
    ensures NamesOk(NameRepairs(w, ctx, policy).0, ctx, policy, 0.0)
         && (forall s :: s in NameRepairs(w, ctx, policy).0 ==> !IsBlocked(s, ctx))
    ensures policy.longOnly || NonNegativeBook(w) ==> NonNegativeBook(NameRepairs(w, ctx, policy).0)
  {
    hide LoggedOver;
  }

  lemma {:induction false} LoggedExactly(ks: seq<string>, touched: string -> bool, code: ReasonCode, r: Repair)
    ensures r in Logged(ks, touched, code) <==> r.code == code && r.symbol.Some? && r.symbol.value in ks && touched(r.symbol.value)
  {
    if ks != [] {
      var front, s := ks[..|ks| - 1], ks[|ks| - 1];
      LoggedExactly(front, touched, code, r);
      assert forall k :: k in ks <==> k in front || k == s by { assert ks == front + [s]; }
    }
  }

  lemma LoggedOverExactly(w: Weights, touched: string -> bool, code: ReasonCode, r: Repair)
    ensures r in LoggedOver(w, touched, code) <==> r.code == code && r.symbol.Some? && r.symbol.value in w && touched(r.symbol.value)
  {
    LoggedExactly(SortedKeys(w.Keys), touched, code, r);
  }

  /** What the four per-name loops decide for one name, as one decision: the first reason
      that applies is the one recorded. */
  predicate NameOutcome(w: Weights, s: string, ctx: RiskContext, policy: InvestmentPolicy, kept: Weights, reason: Option<ReasonCode>) {
    if s !in w then s !in kept && reason == None
    else if s !in ctx.universe then s !in kept && reason == Some(UniverseWhitelist)
    else if s in ctx.blockedUntil && ctx.asOf < ctx.blockedUntil[s] then s !in kept && reason == Some(WashSaleWindow)
    else if policy.longOnly && w[s] < 0.0 then s !in kept && reason == Some(NoShorting)
    else
      && s in kept && kept[s] == Min(w[s], policy.maxPositionWeight)
      && reason == if w[s] > policy.maxPositionWeight then Some(MaxPositionWeight) else None
  }

  /** Four loops, one decision a name: each name is dropped, capped or left alone for the
      first reason that applies to it, and exactly that reason is logged for it. */
  lemma NameRepairsExactly(w: Weights, ctx: RiskContext, policy: InvestmentPolicy, s: string) returns (reason: Option<ReasonCode>)
    ensures NameOutcome(w, s, ctx, policy, NameRepairs(w, ctx, policy).0, reason)
    ensures forall r :: r in NameRepairs(w, ctx, policy).1 && r.symbol == Some(s) <==> reason.Some? && r == Repair(reason.value, Some(s))
  {
    hide LoggedOver;
    var listed := Keeping(w, Uninvestable(ctx));
    var free := Keeping(listed, Blocked(ctx));
    var long := if policy.longOnly then Keeping(free, Short(free)) else free;
    reason :=
      if s !in w then None
      else if s !in ctx.universe then Some(UniverseWhitelist)
      else if IsBlocked(s, ctx) then Some(WashSaleWindow)
      else if policy.longOnly && w[s] < 0.0 then Some(NoShorting)
      else if w[s] > policy.maxPositionWeight then Some(MaxPositionWeight) else None;
    forall r: Repair | r.symbol == Some(s)
      ensures r in NameRepairs(w, ctx, policy).1 <==> reason.Some? && r == Repair(reason.value, Some(s))
    {
      LoggedOverExactly(w, Uninvestable(ctx), UniverseWhitelist, r);
      LoggedOverExactly(listed, Blocked(ctx), WashSaleWindow, r);
      LoggedOverExactly(free, Short(free), NoShorting, r);
      LoggedOverExactly(long, Above(long, policy.maxPositionWeight), MaxPositionWeight, r);
    }
  }

  // ----- sector caps

  lemma FactorBounds(exposure: real, policy: InvestmentPolicy)
    requires policy.Constructible()
    ensures 0.0 <= SectorFactor(exposure, policy) <= 1.0
    ensures exposure * SectorFactor(exposure, policy) <= policy.maxSectorWeight
  {
    RatioBounds(policy.maxSectorWeight, exposure);
    RatioWorks(policy.maxSectorWeight, exposure, Ratio(policy.maxSectorWeight, exposure));
  }

  /** Scaling one sector leaves every other alone: each exposure ends at exactly its own
      factor times what it was. */
  lemma SectorsDoNotInterfere(w: Weights, ctx: RiskContext, policy: InvestmentPolicy, sector: string)
    ensures SectorExposure(SectorScaled(w, ctx, policy), ctx.sectors, sector)
            == SectorExposure(w, ctx.sectors, sector) * SectorFactor(SectorExposure(w, ctx.sectors, sector), policy)
  {
    hide Sum, SectorFactor;
    var z := SectorScaled(w, ctx, policy);
    var members := SectorMembers(w, ctx.sectors, sector);
    assert SectorMembers(z, ctx.sectors, sector) == members;
    SumScaled(members, SectorFactor(SectorExposure(w, ctx.sectors, sector), policy), Entry(w), Entry(z));
  }

  lemma ShrinkName(x: real, f: real, cap: real)
    requires 0.0 <= f <= 1.0 && 0.0 <= cap && x <= cap
    ensures f * x <= cap && (0.0 <= x ==> 0.0 <= f * x)
  {
    if 0.0 <= x {
      NonNegative(f, x);
      NonNegative(1.0 - f, x);
    } else {
      NonNegative(f, -x);
    }
  }

  lemma SectorScaledOk(w: Weights, ctx: RiskContext, policy: InvestmentPolicy)
    requires policy.Constructible()
    requires NamesOk(w, ctx, policy, 0.0) && forall s :: s in w ==> !IsBlocked(s, ctx)
    ensures NamesOk(SectorScaled(w, ctx, policy), ctx, policy, 0.0) && SectorsOk(SectorScaled(w, ctx, policy), ctx, policy, 0.0)
    ensures NonNegativeBook(w) ==> NonNegativeBook(SectorScaled(w, ctx, policy))
  {
    hide SectorExposure, SectorFactor;
    var z := SectorScaled(w, ctx, policy);
    forall s | s in z
      ensures NameOk(s, z[s], ctx, policy, 0.0)
      ensures 0.0 <= w[s] ==> 0.0 <= z[s]
      ensures SectorExposure(z, ctx.sectors, SectorOf(s, ctx.sectors)) <= policy.maxSectorWeight
    {
      var sector := SectorOf(s, ctx.sectors);
      var exposure := SectorExposure(w, ctx.sectors, sector);
      FactorBounds(exposure, policy);
      SectorsDoNotInterfere(w, ctx, policy, sector);
      assert NameOk(s, w[s], ctx, policy, 0.0);
      ShrinkName(w[s], SectorFactor(exposure, policy), policy.maxPositionWeight);
      assert z[s] == w[s] * SectorFactor(exposure, policy);
    }
  }

  // ----- the uniform scale

  lemma RatioBounds(limit: real, measured: real)
    requires 0.0 <= limit
    ensures 0.0 <= Ratio(limit, measured) <= 1.0
  {
  }

  lemma RatioWorks(limit: real, measured: real, f: real)
    requires 0.0 <= limit && 0.0 <= f <= Ratio(limit, measured)
    ensures f * measured <= limit
  {
    RatioBounds(limit, measured);
    if measured <= 0.0 {
      NonNegative(f, -measured);
    } else if measured <= limit {
      NonNegative(1.0 - f, measured);
    } else {
      NonNegative(limit / measured - f, measured);
      assert limit / measured * measured == limit;
    }
  }

  lemma CeilingBounds(ctx: RiskContext, policy: InvestmentPolicy, num: Numerics)
    requires policy.NonNegativeCeilings()
    ensures 0.0 <= VolatilityCeiling(ctx, policy, num) <= policy.maxAnnualizedVolatility
  {
    hide Variance;
  }

  lemma UniformFactorBounds(w: Weights, ctx: RiskContext, policy: InvestmentPolicy, num: Numerics)
    requires policy.Constructible() && policy.NonNegativeCeilings()
    ensures var f := UniformFactor(w, ctx, policy, num);
      && 0.0 <= f <= 1.0
      && (0.0 < Total(w) ==>
            && f <= Ratio(policy.EffectiveExposureCeiling(), Total(w))
            && f <= Ratio(policy.maxPortfolioBeta, PortfolioBeta(w, ctx.betas))
            && f <= Ratio(VolatilityCeiling(ctx, policy, num), PortfolioVolatility(w, ctx.covariance, num)))
  {
    hide Total, Dot, Variance, VolatilityCeiling, Ratio;
    CeilingBounds(ctx, policy, num);
    RatioBounds(policy.EffectiveExposureCeiling(), Total(w));
    RatioBounds(policy.maxPortfolioBeta, PortfolioBeta(w, ctx.betas));
    RatioBounds(VolatilityCeiling(ctx, policy, num), PortfolioVolatility(w, ctx.covariance, num));
  }

  lemma ScaleByOne(w: Weights)
    ensures Scale(1.0, w) == w
  {
  }

  lemma UniformlyScaledIsScale(w: Weights, ctx: RiskContext, policy: InvestmentPolicy, num: Numerics)
    requires policy.Constructible() && policy.NonNegativeCeilings()
    ensures UniformlyScaled(w, ctx, policy, num) == Scale(UniformFactor(w, ctx, policy, num), w)
  {
    hide UniformFactor, Ratio, Total, PortfolioBeta, PortfolioVolatility, VolatilityCeiling, Scale;
    UniformFactorBounds(w, ctx, policy, num);
    ScaleByOne(w);
  }

  lemma VolatilityScaled(w: Weights, c: Covariance, num: Numerics, f: real, ceiling: real)
    requires num.ExactRoot() && 0.0 <= f && 0.0 <= ceiling
    requires f * PortfolioVolatility(w, c, num) <= ceiling
    ensures PortfolioVolatility(Scale(f, w), c, num) <= ceiling
  {
    hide Variance;
    var v, r := Variance(w, c), PortfolioVolatility(w, c, num);
    VarianceScale(f, w, c);
    VolatilityAtMost(Scale(f, w), c, num, ceiling);
    NonNegative(ceiling, ceiling);
    NonNegative(f, f);
    if v <= 0.0 {
      NonNegative(f * f, -v);
    } else {
      NonNegative(f, r);
      SquareOrder(f * r, ceiling);
      Regroup(f, r, v);
    }
  }

  lemma Regroup(f: real, r: real, v: real)
    requires r * r == v
    ensures (f * r) * (f * r) == (f * f) * v
  {
    assert (f * r) * (f * r) == (f * f) * (r * r);
  }

  /** A book with no exposure and nothing short holds nothing at all. */
  lemma EmptyExposure(w: Weights, ctx: RiskContext, num: Numerics)
    requires NonNegativeBook(w) && Total(w) <= 0.0
    ensures PortfolioBeta(w, ctx.betas) == 0.0 && PortfolioVolatility(w, ctx.covariance, num) == 0.0
  {
    hide Sum;
    forall s | s in w ensures w[s] == 0.0 {
      SumAtLeastOne(w.Keys, s, Entry(w));
    }
    SumZero(w.Keys, Product(Entry(w), Entry(ctx.betas)));
    forall a ensures RowSum(w.Keys, Entry(w), Entry(w), ctx.covariance)(a) == 0.0 {
      SumZero(w.Keys, CellProduct(Entry(w), Entry(w), ctx.covariance, a));
    }
    SumZero(w.Keys, RowSum(w.Keys, Entry(w), Entry(w), ctx.covariance));
  }

  /** With exposure to scale, one uniform factor meets all the book-level limits at once. */
  lemma UniformScaleWorks(w: Weights, ctx: RiskContext, policy: InvestmentPolicy, num: Numerics)
    requires policy.Constructible() && policy.NonNegativeCeilings() && num.ExactRoot()
    requires 0.0 < Total(w)
    ensures BookOk(UniformlyScaled(w, ctx, policy, num), ctx, policy, num, 0.0)
    ensures PortfolioVolatility(UniformlyScaled(w, ctx, policy, num), ctx.covariance, num) <= VolatilityCeiling(ctx, policy, num)
  {
    hide Total, Dot, Variance, VolatilityCeiling, Ratio, UniformFactor, PortfolioVolatility;
    var f := UniformFactor(w, ctx, policy, num);
    UniformFactorBounds(w, ctx, policy, num);
    UniformlyScaledIsScale(w, ctx, policy, num);
    CeilingBounds(ctx, policy, num);
    TotalScale(f, w);
    DotScale(f, w, ctx.betas);
    RatioWorks(policy.EffectiveExposureCeiling(), Total(w), f);
    RatioWorks(policy.maxPortfolioBeta, PortfolioBeta(w, ctx.betas), f);
    RatioWorks(VolatilityCeiling(ctx, policy, num), PortfolioVolatility(w, ctx.covariance, num), f);
    VolatilityScaled(w, ctx.covariance, num, f, VolatilityCeiling(ctx, policy, num));
  }

  lemma SectorScale(w: Weights, f: real, sectors: map<string, string>, sector: string)
    ensures SectorExposure(Scale(f, w), sectors, sector) == f * SectorExposure(w, sectors, sector)
  {
    hide Sum;
    var members := SectorMembers(w, sectors, sector);
    assert SectorMembers(Scale(f, w), sectors, sector) == members;
    SumScaled(members, f, Entry(w), Entry(Scale(f, w)));
  }

  lemma ScaleNameOk(s: string, x: real, f: real, fx: real, ctx: RiskContext, policy: InvestmentPolicy)
    requires policy.Constructible() && 0.0 <= f <= 1.0 && fx == f * x
    requires NameOk(s, x, ctx, policy, 0.0)
    ensures NameOk(s, fx, ctx, policy, 0.0) && (0.0 <= x ==> 0.0 <= fx)
  {
    ShrinkName(x, f, policy.maxPositionWeight);
    if IsBlocked(s, ctx) { ShrinkName(x, f, 0.0); }
  }

  lemma ScaleNamesOk(w: Weights, f: real, ctx: RiskContext, policy: InvestmentPolicy)
    requires policy.Constructible() && 0.0 <= f <= 1.0
    requires NamesOk(w, ctx, policy, 0.0) && SectorsOk(w, ctx, policy, 0.0)
    ensures NamesOk(Scale(f, w), ctx, policy, 0.0) && SectorsOk(Scale(f, w), ctx, policy, 0.0)
    ensures NonNegativeBook(w) ==> NonNegativeBook(Scale(f, w))
  {
    hide SectorExposure, NameOk;
    var z := Scale(f, w);
    forall s | s in z
      ensures NameOk(s, z[s], ctx, policy, 0.0)
      ensures 0.0 <= w[s] ==> 0.0 <= z[s]
      ensures SectorExposure(z, ctx.sectors, SectorOf(s, ctx.sectors)) <= policy.maxSectorWeight
    {
      assert NameOk(s, w[s], ctx, policy, 0.0);
      ScaleNameOk(s, w[s], f, z[s], ctx, policy);
      SectorScale(w, f, ctx.sectors, SectorOf(s, ctx.sectors));
      ShrinkName(SectorExposure(w, ctx.sectors, SectorOf(s, ctx.sectors)), f, policy.maxSectorWeight);
    }
  }

  lemma UniformNamesOk(w: Weights, ctx: RiskContext, policy: InvestmentPolicy, num: Numerics)
    requires policy.Constructible() && policy.NonNegativeCeilings()
    requires NamesOk(w, ctx, policy, 0.0) && SectorsOk(w, ctx, policy, 0.0)
    ensures NamesOk(UniformlyScaled(w, ctx, policy, num), ctx, policy, 0.0)
    ensures SectorsOk(UniformlyScaled(w, ctx, policy, num), ctx, policy, 0.0)
    ensures NonNegativeBook(w) ==> NonNegativeBook(UniformlyScaled(w, ctx, policy, num))
  {
    hide NamesOk, SectorsOk, UniformFactor;
    UniformFactorBounds(w, ctx, policy, num);
    UniformlyScaledIsScale(w, ctx, policy, num);
    ScaleNamesOk(w, UniformFactor(w, ctx, policy, num), ctx, policy);
  }

  // ----- the whole target

  function SectorCapped(proposed: Weights, ctx: RiskContext, policy: InvestmentPolicy, num: Numerics): Weights {
    SectorScaled(NameRepairs(Start(proposed, ctx, policy, num), ctx, policy).0, ctx, policy)
  }

  lemma SectorCappedOk(proposed: Weights, ctx: RiskContext, policy: InvestmentPolicy, num: Numerics)
    requires policy.Constructible()
    ensures NamesOk(SectorCapped(proposed, ctx, policy, num), ctx, policy, 0.0)
    ensures SectorsOk(SectorCapped(proposed, ctx, policy, num), ctx, policy, 0.0)
    ensures policy.longOnly || BreakerTripped(ctx, policy) ==> NonNegativeBook(SectorCapped(proposed, ctx, policy, num))
  {
    hide NameRepairs, SectorScaled, MinimumVariance;
    MinimumVariancePositive(ctx, num);
    var start := Start(proposed, ctx, policy, num);
    NameRepairsOk(start, ctx, policy);
    SectorScaledOk(NameRepairs(start, ctx, policy).0, ctx, policy);
  }

  /** The repaired target meets every limit, with no tolerance, if and only if there was
      exposure left to scale or the balanced book already met the beta and volatility
      ceilings. A long-only policy always meets that condition: see TargetMeetsLimits. */
  lemma TargetMeetsLimitsExactly(proposed: Weights, ctx: RiskContext, policy: InvestmentPolicy, num: Numerics)
    requires policy.Constructible() && policy.NonNegativeCeilings() && num.ExactRoot()
    ensures var b := SectorCapped(proposed, ctx, policy, num);
      Complies(Target(proposed, ctx, policy, num).0, ctx, policy, num, 0.0)
      <==> (0.0 < Total(b)
            || (PortfolioBeta(b, ctx.betas) <= policy.maxPortfolioBeta
                && PortfolioVolatility(b, ctx.covariance, num) <= policy.maxAnnualizedVolatility))
  {
    hide Total, Dot, Variance, NamesOk, SectorsOk, Start, NameRepairs, SectorScaled, PortfolioVolatility, VolatilityCeiling;
    var b := SectorCapped(proposed, ctx, policy, num);
    SectorCappedOk(proposed, ctx, policy, num);
    UniformNamesOk(b, ctx, policy, num);
    if 0.0 < Total(b) {
      UniformScaleWorks(b, ctx, policy, num);
    }
  }

  /** Long-only, or past the breaker, the repairs always leave a book within every limit. */
  lemma TargetMeetsLimits(proposed: Weights, ctx: RiskContext, policy: InvestmentPolicy, num: Numerics)
    requires policy.Constructible() && policy.NonNegativeCeilings() && num.ExactRoot()
    requires policy.longOnly || BreakerTripped(ctx, policy)
    ensures Complies(Target(proposed, ctx, policy, num).0, ctx, policy, num, 0.0)
    ensures NonNegativeBook(Target(proposed, ctx, policy, num).0)
  {
    hide Total, Dot, Variance, NamesOk, SectorsOk, Complies, Start, NameRepairs, SectorScaled, PortfolioVolatility, UniformlyScaled;
    var b := SectorCapped(proposed, ctx, policy, num);
    TargetMeetsLimitsExactly(proposed, ctx, policy, num);
    SectorCappedOk(proposed, ctx, policy, num);
    UniformNamesOk(b, ctx, policy, num);
    if Total(b) <= 0.0 { EmptyExposure(b, ctx, num); }
  }
}
